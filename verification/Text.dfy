/** The parts of Go's strings package that the argument syntax relies on. */
module Text {

  /** unicode.IsSpace, which strings.TrimSpace uses. */
  predicate IsSpace(c: char) {
    || '\t' <= c <= '\r' || c == ' ' || c == '\U{85}' || c == '\U{A0}' || c == '\U{1680}'
    || '\U{2000}' <= c <= '\U{200A}' || c == '\U{2028}' || c == '\U{2029}' || c == '\U{202F}'
    || c == '\U{205F}' || c == '\U{3000}'
  }

  /** The whitespace that JSON (RFC 8259, section 2) allows around a value: a strict subset of IsSpace. */
  predicate IsJsonSpace(c: char) {
    c in " \t\r\n"
  }

  predicate AllSpace(s: string) {
    forall i | 0 <= i < |s| :: IsSpace(s[i])
  }

  function TrimLeft(s: string): string {
    if s != "" && IsSpace(s[0]) then TrimLeft(s[1..]) else s
  }

  function TrimRight(s: string): string {
    if s != "" && IsSpace(s[|s| - 1]) then TrimRight(s[..|s| - 1]) else s
  }

  function TrimSpace(s: string): string {
    TrimRight(TrimLeft(s))
  }

  /** strings.Index for a single character; -1 when it does not occur. */
  function Index(s: string, c: char): (i: int)
    ensures -1 <= i < |s|
    ensures i >= 0 ==> s[i] == c && c !in s[..i]
    ensures i < 0 <==> c !in s
  {
    IndexFrom(s, c, 0)
  }

  function IndexFrom(s: string, c: char, k: nat): (i: int)
    requires k <= |s|
    ensures i == -1 || k <= i < |s|
    ensures i >= 0 ==> s[i] == c
    ensures forall j | k <= j < (if i < 0 then |s| else i) :: s[j] != c
    decreases |s| - k
  {
    if k == |s| then -1 else if s[k] == c then k else IndexFrom(s, c, k + 1)
  }

  lemma IndexIsFirst(before: string, c: char, after: string)
    requires c !in before
    ensures Index(before + [c] + after, c) == |before|
  {
    var s := before + [c] + after;
    assert forall j | 0 <= j < |before| :: s[j] == before[j];
    assert s[|before|] == c;
    assert forall k | |before| < k <= |s| :: s[..k][|before|] == c;
  }

  /** strings.ToLower on one character. Outside ASCII only the two characters whose lower case is an
      ASCII letter are mapped; every other one stays outside ASCII, which is all the callers look at. */
  function LowerChar(c: char): char {
    if 'A' <= c <= 'Z' then ((c as int) - ('A' as int) + ('a' as int)) as char
    else if c == '\U{130}' then 'i'
    else if c == '\U{212A}' then 'k'
    else c
  }

  function ToLower(s: string): (r: string)
    ensures |r| == |s| && forall i | 0 <= i < |s| :: r[i] == LowerChar(s[i])
  {
    seq(|s|, i requires 0 <= i < |s| => LowerChar(s[i]))
  }

  predicate HasPrefix(s: string, p: string) {
    p <= s
  }

  /** Nothing to trim. */
  predicate Solid(s: string) {
    s == "" || (!IsSpace(s[0]) && !IsSpace(s[|s| - 1]))
  }

  /** Trimming takes the whitespace around a text, and only that, and all of it. */
  lemma TrimmedExactly(s: string, t: string)
    ensures TrimSpace(s) == t <==>
            Solid(t) && exists pre, post :: AllSpace(pre) && AllSpace(post) && s == pre + t + post
  {
    hide IsSpace, TrimLeft, TrimRight;
    var pre := LeftSpace(s);
    var post := RightSpace(TrimLeft(s));
    assert s == pre + TrimSpace(s) + post;
    SolidTrim(s);
    forall pre, post | AllSpace(pre) && AllSpace(post) && s == pre + t + post && Solid(t)
      ensures TrimSpace(s) == t
    {
      assert pre + t + post == pre + (t + post);
      TrimLeftOf(pre, t + post);
      if t == "" {
        assert t + post == post + "" && t + post == "" + post;
        TrimLeftOf(post, "");
        TrimNothing();
      } else {
        SolidLeft(t + post);
        TrimRightOf(t, post);
      }
    }
  }

  lemma TrimNothing()
    ensures TrimLeft("") == "" && TrimRight("") == ""
  {
  }

  lemma {:induction false} LeftSpace(s: string) returns (pre: string)
    ensures AllSpace(pre) && s == pre + TrimLeft(s)
    ensures TrimLeft(s) != "" ==> !IsSpace(TrimLeft(s)[0])
  {
    pre := "";
    if s != "" && IsSpace(s[0]) {
      var more := LeftSpace(s[1..]);
      pre := [s[0]] + more;
    }
  }

  lemma {:induction false} RightSpace(s: string) returns (post: string)
    ensures AllSpace(post) && s == TrimRight(s) + post
    ensures TrimRight(s) != "" ==> !IsSpace(TrimRight(s)[|TrimRight(s)| - 1])
  {
    post := "";
    if s != "" && IsSpace(s[|s| - 1]) {
      var more := RightSpace(s[..|s| - 1]);
      post := more + [s[|s| - 1]];
    }
  }

  lemma SolidTrim(s: string)
    ensures Solid(TrimSpace(s))
  {
    hide TrimLeft, TrimRight;
    var pre := LeftSpace(s);
    var post := RightSpace(TrimLeft(s));
    assert TrimSpace(s) != "" ==> TrimSpace(s)[0] == TrimLeft(s)[0];
  }

  lemma {:induction false} TrimLeftOf(pre: string, s: string)
    requires AllSpace(pre)
    ensures TrimLeft(pre + s) == TrimLeft(s)
  {
    if pre != "" {
      assert (pre + s)[1..] == pre[1..] + s;
      TrimLeftOf(pre[1..], s);
    } else {
      assert pre + s == s;
    }
  }

  lemma SolidLeft(s: string)
    requires s != "" && !IsSpace(s[0])
    ensures TrimLeft(s) == s
  {
  }

  lemma {:induction false} TrimRightOf(s: string, post: string)
    requires Solid(s) && AllSpace(post)
    ensures TrimRight(s + post) == s
  {
    if post != "" {
      var init := post[..|post| - 1];
      assert (s + post)[..|s + post| - 1] == s + init;
      TrimRightOf(s, init);
    } else {
      assert s + post == s;
    }
  }

  lemma TrimKeepsSolidText(s: string)
    requires s == "" || (!IsSpace(s[0]) && !IsSpace(s[|s| - 1]))
    ensures TrimSpace(s) == s
  {
  }
}
