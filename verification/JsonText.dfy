/** The JSON text that typed collections are printed as, read back: a reader of lists of strings, and of lists of such
    lists, undoes the printer. */
module JsonText {
  import opened Wrappers
  import opened Codec
  import opened Annotate

  /** What is read, and the text behind it. */
  datatype Read<T> = Read(value: T, rest: string)

  /** The characters of a JSON string up to its closing quote. */
  function ReadChars(s: string): Option<Read<string>> {
    if s == "" then None
    else if s[0] == '"' then Some(Read("", s[1..]))
    else if s[0] == '\\' then
      if |s| < 2 || (s[1] != '"' && s[1] != '\\') || ReadChars(s[2..]).None? then None
      else var more := ReadChars(s[2..]).value; Some(Read([s[1]] + more.value, more.rest))
    else if ReadChars(s[1..]).None? then None
    else var more := ReadChars(s[1..]).value; Some(Read([s[0]] + more.value, more.rest))
  }

  function ReadString(s: string): Option<Read<string>> {
    if s != "" && s[0] == '"' then ReadChars(s[1..]) else None
  }

  /** Strings with commas between them, up to the closing bracket. */
  function ReadStrings(s: string): Option<Read<seq<string>>>
    decreases |s|
  {
    match ReadString(s)
    case None => None
    case Some(Read(first, rest)) =>
      if |rest| >= |s| || rest == "" then None
      else if rest[0] == ']' then Some(Read([first], rest[1..]))
      else if rest[0] != ',' then None
      else
        match ReadStrings(rest[1..])
        case None => None
        case Some(more) => Some(Read([first] + more.value, more.rest))
  }

  function ReadList(s: string): Option<Read<seq<string>>> {
    if s == "" || s[0] != '[' then None
    else if s[1..] != "" && s[1] == ']' then Some(Read([], s[2..]))
    else ReadStrings(s[1..])
  }

  /** Lists of strings with commas between them, up to the closing bracket. */
  function ReadLists(s: string): Option<Read<seq<seq<string>>>>
    decreases |s|
  {
    match ReadList(s)
    case None => None
    case Some(Read(first, rest)) =>
      if |rest| >= |s| || rest == "" then None
      else if rest[0] == ']' then Some(Read([first], rest[1..]))
      else if rest[0] != ',' then None
      else
        match ReadLists(rest[1..])
        case None => None
        case Some(more) => Some(Read([first] + more.value, more.rest))
  }

  function ReadTable(s: string): Option<Read<seq<seq<string>>>> {
    if s == "" || s[0] != '[' then None
    else if s[1..] != "" && s[1] == ']' then Some(Read([], s[2..]))
    else ReadLists(s[1..])
  }

  function Texts(specs: seq<Spec>): (texts: seq<string>)
    ensures |texts| == |specs| && forall i | 0 <= i < |specs| :: texts[i] == TextOf(specs[i])
  {
    seq(|specs|, i requires 0 <= i < |specs| => TextOf(specs[i]))
  }

  function Rows(pairs: seq<(Spec, Spec)>): (rows: seq<seq<string>>)
    ensures |rows| == |pairs|
    ensures forall i | 0 <= i < |pairs| :: rows[i] == [TextOf(pairs[i].0), TextOf(pairs[i].1)]
  {
    seq(|pairs|, i requires 0 <= i < |pairs| => [TextOf(pairs[i].0), TextOf(pairs[i].1)])
  }

  // ---- reading undoes printing -------------------------------------------------------------------

  lemma {:induction false} CharsReadBack(text: string, rest: string)
    ensures ReadChars(Escape(text) + ['"'] + rest) == Some(Read(text, rest))
  {
    hide ReadChars;
    var s := Escape(text) + ['"'] + rest;
    if text != "" {
      var more := Escape(text[1..]) + ['"'] + rest;
      CharsReadBack(text[1..], rest);
      assert text == [text[0]] + text[1..];
      if text[0] == '"' || text[0] == '\\' {
        assert s == ['\\', text[0]] + more;
      } else {
        assert s == [text[0]] + more;
      }
      OneCharReads(text[0], more);
    } else {
      assert s == ['"'] + rest;
      NoCharReads(rest);
    }
  }

  lemma OneCharReads(c: char, more: string)
    requires ReadChars(more).Some?
    ensures var read := Some(Read([c] + ReadChars(more).value.value, ReadChars(more).value.rest));
            if c == '"' || c == '\\' then ReadChars(['\\', c] + more) == read else ReadChars([c] + more) == read
  {
    assert (['\\', c] + more)[2..] == more && ([c] + more)[1..] == more;
  }

  lemma NoCharReads(rest: string)
    ensures ReadChars(['"'] + rest) == Some(Read("", rest))
  {
    assert (['"'] + rest)[1..] == rest;
  }

  lemma StringReadsBack(spec: Spec, rest: string)
    ensures ReadString(Quote(spec) + rest) == Some(Read(TextOf(spec), rest))
  {
    hide Escape, TextOf, ReadChars;
    var s := Quote(spec) + rest;
    CharsReadBack(TextOf(spec), rest);
    assert s[0] == '"' && s[1..] == Escape(TextOf(spec)) + ['"'] + rest;
  }

  lemma {:induction false} StringsReadBack(specs: seq<Spec>, rest: string)
    requires specs != []
    ensures ReadStrings(QuoteAll(specs) + "]" + rest) == Some(Read(Texts(specs), rest))
  {
    hide Quote, TextOf, ReadString;
    var s := QuoteAll(specs) + "]" + rest;
    if |specs| == 1 {
      var after := "]" + rest;
      assert s == Quote(specs[0]) + after && after[1..] == rest;
      StringReadsBack(specs[0], after);
      QuotesTakeRoom(specs[0]);
      assert Texts(specs) == [TextOf(specs[0])];
    } else {
      var more := QuoteAll(specs[1..]) + "]" + rest;
      var after := "," + more;
      assert s == Quote(specs[0]) + after && after[1..] == more;
      StringReadsBack(specs[0], after);
      QuotesTakeRoom(specs[0]);
      StringsReadBack(specs[1..], rest);
      assert Texts(specs) == [TextOf(specs[0])] + Texts(specs[1..]);
    }
  }

  lemma QuotesTakeRoom(spec: Spec)
    ensures Quote(spec) != "" && Quote(spec)[0] == '"'
  {
  }

  /** The text of a marshalled list, followed by anything, reads back as the texts of its elements. */
  lemma ListsReadBack(specs: seq<Spec>, rest: string)
    ensures ReadList(Marshal(specs).raw + rest) == Some(Read(Texts(specs), rest))
    ensures TextOf(Marshal(specs)) == Marshal(specs).raw
  {
    hide Quote, ReadStrings, QuoteAll;
    var inner := QuoteAll(specs) + "]" + rest;
    var s := Marshal(specs).raw + rest;
    assert "" + Marshal(specs).raw + "" == Marshal(specs).raw;
    assert s == "[" + inner && s[1..] == inner;
    FirstQuote(specs);
    if specs == [] {
      assert inner[0] == ']' && s[2..] == inner[1..] == rest;
    } else {
      StringsReadBack(specs, rest);
    }
  }

  lemma FirstQuote(specs: seq<Spec>)
    ensures specs == [] ==> QuoteAll(specs) == ""
    ensures specs != [] ==> QuoteAll(specs) != "" && QuoteAll(specs)[0] == '"'
  {
    hide Escape;
  }

  lemma {:induction false} RowsReadBack(pairs: seq<(Spec, Spec)>, rest: string)
    requires pairs != []
    ensures ReadLists(QuotePairs(pairs) + "]" + rest) == Some(Read(Rows(pairs), rest))
  {
    hide TextOf, ReadList, ReadLists, QuotePairs, Marshal;
    var s := QuotePairs(pairs) + "]" + rest;
    var row := [pairs[0].0, pairs[0].1];
    PrintedRows(pairs);
    var printed := Marshal(row).raw;
    assert Texts(row) == [TextOf(pairs[0].0), TextOf(pairs[0].1)];
    if |pairs| == 1 {
      assert s == printed + ("]" + rest);
      ListsReadBack(row, "]" + rest);
      LastRow(s, Texts(row), rest);
      assert Rows(pairs) == [Texts(row)];
    } else {
      var more := QuotePairs(pairs[1..]) + "]" + rest;
      assert s == printed + ("," + more);
      ListsReadBack(row, "," + more);
      RowsReadBack(pairs[1..], rest);
      NextRow(s, Texts(row), more, Rows(pairs[1..]), rest);
      assert Rows(pairs) == [Texts(row)] + Rows(pairs[1..]);
    }
  }

  lemma LastRow(s: string, row: seq<string>, rest: string)
    requires ReadList(s) == Some(Read(row, "]" + rest)) && |s| > |rest| + 1
    ensures ReadLists(s) == Some(Read([row], rest))
  {
    hide ReadList;
    assert ("]" + rest)[1..] == rest;
  }

  lemma NextRow(s: string, row: seq<string>, more: string, rows: seq<seq<string>>, rest: string)
    requires ReadList(s) == Some(Read(row, "," + more)) && |s| > |more| + 1
    requires ReadLists(more) == Some(Read(rows, rest))
    ensures ReadLists(s) == Some(Read([row] + rows, rest))
  {
    hide ReadList;
    assert ("," + more)[1..] == more;
  }

  /** A pair is printed as the list of its halves. */
  lemma PrintedRows(pairs: seq<(Spec, Spec)>)
    requires pairs != []
    ensures var list := Marshal([pairs[0].0, pairs[0].1]);
            && list.Array? && list.raw != ""
            && QuotePairs(pairs) == list.raw + (if |pairs| == 1 then "" else "," + QuotePairs(pairs[1..]))
  {
    hide Quote;
    PrintedRow(pairs[0].0, pairs[0].1);
  }

  lemma PrintedRow(a: Spec, b: Spec)
    ensures Marshal([a, b]).raw == "[" + Quote(a) + "," + Quote(b) + "]"
  {
    hide Quote;
    assert [a, b][1..] == [b];
    assert QuoteAll([b]) == Quote(b) + "";
    assert QuoteAll([a, b]) == Quote(a) + ("," + QuoteAll([b]));
  }

  /** The same for a marshalled list of pairs. */
  lemma TablesReadBack(pairs: seq<(Spec, Spec)>, rest: string)
    ensures ReadTable(MarshalPairs(pairs).raw + rest) == Some(Read(Rows(pairs), rest))
    ensures TextOf(MarshalPairs(pairs)) == MarshalPairs(pairs).raw
  {
    hide Quote, ReadLists;
    var s := "[" + QuotePairs(pairs) + "]" + rest;
    assert "" + MarshalPairs(pairs).raw + "" == MarshalPairs(pairs).raw;
    if pairs == [] {
      assert s == "[]" + rest && s[2..] == rest && s[1..] != "";
    } else {
      RowsReadBack(pairs, rest);
      assert s[1..] == QuotePairs(pairs) + "]" + rest;
      assert QuotePairs(pairs)[0] == '[';
    }
  }
}
