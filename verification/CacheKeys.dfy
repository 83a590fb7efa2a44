/** inspectCacheKey (internal/probe/inspect_cache.go): which requests share a cached report. */
module CacheKeys {
  import opened Health
  import opened Inspect

  // ---- inspectCacheKey ------------------------------------------------------------------

  const NUL: char := '\0'

  function Durability(req: InspectRequest): string {
    if req.dataDurability == "" then PERSISTENT else req.dataDurability
  }

  /** Each part behind a separator. */
  function Separated(parts: seq<string>): string {
    if parts == [] then "" else Separated(parts[..|parts| - 1]) + [NUL] + parts[|parts| - 1]
  }

  function InspectCacheKey(req: InspectRequest): string {
    req.contractId + Separated([Durability(req)]) + Separated(req.dataKeys)
  }

  method InspectCacheKeyLoop(req: InspectRequest) returns (key: string)
    ensures key == InspectCacheKey(req)
  {
    key := req.contractId + [NUL] + Durability(req);
    assert [Durability(req)][..0] == [] && Separated([Durability(req)]) == [] + [NUL] + Durability(req);
    assert key == req.contractId + Separated([Durability(req)]);
    ghost var head := key;
    for i := 0 to |req.dataKeys|
      invariant key == head + Separated(req.dataKeys[..i])
    {
      assert req.dataKeys[..i + 1][..i] == req.dataKeys[..i];
      key := key + [NUL] + req.dataKeys[i];
    }
    assert req.dataKeys[..|req.dataKeys|] == req.dataKeys;
  }

  predicate NulFree(s: string) {
    NUL !in s
  }

  predicate AllNulFree(parts: seq<string>) {
    forall p | p in parts :: NulFree(p)
  }

  // ---- splitting a key at its separators --------------------------------------------------

  /** The text split at every separator: one piece more than it has separators. */
  function Pieces(s: string): (pieces: seq<string>)
    ensures pieces != []
  {
    if s == "" then [""]
    else
      var before, c := Pieces(s[..|s| - 1]), s[|s| - 1];
      if c == NUL then before + [""] else before[..|before| - 1] + [before[|before| - 1] + [c]]
  }

  function AllPieces(parts: seq<string>): seq<string> {
    if parts == [] then [] else AllPieces(parts[..|parts| - 1]) + Pieces(parts[|parts| - 1])
  }

  /** The contract, the durability and the data keys of a request, each split at its separators. */
  function PiecesOf(req: InspectRequest): seq<string> {
    Pieces(req.contractId) + AllPieces([Durability(req)] + req.dataKeys)
  }

  lemma {:induction false} PiecesAroundSeparator(u: string, p: string)
    ensures Pieces(u + [NUL] + p) == Pieces(u) + Pieces(p)
  {
    hide Pieces;
    PiecesOfMore(u, NUL);
    if p == "" {
      assert u + [NUL] + p == u + [NUL];
      NoPieces();
    } else {
      var p', c := p[..|p| - 1], p[|p| - 1];
      assert p == p' + [c] && u + [NUL] + p == u + [NUL] + p' + [c];
      PiecesAroundSeparator(u, p');
      PiecesOfMore(p', c);
      PiecesOfMore(u + [NUL] + p', c);
      LastOfConcat(Pieces(u), Pieces(p'));
    }
  }

  lemma NoPieces()
    ensures Pieces("") == [""]
  {
  }

  lemma PiecesOfMore(s: string, c: char)
    ensures Pieces(s + [c]) ==
            if c == NUL then Pieces(s) + [""] else Pieces(s)[..|Pieces(s)| - 1] + [Pieces(s)[|Pieces(s)| - 1] + [c]]
  {
    assert (s + [c])[..|s + [c]| - 1] == s;
  }

  lemma LastOfConcat(x: seq<string>, y: seq<string>)
    requires y != []
    ensures (x + y)[..|x + y| - 1] == x + y[..|y| - 1] && (x + y)[|x + y| - 1] == y[|y| - 1]
  {
  }

  lemma {:induction false} PiecesOfSeparated(a: string, x: seq<string>)
    ensures Pieces(a + Separated(x)) == Pieces(a) + AllPieces(x)
  {
    hide Pieces;
    if x == [] {
      assert a + "" == a;
    } else {
      var x', p := x[..|x| - 1], x[|x| - 1];
      Regroup(a, Separated(x'), p);
      PiecesAroundSeparator(a + Separated(x'), p);
      PiecesOfSeparated(a, x');
      assert Pieces(a) + AllPieces(x') + Pieces(p) == Pieces(a) + (AllPieces(x') + Pieces(p));
    }
  }

  lemma Regroup(a: string, u: string, p: string)
    ensures a + (u + [NUL] + p) == a + u + [NUL] + p
  {
  }

  /** A text is its pieces with a separator between them. */
  lemma {:induction false} PiecesJoin(s: string)
    ensures var ps := Pieces(s); ps[0] + Separated(ps[1..]) == s
  {
    var ps := Pieces(s);
    if s != "" {
      var before, c := Pieces(s[..|s| - 1]), s[|s| - 1];
      PiecesJoin(s[..|s| - 1]);
      assert s == s[..|s| - 1] + [c];
      if c == NUL {
        assert ps[1..] == before[1..] + [""];
        assert ps[1..][..|ps[1..]| - 1] == before[1..];
      } else if |before| > 1 {
        var init, last := before[1..][..|before| - 2], before[|before| - 1];
        assert ps[1..] == init + [last + [c]] && before[1..] == init + [last];
        assert ps[1..][..|before| - 2] == init;
      }
    }
  }

  lemma {:induction false} AllPiecesOfConcat(x: seq<string>, y: seq<string>)
    ensures AllPieces(x + y) == AllPieces(x) + AllPieces(y)
  {
    hide Pieces;
    if y == [] {
      assert x + y == x;
    } else {
      var init, last := y[..|y| - 1], Pieces(y[|y| - 1]);
      LastOfConcat(x, y);
      AllPiecesOfConcat(x, init);
      assert AllPieces(x) + AllPieces(init) + last == AllPieces(x) + (AllPieces(init) + last);
    }
  }

  /** A text is one piece exactly when no separator is in it. */
  lemma {:induction false} OnePiece(p: string)
    ensures |Pieces(p)| == 1 <==> NulFree(p)
    ensures NulFree(p) ==> Pieces(p) == [p]
  {
    if p != "" {
      OnePiece(p[..|p| - 1]);
      assert p == p[..|p| - 1] + [p[|p| - 1]];
    }
  }

  lemma {:induction false} PieceCount(parts: seq<string>)
    ensures |AllPieces(parts)| >= |parts|
    ensures |AllPieces(parts)| == |parts| <==> AllNulFree(parts)
    ensures AllNulFree(parts) ==> AllPieces(parts) == parts
  {
    if parts != [] {
      var init, last := parts[..|parts| - 1], parts[|parts| - 1];
      assert parts == init + [last];
      PieceCount(init);
      OnePiece(last);
    }
  }

  // ---- which requests share a key -----------------------------------------------------------

  lemma KeyAsOneList(req: InspectRequest)
    ensures InspectCacheKey(req) == req.contractId + Separated([Durability(req)] + req.dataKeys)
    ensures InspectCacheKey(req) != ""
  {
    SeparatedConcat([Durability(req)], req.dataKeys);
    SeparatorShows(req.contractId, [Durability(req)] + req.dataKeys);
    assert InspectCacheKey(req) == req.contractId + (Separated([Durability(req)]) + Separated(req.dataKeys));
  }

  lemma SeparatorShows(a: string, x: seq<string>)
    requires x != []
    ensures NUL in a + Separated(x)
  {
    var front := Separated(x[..|x| - 1]);
    assert (a + Separated(x))[|a| + |front|] == NUL;
  }

  lemma {:induction false} SeparatedConcat(x: seq<string>, y: seq<string>)
    ensures Separated(x + y) == Separated(x) + Separated(y)
  {
    if y == [] {
      assert x + y == x;
    } else {
      var y' := y[..|y| - 1];
      assert (x + y)[..|x + y| - 1] == x + y';
      SeparatedConcat(x, y');
    }
  }

  /** For any two requests: they share a key exactly when their parts, split at every separator, are one list. */
  lemma KeysAgreeExactly(a: InspectRequest, b: InspectRequest)
    ensures InspectCacheKey(a) == InspectCacheKey(b) <==> PiecesOf(a) == PiecesOf(b)
  {
    hide InspectCacheKey, Pieces, AllPieces, Separated;
    KeyPieces(a);
    KeyPieces(b);
    PiecesJoin(InspectCacheKey(a));
    PiecesJoin(InspectCacheKey(b));
  }

  lemma KeyPieces(req: InspectRequest)
    ensures Pieces(InspectCacheKey(req)) == PiecesOf(req)
  {
    KeyAsOneList(req);
    PiecesOfSeparated(req.contractId, [Durability(req)] + req.dataKeys);
  }

  /** The contract id and the durability have no separator in them: so it is for every id that parses and for
      the durabilities there are. */
  predicate NulFreeIds(req: InspectRequest) {
    NulFree(req.contractId) && NulFree(req.dataDurability)
  }

  predicate NulFreeRequest(req: InspectRequest) {
    NulFreeIds(req) && AllNulFree(req.dataKeys)
  }

  /** The requests ask for the same contract, durability and keys in the same order. */
  predicate SameQuestion(a: InspectRequest, b: InspectRequest) {
    a.contractId == b.contractId && Durability(a) == Durability(b) && a.dataKeys == b.dataKeys
  }

  lemma PiecesBehindIds(req: InspectRequest)
    requires NulFreeIds(req)
    ensures PiecesOf(req) == [req.contractId, Durability(req)] + AllPieces(req.dataKeys)
  {
    OnePiece(req.contractId);
    PieceCount([Durability(req)]);
    AllPiecesOfConcat([Durability(req)], req.dataKeys);
  }

  /** With such ids, sharing a key is having the ids in common and the pieces of the data keys. */
  lemma KeysAgreeOnIds(a: InspectRequest, b: InspectRequest)
    requires NulFreeIds(a) && NulFreeIds(b)
    ensures InspectCacheKey(a) == InspectCacheKey(b) <==>
            && a.contractId == b.contractId && Durability(a) == Durability(b)
            && AllPieces(a.dataKeys) == AllPieces(b.dataKeys)
  {
    hide InspectCacheKey, AllPieces, PiecesOf, Durability;
    KeysAgreeExactly(a, b);
    PiecesBehindIds(a);
    PiecesBehindIds(b);
    var x, y := [a.contractId, Durability(a)], [b.contractId, Durability(b)];
    var p, q := x + AllPieces(a.dataKeys), y + AllPieces(b.dataKeys);
    assert p[0] == a.contractId && p[1] == Durability(a) && p[2..] == AllPieces(a.dataKeys);
    assert q[0] == b.contractId && q[1] == Durability(b) && q[2..] == AllPieces(b.dataKeys);
  }

  /** Requests without separators share a key exactly when they ask the same question; the estimate is not part
      of it. */
  lemma KeysIdentifyQuestions(a: InspectRequest, b: InspectRequest)
    requires NulFreeRequest(a) && NulFreeRequest(b)
    ensures InspectCacheKey(a) == InspectCacheKey(b) <==> SameQuestion(a, b)
  {
    hide InspectCacheKey, AllPieces;
    KeysAgreeOnIds(a, b);
    PieceCount(a.dataKeys);
    PieceCount(b.dataKeys);
  }

  /** No other question has the request's key. */
  ghost predicate OwnsItsKey(a: InspectRequest) {
    forall b | NulFreeIds(b) && InspectCacheKey(b) == InspectCacheKey(a) :: SameQuestion(a, b)
  }

  /** A request without data keys, or with one that has no separator in it. */
  predicate AsksForOneKeyAtMost(a: InspectRequest) {
    a.dataKeys == [] || (|a.dataKeys| == 1 && NulFree(a.dataKeys[0]))
  }

  /** Only the shortest requests are told apart from all others: any two data keys are also one key with a
      separator between them, which the key does not show. */
  lemma ShortRequestsOwnTheirKeys(a: InspectRequest)
    requires NulFreeIds(a)
    ensures OwnsItsKey(a) <==> AsksForOneKeyAtMost(a)
  {
    hide InspectCacheKey, AllPieces;
    if AsksForOneKeyAtMost(a) {
      forall b | NulFreeIds(b) && InspectCacheKey(b) == InspectCacheKey(a)
        ensures SameQuestion(a, b)
      {
        KeysAgreeOnIds(a, b);
        PieceCount(a.dataKeys);
        PieceCount(b.dataKeys);
      }
    } else {
      var b := OtherQuestion(a);
    }
  }

  /** Another question with the same key. */
  lemma OtherQuestion(a: InspectRequest) returns (b: InspectRequest)
    requires NulFreeIds(a) && !AsksForOneKeyAtMost(a)
    ensures NulFreeIds(b) && InspectCacheKey(b) == InspectCacheKey(a) && !SameQuestion(a, b)
  {
    hide InspectCacheKey;
    var keys := a.dataKeys;
    if |keys| == 1 {
      var i :| 0 <= i < |keys[0]| && keys[0][i] == NUL;
      var k, l := keys[0][..i], keys[0][i + 1..];
      assert keys[0] == k + [NUL] + l;
      b := a.(dataKeys := [k, l]);
      JoinedPieces(k, l, []);
      assert [k, l] + [] == [k, l] && [k + [NUL] + l] + [] == keys;
    } else {
      var k, l, rest := keys[0], keys[1], keys[2..];
      b := a.(dataKeys := [k + [NUL] + l] + rest);
      JoinedPieces(k, l, rest);
      assert keys == [k, l] + rest;
    }
    KeysAgreeOnIds(a, b);
  }

  lemma JoinedPieces(k: string, l: string, rest: seq<string>)
    ensures AllPieces([k + [NUL] + l] + rest) == AllPieces([k, l] + rest)
  {
    PiecesAroundSeparator(k, l);
    AllPiecesOfConcat([k + [NUL] + l], rest);
    AllPiecesOfConcat([k, l], rest);
    AllPiecesOfConcat([k], [l]);
    assert [k] + [l] == [k, l] && [k][..0] == [] && [l][..0] == [] && [k + [NUL] + l][..0] == [];
    assert AllPieces([k]) == Pieces(k) && AllPieces([l]) == Pieces(l);
    assert AllPieces([k + [NUL] + l]) == Pieces(k + [NUL] + l);
  }

  /** A separator inside a data key makes two different questions share a key. */
  lemma SeparatorsInKeysCollide(req: InspectRequest, k: string, l: string)
    ensures InspectCacheKey(req.(dataKeys := [k + [NUL] + l])) == InspectCacheKey(req.(dataKeys := [k, l]))
    ensures [k + [NUL] + l] != [k, l]
  {
    hide InspectCacheKey, Pieces, AllPieces;
    var joined, apart := req.(dataKeys := [k + [NUL] + l]), req.(dataKeys := [k, l]);
    JoinedPieces(k, l, []);
    assert [k, l] + [] == [k, l] && [k + [NUL] + l] + [] == [k + [NUL] + l];
    AllPiecesOfConcat([Durability(req)], joined.dataKeys);
    AllPiecesOfConcat([Durability(req)], apart.dataKeys);
    KeysAgreeExactly(joined, apart);
    assert |[k + [NUL] + l]| != |[k, l]|;
  }

  /** A request that names no durability is one for persistent data. */
  lemma DurabilityDefaultsToPersistent(req: InspectRequest)
    ensures InspectCacheKey(req.(dataDurability := "")) == InspectCacheKey(req.(dataDurability := "persistent"))
    ensures SameQuestion(req.(dataDurability := ""), req.(dataDurability := "persistent"))
  {
  }

  /** The report depends on the request only through the question and the estimate asked for. */
  lemma ReportsAnswerQuestions(p: Prober, rpc: Rpc, a: InspectRequest, b: InspectRequest)
    requires SameQuestion(a, b) && a.estimateExtend == b.estimateExtend
    ensures InspectUncached(p, rpc, a) == InspectUncached(p, rpc, b)
  {
    hide EncodeDataKeys, IndexEntries, ReadInstanceEntry, ReportAllData, InspectCodeOf, Statuses;
  }
}
