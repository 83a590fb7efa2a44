/** One chunked fetch round of the prefetched batch, and the client that answers from what the rounds brought
    (fetchBatchEntries and cachedLedgerClient in internal/probe/batch.go). */
module Prefetch {
  import opened Wrappers
  import opened Words
  import opened Inspect
  import opened Batch

  const MAX_KEYS: nat := 200

  datatype BatchEntries = BatchEntries(
    entries: map<LedgerKey, LedgerEntry>,
    latest: map<LedgerKey, uint32>,
    errors: map<LedgerKey, ProbeError>)

  const NOTHING: BatchEntries := BatchEntries(map[], map[], map[])

  /** Writing the second table over the first. */
  function Merge(a: BatchEntries, b: BatchEntries): BatchEntries {
    BatchEntries(a.entries + b.entries, a.latest + b.latest, a.errors + b.errors)
  }

  // ---- fetchBatchEntries --------------------------------------------------------------

  /** Where chunk n starts. */
  function ChunkStart(keys: seq<LedgerKey>, n: nat): (start: nat)
    ensures start <= |keys|
  {
    if n * MAX_KEYS <= |keys| then n * MAX_KEYS else |keys|
  }

  function Chunk(keys: seq<LedgerKey>, n: nat): (chunk: seq<LedgerKey>)
    ensures |chunk| <= MAX_KEYS
  {
    keys[ChunkStart(keys, n)..ChunkStart(keys, n + 1)]
  }

  function ChunkCount(keys: seq<LedgerKey>): nat {
    (|keys| + MAX_KEYS - 1) / MAX_KEYS
  }

  /** What one request brings: an answer for each of its keys, or its error for each of them. */
  function FetchChunk(rpc: Rpc, chunk: seq<LedgerKey>): BatchEntries {
    match rpc(chunk)
    case Err(e) => BatchEntries(map[], map[], map key | key in chunk :: e)
    case Ok(resp) => BatchEntries(IndexEntries(resp.entries), map key | key in chunk :: resp.latestLedger, map[])
  }

  function FetchFirst(rpc: Rpc, keys: seq<LedgerKey>, chunks: nat): BatchEntries {
    if chunks == 0 then NOTHING
    else Merge(FetchFirst(rpc, keys, chunks - 1), FetchChunk(rpc, Chunk(keys, chunks - 1)))
  }

  /** What the round brings when the context is seen to end after so many chunks. */
  function FetchUpTo(rpc: Rpc, keys: seq<LedgerKey>, chunks: nat): BatchEntries {
    var unsent := keys[ChunkStart(keys, chunks)..];
    Merge(FetchFirst(rpc, keys, chunks), BatchEntries(map[], map[], map key | key in unsent :: ContextDone))
  }

  /** What the round brings while the context lives. */
  function Fetch(rpc: Rpc, keys: seq<LedgerKey>): BatchEntries {
    FetchUpTo(rpc, keys, ChunkCount(keys))
  }

  /** The requests sent on the way. */
  function Sent(keys: seq<LedgerKey>, chunks: nat): seq<seq<LedgerKey>> {
    if chunks == 0 then [] else Sent(keys, chunks - 1) + [Chunk(keys, chunks - 1)]
  }

  method FetchOne(rpc: Rpc, chunk: seq<LedgerKey>) returns (fetched: BatchEntries)
    ensures fetched == FetchChunk(rpc, chunk)
  {
    var response := rpc(chunk);
    if response.Err? {
      return BatchEntries(map[], map[], map key | key in chunk :: response.error);
    }
    var found := IndexEntriesLoop(response.value.entries);
    return BatchEntries(found, map key | key in chunk :: response.value.latestLedger, map[]);
  }

  method FetchBatchEntries(ctx: Context, rpc: Rpc, keys: seq<LedgerKey>)
      returns (result: BatchEntries, ghost chunks: nat, ghost sent: seq<seq<LedgerKey>>)
    modifies ctx
    ensures chunks <= ChunkCount(keys)
    ensures result == FetchUpTo(rpc, keys, chunks) && sent == Sent(keys, chunks)
    ensures ctx.Done() <==> ctx.DoneBy(old(ctx.now) + ChunkCount(keys))
    ensures !ctx.Done() ==> chunks == ChunkCount(keys) && ctx.now == old(ctx.now) + ChunkCount(keys)
  {
    hide FetchChunk, Merge;
    result, chunks, sent := NOTHING, 0, [];
    var start := 0;
    while start < |keys|
      invariant start == ChunkStart(keys, chunks) && chunks <= ChunkCount(keys)
      invariant result == FetchFirst(rpc, keys, chunks) && sent == Sent(keys, chunks)
      invariant ctx.now == old(ctx.now) + chunks && (chunks > 0 ==> !ctx.Done())
      decreases |keys| - start
    {
      var ended := ctx.Err();
      if ended {
        var unsent := keys[start..];
        result := Merge(result, BatchEntries(map[], map[], map key | key in unsent :: ContextDone));
        return;
      }
      var end := if start + MAX_KEYS < |keys| then start + MAX_KEYS else |keys|;
      var chunk := keys[start..end];
      assert chunk == Chunk(keys, chunks);
      var fetched := FetchOne(rpc, chunk);
      result := Merge(result, fetched);
      start, chunks, sent := end, chunks + 1, sent + [chunk];
    }
    assert keys[ChunkStart(keys, chunks)..] == [];
    MergeNothing(result, map key | key in keys[ChunkStart(keys, chunks)..] :: ContextDone);
  }

  lemma MergeNothing(a: BatchEntries, none: map<LedgerKey, ProbeError>)
    requires none.Keys == {}
    ensures Merge(a, BatchEntries(map[], map[], none)) == a
  {
    assert a.entries + map[] == a.entries;
    assert a.latest + map[] == a.latest;
    assert a.errors + none == a.errors;
  }

  // ---- every key is answered, once -------------------------------------------------------

  predicate Distinct(keys: seq<LedgerKey>) {
    forall i, j | 0 <= i < j < |keys| :: keys[i] != keys[j]
  }

  function KeySet(keys: seq<LedgerKey>): set<LedgerKey> {
    set k | k in keys
  }

  lemma {:induction false} FirstChunksAreAnswered(rpc: Rpc, keys: seq<LedgerKey>, chunks: nat)
    requires Distinct(keys)
    ensures Answers(FetchFirst(rpc, keys, chunks), KeySet(keys[..ChunkStart(keys, chunks)]))
  {
    hide FetchChunk, Merge, Answers;
    if chunks == 0 {
      NothingIsAnswered();
    }
    if chunks > 0 {
      FirstChunksAreAnswered(rpc, keys, chunks - 1);
      var start, end := ChunkStart(keys, chunks - 1), ChunkStart(keys, chunks);
      var before, chunk := keys[..start], Chunk(keys, chunks - 1);
      PartsAreDisjoint(keys, start, end);
      ChunkIsAnswered(rpc, chunk);
      MergedAnswers(FetchFirst(rpc, keys, chunks - 1), FetchChunk(rpc, chunk), KeySet(before), KeySet(chunk));
    }
  }

  /** Exactly these keys are answered, each by a ledger or by an error. */
  predicate Answers(r: BatchEntries, keys: set<LedgerKey>) {
    r.latest.Keys + r.errors.Keys == keys && r.latest.Keys !! r.errors.Keys
  }

  lemma NothingIsAnswered()
    ensures Answers(NOTHING, KeySet([]))
  {
  }

  lemma ChunkIsAnswered(rpc: Rpc, chunk: seq<LedgerKey>)
    ensures Answers(FetchChunk(rpc, chunk), KeySet(chunk))
  {
  }

  lemma MergedAnswers(a: BatchEntries, b: BatchEntries, first: set<LedgerKey>, second: set<LedgerKey>)
    requires Answers(a, first) && Answers(b, second) && first !! second
    ensures Answers(Merge(a, b), first + second)
  {
    assert (a.latest + b.latest).Keys == a.latest.Keys + b.latest.Keys;
    assert (a.errors + b.errors).Keys == a.errors.Keys + b.errors.Keys;
  }

  lemma PartsAreDisjoint(keys: seq<LedgerKey>, start: nat, end: nat)
    requires Distinct(keys) && start <= end <= |keys|
    ensures KeySet(keys[..start]) !! KeySet(keys[start..end])
    ensures KeySet(keys[..end]) == KeySet(keys[..start]) + KeySet(keys[start..end])
  {
    assert keys[..end] == keys[..start] + keys[start..end];
  }

  /** Completeness: whatever chunks fail and whenever the context ends, each distinct key is in exactly one of
      latest and errors, and nothing else is in either. */
  lemma EveryKeyIsAnswered(rpc: Rpc, keys: seq<LedgerKey>, chunks: nat)
    requires Distinct(keys)
    ensures Answers(FetchUpTo(rpc, keys, chunks), KeySet(keys))
  {
    hide FetchFirst, Merge, Answers;
    var start := ChunkStart(keys, chunks);
    var unsent := keys[start..];
    FirstChunksAreAnswered(rpc, keys, chunks);
    PartsAreDisjoint(keys, start, |keys|);
    assert keys[..|keys|] == keys && keys[start..|keys|] == unsent;
    UnsentAreAnswered(unsent);
    MergedAnswers(FetchFirst(rpc, keys, chunks), BatchEntries(map[], map[], map key | key in unsent :: ContextDone),
                  KeySet(keys[..start]), KeySet(unsent));
  }

  lemma UnsentAreAnswered(unsent: seq<LedgerKey>)
    ensures Answers(BatchEntries(map[], map[], map key | key in unsent :: ContextDone), KeySet(unsent))
  {
  }

  /** An answered key has the ledger of the answer to its request; a key whose request failed has that error; and one
      that was not sent for has the context's. */
  lemma {:induction false} KeysShareTheirRequest(rpc: Rpc, keys: seq<LedgerKey>, chunks: nat, n: nat, key: LedgerKey)
    requires Distinct(keys) && n < chunks <= ChunkCount(keys) && key in Chunk(keys, n)
    ensures Reflects(FetchFirst(rpc, keys, chunks), key, rpc(Chunk(keys, n)))
  {
    hide FetchChunk, Merge, Reflects, Chunk;
    ChunkAt(rpc, Chunk(keys, chunks - 1), key);
    MergeAt(FetchFirst(rpc, keys, chunks - 1), FetchChunk(rpc, Chunk(keys, chunks - 1)), key);
    if n == chunks - 1 {
      AnsweredApart(rpc, keys, n, n, key);
    } else {
      KeysShareTheirRequest(rpc, keys, chunks - 1, n, key);
      LaterChunksLackIt(keys, n, chunks - 1, key);
    }
  }

  /** What is known of a key is what this response, to a request for it, says. */
  predicate Reflects(r: BatchEntries, key: LedgerKey, response: Result<Response, ProbeError>) {
    if response.Ok? then key !in r.errors && key in r.latest && r.latest[key] == response.value.latestLedger
    else key !in r.latest && key in r.errors && r.errors[key] == response.error
  }

  /** Nothing is known of a key. */
  predicate Ignores(r: BatchEntries, key: LedgerKey) {
    key !in r.latest && key !in r.errors
  }

  lemma ChunkAt(rpc: Rpc, chunk: seq<LedgerKey>, key: LedgerKey)
    ensures key in chunk ==> Reflects(FetchChunk(rpc, chunk), key, rpc(chunk))
    ensures key !in chunk ==> Ignores(FetchChunk(rpc, chunk), key)
  {
  }

  lemma MergeAt(a: BatchEntries, b: BatchEntries, key: LedgerKey)
    ensures Ignores(a, key) ==>
              forall response | Reflects(b, key, response) :: Reflects(Merge(a, b), key, response)
    ensures Ignores(b, key) ==>
              forall response | Reflects(a, key, response) :: Reflects(Merge(a, b), key, response)
  {
  }

  lemma LaterChunksLackIt(keys: seq<LedgerKey>, n: nat, later: nat, key: LedgerKey)
    requires Distinct(keys) && n < later && key in Chunk(keys, n)
    ensures key !in Chunk(keys, later)
  {
    var start, next := ChunkStart(keys, n), ChunkStart(keys, later);
    var i :| start <= i < ChunkStart(keys, n + 1) && keys[i] == key;
    assert (n + 1) * MAX_KEYS <= later * MAX_KEYS;
    assert forall j | next <= j < ChunkStart(keys, later + 1) :: keys[i] != keys[j];
  }

  /** No chunk before this one has the key, so nothing was known of it. */
  lemma AnsweredApart(rpc: Rpc, keys: seq<LedgerKey>, n: nat, chunks: nat, key: LedgerKey)
    requires Distinct(keys) && chunks <= n < ChunkCount(keys) && key in Chunk(keys, n)
    ensures Ignores(FetchFirst(rpc, keys, chunks), key)
  {
    hide FetchFirst;
    FirstChunksAreAnswered(rpc, keys, chunks);
    var start := ChunkStart(keys, n);
    PartsAreDisjoint(keys, start, ChunkStart(keys, n + 1));
    assert chunks * MAX_KEYS <= n * MAX_KEYS;
    assert keys[..ChunkStart(keys, chunks)] <= keys[..start];
    assert forall k | k in keys[..ChunkStart(keys, chunks)] :: k in keys[..start];
    assert key in KeySet(Chunk(keys, n)) && key !in KeySet(keys[..start]);
  }

  lemma UnsentKeysHaveTheContextsError(rpc: Rpc, keys: seq<LedgerKey>, chunks: nat, key: LedgerKey)
    requires chunks <= ChunkCount(keys) && key in keys[ChunkStart(keys, chunks)..]
    ensures key in FetchUpTo(rpc, keys, chunks).errors && FetchUpTo(rpc, keys, chunks).errors[key] == ContextDone
  {
    hide FetchFirst;
  }

  function Flatten(chunks: seq<seq<LedgerKey>>): seq<LedgerKey> {
    if chunks == [] then [] else Flatten(chunks[..|chunks| - 1]) + chunks[|chunks| - 1]
  }

  /** The requests, laid end to end, are a prefix of the key list, so no distinct key is sent twice; none is
      empty or longer than 200 keys; and all of them together are the whole list. */
  lemma {:induction false} RequestsCoverTheKeys(keys: seq<LedgerKey>, chunks: nat)
    requires chunks <= ChunkCount(keys)
    ensures |Sent(keys, chunks)| == chunks
    ensures forall i | 0 <= i < chunks :: 0 < |Sent(keys, chunks)[i]| <= 200
    ensures Flatten(Sent(keys, chunks)) == keys[..ChunkStart(keys, chunks)]
    ensures ChunkStart(keys, ChunkCount(keys)) == |keys|
    ensures ChunkCount(keys) == (|keys| + 199) / 200
  {
    if chunks > 0 {
      RequestsCoverTheKeys(keys, chunks - 1);
      assert Sent(keys, chunks)[..chunks - 1] == Sent(keys, chunks - 1);
    }
  }

  // ---- the cached client ----------------------------------------------------------------------

  function CachedFrom(c: BatchEntries, keys: seq<LedgerKey>, resp: Response): Result<Response, ProbeError> {
    if keys == [] then Ok(resp)
    else
      var key := keys[0];
      if key in c.errors then Err(c.errors[key])
      else if key !in c.latest then Err(NotPrefetched(key))
      else
        var ledger := if resp.latestLedger == 0 then c.latest[key] else resp.latestLedger;
        var entries := if key in c.entries then resp.entries + [c.entries[key]] else resp.entries;
        CachedFrom(c, keys[1..], Response(ledger, entries))
  }

  function CachedGet(c: BatchEntries, keys: seq<LedgerKey>): Result<Response, ProbeError> {
    CachedFrom(c, keys, Response(0, []))
  }

  /** The entries that there are for the keys, in their order. */
  function EntriesFor(c: BatchEntries, keys: seq<LedgerKey>): seq<LedgerEntry> {
    if keys == [] then []
    else EntriesFor(c, keys[..|keys| - 1]) + EntryFor(c, keys[|keys| - 1])
  }

  function EntryFor(c: BatchEntries, key: LedgerKey): seq<LedgerEntry> {
    if key in c.entries then [c.entries[key]] else []
  }

  /** What is known of a key stands in the way of an answer. */
  predicate Blocks(c: BatchEntries, key: LedgerKey) {
    key in c.errors || key !in c.latest
  }

  function Refusal(c: BatchEntries, key: LedgerKey): ProbeError {
    if key in c.errors then c.errors[key] else NotPrefetched(key)
  }

  /** What one key does to the answer. */
  lemma CachedStep(c: BatchEntries, keys: seq<LedgerKey>, resp: Response)
    requires keys != []
    ensures Blocks(c, keys[0]) ==> CachedFrom(c, keys, resp) == Err(Refusal(c, keys[0]))
    ensures !Blocks(c, keys[0]) ==>
              CachedFrom(c, keys, resp) ==
              CachedFrom(c, keys[1..], Response(if resp.latestLedger == 0 then c.latest[keys[0]] else resp.latestLedger,
                                                resp.entries + EntryFor(c, keys[0])))
  {
    assert resp.entries + [] == resp.entries;
  }

  lemma {:induction false} CachedFromReads(c: BatchEntries, keys: seq<LedgerKey>, resp: Response)
    requires forall k | k in keys :: !Blocks(c, k)
    ensures var r := CachedFrom(c, keys, resp);
            && r.Ok? && r.value.entries == resp.entries + EntriesFor(c, keys)
            && (resp.latestLedger != 0 ==> r.value.latestLedger == resp.latestLedger)
            && (keys != [] && resp.latestLedger == 0 && keys[0] in c.latest && c.latest[keys[0]] != 0 ==>
                  r.value.latestLedger == c.latest[keys[0]])
  {
    hide Blocks, EntryFor;
    if keys == [] {
      assert resp.entries + [] == resp.entries;
    } else {
      var key, rest := keys[0], keys[1..];
      CachedStep(c, keys, resp);
      FirstEntryFor(c, keys);
      assert !Blocks(c, key) ==> key in c.latest by {
        Unblocked(c, key);
      }
      var resp' := Response(if resp.latestLedger == 0 then c.latest[key] else resp.latestLedger,
                            resp.entries + EntryFor(c, key));
      CachedFromReads(c, rest, resp');
      assert resp'.entries + EntriesFor(c, rest) == resp.entries + (EntryFor(c, key) + EntriesFor(c, rest));
    }
  }

  lemma Unblocked(c: BatchEntries, key: LedgerKey)
    ensures !Blocks(c, key) ==> key in c.latest
  {
  }

  lemma {:induction false} CachedFromFails(c: BatchEntries, keys: seq<LedgerKey>, resp: Response) returns (i: nat)
    requires exists k | k in keys :: Blocks(c, k)
    ensures i < |keys| && Blocks(c, keys[i]) && forall j | 0 <= j < i :: !Blocks(c, keys[j])
    ensures CachedFrom(c, keys, resp) == Err(Refusal(c, keys[i]))
    decreases |keys|
  {
    hide Refusal, EntryFor;
    var key, rest := keys[0], keys[1..];
    CachedStep(c, keys, resp);
    if Blocks(c, key) {
      i := 0;
    } else {
      assert forall k | k in keys :: k == key || k in rest;
      var ledger := if resp.latestLedger == 0 then c.latest[key] else resp.latestLedger;
      var later := CachedFromFails(c, rest, Response(ledger, resp.entries + EntryFor(c, key)));
      i := later + 1;
      assert forall j | 1 <= j < |keys| :: keys[j] == rest[j - 1];
    }
  }

  lemma {:induction false} FirstEntryFor(c: BatchEntries, keys: seq<LedgerKey>)
    requires keys != []
    ensures EntriesFor(c, keys) == EntryFor(c, keys[0]) + EntriesFor(c, keys[1..])
  {
    if |keys| > 1 {
      var init := keys[..|keys| - 1];
      FirstEntryFor(c, init);
      assert keys[1..][..|keys| - 2] == init[1..];
    }
  }

  /** The cached client answers exactly when all keys are known and none is lost: with their entries in order and the
      first key's ledger; otherwise with the trouble of the first key that has any. */
  lemma CachedGetExactly(c: BatchEntries, keys: seq<LedgerKey>)
    ensures var r := CachedGet(c, keys);
            && (r.Ok? <==> forall k | k in keys :: !Blocks(c, k))
            && (r.Ok? ==> r.value.entries == EntriesFor(c, keys))
            && (r.Ok? && keys != [] && keys[0] in c.latest && c.latest[keys[0]] != 0 ==>
                  r.value.latestLedger == c.latest[keys[0]])
            && (r.Err? ==> exists i | 0 <= i < |keys| ::
                  && Blocks(c, keys[i]) && r.error == Refusal(c, keys[i])
                  && forall j | 0 <= j < i :: !Blocks(c, keys[j]))
  {
    hide CachedFrom, EntriesFor, Blocks, Refusal;
    if exists k | k in keys :: Blocks(c, k) {
      var i := CachedFromFails(c, keys, Response(0, []));
    } else {
      CachedFromReads(c, keys, Response(0, []));
      assert [] + EntriesFor(c, keys) == EntriesFor(c, keys);
    }
  }

  method CachedGetLoop(c: BatchEntries, keys: seq<LedgerKey>) returns (r: Result<Response, ProbeError>)
    ensures r == CachedGet(c, keys)
  {
    var response := Response(0, []);
    assert keys[0..] == keys;
    for i := 0 to |keys|
      invariant CachedFrom(c, keys[i..], response) == CachedGet(c, keys)
    {
      var key := keys[i];
      assert keys[i..][0] == key && keys[i..][1..] == keys[i + 1..];
      if key in c.errors {
        return Err(c.errors[key]);
      }
      if key !in c.latest {
        return Err(NotPrefetched(key));
      }
      var ledger := c.latest[key];
      if response.latestLedger == 0 {
        response := response.(latestLedger := ledger);
      }
      if key in c.entries {
        response := response.(entries := response.entries + [c.entries[key]]);
      }
    }
    return Ok(response);
  }

  function CachedRpc(c: BatchEntries): Rpc {
    keys => CachedGet(c, keys)
  }
}
