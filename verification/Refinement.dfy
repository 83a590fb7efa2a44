/** The prefetched batch refines separate checks: what the two rounds bring, replayed, is what the ledger
    itself would have answered. */
module Refinement {
  import opened Wrappers
  import opened Words
  import opened Inspect
  import opened Check
  import opened Batch
  import opened Prefetch
  import opened Replay

  // ---- a client that reads one ledger ----------------------------------------------------

  /** entries are the ledger's entries for keys: all of those that exist, nothing else, in any order. */
  predicate EntriesAnswer(entries: seq<LedgerEntry>, keys: seq<LedgerKey>, ledger: map<LedgerKey, LedgerEntry>) {
    && (forall e | e in entries :: e.key in keys && e.key in ledger && ledger[e.key] == e)
    && (forall k | k in keys && k in ledger :: ledger[k] in entries)
  }

  predicate IsAnswer(resp: Response, keys: seq<LedgerKey>, ledger: map<LedgerKey, LedgerEntry>, latest: uint32) {
    resp.latestLedger == latest && EntriesAnswer(resp.entries, keys, ledger)
  }

  /** Whenever the client answers, it answers from this ledger, as it stands at latest. It may fail. */
  ghost predicate ReadsLedger(rpc: Rpc, ledger: map<LedgerKey, LedgerEntry>, latest: uint32) {
    forall keys | keys != [] && rpc(keys).Ok? :: IsAnswer(rpc(keys).value, keys, ledger, latest)
  }

  ghost predicate NeverFails(rpc: Rpc) {
    forall keys :: rpc(keys).Ok?
  }

  // ---- indexEntries ---------------------------------------------------------------------------

  lemma {:induction false} IndexFacts(entries: seq<LedgerEntry>)
    ensures forall k | k in IndexEntries(entries) ::
              IndexEntries(entries)[k] in entries && IndexEntries(entries)[k].key == k
    ensures forall e | e in entries :: e.key in IndexEntries(entries)
  {
    if entries != [] {
      var init, last := entries[..|entries| - 1], entries[|entries| - 1];
      assert entries == init + [last];
      IndexFacts(init);
    }
  }

  /** The index of an answer is the ledger itself, restricted to the keys asked for. */
  lemma IndexOfAnswer(entries: seq<LedgerEntry>, keys: seq<LedgerKey>, ledger: map<LedgerKey, LedgerEntry>)
    requires EntriesAnswer(entries, keys, ledger)
    requires forall k | k in ledger :: ledger[k].key == k
    ensures IndexEntries(entries) == map k | k in keys && k in ledger :: ledger[k]
  {
    IndexFacts(entries);
    var index := IndexEntries(entries);
    forall k
      ensures k in index <==> k in keys && k in ledger
      ensures k in index ==> index[k] == ledger[k]
    {
      if k in keys && k in ledger {
        assert ledger[k] in entries;
      }
    }
  }

  // ---- a report depends only on the ledger ----------------------------------------------------

  /** The Wasm hash a report on this ledger would look up. */
  function HashOn(p: Prober, ledger: map<LedgerKey, LedgerEntry>, req: InspectRequest): Option<string> {
    match PlanInspect(p, req)
    case Err(_) => None
    case Ok(plan) =>
      if plan.instanceKey !in ledger then None
      else
        match ReadInstanceEntry(p, ledger[plan.instanceKey])
        case Err(_) => None
        case Ok(facts) => facts.wasmHash
  }

  /** The client answers the requests that a report makes, from this ledger. */
  predicate Serves(rpc: Rpc, p: Prober, req: InspectRequest, ledger: map<LedgerKey, LedgerEntry>, latest: uint32) {
    && (PlanInspect(p, req).Ok? ==>
          var keys := PlanInspect(p, req).value.keys;
          rpc(keys).Ok? && IsAnswer(rpc(keys).value, keys, ledger, latest))
    && (HashOn(p, ledger, req).Some? ==>
          var keys := [ContractCode(HashOn(p, ledger, req).value)];
          rpc(keys).Ok? && IsAnswer(rpc(keys).value, keys, ledger, latest))
  }

  predicate Keyed(ledger: map<LedgerKey, LedgerEntry>) {
    forall k | k in ledger :: ledger[k].key == k
  }

  /** inspectCode reads the first entry of an answer for one key: whichever it is, it is the ledger's. */
  lemma OneKeyAnswer(entries: seq<LedgerEntry>, key: LedgerKey, ledger: map<LedgerKey, LedgerEntry>)
    requires EntriesAnswer(entries, [key], ledger) && Keyed(ledger)
    ensures entries == [] <==> key !in ledger
    ensures entries != [] ==> entries[0] == ledger[key]
  {
    if entries != [] {
      assert entries[0] in entries && entries[0].key in [key];
    }
    if key in ledger {
      assert ledger[key] in entries;
    }
  }

  /** Any two clients that serve the same ledger give the same report. */
  lemma ReportsDependOnTheLedger(p: Prober, a: Rpc, b: Rpc, req: InspectRequest,
                                 ledger: map<LedgerKey, LedgerEntry>, latest: uint32)
    requires Keyed(ledger)
    requires Serves(a, p, req, ledger, latest) && Serves(b, p, req, ledger, latest)
    ensures InspectUncached(p, a, req) == InspectUncached(p, b, req)
  {
    hide ReadInstanceEntry, ReportAllData, IsAnswer, EntriesAnswer, IndexEntries;
    if PlanInspect(p, req).Ok? {
      var plan := PlanInspect(p, req).value;
      SameIndex(a, b, plan.keys, ledger, latest);
      assert plan.instanceKey in plan.keys by {
        assert plan.keys[0] == plan.instanceKey;
      }
      IndexOnLedger(a, plan.keys, ledger, latest);
      if HashOn(p, ledger, req).Some? {
        SameCode(p, a, b, HashOn(p, ledger, req).value, ledger, latest);
      }
    }
  }

  lemma IndexOnLedger(rpc: Rpc, keys: seq<LedgerKey>, ledger: map<LedgerKey, LedgerEntry>, latest: uint32)
    requires Keyed(ledger) && rpc(keys).Ok? && IsAnswer(rpc(keys).value, keys, ledger, latest)
    ensures IndexEntries(rpc(keys).value.entries) == map k | k in keys && k in ledger :: ledger[k]
  {
    IndexOfAnswer(rpc(keys).value.entries, keys, ledger);
  }

  lemma SameIndex(a: Rpc, b: Rpc, keys: seq<LedgerKey>, ledger: map<LedgerKey, LedgerEntry>, latest: uint32)
    requires Keyed(ledger)
    requires a(keys).Ok? && IsAnswer(a(keys).value, keys, ledger, latest)
    requires b(keys).Ok? && IsAnswer(b(keys).value, keys, ledger, latest)
    ensures IndexEntries(a(keys).value.entries) == IndexEntries(b(keys).value.entries)
    ensures a(keys).value.latestLedger == b(keys).value.latestLedger
  {
    IndexOnLedger(a, keys, ledger, latest);
    IndexOnLedger(b, keys, ledger, latest);
  }

  lemma SameCode(p: Prober, a: Rpc, b: Rpc, hash: string, ledger: map<LedgerKey, LedgerEntry>, latest: uint32)
    requires Keyed(ledger)
    requires var keys := [ContractCode(hash)];
             && a(keys).Ok? && IsAnswer(a(keys).value, keys, ledger, latest)
             && b(keys).Ok? && IsAnswer(b(keys).value, keys, ledger, latest)
    ensures InspectCodeOf(p, a, Some(hash)) == InspectCodeOf(p, b, Some(hash))
  {
    var key := ContractCode(hash);
    OneKeyAnswer(a([key]).value.entries, key, ledger);
    OneKeyAnswer(b([key]).value.entries, key, ledger);
  }

  // ---- what the rounds bring is true ----------------------------------------------------------

  /** Every ledger and entry in the tables is the ledger's own, and no answered key's entry is missing. */
  predicate Truthful(r: BatchEntries, keys: set<LedgerKey>, ledger: map<LedgerKey, LedgerEntry>, latest: uint32) {
    && (forall k | k in r.latest :: r.latest[k] == latest)
    && (forall k | k in r.entries :: k in keys && k in ledger && r.entries[k] == ledger[k])
    && (forall k | k in r.latest && k in ledger :: k in r.entries)
  }

  lemma ChunkIsTruthful(rpc: Rpc, chunk: seq<LedgerKey>, ledger: map<LedgerKey, LedgerEntry>, latest: uint32)
    requires ReadsLedger(rpc, ledger, latest) && Keyed(ledger) && chunk != []
    ensures Truthful(FetchChunk(rpc, chunk), KeySet(chunk), ledger, latest)
  {
    if rpc(chunk).Ok? {
      IndexOfAnswer(rpc(chunk).value.entries, chunk, ledger);
    }
  }

  lemma MergeIsTruthful(a: BatchEntries, b: BatchEntries, ka: set<LedgerKey>, kb: set<LedgerKey>,
                        ledger: map<LedgerKey, LedgerEntry>, latest: uint32)
    requires Truthful(a, ka, ledger, latest) && Truthful(b, kb, ledger, latest)
    ensures Truthful(Merge(a, b), ka + kb, ledger, latest)
  {
  }

  lemma {:induction false} FirstChunksAreTruthful(rpc: Rpc, keys: seq<LedgerKey>, chunks: nat,
                                                  ledger: map<LedgerKey, LedgerEntry>, latest: uint32)
    requires ReadsLedger(rpc, ledger, latest) && Keyed(ledger) && chunks <= ChunkCount(keys)
    ensures Truthful(FetchFirst(rpc, keys, chunks), KeySet(keys), ledger, latest)
  {
    hide FetchChunk, Merge, ReadsLedger;
    if chunks > 0 {
      var chunk := Chunk(keys, chunks - 1);
      FirstChunksAreTruthful(rpc, keys, chunks - 1, ledger, latest);
      ChunkIsTruthful(rpc, chunk, ledger, latest);
      MergeIsTruthful(FetchFirst(rpc, keys, chunks - 1), FetchChunk(rpc, chunk), KeySet(keys), KeySet(chunk),
                      ledger, latest);
      assert KeySet(keys) + KeySet(chunk) == KeySet(keys);
    }
  }

  lemma FetchIsTruthful(rpc: Rpc, keys: seq<LedgerKey>, ledger: map<LedgerKey, LedgerEntry>, latest: uint32)
    requires ReadsLedger(rpc, ledger, latest) && Keyed(ledger)
    ensures Truthful(Fetch(rpc, keys), KeySet(keys), ledger, latest)
  {
    hide FetchFirst, ReadsLedger;
    var n := ChunkCount(keys);
    FirstChunksAreTruthful(rpc, keys, n, ledger, latest);
    assert keys[ChunkStart(keys, n)..] == [];
    MergeNothing(FetchFirst(rpc, keys, n), map key | key in keys[ChunkStart(keys, n)..] :: ContextDone);
  }

  // ---- the cached client answers from its tables --------------------------------------------

  lemma {:induction false} CachedFromAnswers(c: BatchEntries, keys: seq<LedgerKey>, resp: Response,
                                             ledger: map<LedgerKey, LedgerEntry>, latest: uint32)
    requires forall k | k in keys :: k in c.latest && k !in c.errors && c.latest[k] == latest
    requires forall k | k in keys :: (k in c.entries <==> k in ledger) && (k in ledger ==> c.entries[k] == ledger[k])
    requires resp.latestLedger == latest || (resp.latestLedger == 0 && keys != [])
    ensures var r := CachedFrom(c, keys, resp);
            && r.Ok? && r.value.latestLedger == latest
            && (forall e | e in r.value.entries ::
                  e in resp.entries || (exists k | k in keys && k in ledger :: e == ledger[k]))
            && (forall e | e in resp.entries :: e in r.value.entries)
            && (forall k | k in keys && k in ledger :: ledger[k] in r.value.entries)
    decreases |keys|
  {
    if keys != [] {
      var key, rest := keys[0], keys[1..];
      var entries := if key in c.entries then resp.entries + [c.entries[key]] else resp.entries;
      var resp' := Response(if resp.latestLedger == 0 then c.latest[key] else resp.latestLedger, entries);
      assert forall k | k in keys :: k == key || k in rest;
      assert forall k | k in rest :: k in keys;
      CachedFromAnswers(c, rest, resp', ledger, latest);
    }
  }

  /** The cached client serves keys that were all prefetched, exactly as the ledger would. */
  lemma CachedGetAnswers(c: BatchEntries, keys: seq<LedgerKey>, ledger: map<LedgerKey, LedgerEntry>, latest: uint32)
    requires Keyed(ledger) && keys != []
    requires forall k | k in keys :: k in c.latest && k !in c.errors && c.latest[k] == latest
    requires forall k | k in keys :: (k in c.entries <==> k in ledger) && (k in ledger ==> c.entries[k] == ledger[k])
    ensures CachedGet(c, keys).Ok? && IsAnswer(CachedGet(c, keys).value, keys, ledger, latest)
  {
    CachedFromAnswers(c, keys, Response(0, []), ledger, latest);
  }

  // ---- the key lists ----------------------------------------------------------------------------

  lemma {:induction false} AddNewFacts(keys: seq<LedgerKey>, more: seq<LedgerKey>)
    requires Distinct(keys)
    ensures Distinct(AddNew(keys, more))
    ensures KeySet(AddNew(keys, more)) == KeySet(keys) + KeySet(more)
  {
    if more != [] {
      var init, last := more[..|more| - 1], more[|more| - 1];
      assert more == init + [last];
      AddNewFacts(keys, init);
      KeySetOfConcat(init, [last]);
      KeySetOfConcat(AddNew(keys, init), [last]);
      assert KeySet([last]) == {last};
    }
  }

  /** Keys are added behind those that are there: what was collected so far stays in front. */
  lemma {:induction false} NewKeysComeBehind(keys: seq<LedgerKey>, more: seq<LedgerKey>, k: nat)
    requires k <= |more|
    ensures AddNew(keys, more[..k]) <= AddNew(keys, more)
  {
    if k == |more| {
      assert more[..k] == more;
    } else {
      NewKeysComeBehind(keys, more[..|more| - 1], k);
      assert more[..|more| - 1][..k] == more[..k];
    }
  }

  /** Both rounds ask for their keys in the order in which the checks, and the plan of each, first bring them. */
  lemma {:induction false} KeysComeInOrder(p: Prober, initial: BatchEntries, checks: seq<NamedCheck>, n: nat, k: nat)
    requires n < |checks| && k <= |PlanKeys(p, checks[n])|
    ensures AddNew(InitialKeys(p, checks[..n]), PlanKeys(p, checks[n])[..k]) <= InitialKeys(p, checks)
    ensures CodeKeys(p, initial, checks[..n]) <= CodeKeys(p, initial, checks)
  {
    hide PlanKeys, CodeKeyOf, AddNew;
    var init, last := checks[..|checks| - 1], checks[|checks| - 1];
    var code := CodeKeyOf(p, initial, last);
    NewKeysComeBehind(CodeKeys(p, initial, init), code, 0);
    NothingNew(CodeKeys(p, initial, init), code);
    if n == |checks| - 1 {
      NewKeysComeBehind(InitialKeys(p, init), PlanKeys(p, last), k);
    } else {
      assert init[..n] == checks[..n] && init[n] == checks[n];
      KeysComeInOrder(p, initial, init, n, k);
      NewKeysComeBehind(InitialKeys(p, init), PlanKeys(p, last), 0);
      NothingNew(InitialKeys(p, init), PlanKeys(p, last));
    }
  }

  lemma NothingNew(keys: seq<LedgerKey>, more: seq<LedgerKey>)
    ensures AddNew(keys, more[..0]) == keys
  {
  }

  lemma KeySetOfConcat(a: seq<LedgerKey>, b: seq<LedgerKey>)
    ensures KeySet(a + b) == KeySet(a) + KeySet(b)
  {
  }

  lemma {:induction false} InitialKeysFacts(p: Prober, checks: seq<NamedCheck>)
    ensures Distinct(InitialKeys(p, checks))
    ensures forall k | k in InitialKeys(p, checks) :: k.ContractData?
    ensures forall i | 0 <= i < |checks| :: KeySet(PlanKeys(p, checks[i])) <= KeySet(InitialKeys(p, checks))
  {
    hide PlanKeys;
    if checks != [] {
      var init, last := checks[..|checks| - 1], checks[|checks| - 1];
      InitialKeysFacts(p, init);
      AddNewFacts(InitialKeys(p, init), PlanKeys(p, last));
      PlanKeysAreData(p, last);
      assert forall i | 0 <= i < |init| :: checks[i] == init[i];
      assert forall k | k in InitialKeys(p, checks) :: k in KeySet(InitialKeys(p, checks));
    }
  }

  lemma PlanKeysAreData(p: Prober, c: NamedCheck)
    ensures forall k | k in PlanKeys(p, c) :: k.ContractData?
  {
    if PlanOf(p, c).Ok? {
      DataKeysAreData(p, PlanOf(p, c).value.contract, c.check.dataKeys, PlanOf(p, c).value.durability);
    }
  }

  lemma {:induction false} DataKeysAreData(p: Prober, contract: string, specs: seq<string>, durability: string)
    requires EncodeDataKeys(p, contract, specs, durability).Ok?
    ensures forall i | 0 <= i < |EncodeDataKeys(p, contract, specs, durability).value| ::
              EncodeDataKeys(p, contract, specs, durability).value[i].key.ContractData?
  {
    if specs != [] {
      DataKeysAreData(p, contract, specs[1..], durability);
    }
  }

  lemma {:induction false} CodeKeysFacts(p: Prober, initial: BatchEntries, checks: seq<NamedCheck>)
    ensures Distinct(CodeKeys(p, initial, checks))
    ensures forall k | k in CodeKeys(p, initial, checks) :: k.ContractCode?
    ensures forall i | 0 <= i < |checks| && StateOf(p, initial, checks[i]).codeKey.Some? ::
              StateOf(p, initial, checks[i]).codeKey.value in KeySet(CodeKeys(p, initial, checks))
  {
    hide StateOf;
    if checks != [] {
      var init, last := checks[..|checks| - 1], checks[|checks| - 1];
      CodeKeysFacts(p, initial, init);
      AddNewFacts(CodeKeys(p, initial, init), CodeKeyOf(p, initial, last));
      CodeKeyIsCode(p, initial, last);
      assert forall i | 0 <= i < |init| :: checks[i] == init[i];
      assert forall k | k in CodeKeys(p, initial, checks) :: k in KeySet(CodeKeys(p, initial, checks));
    }
  }

  lemma CodeKeyIsCode(p: Prober, initial: BatchEntries, c: NamedCheck)
    ensures StateOf(p, initial, c).codeKey.Some? ==> StateOf(p, initial, c).codeKey.value.ContractCode?
  {
  }

  lemma {:induction false} NoFirstError(errors: map<LedgerKey, ProbeError>, keys: seq<LedgerKey>)
    ensures FirstError(errors, keys).None? <==> forall k | k in keys :: k !in errors
    ensures FirstError(errors, keys).Some? ==>
              exists k | k in keys && k in errors :: FirstError(errors, keys) == Some(errors[k])
  {
    if keys != [] {
      NoFirstError(errors, keys[1..]);
      assert forall k | k in keys :: k == keys[0] || k in keys[1..];
      assert forall k | k in keys[1..] :: k in keys;
    }
  }

  // ---- the tables of both rounds -------------------------------------------------------------

  /** The check's keys were all answered in the first round, and the second round touched none of them. */
  lemma PlanKeysAreServed(p: Prober, rpc: Rpc, checks: seq<NamedCheck>, i: nat,
                          ledger: map<LedgerKey, LedgerEntry>, latest: uint32)
    requires Keyed(ledger) && ReadsLedger(rpc, ledger, latest) && i < |checks| && PlanOf(p, checks[i]).Ok?
    requires var initial := Fetch(rpc, InitialKeys(p, checks));
             FirstError(initial.errors, PlanKeys(p, checks[i])).None?
    ensures var initial := Fetch(rpc, InitialKeys(p, checks));
            var code := Fetch(rpc, CodeKeys(p, initial, checks));
            var keys := PlanKeys(p, checks[i]);
            && CachedGet(Merge(initial, code), keys).Ok?
            && IsAnswer(CachedGet(Merge(initial, code), keys).value, keys, ledger, latest)
            && (forall k | k in keys ::
                  (k in initial.entries <==> k in ledger) && (k in ledger ==> initial.entries[k] == ledger[k]))
  {
    hide Fetch, InitialKeys, CodeKeys, CachedGet, IsAnswer, ReadsLedger, PlanInspect;
    var ks := InitialKeys(p, checks);
    var initial := Fetch(rpc, ks);
    var cs := CodeKeys(p, initial, checks);
    var code := Fetch(rpc, cs);
    var keys := PlanKeys(p, checks[i]);
    InitialKeysFacts(p, checks);
    CodeKeysFacts(p, initial, checks);
    FetchAnswers(rpc, ks);
    FetchAnswers(rpc, cs);
    FetchIsTruthful(rpc, ks, ledger, latest);
    FetchIsTruthful(rpc, cs, ledger, latest);
    NoFirstError(initial.errors, keys);
    forall k | k in keys
      ensures k in initial.latest && initial.latest[k] == latest
      ensures k !in code.errors && k !in code.latest && k !in code.entries
      ensures (k in initial.entries <==> k in ledger) && (k in ledger ==> initial.entries[k] == ledger[k])
    {
      assert k in KeySet(keys) && k in KeySet(ks);
      assert k in ks;
      assert k !in KeySet(cs);
    }
    assert keys != [] by {
      PlanHasKeys(p, checks[i]);
    }
    CachedGetAnswers(Merge(initial, code), keys, ledger, latest);
  }

  lemma PlanHasKeys(p: Prober, c: NamedCheck)
    requires PlanOf(p, c).Ok?
    ensures PlanKeys(p, c) == PlanOf(p, c).value.keys && PlanKeys(p, c) != []
    ensures PlanKeys(p, c)[0] == PlanOf(p, c).value.instanceKey && PlanOf(p, c).value.instanceKey in PlanKeys(p, c)
  {
    assert PlanKeys(p, c)[0] == PlanOf(p, c).value.instanceKey;
  }

  lemma FetchAnswers(rpc: Rpc, keys: seq<LedgerKey>)
    requires Distinct(keys)
    ensures Fetch(rpc, keys).latest.Keys + Fetch(rpc, keys).errors.Keys == KeySet(keys)
    ensures Fetch(rpc, keys).latest.Keys !! Fetch(rpc, keys).errors.Keys
  {
    hide FetchUpTo;
    EveryKeyIsAnswered(rpc, keys, ChunkCount(keys));
  }

  /** What is known between the rounds is what the ledger says. */
  lemma StateFollowsTheLedger(p: Prober, initial: BatchEntries, c: NamedCheck, ledger: map<LedgerKey, LedgerEntry>)
    requires PlanOf(p, c).Ok? && FirstError(initial.errors, PlanKeys(p, c)).None?
    requires forall k | k in PlanKeys(p, c) ::
               (k in initial.entries <==> k in ledger) && (k in ledger ==> initial.entries[k] == ledger[k])
    ensures StateOf(p, initial, c) ==
            if Unreadable(p, ledger, c.check) then CheckState(None, Some(BadInstanceEntry))
            else CheckState(CodeKeyOn(p, ledger, c.check), None)
  {
    hide PlanInspect, FirstError;
    PlanHasKeys(p, c);
  }

  /** The contract's instance entry is on the ledger and is not one that can be read. */
  predicate Unreadable(p: Prober, ledger: map<LedgerKey, LedgerEntry>, check: CheckRequest) {
    var plan := PlanInspect(p, InspectRequestOf(check));
    plan.Ok? && plan.value.instanceKey in ledger && ReadInstanceEntry(p, ledger[plan.value.instanceKey]).Err?
  }

  function CodeKeyOn(p: Prober, ledger: map<LedgerKey, LedgerEntry>, check: CheckRequest): Option<LedgerKey> {
    match HashOn(p, ledger, InspectRequestOf(check))
    case None => None
    case Some(hash) => Some(ContractCode(hash))
  }

  /** The code entry of a check is served in the second round, unless its request failed there. */
  lemma CodeKeyIsServed(p: Prober, rpc: Rpc, checks: seq<NamedCheck>, i: nat, key: LedgerKey,
                        ledger: map<LedgerKey, LedgerEntry>, latest: uint32)
    requires Keyed(ledger) && ReadsLedger(rpc, ledger, latest) && i < |checks|
    requires StateOf(p, Fetch(rpc, InitialKeys(p, checks)), checks[i]).codeKey == Some(key)
    ensures var initial := Fetch(rpc, InitialKeys(p, checks));
            var code := Fetch(rpc, CodeKeys(p, initial, checks));
            var all := Merge(initial, code);
            && (key in all.errors <==> key in code.errors)
            && (key in all.errors ==> all.errors[key] == code.errors[key])
            && (key !in all.errors ==>
                  CachedGet(all, [key]).Ok? && IsAnswer(CachedGet(all, [key]).value, [key], ledger, latest))
  {
    hide Fetch, InitialKeys, CodeKeys, CachedGet, IsAnswer, ReadsLedger, PlanInspect, StateOf;
    var ks := InitialKeys(p, checks);
    var initial := Fetch(rpc, ks);
    var cs := CodeKeys(p, initial, checks);
    var code := Fetch(rpc, cs);
    InitialKeysFacts(p, checks);
    CodeKeysFacts(p, initial, checks);
    CodeKeyIsCode(p, initial, checks[i]);
    FetchAnswers(rpc, ks);
    FetchAnswers(rpc, cs);
    FetchIsTruthful(rpc, ks, ledger, latest);
    FetchIsTruthful(rpc, cs, ledger, latest);
    assert key in KeySet(cs) && key !in KeySet(ks);
    if key !in code.errors {
      assert key in code.latest;
      CachedGetAnswers(Merge(initial, code), [key], ledger, latest);
    }
  }

  // ---- the batch refines separate checks ------------------------------------------------------

  /** Key i is lost, and none before it. */
  predicate IsFirstLost(lost: map<LedgerKey, ProbeError>, keys: seq<LedgerKey>, i: nat) {
    i < |keys| && keys[i] in lost && forall j | 0 <= j < i :: keys[j] !in lost
  }

  ghost function FirstLost(lost: map<LedgerKey, ProbeError>, keys: seq<LedgerKey>): Option<ProbeError> {
    if i: nat :| IsFirstLost(lost, keys, i) then Some(lost[keys[i]]) else None
  }

  /** What the search between the rounds finds is the first lost key's error. */
  lemma {:induction false} FirstErrorIsFirstLost(lost: map<LedgerKey, ProbeError>, keys: seq<LedgerKey>)
    ensures FirstError(lost, keys) == FirstLost(lost, keys)
  {
    var e := LostPosition(lost, keys);
    assert forall i: nat, j: nat | IsFirstLost(lost, keys, i) && IsFirstLost(lost, keys, j) :: i == j;
    if e.Some? {
      assert IsFirstLost(lost, keys, e.value);
    }
  }

  lemma {:induction false} LostPosition(lost: map<LedgerKey, ProbeError>, keys: seq<LedgerKey>)
      returns (i: Option<nat>)
    ensures i.None? ==> FirstError(lost, keys) == None && forall j: nat :: !IsFirstLost(lost, keys, j)
    ensures i.Some? ==> IsFirstLost(lost, keys, i.value) && FirstError(lost, keys) == Some(lost[keys[i.value]])
  {
    if keys == [] {
      i := None;
    } else if keys[0] in lost {
      i := Some(0);
    } else {
      var rest := keys[1..];
      var later := LostPosition(lost, rest);
      if later.None? {
        i := None;
        forall j: nat
          ensures !IsFirstLost(lost, keys, j)
        {
          if IsFirstLost(lost, keys, j) {
            assert forall k | 0 <= k < j - 1 :: rest[k] == keys[k + 1];
            assert IsFirstLost(lost, rest, j - 1);
          }
        }
      } else {
        i := Some(later.value + 1);
        assert forall k | 1 <= k < |keys| :: keys[k] == rest[k - 1];
      }
    }
  }

  /** What a batch over a network that loses some requests must report for a check: the error of its first lost
      key, else that of its lost code entry, else what a separate Check over the whole ledger returns. */
  ghost function Faithful(p: Prober, clean: Rpc, ledger: map<LedgerKey, LedgerEntry>, lost: map<LedgerKey, ProbeError>,
                    lostCode: map<LedgerKey, ProbeError>, check: CheckRequest): Result<CheckResult, ProbeError>
  {
    var plan := PlanInspect(p, InspectRequestOf(check));
    var codeKey := CodeKeyOn(p, ledger, check);
    if plan.Ok? && FirstLost(lost, plan.value.keys).Some? then Err(FirstLost(lost, plan.value.keys).value)
    else if codeKey.Some? && codeKey.value in lostCode then Err(lostCode[codeKey.value])
    else CheckContract(p, clean, check)
  }

  /** On one ledger, whatever requests fail, the prefetched batch reports for every check exactly what a separate
      Check reports on the same ledger, or the error of an entry that the check itself needs. */
  lemma BatchRefinesSeparateChecks(p: Prober, rpc: Rpc, clean: Rpc, checks: seq<NamedCheck>, i: nat,
                                   ledger: map<LedgerKey, LedgerEntry>, latest: uint32)
    requires Keyed(ledger) && ReadsLedger(rpc, ledger, latest)
    requires ReadsLedger(clean, ledger, latest) && NeverFails(clean)
    requires i < |checks|
    ensures var initial := Fetch(rpc, InitialKeys(p, checks));
            var code := Fetch(rpc, CodeKeys(p, initial, checks));
            BatchOutcome(p, initial, code, checks[i]) ==
            Faithful(p, clean, ledger, initial.errors, code.errors, checks[i].check)
  {
    hide Fetch, InitialKeys, CodeKeys, CachedGet, IsAnswer, PlanInspect, StateOf, FirstError, CheckContract, HashOn;
    hide Unreadable;
    hide FirstLost;
    var c := checks[i];
    var initial := Fetch(rpc, InitialKeys(p, checks));
    var code := Fetch(rpc, CodeKeys(p, initial, checks));
    FirstErrorIsFirstLost(initial.errors, PlanKeys(p, c));
    if PlanOf(p, c).Err? {
      UnplannableChecks(p, initial, clean, ledger, c);
    } else if FirstError(initial.errors, PlanKeys(p, c)).Some? {
      LostChecks(p, initial, c);
    } else {
      PlanKeysAreServed(p, rpc, checks, i, ledger, latest);
      StateFollowsTheLedger(p, initial, c, ledger);
      if Unreadable(p, ledger, c.check) {
        UnreadableChecks(p, clean, ledger, latest, c.check);
      } else {
        if CodeKeyOn(p, ledger, c.check).Some? {
          CodeKeyIsServed(p, rpc, checks, i, CodeKeyOn(p, ledger, c.check).value, ledger, latest);
        }
        if !(CodeKeyOn(p, ledger, c.check).Some? && CodeKeyOn(p, ledger, c.check).value in code.errors) {
          ReplayedChecks(p, clean, Merge(initial, code), c.check, ledger, latest);
        }
      }
    }
  }

  lemma UnplannableChecks(p: Prober, initial: BatchEntries, rpc: Rpc, ledger: map<LedgerKey, LedgerEntry>,
                          c: NamedCheck)
    requires PlanOf(p, c).Err?
    ensures StateOf(p, initial, c).error == Some(PlanOf(p, c).error)
    ensures CheckContract(p, rpc, c.check) == Err(PlanOf(p, c).error)
    ensures CodeKeyOn(p, ledger, c.check).None? && !Unreadable(p, ledger, c.check)
  {
  }

  lemma LostChecks(p: Prober, initial: BatchEntries, c: NamedCheck)
    requires PlanOf(p, c).Ok? && FirstError(initial.errors, PlanKeys(p, c)).Some?
    ensures StateOf(p, initial, c).error == FirstError(initial.errors, PlanOf(p, c).value.keys)
  {
  }

  lemma CleanServes(p: Prober, clean: Rpc, req: InspectRequest, ledger: map<LedgerKey, LedgerEntry>, latest: uint32)
    requires ReadsLedger(clean, ledger, latest) && NeverFails(clean)
    ensures Serves(clean, p, req, ledger, latest)
  {
    hide HashOn, IsAnswer, EncodeDataKeys;
  }

  lemma UnreadableChecks(p: Prober, clean: Rpc, ledger: map<LedgerKey, LedgerEntry>, latest: uint32,
                         check: CheckRequest)
    requires Keyed(ledger) && ReadsLedger(clean, ledger, latest) && NeverFails(clean)
    requires Unreadable(p, ledger, check)
    ensures CodeKeyOn(p, ledger, check).None?
    ensures CheckContract(p, clean, check) == Err(BadInstanceEntry)
  {
    hide IsAnswer, IndexEntries, EncodeDataKeys;
    var plan := PlanInspect(p, InspectRequestOf(check)).value;
    assert plan.keys[0] == plan.instanceKey;
    IndexOnLedger(clean, plan.keys, ledger, latest);
  }

  lemma ReplayedChecks(p: Prober, clean: Rpc, all: BatchEntries, check: CheckRequest,
                       ledger: map<LedgerKey, LedgerEntry>, latest: uint32)
    requires Keyed(ledger) && ReadsLedger(clean, ledger, latest) && NeverFails(clean)
    requires PlanInspect(p, InspectRequestOf(check)).Ok?
    requires var keys := PlanInspect(p, InspectRequestOf(check)).value.keys;
             CachedGet(all, keys).Ok? && IsAnswer(CachedGet(all, keys).value, keys, ledger, latest)
    requires CodeKeyOn(p, ledger, check).Some? ==>
               var keys := [CodeKeyOn(p, ledger, check).value];
               CachedGet(all, keys).Ok? && IsAnswer(CachedGet(all, keys).value, keys, ledger, latest)
    ensures CheckContract(p, CachedRpc(all), check) == CheckContract(p, clean, check)
  {
    hide IsAnswer, PlanInspect, HashOn, CachedGet, InspectUncached, JudgeReport;
    CleanServes(p, clean, InspectRequestOf(check), ledger, latest);
    ReportsDependOnTheLedger(p, CachedRpc(all), clean, InspectRequestOf(check), ledger, latest);
  }

  /** When no request fails, every check of the batch gets exactly its own separate result or error. */
  lemma WithoutFailuresTheBatchIsTheChecks(p: Prober, rpc: Rpc, checks: seq<NamedCheck>, i: nat,
                                           ledger: map<LedgerKey, LedgerEntry>, latest: uint32)
    requires Keyed(ledger) && ReadsLedger(rpc, ledger, latest) && NeverFails(rpc)
    requires i < |checks|
    ensures var initial := Fetch(rpc, InitialKeys(p, checks));
            var code := Fetch(rpc, CodeKeys(p, initial, checks));
            BatchOutcome(p, initial, code, checks[i]) == CheckContract(p, rpc, checks[i].check)
  {
    hide Fetch, InitialKeys, CodeKeys, PlanInspect, BatchOutcome, CheckContract, Unreadable, HashOn;
    var initial := Fetch(rpc, InitialKeys(p, checks));
    BatchRefinesSeparateChecks(p, rpc, rpc, checks, i, ledger, latest);
    NoErrors(rpc, InitialKeys(p, checks));
    NoErrors(rpc, CodeKeys(p, initial, checks));
    if PlanOf(p, checks[i]).Ok? {
      NoFirstError(map[], PlanOf(p, checks[i]).value.keys);
      FirstErrorIsFirstLost(map[], PlanOf(p, checks[i]).value.keys);
    }
  }

  /** The engine on one ledger. While its context lives it reports for every check the item of a separate Check, or
      of the lost entry that the check needs; and when no request fails, of the separate Check. */
  method CheckBatchOnLedger(ctx: Context, p: Prober, rpc: Rpc, checks: seq<NamedCheck>, noticed: Option<ProbeError>,
                            ghost clean: Rpc, ghost ledger: map<LedgerKey, LedgerEntry>, ghost latest: uint32)
      returns (r: Result<BatchResult, ProbeError>)
    requires checks != []
    requires Keyed(ledger) && ReadsLedger(rpc, ledger, latest)
    requires ReadsLedger(clean, ledger, latest) && NeverFails(clean)
    requires !ctx.DoneBy(ctx.now + LastLook(p, rpc, checks) + 1)
    modifies ctx
    ensures r.Ok? && |r.value.items| == |checks| && IsSummaryOf(r.value, r.value.items)
    ensures var initial := Fetch(rpc, InitialKeys(p, checks));
            var code := Fetch(rpc, CodeKeys(p, initial, checks));
            forall i | 0 <= i < |checks| ::
              r.value.items[i] ==
              ItemOf(checks[i], AsItemOutcome(Faithful(p, clean, ledger, initial.errors, code.errors, checks[i].check)))
    ensures NeverFails(rpc) ==>
              forall i | 0 <= i < |checks| ::
                r.value.items[i] == ItemOf(checks[i], AsItemOutcome(CheckContract(p, rpc, checks[i].check)))
  {
    hide Fetch, InitialKeys, CodeKeys, BatchOutcome, Faithful, CheckContract, IsSummaryOf, ReachesReplay, LastLook;
    hide AsItemOutcome, ItemOf, ReadsLedger, NeverFails;
    r := CheckBatchPrefetched(ctx, p, rpc, checks, noticed);
    forall i | 0 <= i < |checks|
      ensures var initial := Fetch(rpc, InitialKeys(p, checks));
              var code := Fetch(rpc, CodeKeys(p, initial, checks));
              BatchOutcome(p, initial, code, checks[i]) ==
              Faithful(p, clean, ledger, initial.errors, code.errors, checks[i].check)
    {
      BatchRefinesSeparateChecks(p, rpc, clean, checks, i, ledger, latest);
    }
    if NeverFails(rpc) {
      forall i | 0 <= i < |checks|
        ensures var initial := Fetch(rpc, InitialKeys(p, checks));
                var code := Fetch(rpc, CodeKeys(p, initial, checks));
                BatchOutcome(p, initial, code, checks[i]) == CheckContract(p, rpc, checks[i].check)
      {
        WithoutFailuresTheBatchIsTheChecks(p, rpc, checks, i, ledger, latest);
      }
    }
  }

  lemma {:induction false} NoErrorsInFirst(rpc: Rpc, keys: seq<LedgerKey>, chunks: nat)
    requires NeverFails(rpc)
    ensures FetchFirst(rpc, keys, chunks).errors == map[]
  {
    if chunks > 0 {
      NoErrorsInFirst(rpc, keys, chunks - 1);
    }
  }

  lemma NoErrors(rpc: Rpc, keys: seq<LedgerKey>)
    requires NeverFails(rpc)
    ensures Fetch(rpc, keys).errors == map[]
  {
    NoErrorsInFirst(rpc, keys, ChunkCount(keys));
    assert keys[ChunkStart(keys, ChunkCount(keys))..] == [];
  }

  // ---- when the replay is starved --------------------------------------------------------------

  /** Table entries are filed under their own keys. */
  predicate SelfKeyed(r: BatchEntries) {
    forall k | k in r.entries :: r.entries[k].key == k
  }

  lemma {:induction false} FirstChunksAreSelfKeyed(rpc: Rpc, keys: seq<LedgerKey>, chunks: nat)
    ensures SelfKeyed(FetchFirst(rpc, keys, chunks))
  {
    hide FetchChunk, Merge, SelfKeyed;
    if chunks == 0 {
      MergeIsSelfKeyed(NOTHING, NOTHING);
    } else {
      FirstChunksAreSelfKeyed(rpc, keys, chunks - 1);
      ChunkIsSelfKeyed(rpc, Chunk(keys, chunks - 1));
      MergeIsSelfKeyed(FetchFirst(rpc, keys, chunks - 1), FetchChunk(rpc, Chunk(keys, chunks - 1)));
    }
  }

  lemma ChunkIsSelfKeyed(rpc: Rpc, chunk: seq<LedgerKey>)
    ensures SelfKeyed(FetchChunk(rpc, chunk))
  {
    if rpc(chunk).Ok? {
      IndexFacts(rpc(chunk).value.entries);
    }
  }

  lemma MergeIsSelfKeyed(a: BatchEntries, b: BatchEntries)
    ensures SelfKeyed(NOTHING)
    ensures SelfKeyed(a) && SelfKeyed(b) ==> SelfKeyed(Merge(a, b))
  {
  }

  /** The cached client, asked for answered keys, returns what is filed under them. */
  lemma {:induction false} CachedFromIsFiled(c: BatchEntries, keys: seq<LedgerKey>, resp: Response)
    requires forall k | k in keys :: k in c.latest && k !in c.errors
    requires SelfKeyed(c)
    requires forall e | e in resp.entries :: e.key in c.entries && c.entries[e.key] == e
    ensures var r := CachedFrom(c, keys, resp);
            && r.Ok?
            && (forall e | e in r.value.entries :: e.key in c.entries && c.entries[e.key] == e)
            && (forall e | e in resp.entries :: e in r.value.entries)
            && (forall k | k in keys && k in c.entries :: c.entries[k] in r.value.entries)
    decreases |keys|
  {
    if keys != [] {
      var key, rest := keys[0], keys[1..];
      var entries := if key in c.entries then resp.entries + [c.entries[key]] else resp.entries;
      var resp' := Response(if resp.latestLedger == 0 then c.latest[key] else resp.latestLedger, entries);
      assert forall k | k in rest :: k in keys;
      assert forall k | k in keys :: k == key || k in rest;
      CachedFromIsFiled(c, rest, resp');
    }
  }

  /** The code key that an entry asks for, when it is a contract instance with a Wasm hash. */
  function CodeKeyIn(p: Prober, entry: LedgerEntry): Option<LedgerKey> {
    match ReadInstanceEntry(p, entry)
    case Err(_) => None
    case Ok(facts) => if facts.wasmHash.None? then None else Some(ContractCode(facts.wasmHash.value))
  }

  /** A report from these tables gets its first answer and then asks for code that was never fetched. */
  predicate Starves(p: Prober, all: BatchEntries, plan: InspectPlan) {
    && CachedGet(all, plan.keys).Ok?
    && var found := IndexEntries(CachedGet(all, plan.keys).value.entries);
       && plan.instanceKey in found
       && var key := CodeKeyIn(p, found[plan.instanceKey]);
          key.Some? && key.value !in all.latest && key.value !in all.errors
  }

  /** The second round brought the check's instance entry along, with a hash that no check had when it was asked. */
  predicate Misled(p: Prober, code: BatchEntries, codeKeys: seq<LedgerKey>, plan: InspectPlan) {
    && plan.instanceKey in code.entries
    && var key := CodeKeyIn(p, code.entries[plan.instanceKey]);
       key.Some? && key.value !in codeKeys
  }

  /** For any two clients, however much of each round was sent: a check that reaches the replay gets its first
      request answered, and it is starved exactly when the second round brought, unasked, an instance entry of
      its contract whose code is none of those fetched. Its outcome is then the "not prefetched" error. */
  lemma ReplaysAreStarvedExactly(p: Prober, first: Rpc, second: Rpc, checks: seq<NamedCheck>, i: nat, n: nat, m: nat)
    requires i < |checks|
    requires var initial := FetchUpTo(first, InitialKeys(p, checks), n);
             var code := FetchUpTo(second, CodeKeys(p, initial, checks), m);
             ReachesReplay(p, initial, code, checks[i])
    ensures var initial := FetchUpTo(first, InitialKeys(p, checks), n);
            var codeKeys := CodeKeys(p, initial, checks);
            var code := FetchUpTo(second, codeKeys, m);
            var all := Merge(initial, code);
            && PlanOf(p, checks[i]).Ok?
            && var plan := PlanOf(p, checks[i]).value;
               && CachedGet(all, plan.keys).Ok?
               && (Starves(p, all, plan) <==> Misled(p, code, codeKeys, plan))
               && (Misled(p, code, codeKeys, plan) ==>
                     BatchOutcome(p, initial, code, checks[i]) ==
                     Err(NotPrefetched(CodeKeyIn(p, code.entries[plan.instanceKey]).value)))
  {
    hide FetchUpTo, InitialKeys, CodeKeys, FirstError, PlanInspect, StateOf, SelfKeyed, CheckContract, CachedGet;
    hide CodeKeyIn, Starves, Misled;
    var ks := InitialKeys(p, checks);
    var initial := FetchUpTo(first, ks, n);
    var cs := CodeKeys(p, initial, checks);
    var code := FetchUpTo(second, cs, m);
    var c := checks[i];
    ReplayedTables(p, first, second, checks, i, n, m);
    var plan := PlanOf(p, c).value;
    FirstAnswer(p, initial, code, c, ks, cs);
    StarvesWhenMisled(p, initial, code, c, ks, cs);
    if Misled(p, code, cs, plan) {
      StarvedChecksFail(p, Merge(initial, code), c.check);
      MisledKey(p, initial, code, cs, plan);
    }
  }

  /** What holds of the tables of a check that reaches the replay. */
  predicate Tables(p: Prober, initial: BatchEntries, code: BatchEntries, c: NamedCheck, ks: seq<LedgerKey>,
                   cs: seq<LedgerKey>)
  {
    && PlanOf(p, c).Ok? && FirstError(initial.errors, PlanOf(p, c).value.keys).None?
    && SelfKeyed(initial) && SelfKeyed(code)
    && (forall k | k in ks :: k.ContractData?) && (forall k | k in cs :: k.ContractCode?)
    && initial.latest.Keys + initial.errors.Keys == KeySet(ks) && initial.latest.Keys !! initial.errors.Keys
    && code.latest.Keys + code.errors.Keys == KeySet(cs) && code.latest.Keys !! code.errors.Keys
    && KeySet(PlanKeys(p, c)) <= KeySet(ks)
    && ReachesReplay(p, initial, code, c)
    && (StateOf(p, initial, c).codeKey.Some? ==> StateOf(p, initial, c).codeKey.value in KeySet(cs))
  }

  lemma ReplayedTables(p: Prober, first: Rpc, second: Rpc, checks: seq<NamedCheck>, i: nat, n: nat, m: nat)
    requires i < |checks|
    requires var initial := FetchUpTo(first, InitialKeys(p, checks), n);
             var code := FetchUpTo(second, CodeKeys(p, initial, checks), m);
             ReachesReplay(p, initial, code, checks[i])
    ensures var initial := FetchUpTo(first, InitialKeys(p, checks), n);
            var codeKeys := CodeKeys(p, initial, checks);
            var code := FetchUpTo(second, codeKeys, m);
            Tables(p, initial, code, checks[i], InitialKeys(p, checks), codeKeys)
  {
    hide FetchUpTo, InitialKeys, CodeKeys, FirstError, PlanInspect, StateOf, SelfKeyed;
    var ks := InitialKeys(p, checks);
    var initial := FetchUpTo(first, ks, n);
    InitialKeysFacts(p, checks);
    CodeKeysFacts(p, initial, checks);
    RoundFacts(first, ks, n);
    RoundFacts(second, CodeKeys(p, initial, checks), m);
    StatesHavePlans(p, initial, checks[i]);
  }

  lemma RoundFacts(rpc: Rpc, keys: seq<LedgerKey>, chunks: nat)
    requires Distinct(keys)
    ensures var r := FetchUpTo(rpc, keys, chunks);
            && r.latest.Keys + r.errors.Keys == KeySet(keys) && r.latest.Keys !! r.errors.Keys
            && SelfKeyed(r)
  {
    hide FetchFirst;
    EveryKeyIsAnswered(rpc, keys, chunks);
    FirstChunksAreSelfKeyed(rpc, keys, chunks);
  }

  lemma StatesHavePlans(p: Prober, initial: BatchEntries, c: NamedCheck)
    requires StateOf(p, initial, c).error.None?
    ensures PlanOf(p, c).Ok? && FirstError(initial.errors, PlanOf(p, c).value.keys).None?
  {
    hide PlanInspect, ReadInstanceEntry;
  }

  /** The plan's keys are answered, and the answer shows the instance entry as the tables have it. */
  lemma FirstAnswer(p: Prober, initial: BatchEntries, code: BatchEntries, c: NamedCheck, ks: seq<LedgerKey>,
                    cs: seq<LedgerKey>)
    requires Tables(p, initial, code, c, ks, cs)
    ensures var all := Merge(initial, code);
            var plan := PlanOf(p, c).value;
            && CachedGet(all, plan.keys).Ok?
            && var found := IndexEntries(CachedGet(all, plan.keys).value.entries);
               && (plan.instanceKey in found <==> plan.instanceKey in all.entries)
               && (plan.instanceKey in found ==> found[plan.instanceKey] == all.entries[plan.instanceKey])
  {
    hide FirstError, PlanInspect, IndexEntries, ReadInstanceEntry, CachedFrom, StateOf;
    var all := Merge(initial, code);
    var plan := PlanOf(p, c).value;
    PlanHasKeys(p, c);
    NoFirstError(initial.errors, plan.keys);
    forall k | k in plan.keys
      ensures k in all.latest && k !in all.errors
    {
      assert k in KeySet(plan.keys) && k in KeySet(ks);
      assert k in ks && k !in KeySet(cs);
    }
    CachedFromIsFiled(all, plan.keys, Response(0, []));
    IndexFacts(CachedGet(all, plan.keys).value.entries);
  }

  lemma StarvesWhenMisled(p: Prober, initial: BatchEntries, code: BatchEntries, c: NamedCheck, ks: seq<LedgerKey>,
                          cs: seq<LedgerKey>)
    requires Tables(p, initial, code, c, ks, cs)
    ensures Starves(p, Merge(initial, code), PlanOf(p, c).value) <==> Misled(p, code, cs, PlanOf(p, c).value)
  {
    hide FirstError, PlanInspect, IndexEntries, ReadInstanceEntry, CachedGet, SelfKeyed, StateOf, CodeKeyIn;
    FirstAnswer(p, initial, code, c, ks, cs);
    var all := Merge(initial, code);
    var plan := PlanOf(p, c).value;
    if plan.instanceKey in all.entries {
      var key := CodeKeyIn(p, all.entries[plan.instanceKey]);
      if key.Some? {
        CodeKeysAreCode(p, all.entries[plan.instanceKey]);
        assert key.value in KeySet(cs) <==> key.value in all.latest || key.value in all.errors;
      }
      if plan.instanceKey !in code.entries {
        StateShowsTheKey(p, initial, c);
      }
    }
  }

  lemma CodeKeysAreCode(p: Prober, entry: LedgerEntry)
    ensures CodeKeyIn(p, entry).Some? ==> CodeKeyIn(p, entry).value.ContractCode?
  {
  }

  lemma StateShowsTheKey(p: Prober, initial: BatchEntries, c: NamedCheck)
    requires StateOf(p, initial, c).error.None? && PlanOf(p, c).Ok? && PlanOf(p, c).value.instanceKey in initial.entries
    ensures ReadInstanceEntry(p, initial.entries[PlanOf(p, c).value.instanceKey]).Ok?
    ensures StateOf(p, initial, c).codeKey == CodeKeyIn(p, initial.entries[PlanOf(p, c).value.instanceKey])
  {
    hide PlanInspect, FirstError;
  }

  lemma MisledKey(p: Prober, initial: BatchEntries, code: BatchEntries, cs: seq<LedgerKey>, plan: InspectPlan)
    requires Misled(p, code, cs, plan)
    ensures plan.instanceKey in Merge(initial, code).entries
    ensures Merge(initial, code).entries[plan.instanceKey] == code.entries[plan.instanceKey]
  {
  }

  /** A starved report ends in the "not prefetched" error of the code key. */
  lemma StarvedChecksFail(p: Prober, all: BatchEntries, check: CheckRequest)
    requires PlanInspect(p, InspectRequestOf(check)).Ok?
    requires Starves(p, all, PlanInspect(p, InspectRequestOf(check)).value)
    ensures var plan := PlanInspect(p, InspectRequestOf(check)).value;
            var found := IndexEntries(CachedGet(all, plan.keys).value.entries);
            CheckContract(p, CachedRpc(all), check) == Err(NotPrefetched(CodeKeyIn(p, found[plan.instanceKey]).value))
  {
    hide PlanInspect, NotDeployed, JudgeReport, ReportAllData, Statuses, IndexEntries;
    var plan := PlanInspect(p, InspectRequestOf(check)).value;
    var found := IndexEntries(CachedGet(all, plan.keys).value.entries);
    var key := CodeKeyIn(p, found[plan.instanceKey]).value;
    NeverFetched(all, key);
  }

  lemma NeverFetched(all: BatchEntries, key: LedgerKey)
    requires key !in all.latest && key !in all.errors
    ensures CachedGet(all, [key]) == Err(NotPrefetched(key))
  {
  }

  // ---- the replay is never starved ------------------------------------------------------------

  /** The client returns entries of the keys it was asked for and no others. It may answer from a different
      ledger each time, leave entries out, or fail. */
  ghost predicate Solicited(rpc: Rpc) {
    forall keys, e | rpc(keys).Ok? && e in rpc(keys).value.entries :: e.key in keys
  }

  lemma {:induction false} SolicitedRounds(rpc: Rpc, keys: seq<LedgerKey>, chunks: nat)
    requires Solicited(rpc)
    ensures FetchFirst(rpc, keys, chunks).entries.Keys <= KeySet(keys)
  {
    hide Chunk, FetchChunk, Solicited;
    if chunks > 0 {
      var chunk := Chunk(keys, chunks - 1);
      SolicitedRounds(rpc, keys, chunks - 1);
      SolicitedChunk(rpc, chunk);
      ChunkKeys(keys, chunks - 1);
    }
  }

  lemma SolicitedChunk(rpc: Rpc, chunk: seq<LedgerKey>)
    requires Solicited(rpc)
    ensures FetchChunk(rpc, chunk).entries.Keys <= KeySet(chunk)
  {
    if rpc(chunk).Ok? {
      IndexFacts(rpc(chunk).value.entries);
    }
  }

  lemma ChunkKeys(keys: seq<LedgerKey>, n: nat)
    ensures KeySet(Chunk(keys, n)) <= KeySet(keys)
  {
  }

  /** Every request that a report on this plan makes is answered. */
  predicate NotStarved(p: Prober, client: Rpc, plan: InspectPlan) {
    && client(plan.keys).Ok?
    && var found := IndexEntries(client(plan.keys).value.entries);
       (plan.instanceKey in found ==>
          && ReadInstanceEntry(p, found[plan.instanceKey]).Ok?
          && var key := CodeKeyIn(p, found[plan.instanceKey]);
             (key.Some? ==> client([key.value]).Ok?))
  }

  /** Completeness: even when chunks fail, when the context ends in the middle of either round and when the two
      rounds see different networks, a check that reaches the replay has every request of its report answered
      from the tables, as long as the second round brings nothing unasked. */
  lemma ReplaysAreNeverStarved(p: Prober, first: Rpc, second: Rpc, checks: seq<NamedCheck>, i: nat, n: nat, m: nat)
    requires Solicited(second) && i < |checks|
    requires var initial := FetchUpTo(first, InitialKeys(p, checks), n);
             var code := FetchUpTo(second, CodeKeys(p, initial, checks), m);
             ReachesReplay(p, initial, code, checks[i])
    ensures var initial := FetchUpTo(first, InitialKeys(p, checks), n);
            var code := FetchUpTo(second, CodeKeys(p, initial, checks), m);
            PlanOf(p, checks[i]).Ok? && NotStarved(p, CachedRpc(Merge(initial, code)), PlanOf(p, checks[i]).value)
  {
    hide FetchUpTo, InitialKeys, CodeKeys, FirstError, PlanInspect, StateOf, SelfKeyed, CachedGet, CodeKeyIn, Starves;
    hide Solicited, NotStarved, BatchOutcome;
    var ks := InitialKeys(p, checks);
    var initial := FetchUpTo(first, ks, n);
    var cs := CodeKeys(p, initial, checks);
    var code := FetchUpTo(second, cs, m);
    ReplayedTables(p, first, second, checks, i, n, m);
    ReplaysAreStarvedExactly(p, first, second, checks, i, n, m);
    NothingUnasked(second, cs, m);
    InstanceKeysAreData(p, checks[i]);
    assert !Misled(p, code, cs, PlanOf(p, checks[i]).value);
    FirstAnswer(p, initial, code, checks[i], ks, cs);
    NotStarvedWhenNotMisled(p, initial, code, checks[i], ks, cs);
  }

  lemma NothingUnasked(second: Rpc, cs: seq<LedgerKey>, m: nat)
    requires Solicited(second) && (forall k | k in cs :: k.ContractCode?)
    ensures forall k | k in FetchUpTo(second, cs, m).entries :: k.ContractCode?
  {
    hide FetchFirst, Solicited;
    SolicitedRounds(second, cs, m);
    assert forall k | k in FetchFirst(second, cs, m).entries.Keys :: k in KeySet(cs);
  }

  lemma NotStarvedWhenNotMisled(p: Prober, initial: BatchEntries, code: BatchEntries, c: NamedCheck,
                                ks: seq<LedgerKey>, cs: seq<LedgerKey>)
    requires Tables(p, initial, code, c, ks, cs)
    requires forall k | k in code.entries :: k.ContractCode?
    requires CachedGet(Merge(initial, code), PlanOf(p, c).value.keys).Ok?
    requires !Starves(p, Merge(initial, code), PlanOf(p, c).value)
    ensures NotStarved(p, CachedRpc(Merge(initial, code)), PlanOf(p, c).value)
  {
    hide FirstError, PlanInspect, IndexEntries, ReadInstanceEntry, CachedFrom, SelfKeyed, StateOf, CodeKeyIn;
    FirstAnswer(p, initial, code, c, ks, cs);
    var all := Merge(initial, code);
    var plan := PlanOf(p, c).value;
    InstanceKeysAreData(p, c);
    if plan.instanceKey in all.entries {
      StateShowsTheKey(p, initial, c);
      var key := CodeKeyIn(p, all.entries[plan.instanceKey]);
      if key.Some? {
        MergeIsSelfKeyed(initial, code);
        CachedFromIsFiled(all, [key.value], Response(0, []));
      }
    }
  }

  lemma InstanceKeysAreData(p: Prober, c: NamedCheck)
    requires PlanOf(p, c).Ok?
    ensures PlanOf(p, c).value.instanceKey.ContractData?
  {
    hide EncodeDataKeys;
  }

  /** A server that answers every request with one entry more: the instance entry of the contract, whose code it
      shows under one hash when asked for it and under another when asked for something else. */
  function Unsolicited(contract: string, hash: string, other: string): Rpc {
    keys =>
      var shown := if InstanceKey(contract) in keys then hash else other;
      Ok(Response(1, [LedgerEntry(InstanceKey(contract), None, Instance(WasmCode(Some(shown)), None))]))
  }

  lemma FetchOneKey(rpc: Rpc, key: LedgerKey)
    ensures Fetch(rpc, [key]) == FetchChunk(rpc, [key])
  {
    assert ChunkCount([key]) == 1 && Chunk([key], 0) == [key];
    assert FetchFirst(rpc, [key], 1) == Merge(FetchFirst(rpc, [key], 0), FetchChunk(rpc, [key]));
    assert [key][ChunkStart([key], 1)..] == [];
    var first := FetchChunk(rpc, [key]);
    assert map[] + first.entries == first.entries;
    assert map[] + first.latest == first.latest && map[] + first.errors == first.errors;
    MergeNothing(first, map k | k in [key][ChunkStart([key], 1)..] :: ContextDone);
  }

  /** Such a server starves a replay: the entry nobody asked for in the second round replaces the instance entry of
      the first, and the replay asks for code that was never fetched. */
  lemma UnsolicitedEntriesStarveAReplay(p: Prober, c: NamedCheck, contract: string, hash: string, other: string)
    requires p.parseContract(c.check.contractId) == Some(contract) && c.check.dataKeys == []
    requires hash != other
    ensures var rpc := Unsolicited(contract, hash, other);
            var initial := Fetch(rpc, InitialKeys(p, [c]));
            var code := Fetch(rpc, CodeKeys(p, initial, [c]));
            BatchOutcome(p, initial, code, c) == Err(NotPrefetched(ContractCode(other)))
  {
    hide Fetch, PlanInspect, FirstError, AddNew, FetchChunk, CheckContract;
    var rpc := Unsolicited(contract, hash, other);
    var key := InstanceKey(contract);
    OnePlan(p, c, contract);
    OneKey([c], key, InitialKeys(p, []));
    var initial := Fetch(rpc, [key]);
    FetchOneKey(rpc, key);
    OneEntry(rpc, key);
    OneState(p, initial, c, key);
    PlanHasKeys(p, c);
    assert StateOf(p, initial, c) == CheckState(Some(ContractCode(hash)), None);
    OneKey([c], ContractCode(hash), CodeKeys(p, initial, []));
    assert CodeKeys(p, initial, [c]) == [ContractCode(hash)];
    var code := Fetch(rpc, [ContractCode(hash)]);
    FetchOneKey(rpc, ContractCode(hash));
    OneEntry(rpc, ContractCode(hash));
    var shown := rpc([ContractCode(hash)]).value.entries[0];
    StarvedReplay(p, Merge(initial, code), c, contract, other, shown);
  }

  lemma OnePlan(p: Prober, c: NamedCheck, contract: string)
    requires p.parseContract(c.check.contractId) == Some(contract) && c.check.dataKeys == []
    ensures PlanOf(p, c).Ok? && PlanKeys(p, c) == [InstanceKey(contract)]
  {
    assert KeysOf([]) == [];
    assert [InstanceKey(contract)] + [] == [InstanceKey(contract)];
  }

  lemma OneKey<T>(one: seq<T>, key: LedgerKey, before: seq<LedgerKey>)
    requires |one| == 1 && before == []
    ensures one[..0] == [] && AddNew(before, [key]) == [key]
  {
    assert [key][..0] == [] && AddNew(before, []) == [];
    assert [] + [key] == [key];
  }

  lemma OneState(p: Prober, initial: BatchEntries, c: NamedCheck, key: LedgerKey)
    requires PlanOf(p, c).Ok? && PlanKeys(p, c) == [key] && initial.errors == map[]
    ensures FirstError(initial.errors, PlanOf(p, c).value.keys).None?
  {
    NoFirstError(initial.errors, [key]);
  }

  lemma StarvedReplay(p: Prober, all: BatchEntries, c: NamedCheck, contract: string, other: string, shown: LedgerEntry)
    requires PlanOf(p, c).Ok?
    requires PlanKeys(p, c) == [InstanceKey(contract)]
    requires shown == LedgerEntry(InstanceKey(contract), None, Instance(WasmCode(Some(other)), None))
    requires all.errors == map[] && InstanceKey(contract) in all.latest && ContractCode(other) !in all.latest
    requires InstanceKey(contract) in all.entries && all.entries[InstanceKey(contract)] == shown
    ensures CheckContract(p, CachedRpc(all), c.check) == Err(NotPrefetched(ContractCode(other)))
  {
    hide PlanInspect, NotDeployed, JudgeReport, ReportAllData, Statuses;
    var key := InstanceKey(contract);
    PlanHasKeys(p, c);
    CachedOne(all, key);
    assert [shown][..0] == [] && IndexEntries([]) == map[];
    assert IndexEntries([shown]) == map[key := shown];
    assert CachedGet(all, [ContractCode(other)]) == Err(NotPrefetched(ContractCode(other)));
  }

  lemma CachedOne(all: BatchEntries, key: LedgerKey)
    requires key !in all.errors && key in all.latest && key in all.entries
    ensures CachedGet(all, [key]) == Ok(Response(all.latest[key], [all.entries[key]]))
  {
    var resp := Response(all.latest[key], [all.entries[key]]);
    assert [key][1..] == [] && CachedFrom(all, [], resp) == Ok(resp);
    assert [] + [all.entries[key]] == [all.entries[key]];
  }

  lemma OneEntry(rpc: Rpc, key: LedgerKey)
    requires rpc([key]).Ok? && |rpc([key]).value.entries| == 1
    ensures var e := rpc([key]).value.entries[0];
            FetchChunk(rpc, [key]) == BatchEntries(map[e.key := e], map[key := rpc([key]).value.latestLedger], map[])
  {
    var entries := rpc([key]).value.entries;
    assert entries[..0] == [];
    assert IndexEntries(entries) == IndexEntries([])[entries[0].key := entries[0]];
  }

  // ---- the limit of 200 keys --------------------------------------------------------------------

  /** A server that refuses requests for more keys than its limit. */
  function LimitedRpc(rpc: Rpc, limit: nat): Rpc {
    keys => if |keys| > limit then Err(TooManyKeys) else rpc(keys)
  }

  lemma LimitedChunk(rpc: Rpc, limit: nat, chunk: seq<LedgerKey>)
    requires |chunk| <= limit
    ensures FetchChunk(LimitedRpc(rpc, limit), chunk) == FetchChunk(rpc, chunk)
  {
  }

  lemma {:induction false} LimitedFirst(rpc: Rpc, limit: nat, keys: seq<LedgerKey>, chunks: nat)
    requires limit >= MAX_KEYS
    ensures FetchFirst(LimitedRpc(rpc, limit), keys, chunks) == FetchFirst(rpc, keys, chunks)
  {
    hide FetchChunk, Merge, Chunk;
    if chunks > 0 {
      LimitedFirst(rpc, limit, keys, chunks - 1);
      LimitedChunk(rpc, limit, Chunk(keys, chunks - 1));
    }
  }

  /** The batch never notices a limit of 200 keys or more. A separate check does: over its limit it is refused,
      while in a batch it runs; at or under the limit the two agree again. */
  lemma OnlyBatchesSplitTheirRequests(p: Prober, rpc: Rpc, limit: nat, checks: seq<NamedCheck>, c: NamedCheck)
    requires limit >= MAX_KEYS
    ensures Fetch(LimitedRpc(rpc, limit), InitialKeys(p, checks)) == Fetch(rpc, InitialKeys(p, checks))
    ensures forall initial ::
              Fetch(LimitedRpc(rpc, limit), CodeKeys(p, initial, checks)) == Fetch(rpc, CodeKeys(p, initial, checks))
    ensures CheckContract(p, LimitedRpc(rpc, limit), c.check) ==
            if PlanOf(p, c).Ok? && |c.check.dataKeys| >= limit then Err(TooManyKeys) else CheckContract(p, rpc, c.check)
  {
    hide InitialKeys, CodeKeys, FetchFirst, CheckContract;
    LimitedFetch(rpc, limit, InitialKeys(p, checks));
    forall initial
      ensures Fetch(LimitedRpc(rpc, limit), CodeKeys(p, initial, checks)) == Fetch(rpc, CodeKeys(p, initial, checks))
    {
      LimitedFetch(rpc, limit, CodeKeys(p, initial, checks));
    }
    LimitedCheck(p, rpc, limit, c);
  }

  lemma LimitedFetch(rpc: Rpc, limit: nat, keys: seq<LedgerKey>)
    requires limit >= MAX_KEYS
    ensures Fetch(LimitedRpc(rpc, limit), keys) == Fetch(rpc, keys)
  {
    hide FetchFirst;
    LimitedFirst(rpc, limit, keys, ChunkCount(keys));
  }

  lemma LimitedCheck(p: Prober, rpc: Rpc, limit: nat, c: NamedCheck)
    requires limit >= MAX_KEYS
    ensures CheckContract(p, LimitedRpc(rpc, limit), c.check) ==
            if PlanOf(p, c).Ok? && |c.check.dataKeys| >= limit then Err(TooManyKeys) else CheckContract(p, rpc, c.check)
  {
    hide IndexEntries, InspectDeployed, JudgeReport, PlanInspect, NotDeployed;
    if PlanOf(p, c).Ok? {
      PlanSize(p, c);
      if |c.check.dataKeys| < limit {
        var plan := PlanOf(p, c).value;
        var req := InspectRequestOf(c.check);
        forall found: map<LedgerKey, LedgerEntry>, latest, note | plan.instanceKey in found
          ensures InspectDeployed(p, LimitedRpc(rpc, limit), req, plan, found, latest, note) ==
                  InspectDeployed(p, rpc, req, plan, found, latest, note)
        {
          LimitedDeployed(p, rpc, limit, req, plan, found, latest, note);
        }
      }
    }
  }

  lemma LimitedDeployed(p: Prober, rpc: Rpc, limit: nat, req: InspectRequest, plan: InspectPlan,
                        found: map<LedgerKey, LedgerEntry>, latest: uint32, note: string)
    requires limit >= MAX_KEYS && plan.instanceKey in found
    ensures InspectDeployed(p, LimitedRpc(rpc, limit), req, plan, found, latest, note) ==
            InspectDeployed(p, rpc, req, plan, found, latest, note)
  {
    hide ReadInstanceEntry, ReportAllData, Statuses, InspectCodeOf;
    LimitedCode(p, rpc, limit, if ReadInstanceEntry(p, found[plan.instanceKey]).Ok?
                               then ReadInstanceEntry(p, found[plan.instanceKey]).value.wasmHash else None);
  }

  /** One key is never too many. */
  lemma LimitedCode(p: Prober, rpc: Rpc, limit: nat, hash: Option<string>)
    requires limit >= MAX_KEYS
    ensures InspectCodeOf(p, LimitedRpc(rpc, limit), hash) == InspectCodeOf(p, rpc, hash)
  {
  }

  lemma PlanSize(p: Prober, c: NamedCheck)
    requires PlanOf(p, c).Ok?
    ensures |PlanOf(p, c).value.keys| == 1 + |c.check.dataKeys|
  {
    EncodedCount(p, PlanOf(p, c).value.contract, c.check.dataKeys, PlanOf(p, c).value.durability);
  }

  lemma {:induction false} EncodedCount(p: Prober, contract: string, specs: seq<string>, durability: string)
    requires EncodeDataKeys(p, contract, specs, durability).Ok?
    ensures |EncodeDataKeys(p, contract, specs, durability).value| == |specs|
  {
    if specs != [] {
      EncodedCount(p, contract, specs[1..], durability);
    }
  }
}
