/** checkBatchPrefetched (internal/probe/batch.go): planning, the two rounds and the replay of each check. */
module Replay {
  import opened Wrappers
  import opened Inspect
  import opened Check
  import opened Batch
  import opened Prefetch

  // ---- what the rounds ask for, and what each check makes of the answers ------------------

  function PlanOf(p: Prober, c: NamedCheck): Result<InspectPlan, ProbeError> {
    PlanInspect(p, InspectRequestOf(c.check))
  }

  function PlanKeys(p: Prober, c: NamedCheck): seq<LedgerKey> {
    if PlanOf(p, c).Ok? then PlanOf(p, c).value.keys else []
  }

  /** keys followed by those of more that are not there yet. */
  function AddNew(keys: seq<LedgerKey>, more: seq<LedgerKey>): seq<LedgerKey> {
    if more == [] then keys
    else
      var before := AddNew(keys, more[..|more| - 1]);
      var key := more[|more| - 1];
      if key in before then before else before + [key]
  }

  function InitialKeys(p: Prober, checks: seq<NamedCheck>): seq<LedgerKey> {
    if checks == [] then []
    else AddNew(InitialKeys(p, checks[..|checks| - 1]), PlanKeys(p, checks[|checks| - 1]))
  }

  datatype CheckState = CheckState(codeKey: Option<LedgerKey>, error: Option<ProbeError>)

  /** The error of the first key that has one. */
  function FirstError(errors: map<LedgerKey, ProbeError>, keys: seq<LedgerKey>): Option<ProbeError> {
    if keys == [] then None
    else if keys[0] in errors then Some(errors[keys[0]])
    else FirstError(errors, keys[1..])
  }

  /** What is known of a check between the two rounds. */
  function StateOf(p: Prober, initial: BatchEntries, c: NamedCheck): CheckState {
    match PlanOf(p, c)
    case Err(e) => CheckState(None, Some(e))
    case Ok(plan) =>
      match FirstError(initial.errors, plan.keys)
      case Some(e) => CheckState(None, Some(e))
      case None =>
        if plan.instanceKey !in initial.entries then CheckState(None, None)
        else
          match ReadInstanceEntry(p, initial.entries[plan.instanceKey])
          case Err(e) => CheckState(None, Some(e))
          case Ok(facts) =>
            CheckState(if facts.wasmHash.None? then None else Some(ContractCode(facts.wasmHash.value)), None)
  }

  function CodeKeys(p: Prober, initial: BatchEntries, checks: seq<NamedCheck>): seq<LedgerKey> {
    if checks == [] then []
    else AddNew(CodeKeys(p, initial, checks[..|checks| - 1]), CodeKeyOf(p, initial, checks[|checks| - 1]))
  }

  function CodeKeyOf(p: Prober, initial: BatchEntries, c: NamedCheck): seq<LedgerKey> {
    var key := StateOf(p, initial, c).codeKey;
    if key.Some? then [key.value] else []
  }

  /** What the batch reports for a check, from the two rounds. */
  function BatchOutcome(p: Prober, initial: BatchEntries, code: BatchEntries, c: NamedCheck)
      : Result<CheckResult, ProbeError>
  {
    var state := StateOf(p, initial, c);
    var all := Merge(initial, code);
    if state.error.Some? then Err(state.error.value)
    else if state.codeKey.Some? && state.codeKey.value in all.errors then Err(all.errors[state.codeKey.value])
    else CheckContract(p, CachedRpc(all), c.check)
  }

  function AsItemOutcome(r: Result<CheckResult, ProbeError>): Result<CheckResult, ItemError> {
    match r
    case Ok(result) => Ok(result)
    case Err(e) => Err(Failed(e))
  }

  // ---- the loops ---------------------------------------------------------------------------

  /** Appending the keys not seen yet. */
  method AppendNew(keys: seq<LedgerKey>, seen: set<LedgerKey>, more: seq<LedgerKey>)
      returns (keys': seq<LedgerKey>, seen': set<LedgerKey>)
    requires seen == KeySet(keys)
    ensures keys' == AddNew(keys, more) && seen' == KeySet(keys')
  {
    keys', seen' := keys, seen;
    for i := 0 to |more|
      invariant keys' == AddNew(keys, more[..i]) && seen' == KeySet(keys')
    {
      assert more[..i + 1][..i] == more[..i];
      if more[i] !in seen' {
        seen' := seen' + {more[i]};
        keys' := keys' + [more[i]];
      }
    }
    assert more[..|more|] == more;
  }

  method PlanRound(ctx: Context, p: Prober, checks: seq<NamedCheck>)
      returns (ended: bool, plans: seq<Result<InspectPlan, ProbeError>>, keys: seq<LedgerKey>)
    requires checks != []
    modifies ctx
    ensures ended <==> ctx.DoneBy(old(ctx.now) + |checks|)
    ensures !ended ==> ctx.now == old(ctx.now) + |checks|
    ensures !ended ==> |plans| == |checks| && forall i | 0 <= i < |checks| :: plans[i] == PlanOf(p, checks[i])
    ensures !ended ==> keys == InitialKeys(p, checks)
  {
    hide PlanOf;
    plans, keys := [], [];
    var seen: set<LedgerKey> := {};
    for i := 0 to |checks|
      invariant ctx.now == old(ctx.now) + i && (i > 0 ==> !ctx.Done())
      invariant |plans| == i && forall k | 0 <= k < i :: plans[k] == PlanOf(p, checks[k])
      invariant keys == InitialKeys(p, checks[..i]) && seen == KeySet(keys)
    {
      ended := ctx.Err();
      if ended {
        return;
      }
      assert checks[..i + 1][..i] == checks[..i];
      var plan := PlanOf(p, checks[i]);
      plans := plans + [plan];
      keys, seen := AppendNew(keys, seen, if plan.Ok? then plan.value.keys else []);
    }
    assert checks[..|checks|] == checks;
    ended := false;
  }

  method FirstErrorLoop(errors: map<LedgerKey, ProbeError>, keys: seq<LedgerKey>) returns (e: Option<ProbeError>)
    ensures e == FirstError(errors, keys)
  {
    assert keys[0..] == keys;
    for i := 0 to |keys|
      invariant FirstError(errors, keys) == FirstError(errors, keys[i..])
    {
      assert keys[i..][0] == keys[i] && keys[i..][1..] == keys[i + 1..];
      if keys[i] in errors {
        return Some(errors[keys[i]]);
      }
    }
    return None;
  }

  method StateStep(p: Prober, c: NamedCheck, plan: Result<InspectPlan, ProbeError>, initial: BatchEntries)
      returns (state: CheckState)
    requires plan == PlanOf(p, c)
    ensures state == StateOf(p, initial, c)
  {
    hide PlanOf;
    if plan.Err? {
      return CheckState(None, Some(plan.error));
    }
    var e := FirstErrorLoop(initial.errors, plan.value.keys);
    if e.Some? {
      return CheckState(None, e);
    }
    if plan.value.instanceKey !in initial.entries {
      return CheckState(None, None);
    }
    var facts := ReadInstanceEntry(p, initial.entries[plan.value.instanceKey]);
    if facts.Err? {
      return CheckState(None, Some(facts.error));
    }
    if facts.value.wasmHash.None? {
      return CheckState(None, None);
    }
    return CheckState(Some(ContractCode(facts.value.wasmHash.value)), None);
  }

  method CodeRound(p: Prober, checks: seq<NamedCheck>, plans: seq<Result<InspectPlan, ProbeError>>,
                   initial: BatchEntries)
      returns (states: seq<CheckState>, keys: seq<LedgerKey>)
    requires |plans| == |checks| && forall i | 0 <= i < |checks| :: plans[i] == PlanOf(p, checks[i])
    ensures |states| == |checks| && forall i | 0 <= i < |checks| :: states[i] == StateOf(p, initial, checks[i])
    ensures keys == CodeKeys(p, initial, checks)
  {
    hide PlanOf, StateOf;
    states, keys := [], [];
    var seen: set<LedgerKey> := {};
    for i := 0 to |checks|
      invariant |states| == i && forall k | 0 <= k < i :: states[k] == StateOf(p, initial, checks[k])
      invariant keys == CodeKeys(p, initial, checks[..i]) && seen == KeySet(keys)
    {
      assert checks[..i + 1][..i] == checks[..i];
      var state := StateStep(p, checks[i], plans[i], initial);
      states := states + [state];
      keys, seen := AppendNew(keys, seen, if state.codeKey.Some? then [state.codeKey.value] else []);
    }
    assert checks[..|checks|] == checks;
  }

  /** The batch replays this check instead of reporting an error of its keys. */
  predicate ReachesReplay(p: Prober, initial: BatchEntries, code: BatchEntries, c: NamedCheck) {
    var state := StateOf(p, initial, c);
    state.error.None? && (state.codeKey.Some? ==> state.codeKey.value !in Merge(initial, code).errors)
  }

  /** Check under a context, with the error it would end in if it noticed that the context is done: a moment passes,
      and then it is its own outcome unless the context is done and it notices. */
  method RunCheck(ctx: Context, p: Prober, rpc: Rpc, check: CheckRequest, noticed: Option<ProbeError>)
      returns (outcome: Result<CheckResult, ProbeError>)
    modifies ctx
    ensures ctx.now == old(ctx.now) + 1
    ensures outcome == if ctx.Done() && noticed.Some? then Err(noticed.value) else CheckContract(p, rpc, check)
  {
    outcome := CheckContract(p, rpc, check);
    ctx.Pass();
    if ctx.Done() && noticed.Some? {
      outcome := Err(noticed.value);
    }
  }

  /** The item of a check: what the rounds make of it, or the error in which its replay was cut short. */
  function ItemAfter(p: Prober, initial: BatchEntries, code: BatchEntries, c: NamedCheck, cut: Option<ProbeError>)
      : BatchItem
  {
    if cut.Some? && ReachesReplay(p, initial, code, c) then ItemOf(c, Err(Failed(cut.value)))
    else ItemOf(c, AsItemOutcome(BatchOutcome(p, initial, code, c)))
  }

  lemma ItemsAfterHaveOneOutcome(p: Prober, initial: BatchEntries, code: BatchEntries, c: NamedCheck,
                                 cut: Option<ProbeError>)
    ensures HasOneOutcome(ItemAfter(p, initial, code, c, cut)) && IsItemFor(ItemAfter(p, initial, code, c, cut), c)
  {
    hide BatchOutcome, ReachesReplay;
  }

  /** Each check takes two moments, the look at the context and its own. Only the last can be cut short in a report:
      after any other the context is looked at again. */
  method ReplayRound(ctx: Context, p: Prober, checks: seq<NamedCheck>, states: seq<CheckState>,
                     initial: BatchEntries, code: BatchEntries, noticed: Option<ProbeError>)
      returns (r: Result<seq<BatchItem>, ProbeError>)
    requires checks != []
    requires |states| == |checks| && forall i | 0 <= i < |checks| :: states[i] == StateOf(p, initial, checks[i])
    modifies ctx
    ensures r.Err? <==> ctx.DoneBy(old(ctx.now) + 2 * |checks| - 1)
    ensures r.Err? ==> r.error == ContextDone
    ensures r.Ok? ==> |r.value| == |checks|
    ensures r.Ok? ==> forall i | 0 <= i < |checks| ::
              r.value[i] == ItemAfter(p, initial, code, checks[i],
                                      Cut(ctx.DoneBy(old(ctx.now) + 2 * |checks|) && i == |checks| - 1, noticed))
  {
    hide StateOf, CheckContract, Merge;
    var all := Merge(initial, code);
    var items: seq<BatchItem> := [];
    for i := 0 to |checks|
      invariant ctx.now == old(ctx.now) + 2 * i
      invariant i > 0 ==> !ctx.DoneBy(old(ctx.now) + 2 * i - 1)
      invariant |items| == i
      invariant forall k | 0 <= k < i ::
                  items[k] == ItemAfter(p, initial, code, checks[k], Cut(ctx.Done() && k == i - 1, noticed))
    {
      var ended := ctx.Err();
      if ended {
        return Err(ContextDone);
      }
      var outcome: Result<CheckResult, ProbeError>;
      if states[i].error.Some? {
        outcome := Err(states[i].error.value);
        ctx.Pass();
      } else if states[i].codeKey.Some? && states[i].codeKey.value in all.errors {
        outcome := Err(all.errors[states[i].codeKey.value]);
        ctx.Pass();
      } else {
        outcome := RunCheck(ctx, p, CachedRpc(all), checks[i].check, noticed);
      }
      items := items + [ItemOf(checks[i], AsItemOutcome(outcome))];
    }
    return Ok(items);
  }

  function Cut(done: bool, noticed: Option<ProbeError>): Option<ProbeError> {
    if done then noticed else None
  }

  /** The moment of the last look at the context: one for each plan, one for each chunk of either round, and two for
      each check but the last, of which only the look counts. */
  function LastLook(p: Prober, rpc: Rpc, checks: seq<NamedCheck>): nat
    requires checks != []
  {
    var initial := Fetch(rpc, InitialKeys(p, checks));
    var code := CodeKeys(p, initial, checks);
    |checks| + ChunkCount(InitialKeys(p, checks)) + ChunkCount(code) + 2 * |checks| - 1
  }

  /** checkBatchPrefetched. It fails exactly when its context is done by the last look at it. Otherwise the report is
      what the two complete rounds make of each check, in input order; only, if the context ends behind the last
      look and the last check is replayed and notices, that check's item is the error it ends in. */
  method CheckBatchPrefetched(ctx: Context, p: Prober, rpc: Rpc, checks: seq<NamedCheck>, noticed: Option<ProbeError>)
      returns (r: Result<BatchResult, ProbeError>)
    requires checks != []
    modifies ctx
    ensures r.Err? <==> ctx.DoneBy(old(ctx.now) + LastLook(p, rpc, checks))
    ensures r.Err? ==> r.error == ContextDone
    ensures r.Ok? ==> |r.value.items| == |checks| && forall i | 0 <= i < |checks| ::
              HasOneOutcome(r.value.items[i]) && IsItemFor(r.value.items[i], checks[i])
    ensures r.Ok? ==>
              var initial := Fetch(rpc, InitialKeys(p, checks));
              var code := Fetch(rpc, CodeKeys(p, initial, checks));
              var ended := ctx.DoneBy(old(ctx.now) + LastLook(p, rpc, checks) + 1);
              && |r.value.items| == |checks|
              && IsSummaryOf(r.value, r.value.items)
              && forall i | 0 <= i < |checks| ::
                   r.value.items[i] == ItemAfter(p, initial, code, checks[i], Cut(ended && i == |checks| - 1, noticed))
  {
    hide FetchUpTo, InitialKeys, CodeKeys, StateOf, PlanOf, IsSummaryOf, ItemAfter, IsItemFor;
    var ended, plans, initialKeys := PlanRound(ctx, p, checks);
    if ended {
      return Err(ContextDone);
    }
    var initial, _, _ := FetchBatchEntries(ctx, rpc, initialKeys);
    var states, codeKeys := CodeRound(p, checks, plans, initial);
    var code, _, _ := FetchBatchEntries(ctx, rpc, codeKeys);
    var items :- ReplayRound(ctx, p, checks, states, initial, code, noticed);
    ghost var behind := ctx.DoneBy(old(ctx.now) + LastLook(p, rpc, checks) + 1);
    forall i | 0 <= i < |items|
      ensures HasOneOutcome(items[i]) && IsItemFor(items[i], checks[i])
    {
      ItemsAfterHaveOneOutcome(p, initial, code, checks[i], Cut(behind && i == |checks| - 1, noticed));
    }
    var result := Summarize(items);
    assert result.items == items by {
      SummaryKeepsItems(result, items);
    }
    return Ok(result);
  }

  lemma SummaryKeepsItems(r: BatchResult, items: seq<BatchItem>)
    requires IsSummaryOf(r, items)
    ensures r.items == items
  {
  }
}
