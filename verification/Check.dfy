/** The health check and its verdict: internal/probe/check.go. */
module Check {
  import opened Wrappers
  import opened Words
  import opened Decimal
  import opened Health
  import opened ScVals
  import opened Inspect

  datatype CheckRequest = CheckRequest(
    contractId: string,
    fn: string,
    args: seq<string>,
    expected: string,
    dataKeys: seq<string>,
    dataDurability: string)

  datatype Outcome = Pass | Warn | Fail | Skip

  datatype Item = Item(name: string, outcome: Outcome)

  datatype CheckResult = CheckResult(
    contractId: string,
    ok: bool,
    status: Status,
    checks: seq<Item>,
    inspect: InspectResult,
    simulate: Option<SimulateResult>,
    latestLedger: uint32,
    closeTimeNote: string)

  // ---- comparing a return value with the expected one ----------------------------------

  /** compareScVals: whether the values match, and whether they differ in type. XDR serializes values of one
      type injectively, so equal bytes are equal values. */
  function CompareScVals(expected: ScVal, actual: ScVal): (bool, bool) {
    var e, a := ToBigInt(expected), ToBigInt(actual);
    if e.Some? || a.Some? then
      if e.Some? && a.Some? then (e.value == a.value, false) else (false, true)
    else if !SameArm(expected, actual) then (false, true)
    else (expected == actual, false)
  }

  /** The two values have the same xdr.ScValType. */
  predicate SameArm(x: ScVal, y: ScVal) {
    match x
    case Void => y.Void?
    case Bool(_) => y.Bool?
    case U32(_) => y.U32?
    case I32(_) => y.I32?
    case U64(_) => y.U64?
    case I64(_) => y.I64?
    case Timepoint(_) => y.Timepoint?
    case Duration(_) => y.Duration?
    case U128(_, _) => y.U128?
    case I128(_, _) => y.I128?
    case U256(_, _, _, _) => y.U256?
    case I256(_, _, _, _) => y.I256?
    case Bytes(_) => y.Bytes?
    case Str(_) => y.Str?
    case Sym(_) => y.Sym?
    case Address(_) => y.Address?
    case Vec(_) => y.Vec?
    case Map(_) => y.Map?
    case ContractError(_) => y.ContractError?
    case LedgerKeyContractInstance => y.LedgerKeyContractInstance?
    case LedgerKeyNonce(_) => y.LedgerKeyNonce?
    case Other(tag) => y.Other? && y.tag == tag
  }

  predicate Matches(x: ScVal, y: ScVal) {
    CompareScVals(x, y).0
  }

  /** Two values match exactly when they are the same number, or neither is a number and they are equal. */
  lemma MatchMeaning(x: ScVal, y: ScVal)
    ensures Matches(x, y) <==> if ToBigInt(x).Some? then ToBigInt(x) == ToBigInt(y) else ToBigInt(y).None? && x == y
  {
    hide ToBigInt;
    ArmOfSelf(x);
  }

  lemma ArmOfSelf(x: ScVal)
    ensures SameArm(x, x)
  {
  }

  /** Matching is an equivalence relation. */
  lemma MatchingIsAnEquivalence(x: ScVal, y: ScVal, z: ScVal)
    ensures Matches(x, x)
    ensures Matches(x, y) ==> Matches(y, x)
    ensures Matches(x, y) && Matches(y, z) ==> Matches(x, z)
  {
    hide Matches, ToBigInt;
    MatchMeaning(x, x);
    MatchMeaning(x, y);
    MatchMeaning(y, x);
    MatchMeaning(y, z);
    MatchMeaning(x, z);
  }

  /** A number matches itself whatever integer types the two sides were written in, and two encoded
      literals match only when they are the same number. */
  lemma IntegersMatchByValue(t: IntType, u: IntType, x: string, y: string)
    requires EncodeInteger(t, x).Ok? && EncodeInteger(u, y).Ok?
    ensures Matches(EncodeInteger(t, x).value, EncodeInteger(u, y).value) <==> ParseInteger(x) == ParseInteger(y)
  {
    IntegerEncodingIsFaithful(t, x, ParseInteger(x).value);
    IntegerEncodingIsFaithful(u, y, ParseInteger(y).value);
  }

  lemma NumbersMatchAcrossWidths(t: IntType, u: IntType, n: int)
    requires t.Holds(n) && u.Holds(n)
    ensures EncodeInteger(t, FormatInt(n)).Ok? && EncodeInteger(u, FormatInt(n)).Ok?
    ensures Matches(EncodeInteger(t, FormatInt(n)).value, EncodeInteger(u, FormatInt(n)).value)
  {
    IntegerRoundTrip(t, n);
    IntegerRoundTrip(u, n);
  }

  /** A type mismatch is reported exactly when the two values cannot match by type: one is an integer and
      the other is not, or neither is and their types differ. */
  lemma MismatchIsByType(x: ScVal, y: ScVal)
    ensures CompareScVals(x, y).1 <==>
            (ToBigInt(x).Some? != ToBigInt(y).Some?) || (ToBigInt(x).None? && ToBigInt(y).None? && !SameArm(x, y))
    ensures !(CompareScVals(x, y).0 && CompareScVals(x, y).1)
  {
  }

  // ---- the steps -------------------------------------------------------------------------

  /** What one step's Run returns: its checks, with errStop or another error. */
  datatype StepResult = Continue(items: seq<Item>) | Stop(items: seq<Item>) | Abort(error: ProbeError)

  datatype Step = Deployed | InstanceTtl | CodeTtl | DataTtl | Simulate | Expect

  /** checkSteps, in order. */
  const STEPS: seq<Step> := [Deployed, InstanceTtl, CodeTtl, DataTtl, Simulate, Expect]

  function TtlOutcome(s: Status): Outcome {
    match s
    case Healthy => Pass
    case Unknown => Pass
    case Warning => Warn
    case _ => Fail
  }

  function TtlItem(name: string, entry: EntryReport): Item {
    Item(name, TtlOutcome(entry.ttl.status))
  }

  function ExpectItem(p: Prober, req: CheckRequest, sim: Option<SimulateResult>): Item {
    var outcome :=
      if req.fn == "" then Fail
      else if sim.None? || !sim.value.success then Fail
      else
        match p.encode(req.expected)
        case Err(_) => Fail
        case Ok(expected) =>
          match sim.value.returnXdr
          case BadReturnValue => Fail
          case NoReturnValue => if CompareScVals(expected, Void).0 then Pass else Fail
          case ReturnValue(actual) => if CompareScVals(expected, actual).0 then Pass else Fail;
    Item("expect", outcome)
  }

  function RunStep(p: Prober, step: Step, req: CheckRequest, inspect: InspectResult, sim: Option<SimulateResult>)
      : StepResult
  {
    match step
    case Deployed =>
      if !inspect.deployed then Stop([Item("deployed", Fail)]) else Continue([Item("deployed", Pass)])
    case InstanceTtl => Continue([TtlItem("instance_ttl", inspect.instance)])
    case CodeTtl =>
      Continue([if inspect.code.Some? then TtlItem("code_ttl", inspect.code.value) else Item("code_ttl", Skip)])
    case DataTtl =>
      Continue(seq(|inspect.data|, i requires 0 <= i < |inspect.data| =>
        TtlItem("data_ttl:" + inspect.data[i].key, inspect.data[i])))
    case Simulate =>
      if req.fn == "" then Continue([Item("simulate", Skip)])
      else if sim.None? then Abort(StepError)
      else Continue([Item("simulate", if sim.value.success then Pass else Fail)])
    case Expect =>
      if req.expected == "" then Continue([]) else Continue([ExpectItem(p, req, sim)])
  }

  function RunSteps(p: Prober, steps: seq<Step>, req: CheckRequest, inspect: InspectResult,
                    sim: Option<SimulateResult>): Result<seq<Item>, ProbeError>
  {
    if steps == [] then Ok([])
    else
      match RunStep(p, steps[0], req, inspect, sim)
      case Abort(e) => Err(e)
      case Stop(items) => Ok(items)
      case Continue(items) => Prepend(items, RunSteps(p, steps[1..], req, inspect, sim))
  }

  predicate NoneFailed(items: seq<Item>) {
    forall i | 0 <= i < |items| :: items[i].outcome != Fail
  }

  // ---- Check ---------------------------------------------------------------------------------

  function InspectRequestOf(req: CheckRequest): InspectRequest {
    InspectRequest(req.contractId, req.dataKeys, req.dataDurability, 0)
  }

  function GatherSimulation(p: Prober, req: CheckRequest, inspect: InspectResult)
      : Result<Option<SimulateResult>, ProbeError>
  {
    if inspect.deployed && req.fn != "" then
      var sim :- p.simulate(SimulateRequest(req.contractId, req.fn, req.args));
      Ok(Some(sim))
    else Ok(None)
  }

  /** Check over a ledger client and no inspect cache. */
  function CheckContract(p: Prober, rpc: Rpc, req: CheckRequest): Result<CheckResult, ProbeError> {
    var inspect :- InspectUncached(p, rpc, InspectRequestOf(req));
    JudgeReport(p, req, inspect)
  }

  function JudgeReport(p: Prober, req: CheckRequest, inspect: InspectResult): Result<CheckResult, ProbeError> {
    var sim :- GatherSimulation(p, req, inspect);
    var items :- RunSteps(p, STEPS, req, inspect, sim);
    Ok(CheckResult(req.contractId, NoneFailed(items), inspect.status, items, inspect, sim,
                   inspect.latestLedger, inspect.closeTimeNote))
  }

  /** The first loop of Check: run the steps until one stops or aborts. */
  method RunStepsLoop(p: Prober, req: CheckRequest, inspect: InspectResult, sim: Option<SimulateResult>)
      returns (r: Result<seq<Item>, ProbeError>)
    ensures r == RunSteps(p, STEPS, req, inspect, sim)
  {
    hide RunStep;
    var checks := [];
    PrependToAll(checks, [], RunSteps(p, STEPS, req, inspect, sim));
    assert STEPS[0..] == STEPS;
    for i := 0 to |STEPS|
      invariant RunSteps(p, STEPS, req, inspect, sim) == Prepend(checks, RunSteps(p, STEPS[i..], req, inspect, sim))
    {
      assert STEPS[i..][0] == STEPS[i] && STEPS[i..][1..] == STEPS[i + 1..];
      match RunStep(p, STEPS[i], req, inspect, sim) {
        case Abort(e) =>
          return Err(e);
        case Stop(items) =>
          return Ok(checks + items);
        case Continue(items) =>
          PrependToAll(checks, items, RunSteps(p, STEPS[i + 1..], req, inspect, sim));
          checks := checks + items;
      }
    }
    assert STEPS[|STEPS|..] == [] && checks + [] == checks;
    return Ok(checks);
  }

  /** The second loop: OK until a failed check is found. */
  method FindFailure(checks: seq<Item>) returns (ok: bool)
    ensures ok == NoneFailed(checks)
  {
    ok := true;
    for k := 0 to |checks|
      invariant NoneFailed(checks[..k])
    {
      if checks[k].outcome == Fail {
        return false;
      }
      assert checks[..k + 1] == checks[..k] + [checks[k]];
    }
    assert checks[..|checks|] == checks;
  }

  // ---- the verdict -----------------------------------------------------------------------------

  /** The simulated call returned what the request expects. */
  predicate ExpectationMet(p: Prober, req: CheckRequest, sim: Option<SimulateResult>) {
    && req.fn != "" && sim.Some? && sim.value.success
    && p.encode(req.expected).Ok?
    && match sim.value.returnXdr
       case BadReturnValue => false
       case NoReturnValue => Matches(p.encode(req.expected).value, Void)
       case ReturnValue(actual) => Matches(p.encode(req.expected).value, actual)
  }

  /** A report whose status is what Worst makes of its parts, as InspectUncached builds it. */
  predicate StatusIsWorst(inspect: InspectResult) {
    if inspect.deployed then inspect.status == Worst(Statuses(inspect.instance, inspect.code, inspect.data))
    else inspect.status == Missing
  }

  lemma ReportsCarryTheirWorstStatus(p: Prober, rpc: Rpc, req: InspectRequest)
    requires InspectUncached(p, rpc, req).Ok?
    ensures StatusIsWorst(InspectUncached(p, rpc, req).value)
  {
  }

  lemma FailuresOfConcat(a: seq<Item>, b: seq<Item>)
    ensures NoneFailed(a + b) <==> NoneFailed(a) && NoneFailed(b)
  {
    assert forall i | 0 <= i < |a| :: (a + b)[i] == a[i];
    assert forall i | 0 <= i < |b| :: (a + b)[|a| + i] == b[i];
  }

  lemma OneItem(item: Item)
    ensures NoneFailed([item]) <==> item.outcome != Fail
    ensures NoneFailed([])
  {
    assert [item][0] == item;
  }

  /** The step ran through and none of its checks failed. */
  predicate StepPasses(p: Prober, step: Step, req: CheckRequest, inspect: InspectResult, sim: Option<SimulateResult>) {
    RunStep(p, step, req, inspect, sim).Continue? && NoneFailed(RunStep(p, step, req, inspect, sim).items)
  }

  lemma StepContinues(p: Prober, rest: seq<Step>, step: Step, req: CheckRequest, inspect: InspectResult,
                      sim: Option<SimulateResult>)
    requires inspect.deployed && (req.fn != "" ==> sim.Some?)
    requires RunSteps(p, rest, req, inspect, sim).Ok?
    ensures var all := RunSteps(p, [step] + rest, req, inspect, sim);
            && all.Ok?
            && (NoneFailed(all.value) <==> StepPasses(p, step, req, inspect, sim)
                                           && NoneFailed(RunSteps(p, rest, req, inspect, sim).value))
  {
    hide ExpectItem, TtlItem, NoneFailed;
    assert ([step] + rest)[1..] == rest;
    FailuresOfConcat(RunStep(p, step, req, inspect, sim).items, RunSteps(p, rest, req, inspect, sim).value);
  }

  /** A deployed contract runs all six steps, and passes when each of them does. */
  lemma DeployedRunsEveryStep(p: Prober, req: CheckRequest, inspect: InspectResult, sim: Option<SimulateResult>)
    requires inspect.deployed && (req.fn != "" ==> sim.Some?)
    ensures var all := RunSteps(p, STEPS, req, inspect, sim);
            && all.Ok?
            && (NoneFailed(all.value) <==>
                && StepPasses(p, Deployed, req, inspect, sim)
                && StepPasses(p, InstanceTtl, req, inspect, sim)
                && StepPasses(p, CodeTtl, req, inspect, sim)
                && StepPasses(p, DataTtl, req, inspect, sim)
                && StepPasses(p, Simulate, req, inspect, sim)
                && StepPasses(p, Expect, req, inspect, sim))
  {
    hide StepPasses, NoneFailed;
    var rest := [];
    assert RunSteps(p, rest, req, inspect, sim) == Ok([]);
    OneItem(Item("", Pass));
    StepContinues(p, rest, Expect, req, inspect, sim);
    rest := [Expect] + rest;
    StepContinues(p, rest, Simulate, req, inspect, sim);
    rest := [Simulate] + rest;
    StepContinues(p, rest, DataTtl, req, inspect, sim);
    rest := [DataTtl] + rest;
    StepContinues(p, rest, CodeTtl, req, inspect, sim);
    rest := [CodeTtl] + rest;
    StepContinues(p, rest, InstanceTtl, req, inspect, sim);
    rest := [InstanceTtl] + rest;
    StepContinues(p, rest, Deployed, req, inspect, sim);
    assert [Deployed] + rest == STEPS;
  }

  /** One entry passes its TTL check exactly when it is no worse than a warning. */
  lemma TtlPassesUpToWarning(s: Status)
    ensures TtlOutcome(s) != Fail <==> Severity(s) <= 2
  {
  }

  /** An entry fails from the ledger that is its critical threshold before its last one on, and is warned about
      in the ledgers before that, back to its warning threshold. */
  lemma EntriesFailFromTheirCriticalLedger(last: uint32, current: uint32, d: string, t: Thresholds)
    ensures var outcome := TtlOutcome(Evaluate(Some(last), current, d, t).status);
            && (outcome == Fail <==> current >= last - t.critical)
            && (outcome == Warn <==> last - t.warn <= current < last - t.critical)
  {
  }

  predicate Mild(s: Status) {
    Severity(s) <= 2
  }

  lemma TtlSteps(p: Prober, req: CheckRequest, inspect: InspectResult, sim: Option<SimulateResult>)
    ensures StepPasses(p, InstanceTtl, req, inspect, sim) <==> Mild(inspect.instance.ttl.status)
    ensures StepPasses(p, CodeTtl, req, inspect, sim) <==> (inspect.code.Some? ==> Mild(inspect.code.value.ttl.status))
    ensures StepPasses(p, DataTtl, req, inspect, sim) <==>
            forall i | 0 <= i < |inspect.data| :: Mild(inspect.data[i].ttl.status)
  {
    OneItem(TtlItem("instance_ttl", inspect.instance));
    OneItem(if inspect.code.Some? then TtlItem("code_ttl", inspect.code.value) else Item("code_ttl", Skip));
    DataStep(p, req, inspect, sim);
  }

  lemma DataStep(p: Prober, req: CheckRequest, inspect: InspectResult, sim: Option<SimulateResult>)
    ensures StepPasses(p, DataTtl, req, inspect, sim) <==>
            forall i | 0 <= i < |inspect.data| :: Mild(inspect.data[i].ttl.status)
  {
    var items := RunStep(p, DataTtl, req, inspect, sim).items;
    forall i | 0 <= i < |items|
      ensures items[i].outcome != Fail <==> Mild(inspect.data[i].ttl.status)
    {
      TtlPassesUpToWarning(inspect.data[i].ttl.status);
    }
  }

  /** Where the statuses of a report's parts stand. */
  lemma StatusPositions(instance: EntryReport, code: Option<EntryReport>, data: seq<EntryReport>)
    ensures var ss := Statuses(instance, code, data);
            var c := if code.Some? then 1 else 0;
            && |ss| == 1 + c + |data|
            && ss[0] == instance.ttl.status
            && (code.Some? ==> ss[1] == code.value.ttl.status)
            && forall i | 1 + c <= i < |ss| :: ss[i] == data[i - 1 - c].ttl.status
  {
  }

  lemma WorstIsMild(inspect: InspectResult)
    ensures Mild(Worst(Statuses(inspect.instance, inspect.code, inspect.data))) <==>
            && Mild(inspect.instance.ttl.status)
            && (inspect.code.Some? ==> Mild(inspect.code.value.ttl.status))
            && forall i | 0 <= i < |inspect.data| :: Mild(inspect.data[i].ttl.status)
  {
    hide Worst, Statuses;
    var ss := Statuses(inspect.instance, inspect.code, inspect.data);
    StatusPositions(inspect.instance, inspect.code, inspect.data);
    WorstIsMildWhenAllAre(ss);
    var c := if inspect.code.Some? then 1 else 0;
    forall i | 0 <= i < |inspect.data|
      ensures inspect.data[i].ttl.status == ss[1 + c + i]
    {
    }
  }

  lemma WorstIsMildWhenAllAre(ss: seq<Status>)
    ensures Mild(Worst(ss)) <==> forall i | 0 <= i < |ss| :: Mild(ss[i])
  {
    hide Worst;
    if forall i | 0 <= i < |ss| :: Mild(ss[i]) {
      assert Worst(ss) == Healthy || Worst(ss) in ss;
    } else {
      var i :| 0 <= i < |ss| && !Mild(ss[i]);
      assert ss[i] in ss;
    }
  }

  lemma CallSteps(p: Prober, req: CheckRequest, inspect: InspectResult, sim: Option<SimulateResult>)
    requires inspect.deployed && (req.fn != "" ==> sim.Some?)
    ensures StepPasses(p, Deployed, req, inspect, sim)
    ensures StepPasses(p, Simulate, req, inspect, sim) <==> (req.fn != "" ==> sim.value.success)
    ensures StepPasses(p, Expect, req, inspect, sim) <==> (req.expected != "" ==> ExpectationMet(p, req, sim))
  {
    hide CompareScVals, NoneFailed;
    OneItem(Item("deployed", Pass));
    OneItem(Item("simulate", if req.fn == "" then Skip else if sim.value.success then Pass else Fail));
    OneItem(ExpectItem(p, req, sim));
  }

  /** The verdict: a check is OK exactly when no inspected entry is worse than a warning, the call succeeded
      if one was asked for, and it returned the expected value if one was given. */
  lemma VerdictIsCharacterised(p: Prober, rpc: Rpc, req: CheckRequest)
    requires CheckContract(p, rpc, req).Ok?
    ensures var r := CheckContract(p, rpc, req).value;
            r.ok <==>
              && Severity(r.status) <= 2
              && (req.fn != "" ==> r.simulate.Some? && r.simulate.value.success)
              && (req.expected != "" ==> ExpectationMet(p, req, r.simulate))
  {
    hide StepPasses, InspectUncached, RunSteps, NoneFailed;
    var r := CheckContract(p, rpc, req).value;
    ReportsCarryTheirWorstStatus(p, rpc, InspectRequestOf(req));
    if r.inspect.deployed {
      DeployedRunsEveryStep(p, req, r.inspect, r.simulate);
      TtlSteps(p, req, r.inspect, r.simulate);
      WorstIsMild(r.inspect);
      CallSteps(p, req, r.inspect, r.simulate);
    } else {
      MissingContractsFail(p, req, r.inspect);
    }
  }

  lemma MissingContractsFail(p: Prober, req: CheckRequest, inspect: InspectResult)
    requires !inspect.deployed
    ensures RunSteps(p, STEPS, req, inspect, None) == Ok([Item("deployed", Fail)])
    ensures !NoneFailed([Item("deployed", Fail)])
  {
    assert [Item("deployed", Fail)][0].outcome == Fail;
  }

  // ---- the list of checks ----------------------------------------------------------------------------

  /** An entry passes unless it is about to expire or worse; a warning shows. */
  function OutcomeFor(s: Status): Outcome {
    if s in {Healthy, Unknown} then Pass else if s == Warning then Warn else Fail
  }

  /** The checks that a step contributes for a deployed contract. */
  function ListedBy(p: Prober, step: Step, req: CheckRequest, inspect: InspectResult, sim: Option<SimulateResult>)
      : seq<Item>
  {
    match step
    case Deployed => [Item("deployed", Pass)]
    case InstanceTtl => [Item("instance_ttl", OutcomeFor(inspect.instance.ttl.status))]
    case CodeTtl =>
      [Item("code_ttl", if inspect.code.None? then Skip else OutcomeFor(inspect.code.value.ttl.status))]
    case DataTtl =>
      seq(|inspect.data|, i requires 0 <= i < |inspect.data| =>
        Item("data_ttl:" + inspect.data[i].key, OutcomeFor(inspect.data[i].ttl.status)))
    case Simulate =>
      [Item("simulate", if req.fn == "" then Skip else if sim.Some? && sim.value.success then Pass else Fail)]
    case Expect =>
      if req.expected == "" then [] else [Item("expect", if ExpectationMet(p, req, sim) then Pass else Fail)]
  }

  function Listed(p: Prober, steps: seq<Step>, req: CheckRequest, inspect: InspectResult, sim: Option<SimulateResult>)
      : seq<Item>
  {
    if steps == [] then []
    else ListedBy(p, steps[0], req, inspect, sim) + Listed(p, steps[1..], req, inspect, sim)
  }

  lemma StepLists(p: Prober, step: Step, req: CheckRequest, inspect: InspectResult, sim: Option<SimulateResult>)
    requires inspect.deployed && (req.fn != "" ==> sim.Some?)
    ensures RunStep(p, step, req, inspect, sim) == Continue(ListedBy(p, step, req, inspect, sim))
  {
    hide ExpectationMet, ExpectItem;
    if step == Expect {
      ExpectedItem(p, req, sim);
    } else if step == DataTtl {
      assert RunStep(p, step, req, inspect, sim).items == ListedBy(p, step, req, inspect, sim);
    }
  }

  lemma {:induction false} StepsList(p: Prober, steps: seq<Step>, req: CheckRequest, inspect: InspectResult,
                                     sim: Option<SimulateResult>)
    requires inspect.deployed && (req.fn != "" ==> sim.Some?)
    ensures RunSteps(p, steps, req, inspect, sim) == Ok(Listed(p, steps, req, inspect, sim))
  {
    hide RunStep, ListedBy;
    if steps != [] {
      StepLists(p, steps[0], req, inspect, sim);
      StepsList(p, steps[1..], req, inspect, sim);
    }
  }

  lemma ExpectedItem(p: Prober, req: CheckRequest, sim: Option<SimulateResult>)
    ensures ExpectItem(p, req, sim) == Item("expect", if ExpectationMet(p, req, sim) then Pass else Fail)
  {
    hide CompareScVals;
  }

  /** What a check lists: one failure where there is no contract, and otherwise the checks of all six steps in
      order. */
  lemma ChecksAreListed(p: Prober, rpc: Rpc, req: CheckRequest)
    requires CheckContract(p, rpc, req).Ok?
    ensures var r := CheckContract(p, rpc, req).value;
            r.checks ==
            if r.inspect.deployed
            then Listed(p, [Deployed, InstanceTtl, CodeTtl, DataTtl, Simulate, Expect], req, r.inspect, r.simulate)
            else [Item("deployed", Fail)]
  {
    hide InspectUncached, RunSteps, Listed, NoneFailed;
    var r := CheckContract(p, rpc, req).value;
    if r.inspect.deployed {
      StepsList(p, STEPS, req, r.inspect, r.simulate);
    } else {
      MissingContractsFail(p, req, r.inspect);
    }
  }

  /** A TTL failure never heals by itself: with entries and TTLs fixed, a check that fails on expiration at one
      ledger fails at every later one. */
  lemma TtlFailuresDoNotHeal(p: Prober, rpc: Rpc, later: Rpc, req: CheckRequest)
    requires SameEntriesLater(rpc, later)
    requires CheckContract(p, rpc, req).Ok? && CheckContract(p, later, req).Ok?
    requires Severity(CheckContract(p, rpc, req).value.status) > 2
    ensures !CheckContract(p, later, req).value.ok
  {
    hide InspectUncached, RunSteps;
    ReportsOnlyAge(p, rpc, later, InspectRequestOf(req));
    VerdictIsCharacterised(p, later, req);
  }
}
