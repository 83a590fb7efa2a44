/** Batches of checks: the request and result types of internal/probe/batch.go, validation, and the flags. */
module Batch {
  import opened Wrappers
  import opened Inspect
  import opened Check

  const MAX_BATCH_CHECKS: nat := 100

  /** The per-check limit as time.ParseDuration reads it: none, an invalid text, or a number of nanoseconds. */
  datatype Timeout = NoTimeout | InvalidTimeout | Limit(nanoseconds: int)

  datatype NamedCheck = NamedCheck(name: string, timeout: Timeout, check: CheckRequest)

  datatype ItemError = Failed(cause: ProbeError) | TimedOut

  datatype BatchItem = BatchItem(
    name: string,
    contractId: string,
    result: Option<CheckResult>,
    error: Option<ItemError>)

  datatype BatchResult = BatchResult(ok: bool, errored: bool, items: seq<BatchItem>)

  function CheckName(c: NamedCheck): string {
    if c.name != "" then c.name else c.check.contractId
  }

  // ---- the outcome of a batch ------------------------------------------------------

  /** The item for a check that ran, or could not be run. */
  function ItemOf(c: NamedCheck, outcome: Result<CheckResult, ItemError>): BatchItem {
    match outcome
    case Ok(result) => BatchItem(CheckName(c), c.check.contractId, Some(result), None)
    case Err(e) => BatchItem(CheckName(c), c.check.contractId, None, Some(e))
  }

  /** The item names the check: by the name it was given, or by its contract where it has none. */
  predicate IsItemFor(item: BatchItem, c: NamedCheck) {
    && item.contractId == c.check.contractId
    && (c.name != "" ==> item.name == c.name)
    && (c.name == "" ==> item.name == c.check.contractId)
  }

  predicate HasOneOutcome(item: BatchItem) {
    item.result.Some? != item.error.Some?
  }

  /** The check ran, and its verdict is OK. */
  predicate Passed(item: BatchItem) {
    item.error.None? && item.result.Some? && item.result.value.ok
  }

  /** OK: every check ran and passed. Errored: some check could not be run. */
  predicate IsSummaryOf(r: BatchResult, items: seq<BatchItem>) {
    && r.items == items
    && (r.ok <==> forall i | 0 <= i < |items| :: Passed(items[i]))
    && (r.errored <==> exists i | 0 <= i < |items| :: items[i].error.Some?)
  }

  method Summarize(items: seq<BatchItem>) returns (r: BatchResult)
    requires forall i | 0 <= i < |items| :: HasOneOutcome(items[i])
    ensures IsSummaryOf(r, items)
  {
    var ok, errored := true, false;
    for i := 0 to |items|
      invariant ok <==> forall k | 0 <= k < i :: Passed(items[k])
      invariant errored <==> exists k | 0 <= k < i :: items[k].error.Some?
    {
      if items[i].error.Some? {
        errored := true;
        ok := false;
      } else if !items[i].result.value.ok {
        ok := false;
      }
    }
    r := BatchResult(ok, errored, items);
  }

  // ---- validateBatch -------------------------------------------------------------------

  datatype InvalidBatch =
    | NoChecks
    | TooManyChecks
    | NoContractId(index: nat)
    | BadTimeout(index: nat)
    | UnknownDurability(index: nat)
    | DuplicateName(first: nat, second: nat)

  predicate IsSound(c: NamedCheck) {
    && c.check.contractId != ""
    && (c.timeout.NoTimeout? || (c.timeout.Limit? && c.timeout.nanoseconds >= 0))
    && c.check.dataDurability in ["", Health.PERSISTENT, Health.TEMPORARY]
  }

  /** Two checks go by one name: each by the name it was given, or by its contract where it has none. */
  predicate Clash(a: NamedCheck, b: NamedCheck) {
    if a.name != "" && b.name != "" then a.name == b.name
    else if a.name != "" then a.name == b.check.contractId
    else if b.name != "" then a.check.contractId == b.name
    else a.check.contractId == b.check.contractId
  }

  lemma NamesClash()
    ensures forall a, b :: Clash(a, b) <==> CheckName(a) == CheckName(b)
  {
  }

  /** The first n checks are sound and no two of them go by one name. */
  predicate CleanUpTo(checks: seq<NamedCheck>, n: nat)
    requires n <= |checks|
  {
    && (forall i | 0 <= i < n :: IsSound(checks[i]))
    && (forall i, j | 0 <= i < j < n :: !Clash(checks[i], checks[j]))
  }

  /** The batch has a wrong size; or everything before the named check is in order, and this is the first thing
      that is not. */
  predicate IsFirstProblem(checks: seq<NamedCheck>, problem: InvalidBatch) {
    match problem
    case NoChecks => checks == []
    case TooManyChecks => |checks| > MAX_BATCH_CHECKS
    case DuplicateName(first, second) =>
      && |checks| <= MAX_BATCH_CHECKS && first < second < |checks|
      && CleanUpTo(checks, second) && IsSound(checks[second])
      && Clash(checks[first], checks[second])
    case _ =>
      && |checks| <= MAX_BATCH_CHECKS && problem.index < |checks|
      && CleanUpTo(checks, problem.index) && IsFirstFlaw(checks[problem.index], problem)
  }

  /** The first requirement that the check fails, in the order they are looked at. */
  predicate IsFirstFlaw(c: NamedCheck, problem: InvalidBatch) {
    var named := c.check.contractId != "";
    var timed := c.timeout.NoTimeout? || (c.timeout.Limit? && c.timeout.nanoseconds >= 0);
    match problem
    case NoContractId(_) => !named
    case BadTimeout(_) => named && !timed
    case UnknownDurability(_) => named && timed && !IsSound(c)
    case _ => false
  }

  /** The body of the loop up to the name. */
  method ProblemOf(c: NamedCheck, index: nat) returns (problem: Option<InvalidBatch>)
    ensures problem.None? <==> IsSound(c)
    ensures problem.Some? ==> IsFirstFlaw(c, problem.value) && problem.value.index == index
  {
    if c.check.contractId == "" {
      return Some(NoContractId(index));
    }
    if c.timeout.InvalidTimeout? || (c.timeout.Limit? && c.timeout.nanoseconds < 0) {
      return Some(BadTimeout(index));
    }
    if c.check.dataDurability !in ["", Health.PERSISTENT, Health.TEMPORARY] {
      return Some(UnknownDurability(index));
    }
    return None;
  }

  /** A batch is accepted exactly when it has between one and a hundred sound checks, no two of one name;
      otherwise the first problem is reported. */
  method ValidateBatch(checks: seq<NamedCheck>) returns (problem: Option<InvalidBatch>)
    ensures problem.None? <==> 1 <= |checks| <= 100 && CleanUpTo(checks, |checks|)
    ensures problem.Some? ==> IsFirstProblem(checks, problem.value)
  {
    hide IsSound, CheckName, IsFirstFlaw, Clash;
    NamesClash();
    if |checks| == 0 {
      return Some(NoChecks);
    } else if |checks| > MAX_BATCH_CHECKS {
      return Some(TooManyChecks);
    }
    var seen: map<string, nat> := map[];
    for i := 0 to |checks|
      invariant CleanUpTo(checks, i)
      invariant forall k | 0 <= k < i :: CheckName(checks[k]) in seen
      invariant forall name | name in seen :: seen[name] < i && CheckName(checks[seen[name]]) == name
    {
      problem := ProblemOf(checks[i], i);
      if problem.Some? {
        FlawsAreNoDuplicates(checks[i], problem.value);
        return;
      }
      var name := CheckName(checks[i]);
      if name in seen {
        return Some(DuplicateName(seen[name], i));
      }
      seen := seen[name := i];
    }
    return None;
  }

  lemma FlawsAreNoDuplicates(c: NamedCheck, problem: InvalidBatch)
    requires IsFirstFlaw(c, problem)
    ensures problem.NoContractId? || problem.BadTimeout? || problem.UnknownDurability?
    ensures !IsSound(c)
  {
  }

  /** A context. Time passes in moments: one at each look at the context, and one while a check runs. It lives for
      some number of moments, or for ever, and once it is done it stays done. */
  class Context {
    const life: Option<nat>
    var now: nat

    constructor (life: Option<nat>)
      ensures this.life == life && now == 0
    {
      this.life, now := life, 0;
    }

    predicate DoneBy(moment: nat) {
      life.Some? && life.value <= moment
    }

    predicate Done()
      reads this
    {
      DoneBy(now)
    }

    /** A moment passes. */
    method Pass()
      modifies this
      ensures now == old(now) + 1
    {
      now := now + 1;
    }

    /** ctx.Err() != nil. */
    method Err() returns (ended: bool)
      modifies this
      ensures now == old(now) + 1 && ended == Done()
    {
      Pass();
      ended := Done();
    }
  }
}
