/** State-expiration health: internal/health/health.go. */
module Health {
  import opened Wrappers
  import opened Words

  datatype Status = Healthy | Warning | Critical | Expired | Missing | Unknown

  function Severity(s: Status): nat {
    match s
    case Healthy => 0
    case Unknown => 1
    case Warning => 2
    case Critical => 3
    case Expired => 4
    case Missing => 5
  }

  /** Worst: the first status of the highest severity, scanning from Healthy. */
  function Worst(statuses: seq<Status>): (worst: Status)
    ensures worst == Healthy || worst in statuses
    ensures forall s | s in statuses :: Severity(s) <= Severity(worst)
  {
    if statuses == [] then Healthy
    else
      var init, last := statuses[..|statuses| - 1], statuses[|statuses| - 1];
      assert statuses == init + [last];
      if Severity(last) > Severity(Worst(init)) then last else Worst(init)
  }

  method WorstLoop(statuses: seq<Status>) returns (worst: Status)
    ensures worst == Worst(statuses)
  {
    worst := Healthy;
    for i := 0 to |statuses|
      invariant worst == Worst(statuses[..i])
    {
      assert statuses[..i + 1][..i] == statuses[..i];
      if Severity(statuses[i]) > Severity(worst) {
        worst := statuses[i];
      }
    }
    assert statuses[..|statuses|] == statuses;
  }

  datatype Thresholds = Thresholds(warn: uint32, critical: uint32)

  datatype ThresholdOverride = ThresholdOverride(warn: Option<uint32>, critical: Option<uint32>)

  datatype ThresholdOverrides = ThresholdOverrides(
    forInstance: Option<ThresholdOverride>,
    forCode: Option<ThresholdOverride>,
    forData: Option<ThresholdOverride>)

  datatype EntryKind = InstanceKind | CodeKind | DataKind

  function OverrideFor(kind: EntryKind, overrides: ThresholdOverrides): Option<ThresholdOverride> {
    match kind
    case InstanceKind => overrides.forInstance
    case CodeKind => overrides.forCode
    case DataKind => overrides.forData
  }

  /** ResolveThresholds: each half falls back to the global value on its own. */
  function ResolveThresholds(kind: EntryKind, global: Thresholds, overrides: ThresholdOverrides): Thresholds {
    match OverrideFor(kind, overrides)
    case None => global
    case Some(o) =>
      Thresholds(if o.warn.Some? then o.warn.value else global.warn,
                 if o.critical.Some? then o.critical.value else global.critical)
  }

  const PERSISTENT: string := "persistent"
  const TEMPORARY: string := "temporary"

  datatype Ttl = Ttl(
    present: bool,
    liveUntil: Option<uint32>,
    currentLedger: uint32,
    ledgersRemaining: int,
    durability: string,
    status: Status)

  /** EvaluateWithCloseTime, without the estimated duration that only its text output uses. */
  function Evaluate(liveUntil: Option<uint32>, current: uint32, durability: string, t: Thresholds): Ttl {
    match liveUntil
    case None => Ttl(true, None, current, 0, durability, Unknown)
    case Some(last) =>
      var remaining := last - current;
      var status :=
        if remaining < 0 then Expired
        else if remaining <= t.critical then Critical
        else if remaining <= t.warn then Warning
        else Healthy;
      Ttl(true, liveUntil, current, remaining, durability, status)
  }

  function Absent(current: uint32): Ttl {
    Ttl(false, None, current, 0, "", Missing)
  }

  /** An entry that stays as it is only gets closer to expiry: its severity never drops as ledgers close,
      whatever the thresholds, even when the critical one is above the warning one. */
  lemma EntriesOnlyAge(liveUntil: Option<uint32>, now: uint32, later: uint32, d: string, t: Thresholds)
    requires now <= later
    ensures Severity(Evaluate(liveUntil, now, d, t).status) <= Severity(Evaluate(liveUntil, later, d, t).status)
  {
  }

  /** The worst status rises when every status does. */
  lemma {:induction false} WorstIsMonotone(before: seq<Status>, after: seq<Status>)
    requires |before| == |after|
    requires forall i | 0 <= i < |before| :: Severity(before[i]) <= Severity(after[i])
    ensures Severity(Worst(before)) <= Severity(Worst(after))
  {
    if Worst(before) in before {
      var i :| 0 <= i < |before| && before[i] == Worst(before);
      assert after[i] in after;
    }
  }
}
