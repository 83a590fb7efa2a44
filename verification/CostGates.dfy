/** The two cost gates: the spread of repeated simulations (internal/probe/spread.go) and the comparison with a
    baseline (internal/probe/simulate.go). Percentages are exact here. */
module CostGates {
  import opened Wrappers

  datatype Cost = Cost(
    instructions: int,
    diskReadBytes: int,
    writeBytes: int,
    resourceFee: int,
    minResourceFee: int,
    estimatedTotalFee: int)

  datatype Figure = Figure(name: string, value: int)

  const FIGURES: nat := 4

  /** costFigures */
  function CostFigures(c: Cost): (figures: seq<Figure>)
    ensures |figures| == FIGURES
  {
    [Figure("cpu instructions", c.instructions),
     Figure("disk read bytes", c.diskReadBytes),
     Figure("write bytes", c.writeBytes),
     Figure("resource fee (stroops)", c.resourceFee)]
  }

  function Value(c: Cost, f: nat): int
    requires f < FIGURES
  {
    CostFigures(c)[f].value
  }

  predicate NonNegative(c: Cost) {
    forall f | 0 <= f < FIGURES :: Value(c, f) >= 0
  }

  /** amount as a percentage of a figure, which has none when it is zero. */
  function PercentOf(amount: int, figure: int): Option<real> {
    if figure == 0 then None else Some(amount as real / figure as real * 100.0)
  }

  /** The test both gates make. */
  predicate Over(growth: int, percent: Option<real>, threshold: real) {
    growth > 0 && (percent.None? || percent.value > threshold)
  }

  // ---- what the percentages mean, with the divisions multiplied out ------------------------------

  /** The percentage of a figure that an amount is; there is none of nothing. */
  predicate IsPercentage(percent: Option<real>, amount: int, figure: int) {
    && (percent.None? <==> figure == 0)
    && (percent.Some? ==> percent.value * figure as real == 100.0 * amount as real)
  }

  /** A figure grew by more than the threshold, in percent, or from nothing. A negative figure turns the comparison
      around. */
  predicate Beyond(from: int, to: int, threshold: real) {
    && to > from
    && (|| from == 0
        || (from > 0 && 100.0 * (to - from) as real > threshold * from as real)
        || (from < 0 && 100.0 * (to - from) as real < threshold * from as real))
  }

  lemma PercentagesAreExact(amount: int, figure: int)
    ensures IsPercentage(PercentOf(amount, figure), amount, figure)
  {
    if figure != 0 {
      var ratio := amount as real / figure as real;
      assert ratio * figure as real == amount as real;
      assert (ratio * 100.0) * figure as real == 100.0 * (ratio * figure as real);
    }
  }

  lemma OverIsBeyond(from: int, to: int, threshold: real)
    ensures Over(to - from, PercentOf(to - from, from), threshold) <==> Beyond(from, to, threshold)
  {
    hide PercentOf;
    PercentagesAreExact(to - from, from);
    if from != 0 {
      Scaling(PercentOf(to - from, from).value, threshold, from as real);
    }
  }

  lemma Scaling(x: real, y: real, scale: real)
    ensures scale > 0.0 ==> (x > y <==> x * scale > y * scale)
    ensures scale < 0.0 ==> (x > y <==> x * scale < y * scale)
  {
    if scale > 0.0 && x > y {
      PositiveProduct(x - y, scale);
    } else if scale > 0.0 {
      NaturalProduct(y - x, scale);
    } else if scale < 0.0 && x > y {
      PositiveProduct(x - y, -scale);
    } else if scale < 0.0 {
      NaturalProduct(y - x, -scale);
    }
    assert (x - y) * scale == x * scale - y * scale;
    assert (x - y) * -scale == y * scale - x * scale;
    assert (y - x) * scale == y * scale - x * scale;
    assert (y - x) * -scale == x * scale - y * scale;
  }

  lemma PositiveProduct(x: real, y: real)
    requires x > 0.0 && y > 0.0
    ensures x * y > 0.0
  {
  }

  lemma NaturalProduct(x: real, y: real)
    requires x >= 0.0 && y > 0.0
    ensures x * y >= 0.0
  {
  }

  // ---- CompareCost ----------------------------------------------------------------------------

  datatype CostChange = CostChange(name: string, baseline: int, current: int, delta: int, percent: Option<real>)

  datatype CostComparison = CostComparison(figures: seq<CostChange>, maxIncreasePercent: Option<real>, exceeded: bool)

  function ChangeOf(baseline: Cost, current: Cost, f: nat): CostChange
    requires f < FIGURES
  {
    var delta := Value(current, f) - Value(baseline, f);
    CostChange(CostFigures(baseline)[f].name, Value(baseline, f), Value(current, f), delta,
               PercentOf(delta, Value(baseline, f)))
  }

  predicate Grew(change: CostChange, threshold: real) {
    Over(change.delta, change.percent, threshold)
  }

  /** Some figure grew by more than the threshold. */
  predicate Exceeds(baseline: Cost, current: Cost, threshold: real) {
    exists f | 0 <= f < FIGURES :: Grew(ChangeOf(baseline, current, f), threshold)
  }

  /** The line of a comparison for a figure that was from and is to. */
  predicate Compares(change: CostChange, name: string, from: int, to: int) {
    && change.name == name && change.baseline == from && change.current == to && change.delta == to - from
    && IsPercentage(change.percent, to - from, from)
  }

  predicate ComparesAll(figures: seq<CostChange>, baseline: Cost, current: Cost) {
    && |figures| == 4
    && Compares(figures[0], "cpu instructions", baseline.instructions, current.instructions)
    && Compares(figures[1], "disk read bytes", baseline.diskReadBytes, current.diskReadBytes)
    && Compares(figures[2], "write bytes", baseline.writeBytes, current.writeBytes)
    && Compares(figures[3], "resource fee (stroops)", baseline.resourceFee, current.resourceFee)
  }

  /** Some figure of the cost is beyond the threshold. */
  predicate AnyBeyond(baseline: Cost, current: Cost, threshold: real) {
    || Beyond(baseline.instructions, current.instructions, threshold)
    || Beyond(baseline.diskReadBytes, current.diskReadBytes, threshold)
    || Beyond(baseline.writeBytes, current.writeBytes, threshold)
    || Beyond(baseline.resourceFee, current.resourceFee, threshold)
  }

  lemma ChangesCompare(baseline: Cost, current: Cost, figures: seq<CostChange>)
    requires |figures| == FIGURES && forall f | 0 <= f < FIGURES :: figures[f] == ChangeOf(baseline, current, f)
    ensures ComparesAll(figures, baseline, current)
  {
    hide PercentOf, IsPercentage;
    forall f | 0 <= f < FIGURES
      ensures Compares(figures[f], CostFigures(baseline)[f].name, Value(baseline, f), Value(current, f))
    {
      PercentagesAreExact(Value(current, f) - Value(baseline, f), Value(baseline, f));
    }
  }

  /** The gate trips exactly when some figure grew beyond the threshold. */
  lemma ExceedingIsBeyond(baseline: Cost, current: Cost, threshold: real)
    ensures Exceeds(baseline, current, threshold) <==> AnyBeyond(baseline, current, threshold)
  {
    hide PercentOf, Over, Beyond;
    forall f | 0 <= f < FIGURES
      ensures Grew(ChangeOf(baseline, current, f), threshold) <==>
              Beyond(Value(baseline, f), Value(current, f), threshold)
    {
      OverIsBeyond(Value(baseline, f), Value(current, f), threshold);
    }
    assert AnyBeyond(baseline, current, threshold) <==>
           exists f | 0 <= f < FIGURES :: Beyond(Value(baseline, f), Value(current, f), threshold) by {
      FourFigures(baseline, current, threshold);
    }
  }

  lemma FourFigures(baseline: Cost, current: Cost, threshold: real)
    ensures AnyBeyond(baseline, current, threshold) <==>
            exists f | 0 <= f < FIGURES :: Beyond(Value(baseline, f), Value(current, f), threshold)
  {
    hide Beyond;
    assert Value(baseline, 0) == baseline.instructions && Value(current, 0) == current.instructions;
    assert Value(baseline, 1) == baseline.diskReadBytes && Value(current, 1) == current.diskReadBytes;
    assert Value(baseline, 2) == baseline.writeBytes && Value(current, 2) == current.writeBytes;
    assert Value(baseline, 3) == baseline.resourceFee && Value(current, 3) == current.resourceFee;
  }

  method CompareCost(baseline: Cost, current: Cost, maxIncreasePercent: Option<real>) returns (out: CostComparison)
    ensures |out.figures| == FIGURES && forall f | 0 <= f < FIGURES :: out.figures[f] == ChangeOf(baseline, current, f)
    ensures out.maxIncreasePercent == maxIncreasePercent
    ensures out.exceeded <==> maxIncreasePercent.Some? && Exceeds(baseline, current, maxIncreasePercent.value)
    ensures ComparesAll(out.figures, baseline, current)
    ensures out.exceeded <==> maxIncreasePercent.Some? && AnyBeyond(baseline, current, maxIncreasePercent.value)
  {
    hide PercentOf, ComparesAll, AnyBeyond, CostFigures;
    var base, cur := CostFigures(baseline), CostFigures(current);
    var figures: seq<CostChange> := [];
    for i := 0 to |base|
      invariant |figures| == i && forall f | 0 <= f < i :: figures[f] == ChangeOf(baseline, current, f)
    {
      var delta := cur[i].value - base[i].value;
      var percent := PercentOf(delta, base[i].value);
      figures := figures + [CostChange(base[i].name, base[i].value, cur[i].value, delta, percent)];
    }
    ChangesCompare(baseline, current, figures);
    out := CostComparison(figures, maxIncreasePercent, false);
    if maxIncreasePercent.None? {
      return;
    }
    var threshold := maxIncreasePercent.value;
    ExceedingIsBeyond(baseline, current, threshold);
    for i := 0 to |figures|
      invariant out.figures == figures && out.maxIncreasePercent == maxIncreasePercent
      invariant out.exceeded <==> exists f | 0 <= f < i :: Grew(figures[f], threshold)
    {
      if figures[i].delta <= 0 {
        continue;
      }
      if figures[i].percent.None? {
        out := out.(exceeded := true);
        continue;
      }
      if figures[i].percent.value > threshold {
        out := out.(exceeded := true);
      }
    }
  }

  // ---- SpreadCost -------------------------------------------------------------------------------

  datatype FigureSpread = FigureSpread(name: string, min: int, max: int, spread: int, percent: Option<real>)

  function Max(x: int, y: int): int {
    if x >= y then x else y
  }

  /** out.Max: the largest of every figure, and the first run's total fee. */
  function MaxCost(costs: seq<Cost>): Cost
    requires costs != []
  {
    if |costs| == 1 then costs[0]
    else
      var m, c := MaxCost(costs[..|costs| - 1]), costs[|costs| - 1];
      Cost(Max(m.instructions, c.instructions), Max(m.diskReadBytes, c.diskReadBytes), Max(m.writeBytes, c.writeBytes),
           Max(m.resourceFee, c.resourceFee), Max(m.minResourceFee, c.minResourceFee),
           m.estimatedTotalFee)
  }

  /** low and high are the smallest and the largest value of the figure in the runs. */
  predicate IsRange(costs: seq<Cost>, f: nat, low: int, high: int)
    requires f < FIGURES
  {
    && (forall i | 0 <= i < |costs| :: low <= Value(costs[i], f) <= high)
    && (exists i | 0 <= i < |costs| :: Value(costs[i], f) == low)
    && (exists i | 0 <= i < |costs| :: Value(costs[i], f) == high)
  }

  /** The report's line for a figure. */
  predicate IsSpreadOf(s: FigureSpread, costs: seq<Cost>, f: nat)
    requires f < FIGURES && costs != []
  {
    && s.name == CostFigures(costs[0])[f].name
    && IsRange(costs, f, s.min, s.max)
    && s.spread == s.max - s.min
    && s.percent == PercentOf(s.spread, s.min)
  }

  /** The inner loop: the range of one figure. */
  method SpreadOf(costs: seq<Cost>, f: nat) returns (s: FigureSpread)
    requires costs != [] && f < FIGURES
    ensures IsSpreadOf(s, costs, f)
  {
    hide PercentOf, CostFigures;
    var first := Value(costs[0], f);
    var low, high := first, first;
    for i := 1 to |costs|
      invariant IsRange(costs[..i], f, low, high)
    {
      ghost var before := costs[..i];
      var v := Value(costs[i], f);
      RangeGrows(before, costs[i], f, low, high);
      assert costs[..i + 1] == before + [costs[i]];
      if v < low {
        low := v;
      }
      if v > high {
        high := v;
      }
    }
    assert costs[..|costs|] == costs;
    s := FigureSpread(CostFigures(costs[0])[f].name, low, high, high - low, PercentOf(high - low, low));
  }

  lemma RangeGrows(costs: seq<Cost>, c: Cost, f: nat, low: int, high: int)
    requires f < FIGURES && IsRange(costs, f, low, high)
    ensures var v := Value(c, f);
            IsRange(costs + [c], f, if v < low then v else low, if v > high then v else high)
  {
    hide CostFigures;
    var all := costs + [c];
    var i :| 0 <= i < |costs| && Value(costs[i], f) == low;
    var j :| 0 <= j < |costs| && Value(costs[j], f) == high;
    assert all[i] == costs[i] && all[j] == costs[j] && all[|costs|] == c;
    assert forall k | 0 <= k < |costs| :: all[k] == costs[k];
  }

  datatype SpreadReport = SpreadReport(
    runs: nat,
    figures: seq<FigureSpread>,
    max: Option<Cost>,
    footprintChanges: seq<string>,
    maxSpreadPercent: Option<real>,
    noisy: bool)

  /** Some figure spread by more than the threshold. */
  predicate IsNoisy(figures: seq<FigureSpread>, threshold: real) {
    exists f | 0 <= f < |figures| :: Over(figures[f].spread, figures[f].percent, threshold)
  }

  /** The line of a spread report for a figure that the runs have. */
  ghost predicate Ranges(s: FigureSpread, name: string, costs: seq<Cost>, figure: Cost -> int) {
    && s.name == name
    && (forall i | 0 <= i < |costs| :: s.min <= figure(costs[i]) <= s.max)
    && (exists i | 0 <= i < |costs| :: figure(costs[i]) == s.min)
    && (exists i | 0 <= i < |costs| :: figure(costs[i]) == s.max)
    && s.spread == s.max - s.min && IsPercentage(s.percent, s.spread, s.min)
  }

  function Instructions(c: Cost): int {
    c.instructions
  }

  function DiskReadBytes(c: Cost): int {
    c.diskReadBytes
  }

  function WriteBytes(c: Cost): int {
    c.writeBytes
  }

  function ResourceFee(c: Cost): int {
    c.resourceFee
  }

  ghost predicate RangesAll(figures: seq<FigureSpread>, costs: seq<Cost>) {
    && |figures| == 4
    && Ranges(figures[0], "cpu instructions", costs, Instructions)
    && Ranges(figures[1], "disk read bytes", costs, DiskReadBytes)
    && Ranges(figures[2], "write bytes", costs, WriteBytes)
    && Ranges(figures[3], "resource fee (stroops)", costs, ResourceFee)
  }

  /** Some figure is beyond the threshold between two of the runs, from its smallest value to its largest. */
  predicate AnyRangeBeyond(figures: seq<FigureSpread>, threshold: real) {
    exists f | 0 <= f < |figures| :: Beyond(figures[f].min, figures[f].max, threshold)
  }

  lemma OneRange(s: FigureSpread, costs: seq<Cost>, f: nat, figure: Cost -> int)
    requires costs != [] && f < FIGURES && IsSpreadOf(s, costs, f)
    requires forall c :: figure(c) == Value(c, f)
    ensures Ranges(s, CostFigures(costs[0])[f].name, costs, figure)
  {
    hide PercentOf, IsPercentage, CostFigures;
    PercentagesAreExact(s.spread, s.min);
  }

  lemma SpreadsRange(figures: seq<FigureSpread>, costs: seq<Cost>)
    requires costs != [] && AreSpreadsOf(figures, costs)
    ensures RangesAll(figures, costs)
  {
    hide IsSpreadOf, Ranges;
    OneRange(figures[0], costs, 0, Instructions);
    OneRange(figures[1], costs, 1, DiskReadBytes);
    OneRange(figures[2], costs, 2, WriteBytes);
    OneRange(figures[3], costs, 3, ResourceFee);
  }

  lemma NoisyIsBeyond(figures: seq<FigureSpread>, costs: seq<Cost>, threshold: real)
    requires costs != [] && AreSpreadsOf(figures, costs)
    ensures IsNoisy(figures, threshold) <==> AnyRangeBeyond(figures, threshold)
  {
    hide PercentOf, Over, Beyond, IsRange, CostFigures;
    forall f | 0 <= f < |figures|
      ensures Over(figures[f].spread, figures[f].percent, threshold) <==>
              Beyond(figures[f].min, figures[f].max, threshold)
    {
      assert IsSpreadOf(figures[f], costs, f);
      OverIsBeyond(figures[f].min, figures[f].max, threshold);
    }
  }

  method SpreadCost(costs: seq<Cost>, footprints: seq<Footprint>, maxSpreadPercent: Option<real>)
      returns (out: SpreadReport)
    ensures out.runs == |costs| && out.maxSpreadPercent == maxSpreadPercent
    ensures costs == [] ==> out.figures == [] && out.max.None? && !out.noisy && out.footprintChanges == []
    ensures costs != [] ==> out.max == Some(MaxCost(costs))
    ensures costs != [] ==> AreSpreadsOf(out.figures, costs)
    ensures costs != [] && |footprints| == |costs| ==> Lists(out.footprintChanges, Changes(footprints))
    ensures |footprints| != |costs| ==> out.footprintChanges == []
    ensures out.noisy <==> maxSpreadPercent.Some? && IsNoisy(out.figures, maxSpreadPercent.value)
    ensures costs != [] ==> RangesAll(out.figures, costs)
    ensures out.noisy <==> maxSpreadPercent.Some? && AnyRangeBeyond(out.figures, maxSpreadPercent.value)
  {
    hide IsSpreadOf, Changes, Lists, RangesAll, Beyond;
    out := SpreadReport(|costs|, [], None, [], maxSpreadPercent, false);
    if costs == [] {
      return;
    }
    var figures: seq<FigureSpread> := [];
    for i := 0 to FIGURES
      invariant |figures| == i && forall f | 0 <= f < i :: IsSpreadOf(figures[f], costs, f)
    {
      var s := SpreadOf(costs, i);
      figures := figures + [s];
    }
    var most := MaxLoop(costs);
    var changes: seq<string> := [];
    if |footprints| == |costs| {
      changes := FootprintChanges(footprints);
    }
    out := SpreadReport(|costs|, figures, Some(most), changes, maxSpreadPercent, false);
    SpreadsRange(figures, costs);
    if maxSpreadPercent.None? {
      return;
    }
    NoisyIsBeyond(figures, costs, maxSpreadPercent.value);
    for i := 0 to |figures|
      invariant out == SpreadReport(|costs|, figures, Some(most), changes, maxSpreadPercent, out.noisy)
      invariant out.noisy <==>
                exists f | 0 <= f < i :: Over(figures[f].spread, figures[f].percent, maxSpreadPercent.value)
    {
      if figures[i].spread <= 0 {
        continue;
      }
      if figures[i].percent.None? {
        out := out.(noisy := true);
        continue;
      }
      if figures[i].percent.value > maxSpreadPercent.value {
        out := out.(noisy := true);
      }
    }
  }

  /** The loop over out.Max. */
  method MaxLoop(costs: seq<Cost>) returns (most: Cost)
    requires costs != []
    ensures most == MaxCost(costs)
  {
    most := costs[0];
    for i := 1 to |costs|
      invariant most == MaxCost(costs[..i])
    {
      var c := costs[i];
      assert costs[..i + 1][..i] == costs[..i];
      most := most.(instructions := Max(most.instructions, c.instructions));
      most := most.(diskReadBytes := Max(most.diskReadBytes, c.diskReadBytes));
      most := most.(writeBytes := Max(most.writeBytes, c.writeBytes));
      most := most.(resourceFee := Max(most.resourceFee, c.resourceFee));
      most := most.(minResourceFee := Max(most.minResourceFee, c.minResourceFee));
    }
    assert costs[..|costs|] == costs;
  }

  // ---- the gates agree -----------------------------------------------------------------------------

  /** The report's range of a figure ends at the figure of the Max cost. */
  lemma {:induction false} MaxCostHasTheMaxima(costs: seq<Cost>, f: nat)
    requires costs != [] && f < FIGURES
    ensures forall i | 0 <= i < |costs| :: Value(costs[i], f) <= Value(MaxCost(costs), f)
    ensures exists i | 0 <= i < |costs| :: Value(costs[i], f) == Value(MaxCost(costs), f)
  {
    if |costs| == 1 {
      assert Value(costs[0], f) == Value(MaxCost(costs), f);
    } else {
      var before := costs[..|costs| - 1];
      MaxCostHasTheMaxima(before, f);
      LargerFigures(costs);
      var i :| 0 <= i < |before| && Value(before[i], f) == Value(MaxCost(before), f);
      assert forall k | 0 <= k < |before| :: costs[k] == before[k];
      assert Value(costs[i], f) == Value(MaxCost(costs), f) || Value(costs[|costs| - 1], f) == Value(MaxCost(costs), f);
    }
  }

  lemma LargerFigures(costs: seq<Cost>)
    requires |costs| > 1
    ensures forall f | 0 <= f < FIGURES ::
              Value(MaxCost(costs), f) == Max(Value(MaxCost(costs[..|costs| - 1]), f), Value(costs[|costs| - 1], f))
  {
  }

  /** Nor is the least fee, but its maximum is taken all the same. */
  lemma {:induction false} LeastFeesAreBounded(costs: seq<Cost>)
    requires costs != []
    ensures forall i | 0 <= i < |costs| :: costs[i].minResourceFee <= MaxCost(costs).minResourceFee
    ensures exists i | 0 <= i < |costs| :: costs[i].minResourceFee == MaxCost(costs).minResourceFee
  {
    if |costs| == 1 {
      assert costs[0].minResourceFee == MaxCost(costs).minResourceFee;
    } else {
      var before, last := costs[..|costs| - 1], costs[|costs| - 1];
      LeastFeesAreBounded(before);
      var i :| 0 <= i < |before| && before[i].minResourceFee == MaxCost(before).minResourceFee;
      assert costs[i] == before[i] && costs[|costs| - 1] == last;
      assert forall k | 0 <= k < |before| :: costs[k] == before[k];
    }
  }

  /** The total fee is not among the figures: the worst case keeps the first run's, however large the others. */
  lemma {:induction false} TotalFeeIsTheFirst(costs: seq<Cost>)
    requires costs != []
    ensures MaxCost(costs).estimatedTotalFee == costs[0].estimatedTotalFee
  {
    if |costs| > 1 {
      TotalFeeIsTheFirst(costs[..|costs| - 1]);
    }
  }

  lemma SpreadEndsAtMaxCost(s: FigureSpread, costs: seq<Cost>, f: nat)
    requires costs != [] && f < FIGURES && IsSpreadOf(s, costs, f)
    ensures s.max == Value(MaxCost(costs), f)
  {
    hide CostFigures, PercentOf, MaxCost;
    MaxCostHasTheMaxima(costs, f);
  }

  /** A change from low to high is over the threshold whenever a smaller one from a larger figure is. */
  lemma WiderIsOver(low: int, high: int, from: int, to: int, threshold: real)
    requires 0 <= low <= from && to <= high
    requires Over(to - from, PercentOf(to - from, from), threshold)
    ensures Over(high - low, PercentOf(high - low, low), threshold)
  {
    if low != 0 {
      Ratios(low as real, high as real, from as real, to as real);
    }
  }

  lemma Ratios(low: real, high: real, from: real, to: real)
    requires 0.0 < low <= from < to <= high
    ensures (to - from) / from * 100.0 <= (high - low) / low * 100.0
  {
    var x, y := (to - from) / from, (high - low) / low;
    assert x * from == to - from && y * low == high - low;
    assert (1.0 + x) * from == to && (1.0 + y) * low == high;
    if x > y {
      Products(x, y, low, from);
    }
  }

  lemma Products(x: real, y: real, low: real, from: real)
    requires x > y && 0.0 < low <= from && y * low >= 0.0
    ensures (1.0 + x) * from > (1.0 + y) * low
  {
    assert y >= 0.0;
    assert (1.0 + x) * from == from + x * from;
    assert x * from >= x * low;
    assert x * low > y * low;
  }

  /** The figures are the report's lines for these runs. */
  predicate AreSpreadsOf(figures: seq<FigureSpread>, costs: seq<Cost>)
    requires costs != []
  {
    |figures| == FIGURES && forall f | 0 <= f < FIGURES :: IsSpreadOf(figures[f], costs, f)
  }

  /** Repeated runs are noisy exactly when comparing some run with some other, as baseline and current, would
      exceed the same threshold. */
  lemma NoisyMeansSomePairExceeds(costs: seq<Cost>, figures: seq<FigureSpread>, threshold: real)
    requires costs != [] && forall i | 0 <= i < |costs| :: NonNegative(costs[i])
    requires AreSpreadsOf(figures, costs)
    ensures IsNoisy(figures, threshold) <==>
            exists i, j | 0 <= i < |costs| && 0 <= j < |costs| :: Exceeds(costs[i], costs[j], threshold)
  {
    hide Exceeds, IsNoisy, NonNegative, AreSpreadsOf;
    if IsNoisy(figures, threshold) {
      var i, j := NoisyPair(costs, figures, threshold);
    }
    forall i, j | 0 <= i < |costs| && 0 <= j < |costs| && Exceeds(costs[i], costs[j], threshold)
      ensures IsNoisy(figures, threshold)
    {
      PairIsNoisy(costs, figures, threshold, i, j);
    }
  }

  lemma NoisyPair(costs: seq<Cost>, figures: seq<FigureSpread>, threshold: real) returns (i: nat, j: nat)
    requires costs != [] && AreSpreadsOf(figures, costs) && IsNoisy(figures, threshold)
    ensures i < |costs| && j < |costs| && Exceeds(costs[i], costs[j], threshold)
  {
    hide CostFigures, PercentOf;
    var f :| 0 <= f < FIGURES && Over(figures[f].spread, figures[f].percent, threshold);
    assert IsSpreadOf(figures[f], costs, f);
    i :| 0 <= i < |costs| && Value(costs[i], f) == figures[f].min;
    j :| 0 <= j < |costs| && Value(costs[j], f) == figures[f].max;
    assert ChangeOf(costs[i], costs[j], f).delta == figures[f].spread;
  }

  lemma PairIsNoisy(costs: seq<Cost>, figures: seq<FigureSpread>, threshold: real, i: nat, j: nat)
    requires costs != [] && forall k | 0 <= k < |costs| :: NonNegative(costs[k])
    requires AreSpreadsOf(figures, costs) && i < |costs| && j < |costs| && Exceeds(costs[i], costs[j], threshold)
    ensures IsNoisy(figures, threshold)
  {
    hide CostFigures, PercentOf;
    var f :| 0 <= f < FIGURES && Grew(ChangeOf(costs[i], costs[j], f), threshold);
    assert IsSpreadOf(figures[f], costs, f);
    var low :| 0 <= low < |costs| && Value(costs[low], f) == figures[f].min;
    assert NonNegative(costs[low]);
    WiderIsOver(figures[f].min, figures[f].max, Value(costs[i], f), Value(costs[j], f), threshold);
  }

  /** What Simulate compares with the baseline: the last run, or the worst case of several. */
  function JudgedCost(costs: seq<Cost>): Cost
    requires costs != []
  {
    if |costs| > 1 then MaxCost(costs) else costs[|costs| - 1]
  }

  /** A repeated simulation exceeds its baseline exactly when one of its runs does: no luck, and no invented
      worst case, decides. */
  lemma RepeatsAreJudgedByTheirWorstRun(baseline: Cost, costs: seq<Cost>, threshold: real)
    requires costs != [] && NonNegative(baseline)
    ensures Exceeds(baseline, JudgedCost(costs), threshold) <==>
            exists j | 0 <= j < |costs| :: Exceeds(baseline, costs[j], threshold)
  {
    hide CostFigures, PercentOf, MaxCost;
    if Exceeds(baseline, JudgedCost(costs), threshold) {
      var f :| 0 <= f < FIGURES && Grew(ChangeOf(baseline, JudgedCost(costs), f), threshold);
      MaxCostHasTheMaxima(costs, f);
      JudgedIsMax(costs);
      var j :| 0 <= j < |costs| && Value(costs[j], f) == Value(MaxCost(costs), f);
      assert ChangeOf(baseline, costs[j], f) == ChangeOf(baseline, JudgedCost(costs), f);
      assert Exceeds(baseline, costs[j], threshold);
    }
    forall j | 0 <= j < |costs| && Exceeds(baseline, costs[j], threshold)
      ensures Exceeds(baseline, JudgedCost(costs), threshold)
    {
      var f :| 0 <= f < FIGURES && Grew(ChangeOf(baseline, costs[j], f), threshold);
      MaxCostHasTheMaxima(costs, f);
      JudgedIsMax(costs);
      var base := Value(baseline, f);
      WiderIsOver(base, Value(JudgedCost(costs), f), base, Value(costs[j], f), threshold);
      assert Grew(ChangeOf(baseline, JudgedCost(costs), f), threshold);
    }
  }

  lemma JudgedIsMax(costs: seq<Cost>)
    requires costs != []
    ensures JudgedCost(costs) == MaxCost(costs)
  {
  }

  // ---- footprintChanges ------------------------------------------------------------------------------

  datatype Footprint = Footprint(readOnly: seq<string>, readWrite: seq<string>)

  function Prefixed(prefix: string, labels: seq<string>): (r: seq<string>)
    ensures |r| == |labels| && forall i | 0 <= i < |labels| :: r[i] == prefix + labels[i]
  {
    seq(|labels|, i requires 0 <= i < |labels| => prefix + labels[i])
  }

  const READ: string := "read  "
  const WRITE: string := "write "

  function Labels(fp: Footprint): seq<string> {
    Prefixed(READ, fp.readOnly) + Prefixed(WRITE, fp.readWrite)
  }

  /** All labels of all runs, each as often as it occurs. */
  function Occurrences(footprints: seq<Footprint>): multiset<string> {
    if footprints == [] then multiset{}
    else Occurrences(footprints[..|footprints| - 1]) + multiset(Labels(footprints[|footprints| - 1]))
  }

  /** The labels whose number of occurrences is not the number of runs. */
  function Changes(footprints: seq<Footprint>): set<string> {
    set k | k in Occurrences(footprints) && Occurrences(footprints)[k] != |footprints|
  }

  predicate Counts(seen: map<string, nat>, m: multiset<string>) {
    (forall k | k in seen :: k in m && seen[k] == m[k]) && (forall k | k in m :: k in seen)
  }

  method CountLabels(seen: map<string, nat>, prefix: string, labels: seq<string>, ghost m: multiset<string>)
      returns (seen': map<string, nat>)
    requires Counts(seen, m)
    ensures Counts(seen', m + multiset(Prefixed(prefix, labels)))
  {
    hide Counts;
    seen' := seen;
    ghost var all := Prefixed(prefix, labels);
    assert m + multiset(all[..0]) == m;
    for i := 0 to |labels|
      invariant Counts(seen', m + multiset(all[..i]))
    {
      var k := prefix + labels[i];
      assert all[..i + 1] == all[..i] + [k];
      OneMoreCounted(seen', m + multiset(all[..i]), k);
      assert m + multiset(all[..i + 1]) == m + multiset(all[..i]) + multiset{k};
      seen' := seen'[k := (if k in seen' then seen'[k] else 0) + 1];
    }
    assert all[..|labels|] == all;
  }

  lemma OneMoreCounted(seen: map<string, nat>, m: multiset<string>, k: string)
    requires Counts(seen, m)
    ensures Counts(seen[k := (if k in seen then seen[k] else 0) + 1], m + multiset{k})
  {
  }

  method FootprintChanges(footprints: seq<Footprint>) returns (out: seq<string>)
    ensures Lists(out, Changes(footprints))
  {
    hide Counts, Changes, Labels;
    var seen: map<string, nat> := map[];
    assert Counts(seen, multiset{}) by {
      NothingCounted();
    }
    for i := 0 to |footprints|
      invariant Counts(seen, Occurrences(footprints[..i]))
    {
      assert footprints[..i + 1][..i] == footprints[..i];
      ghost var m := Occurrences(footprints[..i]);
      seen := CountLabels(seen, READ, footprints[i].readOnly, m);
      seen := CountLabels(seen, WRITE, footprints[i].readWrite, m + multiset(Prefixed(READ, footprints[i].readOnly)));
      OccurrencesOfOneMore(footprints, i);
    }
    assert footprints[..|footprints|] == footprints;
    var changed := KeysCountedOtherThan(seen, |footprints|);
    CountedChanges(seen, footprints);
    out := SortStrings(changed);
  }

  /** The order of sort.Strings: the first character that differs decides, and a prefix comes first. */
  predicate Below(a: string, b: string) {
    b != "" && (a == "" || a[0] < b[0] || (a[0] == b[0] && Below(a[1..], b[1..])))
  }

  /** a and b agree up to k, where a ends or has the smaller character. */
  predicate PartsAt(a: string, b: string, k: nat) {
    k <= |a| && k < |b| && a[..k] == b[..k] && (k == |a| || a[k] < b[k])
  }

  lemma {:induction false} BelowIsLexicographic(a: string, b: string)
    ensures Below(a, b) <==> exists k: nat :: PartsAt(a, b, k)
  {
    if a != "" && b != "" && a[0] == b[0] {
      BelowIsLexicographic(a[1..], b[1..]);
      forall k: nat
        ensures PartsAt(a, b, k + 1) <==> PartsAt(a[1..], b[1..], k)
      {
        if k < |a| && k < |b| {
          assert a[..k + 1] == [a[0]] + a[1..][..k] && b[..k + 1] == [b[0]] + b[1..][..k];
          assert a[..k + 1][1..] == a[1..][..k] && b[..k + 1][1..] == b[1..][..k];
        }
      }
      if exists k: nat :: PartsAt(a, b, k) {
        var k: nat :| PartsAt(a, b, k);
        assert k > 0 && PartsAt(a[1..], b[1..], k - 1) == PartsAt(a, b, k - 1 + 1);
      }
      if Below(a, b) {
        var k: nat :| PartsAt(a[1..], b[1..], k);
        assert PartsAt(a, b, k + 1);
      }
    } else if Below(a, b) {
      assert PartsAt(a, b, 0);
    } else {
      forall k: nat
        ensures !PartsAt(a, b, k)
      {
        if 0 < k <= |a| && k < |b| {
          assert a[..k][0] == a[0] && b[..k][0] == b[0];
        }
      }
    }
  }

  lemma {:induction false} BelowIsTotal(a: string, b: string)
    ensures a == b || Below(a, b) || Below(b, a)
  {
    if a != "" && b != "" {
      BelowIsTotal(a[1..], b[1..]);
      if a[0] == b[0] && a[1..] == b[1..] {
        assert a == [a[0]] + a[1..] && b == [b[0]] + b[1..];
      }
    }
  }

  lemma {:induction false} BelowIsTransitive(a: string, b: string, c: string)
    requires Below(a, b) && Below(b, c)
    ensures Below(a, c)
  {
    if a != "" && b != "" && c != "" && a[0] == b[0] == c[0] {
      BelowIsTransitive(a[1..], b[1..], c[1..]);
    }
  }

  predicate Ascending(labels: seq<string>) {
    forall i, j | 0 <= i < j < |labels| :: Below(labels[i], labels[j])
  }

  /** The labels of the set, each once and in order. */
  predicate Lists(labels: seq<string>, all: set<string>) {
    Ascending(labels) && (set k | k in labels) == all
  }

  /** sort.Strings over the labels in whatever order they came. */
  method SortStrings(all: set<string>) returns (sorted: seq<string>)
    ensures Lists(sorted, all)
  {
    hide Below;
    sorted := [];
    var todo := all;
    while todo != {}
      invariant todo <= all && Lists(sorted, all - todo)
    {
      var k :| k in todo;
      ghost var before := set l | l in sorted;
      assert k !in before;
      todo := todo - {k};
      sorted := Insert(sorted, k);
      assert (set l | l in sorted) == before + {k} == all - todo;
    }
  }

  method Insert(labels: seq<string>, k: string) returns (sorted: seq<string>)
    requires Ascending(labels) && k !in labels
    ensures Ascending(sorted) && forall l :: l in sorted <==> l in labels || l == k
  {
    hide Below;
    var at := 0;
    while at < |labels| && Below(labels[at], k)
      invariant at <= |labels|
      invariant forall i | 0 <= i < at :: Below(labels[i], k)
    {
      at := at + 1;
    }
    sorted := labels[..at] + [k] + labels[at..];
    forall j | at <= j < |labels|
      ensures Below(k, labels[j])
    {
      BelowIsTotal(labels[at], k);
      if j > at {
        BelowIsTransitive(k, labels[at], labels[j]);
      }
    }
    assert labels == labels[..at] + labels[at..];
  }

  /** The loop over seen. */
  method KeysCountedOtherThan(seen: map<string, nat>, n: nat) returns (out: set<string>)
    ensures out == set k | k in seen && seen[k] != n
  {
    out := {};
    var todo := seen.Keys;
    while todo != {}
      invariant todo <= seen.Keys
      invariant out == set k | k in seen.Keys - todo && seen[k] != n
    {
      var k :| k in todo;
      todo := todo - {k};
      if seen[k] != n {
        out := out + {k};
      }
    }
  }

  lemma OccurrencesOfOneMore(footprints: seq<Footprint>, i: nat)
    requires i < |footprints|
    ensures Occurrences(footprints[..i]) + multiset(Prefixed(READ, footprints[i].readOnly))
            + multiset(Prefixed(WRITE, footprints[i].readWrite)) == Occurrences(footprints[..i + 1])
  {
    assert footprints[..i + 1][..i] == footprints[..i];
    assert multiset(Labels(footprints[i])) ==
           multiset(Prefixed(READ, footprints[i].readOnly)) + multiset(Prefixed(WRITE, footprints[i].readWrite));
  }

  lemma NothingCounted()
    ensures Counts(map[], multiset{})
  {
  }

  lemma CountedChanges(seen: map<string, nat>, footprints: seq<Footprint>)
    requires Counts(seen, Occurrences(footprints))
    ensures (set k | k in seen && seen[k] != |footprints|) == Changes(footprints)
  {
  }

  predicate Unique(labels: seq<string>) {
    forall i, j | 0 <= i < j < |labels| :: labels[i] != labels[j]
  }

  /** No run names an entry twice in one list. */
  predicate UniqueLabels(fp: Footprint) {
    Unique(fp.readOnly) && Unique(fp.readWrite)
  }

  lemma {:induction false} UniqueCounts(labels: seq<string>, k: string)
    requires Unique(labels)
    ensures multiset(labels)[k] == if k in labels then 1 else 0
  {
    if labels != [] {
      assert labels == [labels[0]] + labels[1..];
      assert multiset(labels) == multiset{labels[0]} + multiset(labels[1..]);
      assert Unique(labels[1..]);
      UniqueCounts(labels[1..], k);
    }
  }

  lemma LabelsAreUnique(fp: Footprint)
    requires UniqueLabels(fp)
    ensures Unique(Labels(fp))
  {
    var all := Labels(fp);
    forall i, j | 0 <= i < j < |all|
      ensures all[i] != all[j]
    {
      assert i < |fp.readOnly| ==> all[i][..6] == READ && all[i][6..] == fp.readOnly[i];
      assert j < |fp.readOnly| ==> all[j][..6] == READ && all[j][6..] == fp.readOnly[j];
      assert i >= |fp.readOnly| ==> all[i][..6] == WRITE && all[i][6..] == fp.readWrite[i - |fp.readOnly|];
      assert j >= |fp.readOnly| ==> all[j][..6] == WRITE && all[j][6..] == fp.readWrite[j - |fp.readOnly|];
      assert READ[0] != WRITE[0];
    }
  }

  /** A label that no run has twice occurs once for each run that has it. */
  lemma {:induction false} OccursOncePerRun(footprints: seq<Footprint>, k: string)
    requires forall i | 0 <= i < |footprints| :: UniqueLabels(footprints[i])
    ensures Occurrences(footprints)[k] <= |footprints|
    ensures Occurrences(footprints)[k] == |footprints| <==>
            forall i | 0 <= i < |footprints| :: k in Labels(footprints[i])
    ensures Occurrences(footprints)[k] > 0 <==> exists i | 0 <= i < |footprints| :: k in Labels(footprints[i])
  {
    hide Labels;
    if footprints != [] {
      var before, last := footprints[..|footprints| - 1], footprints[|footprints| - 1];
      OccursOncePerRun(before, k);
      LabelsAreUnique(last);
      UniqueCounts(Labels(last), k);
      assert forall i | 0 <= i < |before| :: before[i] == footprints[i];
    }
  }

  /** The report says of a label what it should: that some run has it and some run does not. */
  predicate RightAbout(footprints: seq<Footprint>, k: string) {
    k in Changes(footprints) <==>
      && (exists i | 0 <= i < |footprints| :: k in Labels(footprints[i]))
      && (exists i | 0 <= i < |footprints| :: k !in Labels(footprints[i]))
  }

  /** A label that every run has occurs at least once for each, and exactly so often when none repeats it. */
  lemma {:induction false} OccursInEveryRun(footprints: seq<Footprint>, k: string)
    requires forall i | 0 <= i < |footprints| :: k in Labels(footprints[i])
    ensures Occurrences(footprints)[k] >= |footprints|
    ensures Occurrences(footprints)[k] == |footprints| <==>
            forall i | 0 <= i < |footprints| :: multiset(Labels(footprints[i]))[k] == 1
  {
    hide Labels;
    if footprints != [] {
      var before, last := footprints[..|footprints| - 1], footprints[|footprints| - 1];
      assert forall i | 0 <= i < |before| :: before[i] == footprints[i];
      OccursInEveryRun(before, k);
      assert k in multiset(Labels(last));
    }
  }

  lemma {:induction false} OccursInSomeRun(footprints: seq<Footprint>, k: string)
    ensures k in Occurrences(footprints) <==> exists i | 0 <= i < |footprints| :: k in Labels(footprints[i])
  {
    hide Labels;
    if footprints != [] {
      var before, last := footprints[..|footprints| - 1], footprints[|footprints| - 1];
      OccursInSomeRun(before, k);
      assert forall i | 0 <= i < |before| :: before[i] == footprints[i];
      assert k in multiset(Labels(last)) <==> k in Labels(last);
    }
  }

  /** When the report is right about a label: if every run has it, exactly when every run has it once; otherwise
      exactly when its occurrences do not happen to add up to the number of runs. */
  lemma ChangesAreRightExactly(footprints: seq<Footprint>, k: string)
    ensures RightAbout(footprints, k) <==>
            if forall i | 0 <= i < |footprints| :: k in Labels(footprints[i])
            then forall i | 0 <= i < |footprints| :: multiset(Labels(footprints[i]))[k] == 1
            else Occurrences(footprints)[k] != |footprints|
  {
    hide Labels, Occurrences;
    OccursInSomeRun(footprints, k);
    if forall i | 0 <= i < |footprints| :: k in Labels(footprints[i]) {
      OccursInEveryRun(footprints, k);
    }
  }

  /** When no run names an entry twice, the changes are exactly the entries of some run and not of every run. */
  lemma ChangesAreExact(footprints: seq<Footprint>, k: string)
    requires forall i | 0 <= i < |footprints| :: UniqueLabels(footprints[i])
    ensures RightAbout(footprints, k)
  {
    hide RightAbout, Labels, Occurrences, UniqueLabels;
    ChangesAreRightExactly(footprints, k);
    OccursOncePerRun(footprints, k);
    forall i | 0 <= i < |footprints| && k in Labels(footprints[i])
      ensures multiset(Labels(footprints[i]))[k] == 1
    {
      LabelsAreUnique(footprints[i]);
      UniqueCounts(Labels(footprints[i]), k);
    }
  }

  /** A read label is in a run's labels exactly when the run reads the entry. */
  lemma ReadLabels(fp: Footprint, entry: string)
    ensures READ + entry in Labels(fp) <==> entry in fp.readOnly
    ensures WRITE + entry in Labels(fp) <==> entry in fp.readWrite
  {
    var all := Labels(fp);
    forall i | 0 <= i < |all|
      ensures i < |fp.readOnly| ==> all[i][..6] == READ && all[i][6..] == fp.readOnly[i]
      ensures i >= |fp.readOnly| ==> all[i][..6] == WRITE && all[i][6..] == fp.readWrite[i - |fp.readOnly|]
    {
    }
    assert (READ + entry)[..6] == READ && (READ + entry)[6..] == entry;
    assert (WRITE + entry)[..6] == WRITE && (WRITE + entry)[6..] == entry;
    assert READ[0] != WRITE[0];
    if entry in fp.readOnly {
      var i :| 0 <= i < |fp.readOnly| && fp.readOnly[i] == entry;
      assert all[i] == READ + entry;
    }
    if entry in fp.readWrite {
      var i :| 0 <= i < |fp.readWrite| && fp.readWrite[i] == entry;
      assert all[|fp.readOnly| + i] == WRITE + entry;
    }
  }

  /** Two entries of one run under one label: a change can go unnoticed, and a footprint that never moved can
      be reported as changed. */
  lemma DuplicateLabelsMislead(entry: string)
    ensures READ + entry !in Changes([Footprint([entry, entry], []), Footprint([], [])])
    ensures READ + entry in Changes([Footprint([entry, entry], []), Footprint([entry, entry], [])])
  {
    hide Occurrences, Labels;
    var twice, none := Footprint([entry, entry], []), Footprint([], []);
    var k := READ + entry;
    LabelsOfTwo(entry);
    TwoRuns(twice, none);
    TwoRuns(twice, twice);
    assert multiset([k, k]) + multiset([]) == multiset{k, k};
    assert multiset([k, k]) + multiset([k, k]) == multiset{k, k, k, k};
  }

  lemma LabelsOfTwo(entry: string)
    ensures Labels(Footprint([entry, entry], [])) == [READ + entry, READ + entry] && Labels(Footprint([], [])) == []
  {
  }

  lemma TwoRuns(a: Footprint, b: Footprint)
    ensures Occurrences([a, b]) == multiset(Labels(a)) + multiset(Labels(b))
  {
    hide Labels;
    assert [a, b][..1] == [a] && [a][..0] == [];
    assert Occurrences([a]) == multiset{} + multiset(Labels(a)) by {
      assert Occurrences([a][..0]) == multiset{};
    }
    assert Occurrences([a, b]) == Occurrences([a, b][..1]) + multiset(Labels(b));
  }
}
