/** The per-client rate limit: takeTokens and evictOldestClient in internal/api/api.go. Time is in seconds. */
module TokenBucket {
  const MAX_CLIENTS: nat := 10000

  datatype Bucket = Bucket(tokens: real, capacity: real, updatedAt: real, seenAt: real)

  datatype Request = Request(cost: real, at: real)

  function Min(x: real, y: real): real {
    if x <= y then x else y
  }

  function Max(x: real, y: real): real {
    if x >= y then x else y
  }

  function Ceil(x: real): (n: int)
    ensures n as real - 1.0 < x <= n as real
  {
    -((-x).Floor)
  }

  // ---- one bucket ---------------------------------------------------------------------------

  function Fresh(burst: real, now: real): Bucket {
    Bucket(burst, burst, now, now)
  }

  /** The tokens a bucket holds at a later time. */
  function Level(b: Bucket, rate: real, now: real): real {
    Min(b.capacity, b.tokens + (now - b.updatedAt) * rate)
  }

  /** The bucket after a request, and the delay it was told: none when it was admitted. */
  function TakeFrom(b: Bucket, rate: real, r: Request): (Bucket, int)
    requires rate > 0.0
  {
    var level := Level(b, rate, r.at);
    var capacity := Max(b.capacity, r.cost);
    if level < r.cost then (Bucket(level, capacity, r.at, r.at), Ceil((r.cost - level) / rate))
    else (Bucket(level - r.cost, capacity, r.at, r.at), 0)
  }

  /** What a request takes out. */
  function Taken(b: Bucket, rate: real, r: Request): real {
    if Level(b, rate, r.at) < r.cost then 0.0 else r.cost
  }

  /** The tokens the rate brings between two moments. */
  function Flow(rate: real, start: real, end: real): real {
    rate * (end - start)
  }

  predicate Sound(b: Bucket) {
    0.0 <= b.tokens <= b.capacity
  }

  lemma Refills(x: real, y: real)
    requires x >= 0.0 && y >= 0.0
    ensures x * y >= 0.0
  {
  }

  lemma TakingKeepsSound(b: Bucket, rate: real, r: Request)
    requires rate > 0.0 && Sound(b) && r.cost >= 0.0 && r.at >= b.updatedAt
    ensures Sound(TakeFrom(b, rate, r).0)
    ensures TakeFrom(b, rate, r).0.tokens == Level(b, rate, r.at) - Taken(b, rate, r)
    ensures TakeFrom(b, rate, r).0.updatedAt == r.at
  {
    Refills(r.at - b.updatedAt, rate);
  }

  /** A level rises by no more than the rate. */
  lemma LevelsRiseSlowly(b: Bucket, rate: real, now: real, later: real)
    requires rate > 0.0 && now <= later
    ensures Level(b, rate, now) <= Level(b, rate, later) <= Level(b, rate, now) + Flow(rate, now, later)
  {
    Refills(later - now, rate);
    assert (later - b.updatedAt) * rate == (now - b.updatedAt) * rate + (later - now) * rate;
  }

  // ---- Retry-After ---------------------------------------------------------------------------------

  lemma CeilingDelay(missing: real, rate: real, k: int, wait: real)
    requires missing > 0.0 && rate > 0.0 && k == Ceil(missing / rate)
    ensures k >= 1
    ensures wait >= k as real ==> wait * rate >= missing
    ensures wait <= k as real - 1.0 ==> wait * rate < missing
  {
    var q := missing / rate;
    assert q * rate == missing;
    assert q > 0.0 by {
      if q <= 0.0 {
        Refills(-q, rate);
      }
    }
    if wait >= k as real {
      Refills(wait - q, rate);
      assert (wait - q) * rate == wait * rate - missing;
    }
    if wait <= k as real - 1.0 {
      assert q - wait > 0.0;
      Positive(q - wait, rate);
      assert (q - wait) * rate == missing - wait * rate;
    }
  }

  lemma Positive(x: real, y: real)
    requires x > 0.0 && y > 0.0
    ensures x * y > 0.0
  {
  }

  /** Retry-After is sound and tight. A rejected request is told at least one second; repeated with no request
      between, it is admitted after that many seconds or more and rejected again a second or more before, even
      when it costs more than the client's burst. */
  lemma RetryAfterIsTight(b: Bucket, rate: real, r: Request, later: real)
    requires rate > 0.0 && TakeFrom(b, rate, r).1 != 0 && r.at <= later
    ensures var (rejected, k) := TakeFrom(b, rate, r);
            && k >= 1
            && (later - r.at >= k as real ==> TakeFrom(rejected, rate, Request(r.cost, later)).1 == 0)
            && (later - r.at <= k as real - 1.0 ==> TakeFrom(rejected, rate, Request(r.cost, later)).1 >= 1)
  {
    var (rejected, k) := TakeFrom(b, rate, r);
    var level := Level(b, rate, r.at);
    CeilingDelay(r.cost - level, rate, k, later - r.at);
    var again := Level(rejected, rate, later);
    if again < r.cost {
      CeilingDelay(r.cost - again, rate, Ceil((r.cost - again) / rate), 0.0);
    }
  }

  // ---- runs of one client ----------------------------------------------------------------------

  function Run(b: Bucket, rate: real, reqs: seq<Request>): Bucket
    requires rate > 0.0
  {
    if reqs == [] then b else TakeFrom(Run(b, rate, reqs[..|reqs| - 1]), rate, reqs[|reqs| - 1]).0
  }

  /** What the run admits, all told. */
  function Admitted(b: Bucket, rate: real, reqs: seq<Request>): real
    requires rate > 0.0
  {
    if reqs == [] then 0.0
    else
      var before := reqs[..|reqs| - 1];
      Admitted(b, rate, before) + Taken(Run(b, rate, before), rate, reqs[|reqs| - 1])
  }

  function Largest(least: real, reqs: seq<Request>): real {
    if reqs == [] then least else Max(Largest(least, reqs[..|reqs| - 1]), reqs[|reqs| - 1].cost)
  }

  predicate Costed(reqs: seq<Request>) {
    forall i | 0 <= i < |reqs| :: reqs[i].cost >= 0.0
  }

  /** Requests that follow each other from a time on. */
  predicate Follows(start: real, reqs: seq<Request>) {
    && Costed(reqs)
    && (forall i | 0 <= i < |reqs| :: reqs[i].at >= start)
    && (forall i, j | 0 <= i < j < |reqs| :: reqs[i].at <= reqs[j].at)
  }

  function End(start: real, reqs: seq<Request>): real {
    if reqs == [] then start else reqs[|reqs| - 1].at
  }

  lemma LargestIsLargest(least: real, reqs: seq<Request>)
    ensures Largest(least, reqs) >= least
    ensures forall i | 0 <= i < |reqs| :: reqs[i].cost <= Largest(least, reqs)
    ensures Largest(least, reqs) == least || exists i | 0 <= i < |reqs| :: reqs[i].cost == Largest(least, reqs)
  {
    if reqs != [] {
      var before := reqs[..|reqs| - 1];
      LargestIsLargest(least, before);
      assert forall i | 0 <= i < |before| :: before[i] == reqs[i];
      if Largest(least, reqs) != least && Largest(least, before) == Largest(least, reqs) {
        var i :| 0 <= i < |before| && before[i].cost == Largest(least, before);
        assert reqs[i].cost == Largest(least, reqs);
      } else if Largest(least, reqs) != least {
        assert reqs[|reqs| - 1].cost == Largest(least, reqs);
      }
    }
  }

  /** Over any run, in whatever order the times come: the capacity is the largest of the first one and the costs,
      and what was admitted plus what is left never exceeds what there was plus what flowed in up to the time of
      the last request. */
  lemma {:induction false} RunsConserve(b: Bucket, rate: real, reqs: seq<Request>)
    requires rate > 0.0 && b.tokens <= b.capacity && Costed(reqs)
    ensures Run(b, rate, reqs).tokens <= Run(b, rate, reqs).capacity == Largest(b.capacity, reqs)
    ensures Run(b, rate, reqs).updatedAt == End(b.updatedAt, reqs)
    ensures Admitted(b, rate, reqs) + Run(b, rate, reqs).tokens <=
            b.tokens + Flow(rate, b.updatedAt, End(b.updatedAt, reqs))
  {
    hide TakeFrom, Taken, Level, Flow;
    RatesAdd(rate, b.updatedAt, b.updatedAt, b.updatedAt);
    if reqs != [] {
      var before, last := reqs[..|reqs| - 1], reqs[|reqs| - 1];
      RunsConserve(b, rate, before);
      var mid := Run(b, rate, before);
      OneStepConserves(mid, rate, last);
      RatesAdd(rate, b.updatedAt, mid.updatedAt, last.at);
    }
  }

  /** When the times follow each other, the tokens never go below zero either. */
  lemma {:induction false} OrderedRunsStaySound(b: Bucket, rate: real, reqs: seq<Request>)
    requires rate > 0.0 && Sound(b) && Follows(b.updatedAt, reqs)
    ensures Sound(Run(b, rate, reqs)) && Run(b, rate, reqs).updatedAt == End(b.updatedAt, reqs)
  {
    hide TakeFrom, Taken, Level;
    if reqs != [] {
      var before, last := reqs[..|reqs| - 1], reqs[|reqs| - 1];
      OrderedRunsStaySound(b, rate, before);
      assert End(b.updatedAt, before) <= last.at by {
        if before != [] {
          assert before[|before| - 1] == reqs[|reqs| - 2];
        }
      }
      TakingKeepsSound(Run(b, rate, before), rate, last);
    }
  }

  /** The latest of a time and those of the requests. */
  function Latest(start: real, reqs: seq<Request>): real {
    if reqs == [] then start else Max(Latest(start, reqs[..|reqs| - 1]), reqs[|reqs| - 1].at)
  }

  lemma {:induction false} LatestIsNoEarlier(start: real, reqs: seq<Request>)
    ensures Latest(start, reqs) >= start
  {
    if reqs != [] {
      LatestIsNoEarlier(start, reqs[..|reqs| - 1]);
    }
  }

  /** In whatever order the times come, a client is admitted at most what it had and what the rate brought up to the
      latest of them: a request is admitted only from tokens that are there. */
  lemma {:induction false} AnyOrderIsBounded(b: Bucket, rate: real, reqs: seq<Request>)
    requires rate > 0.0 && Sound(b) && Costed(reqs)
    ensures Admitted(b, rate, reqs) <= b.tokens + Flow(rate, b.updatedAt, Latest(b.updatedAt, reqs))
  {
    hide TakeFrom, Run, Flow, Level;
    var start, latest := b.updatedAt, Latest(b.updatedAt, reqs);
    LatestIsNoEarlier(start, reqs);
    RatesAdd(rate, start, start, start);
    FlowsGrow(rate, start, start, latest);
    if reqs != [] {
      var before, last := reqs[..|reqs| - 1], reqs[|reqs| - 1];
      AnyOrderIsBounded(b, rate, before);
      FlowsGrow(rate, start, Latest(start, before), latest);
      FlowsGrow(rate, start, last.at, latest);
      AdmittedFromTokens(b, rate, reqs);
    }
  }

  lemma FlowsGrow(rate: real, start: real, end: real, later: real)
    requires rate > 0.0 && end <= later
    ensures Flow(rate, start, end) <= Flow(rate, start, later)
  {
    Refills(later - end, rate);
    assert rate * (later - start) == rate * (end - start) + (later - end) * rate;
  }

  /** If the last request took anything, the whole run is covered by the flow up to it. */
  lemma AdmittedFromTokens(b: Bucket, rate: real, reqs: seq<Request>)
    requires rate > 0.0 && Sound(b) && Costed(reqs) && reqs != []
    ensures var before, last := reqs[..|reqs| - 1], reqs[|reqs| - 1];
            || Admitted(b, rate, reqs) == Admitted(b, rate, before)
            || Admitted(b, rate, reqs) <= b.tokens + Flow(rate, b.updatedAt, last.at)
  {
    hide Flow;
    RunsConserve(b, rate, reqs);
  }

  lemma RatesAdd(rate: real, x: real, y: real, z: real)
    ensures Flow(rate, x, y) + Flow(rate, y, z) == Flow(rate, x, z) && Flow(rate, x, x) == 0.0
  {
  }

  lemma OneStepConserves(b: Bucket, rate: real, r: Request)
    requires rate > 0.0 && b.tokens <= b.capacity && r.cost >= 0.0
    ensures Taken(b, rate, r) + TakeFrom(b, rate, r).0.tokens <= b.tokens + Flow(rate, b.updatedAt, r.at)
    ensures TakeFrom(b, rate, r).0.tokens <= TakeFrom(b, rate, r).0.capacity == Max(b.capacity, r.cost)
    ensures TakeFrom(b, rate, r).0.updatedAt == r.at
  {
  }

  /** From the first request on, a client is admitted at most its burst and what the rate brought since. */
  lemma BurstAndRateBoundARun(burst: real, rate: real, created: real, reqs: seq<Request>)
    requires rate > 0.0 && burst >= 0.0 && Follows(created, reqs)
    ensures Admitted(Fresh(burst, created), rate, reqs) <= burst + Flow(rate, created, End(created, reqs))
    ensures 0.0 <= Run(Fresh(burst, created), rate, reqs).tokens <= Run(Fresh(burst, created), rate, reqs).capacity
    ensures Run(Fresh(burst, created), rate, reqs).capacity == Largest(burst, reqs)
  {
    hide Run, Admitted, Largest, End, Flow;
    var b := Fresh(burst, created);
    RunsConserve(b, rate, reqs);
    OrderedRunsStaySound(b, rate, reqs);
    assert b.updatedAt == created && b.tokens == burst && b.capacity == burst;
  }

  /** In any later window, from any moment between two requests, a client is admitted at most its capacity at that
      moment and what the rate brings in the window. */
  lemma CapacityAndRateBoundAWindow(b: Bucket, rate: real, earlier: seq<Request>, window: seq<Request>, start: real)
    requires rate > 0.0 && Sound(b) && Follows(b.updatedAt, earlier)
    requires End(b.updatedAt, earlier) <= start && Follows(start, window)
    ensures Admitted(Run(b, rate, earlier), rate, window) <=
            Largest(b.capacity, earlier) + Flow(rate, start, End(start, window))
  {
    hide Run, Largest, Level, Flow;
    RatesAdd(rate, start, start, start);
    RunsConserve(b, rate, earlier);
    OrderedRunsStaySound(b, rate, earlier);
    var mid := Run(b, rate, earlier);
    if window != [] {
      WindowFrom(mid, rate, window, start);
    } else {
      assert End(start, window) == start && Admitted(mid, rate, window) == 0.0;
    }
  }

  /** A run from a bucket that was first brought up to date. */
  lemma {:induction false} WindowFrom(b: Bucket, rate: real, window: seq<Request>, start: real)
    requires rate > 0.0 && Sound(b) && b.updatedAt <= start && Follows(start, window) && window != []
    ensures Admitted(b, rate, window) + Run(b, rate, window).tokens <=
            Level(b, rate, start) + Flow(rate, start, End(start, window))
    ensures Sound(Run(b, rate, window)) && Run(b, rate, window).updatedAt == End(start, window)
    ensures Level(b, rate, start) <= b.capacity
  {
    hide TakeFrom, Taken, Level, Flow;
    var before, last := window[..|window| - 1], window[|window| - 1];
    if before == [] {
      assert Run(b, rate, before) == b && Admitted(b, rate, before) == 0.0;
      TakingKeepsSound(b, rate, last);
      LevelsRiseSlowly(b, rate, start, last.at);
    } else {
      assert before[|before| - 1] == window[|window| - 2];
      WindowFrom(b, rate, before, start);
      var mid := Run(b, rate, before);
      TakingKeepsSound(mid, rate, last);
      OneStepConserves(mid, rate, last);
      RatesAdd(rate, start, mid.updatedAt, last.at);
    }
    LevelIsCapped(b, rate, start);
  }

  lemma LevelIsCapped(b: Bucket, rate: real, now: real)
    ensures Level(b, rate, now) <= b.capacity
  {
  }

  // ---- whom the bucket refuses -----------------------------------------------------------------------

  /** What the run admits from its k-th request on, and x tokens more now, are more than the capacity at that request
      and what flowed in since. */
  predicate Overdraws(b: Bucket, rate: real, reqs: seq<Request>, now: real, x: real, k: nat)
    requires rate > 0.0 && k <= |reqs|
  {
    Admitted(b, rate, reqs) - Admitted(b, rate, reqs[..k]) + x >
    Largest(b.capacity, reqs[..k]) + Flow(rate, if k < |reqs| then reqs[k].at else now, now)
  }

  /** The same for the whole run and the tokens there were at its start. */
  predicate OverdrawsStart(b: Bucket, rate: real, reqs: seq<Request>, now: real, x: real)
    requires rate > 0.0
  {
    Admitted(b, rate, reqs) + x > b.tokens + Flow(rate, b.updatedAt, now)
  }

  /** No part of the run up to now allows x tokens more. */
  predicate Overdrawn(b: Bucket, rate: real, reqs: seq<Request>, now: real, x: real)
    requires rate > 0.0
  {
    OverdrawsStart(b, rate, reqs, now, x) || exists k | 0 <= k <= |reqs| :: Overdraws(b, rate, reqs, now, x, k)
  }

  lemma {:induction false} CapacityIsLargest(b: Bucket, rate: real, reqs: seq<Request>)
    requires rate > 0.0
    ensures Run(b, rate, reqs).capacity == Largest(b.capacity, reqs)
    ensures reqs != [] ==> Run(b, rate, reqs).updatedAt == reqs[|reqs| - 1].at
  {
    if reqs != [] {
      CapacityIsLargest(b, rate, reqs[..|reqs| - 1]);
    }
  }

  /** The level after a run is the least that any part of it leaves. */
  lemma {:induction false} LevelIsTheLeastLeft(b: Bucket, rate: real, reqs: seq<Request>, now: real, x: real)
    requires rate > 0.0
    ensures x > Level(Run(b, rate, reqs), rate, now) <==> Overdrawn(b, rate, reqs, now, x)
  {
    hide Run, Admitted, Largest, Flow, Overdrawn, Overdraws;
    CapacityIsLargest(b, rate, reqs);
    NowOverdraws(b, rate, reqs, now, x);
    if reqs == [] {
      EmptyRun(b, rate, now, x);
    } else {
      var before, last := reqs[..|reqs| - 1], reqs[|reqs| - 1];
      var more := x + Taken(Run(b, rate, before), rate, last) - Flow(rate, last.at, now);
      LevelIsTheLeastLeft(b, rate, before, last.at, more);
      LastStep(b, rate, reqs, now, x);
      OverdrawnBefore(b, rate, reqs, now, x, more);
    }
  }

  lemma NowOverdraws(b: Bucket, rate: real, reqs: seq<Request>, now: real, x: real)
    requires rate > 0.0
    ensures Overdraws(b, rate, reqs, now, x, |reqs|) <==> x > Largest(b.capacity, reqs)
  {
    assert reqs[..|reqs|] == reqs;
    RatesAdd(rate, now, now, now);
  }

  lemma EmptyRun(b: Bucket, rate: real, now: real, x: real)
    requires rate > 0.0
    ensures x > Level(Run(b, rate, []), rate, now) <==> Overdrawn(b, rate, [], now, x)
  {
    NowOverdraws(b, rate, [], now, x);
    assert Flow(rate, b.updatedAt, now) == (now - b.updatedAt) * rate;
  }

  lemma LastStep(b: Bucket, rate: real, reqs: seq<Request>, now: real, x: real)
    requires rate > 0.0 && reqs != []
    ensures var before, last := reqs[..|reqs| - 1], reqs[|reqs| - 1];
            var mid := Run(b, rate, before);
            && Admitted(b, rate, reqs) == Admitted(b, rate, before) + Taken(mid, rate, last)
            && (x > Level(Run(b, rate, reqs), rate, now) <==>
                  || x > Run(b, rate, reqs).capacity
                  || x + Taken(mid, rate, last) - Flow(rate, last.at, now) > Level(mid, rate, last.at))
  {
    hide TakeFrom, Taken, Level, Flow;
    LevelAfter(Run(b, rate, reqs[..|reqs| - 1]), rate, reqs[|reqs| - 1], now, x);
  }

  lemma LevelAfter(b: Bucket, rate: real, r: Request, now: real, x: real)
    requires rate > 0.0
    ensures var after := TakeFrom(b, rate, r).0;
            x > Level(after, rate, now) <==>
              || x > after.capacity
              || x + Taken(b, rate, r) - Flow(rate, r.at, now) > Level(b, rate, r.at)
  {
    hide Level, Flow, Max;
    var after := TakeFrom(b, rate, r).0;
    LevelIs(after, rate, now);
    assert after.tokens == Level(b, rate, r.at) - Taken(b, rate, r);
  }

  lemma LevelIs(b: Bucket, rate: real, now: real)
    ensures Level(b, rate, now) == Min(b.capacity, b.tokens + Flow(rate, b.updatedAt, now))
  {
  }

  lemma OverdrawnBefore(b: Bucket, rate: real, reqs: seq<Request>, now: real, x: real, more: real)
    requires rate > 0.0 && reqs != []
    requires var before, last := reqs[..|reqs| - 1], reqs[|reqs| - 1];
             && Admitted(b, rate, reqs) == Admitted(b, rate, before) + Taken(Run(b, rate, before), rate, last)
             && more == x + Taken(Run(b, rate, before), rate, last) - Flow(rate, last.at, now)
    ensures Overdrawn(b, rate, reqs, now, x) <==>
            || Overdraws(b, rate, reqs, now, x, |reqs|)
            || Overdrawn(b, rate, reqs[..|reqs| - 1], reqs[|reqs| - 1].at, more)
  {
    hide Run, Admitted, Largest, Flow, Taken;
    var before, last := reqs[..|reqs| - 1], reqs[|reqs| - 1];
    RatesAdd(rate, b.updatedAt, last.at, now);
    forall k | 0 <= k <= |before|
      ensures Overdraws(b, rate, reqs, now, x, k) <==> Overdraws(b, rate, before, last.at, more, k)
    {
      assert reqs[..k] == before[..k];
      RatesAdd(rate, reqs[k].at, last.at, now);
    }
  }

  /** A request is refused exactly when some part of the run up to it does not allow its cost: from the start, what
      there was and flowed in; from any request on, the capacity at that request and what flowed in since. So it is
      in whatever order the times come. */
  lemma RefusedExactly(b: Bucket, rate: real, reqs: seq<Request>, r: Request)
    requires rate > 0.0
    ensures TakeFrom(Run(b, rate, reqs), rate, r).1 != 0 <==> Overdrawn(b, rate, reqs, r.at, r.cost)
  {
    hide Run, Overdrawn;
    LevelIsTheLeastLeft(b, rate, reqs, r.at, r.cost);
    var level := Level(Run(b, rate, reqs), rate, r.at);
    if level < r.cost {
      CeilingDelay(r.cost - level, rate, Ceil((r.cost - level) / rate), 0.0);
    }
  }

  /** The capacity cuts no refill on the way: what there was and flowed in, less what was admitted, always fits. */
  predicate NeverCut(b: Bucket, rate: real, reqs: seq<Request>, now: real)
    requires rate > 0.0
  {
    forall k | 0 <= k <= |reqs| ::
      b.tokens + Flow(rate, b.updatedAt, if k < |reqs| then reqs[k].at else now) - Admitted(b, rate, reqs[..k]) <=
      Largest(b.capacity, reqs[..k])
  }

  /** Then a request is refused only when more would be admitted than there was and flowed in. */
  lemma UncutRunsLoseNothing(b: Bucket, rate: real, reqs: seq<Request>, r: Request)
    requires rate > 0.0 && NeverCut(b, rate, reqs, r.at)
    ensures TakeFrom(Run(b, rate, reqs), rate, r).1 != 0 <==>
            Admitted(b, rate, reqs) + r.cost > b.tokens + Flow(rate, b.updatedAt, r.at)
  {
    hide Run, Admitted, Largest, Flow, TakeFrom;
    RefusedExactly(b, rate, reqs, r);
    forall k | 0 <= k <= |reqs| && Overdraws(b, rate, reqs, r.at, r.cost, k)
      ensures OverdrawsStart(b, rate, reqs, r.at, r.cost)
    {
      RatesAdd(rate, b.updatedAt, if k < |reqs| then reqs[k].at else r.at, r.at);
    }
  }

  function TotalCost(reqs: seq<Request>): real {
    if reqs == [] then 0.0 else TotalCost(reqs[..|reqs| - 1]) + reqs[|reqs| - 1].cost
  }

  /** From the first request on, requests that cost no more than the burst in all are admitted, every one. */
  lemma TheBurstIsGranted(burst: real, rate: real, created: real, reqs: seq<Request>, k: nat)
    requires rate > 0.0 && Follows(created, reqs) && TotalCost(reqs) <= burst && k < |reqs|
    ensures TakeFrom(Run(Fresh(burst, created), rate, reqs[..k]), rate, reqs[k]).1 == 0
    ensures Admitted(Fresh(burst, created), rate, reqs) == TotalCost(reqs)
  {
    hide TakeFrom, Run, Admitted, TotalCost, Fresh;
    var before := reqs[..k];
    PartsCostLess(reqs, k + 1);
    assert reqs[..k + 1][..k] == before && reqs[..k + 1] != [];
    assert TotalCost(reqs[..k + 1]) == TotalCost(before) + reqs[k].cost by {
      OneMoreCost(reqs[..k + 1]);
    }
    CostsAddUp(before);
    TheBurstCovers(burst, rate, created, before);
    TheBurstCovers(burst, rate, created, reqs);
    assert before != [] ==> before[|before| - 1] == reqs[k - 1];
    CoveredRequestsPass(Run(Fresh(burst, created), rate, before), rate, reqs[k]);
  }

  lemma OneMoreCost(reqs: seq<Request>)
    requires reqs != []
    ensures TotalCost(reqs) == TotalCost(reqs[..|reqs| - 1]) + reqs[|reqs| - 1].cost
  {
  }

  lemma {:induction false} TheBurstCovers(burst: real, rate: real, created: real, reqs: seq<Request>)
    requires rate > 0.0 && Follows(created, reqs) && TotalCost(reqs) <= burst
    ensures Admitted(Fresh(burst, created), rate, reqs) == TotalCost(reqs)
    ensures var b := Run(Fresh(burst, created), rate, reqs);
            Sound(b) && b.tokens >= burst - TotalCost(reqs) && b.updatedAt == End(created, reqs)
  {
    hide Level, TakeFrom, Taken;
    var b := Fresh(burst, created);
    CostsAddUp(reqs);
    OrderedRunsStaySound(b, rate, reqs);
    if reqs != [] {
      var before, last := reqs[..|reqs| - 1], reqs[|reqs| - 1];
      TheBurstCovers(burst, rate, created, before);
      assert before != [] ==> before[|before| - 1] == reqs[|reqs| - 2];
      CoveredRequestsPass(Run(b, rate, before), rate, last);
    }
  }

  /** Some of the first requests cost no more than all of them. */
  lemma {:induction false} PartsCostLess(reqs: seq<Request>, k: nat)
    requires Costed(reqs) && k <= |reqs|
    ensures TotalCost(reqs[..k]) <= TotalCost(reqs)
  {
    if k < |reqs| {
      PartsCostLess(reqs[..|reqs| - 1], k);
      assert reqs[..|reqs| - 1][..k] == reqs[..k];
    } else {
      assert reqs[..k] == reqs;
    }
  }

  lemma CoveredRequestsPass(b: Bucket, rate: real, r: Request)
    requires rate > 0.0 && Sound(b) && r.at >= b.updatedAt && r.cost <= b.tokens
    ensures TakeFrom(b, rate, r).1 == 0 && Taken(b, rate, r) == r.cost
    ensures TakeFrom(b, rate, r).0.tokens >= b.tokens - r.cost
  {
    Refills(r.at - b.updatedAt, rate);
  }

  lemma {:induction false} CostsAddUp(reqs: seq<Request>)
    requires Costed(reqs)
    ensures TotalCost(reqs) >= 0.0
  {
    if reqs != [] {
      CostsAddUp(reqs[..|reqs| - 1]);
    }
  }

  // ---- the server's clients -----------------------------------------------------------------------

  /** When a bucket was made, and the requests it has seen. */
  datatype Life = Life(created: real, reqs: seq<Request>)

  /** The bucket is what these requests made of a full one. */
  predicate Lived(b: Bucket, life: Life, burst: real, rate: real)
    requires rate > 0.0
  {
    Costed(life.reqs) && b == Run(Fresh(burst, life.created), rate, life.reqs)
  }

  class RateLimiter {
    const rate: real
    const burst: real
    var clients: map<string, Bucket>
    ghost var lives: map<string, Life>

    /** There are never more clients than the limit, and each bucket is what its requests made of a full one. */
    ghost predicate Valid()
      reads this
    {
      && rate > 0.0 && burst >= 0.0
      && |clients| <= MAX_CLIENTS
      && forall c | c in clients :: c in lives && Lived(clients[c], lives[c], burst, rate)
    }

    constructor (rate: real, burst: real)
      requires rate > 0.0 && burst >= 0.0
      ensures Valid() && this.rate == rate && this.burst == burst && clients == map[]
    {
      this.rate, this.burst := rate, burst;
      clients, lives := map[], map[];
    }

    /** evictOldestClient, over the clients in some order. */
    method EvictOldestClient() returns (ghost order: seq<string>)
      requires clients != map[]
      modifies this`clients
      ensures Enumerates(order, old(clients)) && Chosen(old(clients), order) in old(clients)
      ensures clients == old(clients) - {Chosen(old(clients), order)}
    {
      var oldest, seenAt := "", 0.0;
      var todo := clients.Keys;
      order := [];
      while todo != {}
        invariant todo <= clients.Keys && (set k | k in order) == clients.Keys - todo && Once(order)
        invariant oldest == Chosen(clients, order)
        invariant oldest != "" ==> oldest in clients && seenAt == clients[oldest].seenAt
      {
        var key :| key in todo;
        todo := todo - {key};
        assert (order + [key])[..|order|] == order;
        assert (set k | k in order + [key]) == (set k | k in order) + {key};
        assert key !in (set k | k in order);
        order := order + [key];
        if oldest == "" || clients[key].seenAt < seenAt {
          oldest, seenAt := key, clients[key].seenAt;
        }
      }
      ChosenIsAClient(clients, order);
      clients := clients - {oldest};
    }

    /** The bucket of a client, or a full one. */
    function BucketOf(client: string, now: real): Bucket
      reads this
    {
      if client in clients then clients[client] else Fresh(burst, now)
    }

    /** The first half of takeTokens: a client without a bucket gets a full one. */
    method Arrive(client: string, now: real)
      requires |clients| <= MAX_CLIENTS
      modifies this`clients
      ensures Arrived(old(clients), clients, client, Fresh(burst, now))
      ensures client in clients && clients[client] == old(BucketOf(client, now)) && |clients| <= MAX_CLIENTS
    {
      if client in clients {
        return;
      }
      if |clients| >= MAX_CLIENTS {
        ghost var order := EvictOldestClient();
        Smaller(old(clients), Chosen(old(clients), order));
      }
      OneMore(clients, client, Fresh(burst, now));
      clients := clients[client := Fresh(burst, now)];
    }

    /** takeTokens: the client's own bucket gives the answer; every other bucket stays, but for one that may have
        to make room for a new client. */
    method TakeTokens(client: string, cost: real, now: real) returns (retryAfter: int)
      requires Valid() && cost >= 0.0
      modifies this
      ensures Valid()
      ensures client in clients
      ensures (clients[client], retryAfter) == TakeFrom(old(BucketOf(client, now)), rate, Request(cost, now))
      ensures Arrived(old(clients), clients[client := old(BucketOf(client, now))], client, Fresh(burst, now))
      ensures lives == old(lives)[client := Longer(old(LifeOf(client, now)), cost, now)]
      ensures retryAfter != 0 <==> RefusedIn(old(LifeOf(client, now)), burst, rate, Request(cost, now))
      ensures client !in old(clients) && cost <= burst ==> retryAfter == 0 && clients[client].tokens == burst - cost
      ensures |clients| <= 10000
    {
      hide TakeFrom, Arrived, Lived, Level, Flow, Run, RefusedIn, Fresh;
      ghost var life := LifeOf(client, now);
      LivesGrow(BucketOf(client, now), life, burst, rate, Request(cost, now));
      Arrive(client, now);
      ArrivedKeeps(old(clients), clients, client, Fresh(burst, now));
      ghost var arrived := clients;
      var bucket;
      bucket, retryAfter := Draw(clients[client], rate, cost, now);
      clients := clients[client := bucket];
      SameSize(arrived, client, bucket);
      lives := lives[client := Longer(life, cost, now)];
    }

    ghost function LifeOf(client: string, now: real): (life: Life)
      requires Valid()
      reads this
      ensures Lived(BucketOf(client, now), life, burst, rate)
    {
      FreshLife(burst, rate, now);
      if client in clients then lives[client] else Life(now, [])
    }
  }

  lemma LivesGrow(b: Bucket, life: Life, burst: real, rate: real, r: Request)
    requires rate > 0.0 && Lived(b, life, burst, rate) && r.cost >= 0.0
    ensures Lived(TakeFrom(b, rate, r).0, Longer(life, r.cost, r.at), burst, rate)
    ensures TakeFrom(b, rate, r).1 != 0 <==> RefusedIn(life, burst, rate, r)
    ensures b == Fresh(burst, r.at) && r.cost <= burst ==>
              TakeFrom(b, rate, r).1 == 0 && TakeFrom(b, rate, r).0.tokens == burst - r.cost
  {
    hide RefusedIn, TakeFrom;
    ClientsAreJudged(b, life, burst, rate, r);
    if r.cost <= burst {
      NewClientsHaveTheBurst(burst, rate, r);
    }
    assert (life.reqs + [r])[..|life.reqs + [r]| - 1] == life.reqs;
  }

  /** Every bucket the server keeps, whatever the order in which its requests took the lock: the bound on what its
      client was admitted. */
  lemma EveryClientIsBounded(b: Bucket, life: Life, burst: real, rate: real)
    requires rate > 0.0 && burst >= 0.0 && Lived(b, life, burst, rate)
    ensures Admitted(Fresh(burst, life.created), rate, life.reqs) <=
            burst + Flow(rate, life.created, Latest(life.created, life.reqs))
    ensures b.tokens <= b.capacity == Largest(burst, life.reqs)
  {
    hide Run, Admitted, Largest, Latest, Flow;
    AnyOrderIsBounded(Fresh(burst, life.created), rate, life.reqs);
    RunsConserve(Fresh(burst, life.created), rate, life.reqs);
  }

  /** The client's requests so far do not allow this one: since its bucket was made, with the burst in it, or since any
      of them, with the capacity then, more would be admitted than was there and flowed in. */
  predicate RefusedIn(life: Life, burst: real, rate: real, r: Request)
    requires rate > 0.0
  {
    var admitted := Admitted(Fresh(burst, life.created), rate, life.reqs);
    || admitted + r.cost > burst + Flow(rate, life.created, r.at)
    || exists k | 0 <= k <= |life.reqs| ::
         admitted - Admitted(Fresh(burst, life.created), rate, life.reqs[..k]) + r.cost >
         Largest(burst, life.reqs[..k]) + Flow(rate, if k < |life.reqs| then life.reqs[k].at else r.at, r.at)
  }

  lemma ClientsAreJudged(b: Bucket, life: Life, burst: real, rate: real, r: Request)
    requires rate > 0.0 && Lived(b, life, burst, rate)
    ensures TakeFrom(b, rate, r).1 != 0 <==> RefusedIn(life, burst, rate, r)
  {
    hide Run, Admitted, Largest, Flow, TakeFrom;
    var full := Fresh(burst, life.created);
    RefusedExactly(full, rate, life.reqs, r);
    forall k | 0 <= k <= |life.reqs|
      ensures Overdraws(full, rate, life.reqs, r.at, r.cost, k) <==>
              Admitted(full, rate, life.reqs) - Admitted(full, rate, life.reqs[..k]) + r.cost >
              Largest(burst, life.reqs[..k]) + Flow(rate, if k < |life.reqs| then life.reqs[k].at else r.at, r.at)
    {
    }
  }

  lemma NewClientsHaveTheBurst(burst: real, rate: real, r: Request)
    requires rate > 0.0 && r.cost <= burst
    ensures var (b, retryAfter) := TakeFrom(Fresh(burst, r.at), rate, r);
            retryAfter == 0 && b.tokens == burst - r.cost
  {
  }

  lemma SameSize(clients: map<string, Bucket>, client: string, b: Bucket)
    requires client in clients
    ensures |clients[client := b]| == |clients|
    ensures clients[client := b][client := clients[client]] == clients
  {
    assert clients[client := b].Keys == clients.Keys;
  }

  // ---- whom evictOldestClient chooses ---------------------------------------------------------------

  predicate Once(order: seq<string>) {
    forall i, j | 0 <= i < j < |order| :: order[i] != order[j]
  }

  /** The clients, each once, in some order. */
  predicate Enumerates(order: seq<string>, clients: map<string, Bucket>) {
    Once(order) && (set k | k in order) == clients.Keys
  }

  /** The scan over the clients in this order: a client seen earlier takes over, and so does any client from one
      with an empty address, which stands for none yet. */
  function Chosen(clients: map<string, Bucket>, order: seq<string>): string {
    if order == [] then ""
    else
      var before, k := Chosen(clients, order[..|order| - 1]), order[|order| - 1];
      if before == "" then k
      else if before in clients && k in clients && clients[k].seenAt < clients[before].seenAt then k
      else before
  }

  predicate IsOldest(clients: map<string, Bucket>, c: string) {
    c in clients && forall k | k in clients :: clients[c].seenAt <= clients[k].seenAt
  }

  /** c is what the scan has chosen after these clients: one that was seen no later than any of them that was seen no
      later than the one with the empty address, if that is among them; and the empty address only when it was seen
      before all others. */
  predicate SoFar(clients: map<string, Bucket>, order: seq<string>, c: string)
    requires forall k | k in order :: k in clients
  {
    && (order != [] ==> c in order)
    && (order != [] && c != "" ==>
          forall k | k in order && k != "" && ("" in order ==> clients[k].seenAt <= clients[""].seenAt) ::
            clients[c].seenAt <= clients[k].seenAt)
    && (order != [] && c == "" ==> forall k | k in order && k != "" :: clients[c].seenAt < clients[k].seenAt)
  }

  lemma SoFarGrows(clients: map<string, Bucket>, order: seq<string>, c: string, k: string)
    requires (forall l | l in order + [k] :: l in clients) && k !in order
    requires order != [] && (forall l | l in order :: l in clients) && SoFar(clients, order, c)
    ensures SoFar(clients, order + [k], if c == "" || clients[k].seenAt < clients[c].seenAt then k else c)
  {
    assert forall l :: l in order + [k] <==> l in order || l == k;
  }

  lemma {:induction false} ChosenSoFar(clients: map<string, Bucket>, order: seq<string>)
    requires Once(order) && forall k | k in order :: k in clients
    ensures SoFar(clients, order, Chosen(clients, order))
  {
    hide SoFar, Chosen, Once;
    if order == [] {
      NoneSoFar(clients);
    } else {
      var before, k := order[..|order| - 1], order[|order| - 1];
      assert order == before + [k];
      OnceInBefore(before, k);
      ChosenSoFar(clients, before);
      ChosenOfMore(clients, before, k);
      if before == [] {
        FirstSoFar(clients, k);
      } else {
        InOrder(clients, before, Chosen(clients, before));
        SoFarGrows(clients, before, Chosen(clients, before), k);
      }
    }
  }

  lemma OnceInBefore(before: seq<string>, k: string)
    requires Once(before + [k])
    ensures Once(before) && k !in before
  {
    var order := before + [k];
    assert forall i | 0 <= i < |before| :: order[i] == before[i] && order[i] != order[|before|];
  }

  lemma ChosenOfMore(clients: map<string, Bucket>, before: seq<string>, k: string)
    requires k in clients
    ensures before == [] ==> Chosen(clients, before + [k]) == k && before + [k] == [k]
    ensures var c := Chosen(clients, before);
            c in clients ==>
              Chosen(clients, before + [k]) == if c == "" || clients[k].seenAt < clients[c].seenAt then k else c
  {
    assert (before + [k])[..|before + [k]| - 1] == before;
  }

  lemma NoneSoFar(clients: map<string, Bucket>)
    ensures SoFar(clients, [], Chosen(clients, []))
  {
  }

  lemma FirstSoFar(clients: map<string, Bucket>, k: string)
    requires k in clients
    ensures SoFar(clients, [k], k)
  {
  }

  lemma InOrder(clients: map<string, Bucket>, order: seq<string>, c: string)
    requires (forall l | l in order :: l in clients) && order != [] && SoFar(clients, order, c)
    ensures c in clients
  {
  }

  lemma ChosenIsAClient(clients: map<string, Bucket>, order: seq<string>)
    requires Enumerates(order, clients) && clients != map[]
    ensures Chosen(clients, order) in clients
  {
    assert clients.Keys != {};
    assert order != [];
    assert forall k | k in order :: k in (set l | l in order);
    ChosenSoFar(clients, order);
  }

  /** The client with an empty address, if there is one, is alone or not the only one seen longest ago. */
  predicate EmptyIsNoMatter(clients: map<string, Bucket>) {
    || "" !in clients
    || clients.Keys == {""}
    || exists c | c in clients && c != "" :: clients[c].seenAt <= clients[""].seenAt
  }

  /** Whatever order the clients come in, the one evicted was not seen for longest, exactly when no client with an
      empty address was seen before all others. */
  lemma EvictsTheOldestExactly(clients: map<string, Bucket>)
    requires clients != map[]
    ensures EmptyIsNoMatter(clients) <==>
            forall order | Enumerates(order, clients) :: IsOldest(clients, Chosen(clients, order))
  {
    hide Chosen;
    if EmptyIsNoMatter(clients) {
      forall order | Enumerates(order, clients)
        ensures IsOldest(clients, Chosen(clients, order))
      {
        ChosenIsOldest(clients, order);
      }
    } else {
      var order := EmptyFirst(clients);
    }
  }

  lemma ChosenIsOldest(clients: map<string, Bucket>, order: seq<string>)
    requires EmptyIsNoMatter(clients) && Enumerates(order, clients) && clients != map[]
    ensures IsOldest(clients, Chosen(clients, order))
  {
    hide Chosen;
    assert forall k | k in order :: k in (set l | l in order);
    assert forall k | k in clients.Keys :: k in order;
    ChosenIsAClient(clients, order);
    ChosenSoFar(clients, order);
    var c := Chosen(clients, order);
    if c != "" && "" in clients && clients.Keys != {""} {
      var d :| d in clients && d != "" && clients[d].seenAt <= clients[""].seenAt;
      assert clients[c].seenAt <= clients[d].seenAt;
      assert forall k | k in clients ::
               clients[k].seenAt <= clients[""].seenAt || clients[""].seenAt <= clients[k].seenAt;
    }
  }

  /** With the empty address first, and seen before all others, the scan goes on to another client and stays there. */
  lemma EmptyFirst(clients: map<string, Bucket>) returns (order: seq<string>)
    requires !EmptyIsNoMatter(clients)
    ensures Enumerates(order, clients) && !IsOldest(clients, Chosen(clients, order))
  {
    var others := SomeOrder(clients.Keys - {""});
    order := [""] + others;
    assert (set k | k in order) == {""} + (set k | k in others);
    assert others != [] by {
      assert clients.Keys != {""};
    }
    assert "" !in (set k | k in others);
    NeverBackToEmpty(clients, others);
    assert Chosen(clients, order) in (set k | k in order);
  }

  lemma {:induction false} SomeOrder(keys: set<string>) returns (order: seq<string>)
    ensures Once(order) && (set k | k in order) == keys
    decreases |keys|
  {
    order := [];
    if keys != {} {
      var k :| k in keys;
      var rest := SomeOrder(keys - {k});
      order := rest + [k];
      assert (set l | l in order) == (set l | l in rest) + {k};
      assert k !in (set l | l in rest);
    }
  }

  lemma {:induction false} NeverBackToEmpty(clients: map<string, Bucket>, others: seq<string>)
    requires "" !in others
    ensures others != [] ==> Chosen(clients, [""] + others) != ""
    ensures Chosen(clients, [""] + others) in [""] + others
  {
    var order := [""] + others;
    if others == [] {
      assert order == [""] && order[..0] == [];
      assert Chosen(clients, order[..0]) == "";
    } else {
      var before, k := others[..|others| - 1], others[|others| - 1];
      assert order[..|order| - 1] == [""] + before && order[|order| - 1] == k;
      assert others == before + [k];
      NeverBackToEmpty(clients, before);
    }
  }

  function Longer(life: Life, cost: real, now: real): Life {
    Life(life.created, life.reqs + [Request(cost, now)])
  }

  /** What becomes of the clients when one asks: nothing if it is known; else it gets this bucket, for which the
      one that the scan chooses, in some order, gives way when there are too many. */
  ghost predicate Arrived(before: map<string, Bucket>, after: map<string, Bucket>, client: string, full: Bucket) {
    if client in before then after == before
    else if |before| < 10000 then after == before[client := full]
    else exists order :: Enumerates(order, before) && after == (before - {Chosen(before, order)})[client := full]
  }

  lemma ArrivedKeeps(before: map<string, Bucket>, after: map<string, Bucket>, client: string, full: Bucket)
    requires Arrived(before, after, client, full)
    ensures forall c | c in after && c != client :: c in before && after[c] == before[c]
  {
  }

  lemma Smaller(clients: map<string, Bucket>, gone: string)
    requires gone in clients
    ensures |clients - {gone}| < |clients|
  {
    assert (clients - {gone}).Keys == clients.Keys - {gone};
    assert |clients| == |clients.Keys| && |clients - {gone}| == |(clients - {gone}).Keys|;
  }

  lemma OneMore(clients: map<string, Bucket>, client: string, b: Bucket)
    ensures |clients[client := b]| <= |clients| + 1
  {
    assert clients[client := b].Keys == clients.Keys + {client};
    assert |clients.Keys + {client}| <= |clients.Keys| + 1;
  }

  /** The second half of takeTokens: the updates of the bucket's fields, in order. */
  method Draw(bucket: Bucket, rate: real, cost: real, now: real) returns (b: Bucket, retryAfter: int)
    requires rate > 0.0
    ensures (b, retryAfter) == TakeFrom(bucket, rate, Request(cost, now))
  {
    b := bucket.(tokens := Min(bucket.capacity, bucket.tokens + (now - bucket.updatedAt) * rate));
    b := b.(updatedAt := now);
    b := b.(seenAt := now);
    if cost > b.capacity {
      b := b.(capacity := cost);
    }
    assert b.tokens == Level(bucket, rate, now);
    if b.tokens < cost {
      return b, Ceil((cost - b.tokens) / rate);
    }
    b := b.(tokens := b.tokens - cost);
    return b, 0;
  }

  lemma FreshLife(burst: real, rate: real, now: real)
    requires rate > 0.0
    ensures Run(Fresh(burst, now), rate, []) == Fresh(burst, now)
  {
  }
}
