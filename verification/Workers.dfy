/** checkBatchConcurrent and runBounded (internal/probe/batch.go): workers over a closed queue of checks, as a
    step relation. Every lemma about runs speaks of every interleaving of the workers and of cancellation. */
module Workers {
  import opened Wrappers
  import opened Words
  import opened Inspect
  import opened Check
  import opened Batch
  import opened Prefetch
  import opened Replay
  import Refinement

  /** An error of a run: its cause, and whether it is context.DeadlineExceeded. */
  datatype RunError = RunError(cause: ProbeError, deadline: bool)

  type RunOutcome = Result<CheckResult, RunError>

  /** The checks and what each of them returns when nothing interrupts it. */
  datatype Job = Job(checks: seq<NamedCheck>, own: seq<RunOutcome>) {
    ghost predicate Valid() {
      |checks| == |own|
    }

    predicate Limited(i: nat)
      requires i < |checks|
    {
      checks[i].timeout.Limit? && checks[i].timeout.nanoseconds > 0
    }
  }

  /** Where a worker stands: at its select, or with a check it took, runs, has run or is about to record. */
  datatype Phase =
    | Idle
    | Took(i: nat)
    | Running(i: nat)
    | Ran(i: nat, outcome: RunOutcome)
    | Recording(i: nat, item: BatchItem)
    | Stopped

  datatype State = State(cancelled: bool, next: nat, workers: seq<Phase>, items: seq<Option<BatchItem>>)

  datatype Event =
    | Cancel
    | NoticeCancel(w: nat)
    | Take(w: nat)
    | FindDrained(w: nat)
    | LookAgain(w: nat)
    | Finish(w: nat, outcome: RunOutcome)
    | Judge(w: nat)
    | Record(w: nat)

  /** How many workers a batch of n checks gets. */
  function WorkerCount(concurrency: nat, n: nat): (workers: nat)
    requires n > 0
    ensures 1 <= workers <= n
    ensures 1 <= concurrency <= n ==> workers == concurrency
    ensures concurrency == 0 ==> workers == 1
    ensures concurrency > n ==> workers == n
  {
    var wanted := if concurrency == 0 then 1 else concurrency;
    if wanted > n then n else wanted
  }

  function Initial(job: Job, workers: nat): State {
    State(false, 0, seq(workers, i => Idle), seq(|job.checks|, i => None))
  }

  /** What runBounded may return for check i: the check's own outcome, or an error when its deadline or the
      whole batch cuts it short. */
  predicate MayReturn(job: Job, i: nat, outcome: RunOutcome, cancelled: bool)
    requires job.Valid()
  {
    i < |job.checks| && (outcome == job.own[i] || (outcome.Err? && (cancelled || job.Limited(i))))
  }

  function ItemErrorOf(job: Job, i: nat, e: RunError): ItemError
    requires i < |job.checks|
  {
    if job.Limited(i) && e.deadline then TimedOut else Failed(e.cause)
  }

  function ItemFor(job: Job, i: nat, outcome: RunOutcome): BatchItem
    requires i < |job.checks|
  {
    ItemOf(job.checks[i], if outcome.Ok? then Ok(outcome.value) else Err(ItemErrorOf(job, i, outcome.error)))
  }

  /** One atomic step: the state after the event, or nothing when it cannot happen now. */
  function After(job: Job, s: State, e: Event): (r: Option<State>)
    requires job.Valid() && |s.items| == |job.checks|
    ensures r.Some? ==> |r.value.items| == |s.items| && |r.value.workers| == |s.workers|
  {
    if e.Cancel? then
      if s.cancelled then None else Some(s.(cancelled := true))
    else if e.w >= |s.workers| then None
    else
      var phase := s.workers[e.w];
      match e
      case NoticeCancel(w) =>
        if phase.Idle? && s.cancelled then Some(s.(workers := s.workers[w := Stopped])) else None
      case Take(w) =>
        if phase.Idle? && s.next < |job.checks|
        then Some(s.(next := s.next + 1, workers := s.workers[w := Took(s.next)])) else None
      case FindDrained(w) =>
        if phase.Idle? && s.next >= |job.checks| then Some(s.(workers := s.workers[w := Stopped])) else None
      case LookAgain(w) =>
        if phase.Took? then Some(s.(workers := s.workers[w := if s.cancelled then Stopped else Running(phase.i)]))
        else None
      case Finish(w, outcome) =>
        if phase.Running? && MayReturn(job, phase.i, outcome, s.cancelled)
        then Some(s.(workers := s.workers[w := Ran(phase.i, outcome)])) else None
      case Judge(w) =>
        if phase.Ran? && phase.i < |job.checks| then
          Some(s.(workers := s.workers[w := if phase.outcome.Err? && s.cancelled then Stopped
                                            else Recording(phase.i, ItemFor(job, phase.i, phase.outcome))]))
        else None
      case Record(w) =>
        if phase.Recording? && phase.i < |s.items|
        then Some(s.(workers := s.workers[w := Idle], items := s.items[phase.i := Some(phase.item)])) else None
  }

  // ---- what every step keeps ------------------------------------------------------------------

  predicate Holds(phase: Phase, i: int) {
    !phase.Idle? && !phase.Stopped? && phase.i == i
  }

  /** An item that check i may end up with. */
  predicate Legitimate(job: Job, i: nat, item: BatchItem)
    requires job.Valid()
  {
    && i < |job.checks|
    && (item == ItemFor(job, i, job.own[i])
        || (job.Limited(i) && item.error.Some? && item == ItemOf(job.checks[i], Err(item.error.value))))
  }

  /** No two workers hold one index; held indices were taken and have no item yet; items are legitimate. */
  ghost predicate SlotsAreOwned(job: Job, s: State)
    requires job.Valid()
  {
    && s.next <= |job.checks| == |s.items|
    && (forall w, i {:trigger Holds(s.workers[w], i)} | 0 <= w < |s.workers| && Holds(s.workers[w], i) ::
          i < s.next && s.items[i].None?)
    && (forall v, w, i {:trigger Holds(s.workers[v], i), Holds(s.workers[w], i)} |
          0 <= v < w < |s.workers| && Holds(s.workers[v], i) :: !Holds(s.workers[w], i))
    && (forall i | 0 <= i < |s.items| && s.items[i].Some? :: i < s.next && Legitimate(job, i, s.items[i].value))
  }

  /** What the workers carry is theirs to record. */
  predicate OutcomesAreOwn(job: Job, s: State)
    requires job.Valid()
  {
    forall w | 0 <= w < |s.workers| ::
      match s.workers[w]
      case Ran(i, outcome) => MayReturn(job, i, outcome, s.cancelled)
      case Recording(i, item) => Legitimate(job, i, item)
      case _ => true
  }

  /** While the batch lives, no taken check is forgotten and no worker leaves work behind. */
  ghost predicate NothingIsDropped(job: Job, s: State) {
    && |s.items| == |job.checks|
    && (forall i | 0 <= i < s.next && i < |s.items| ::
          s.items[i].Some? || exists w :: 0 <= w < |s.workers| && Holds(s.workers[w], i))
    && (forall w | 0 <= w < |s.workers| && s.workers[w].Stopped? :: s.next >= |job.checks|)
  }

  ghost predicate Inv(job: Job, s: State)
    requires job.Valid()
  {
    SlotsAreOwned(job, s) && OutcomesAreOwn(job, s) && (!s.cancelled ==> NothingIsDropped(job, s))
  }

  lemma StartsSound(job: Job, workers: nat)
    requires job.Valid()
    ensures Inv(job, Initial(job, workers))
  {
  }

  lemma StepOwns(job: Job, s: State, e: Event)
    requires job.Valid() && SlotsAreOwned(job, s) && OutcomesAreOwn(job, s) && After(job, s, e).Some?
    ensures SlotsAreOwned(job, After(job, s, e).value)
  {
    hide Legitimate, ItemFor, MayReturn;
    var t := After(job, s, e).value;
    if !e.Cancel? {
      assert forall w | 0 <= w < |s.workers| && w != e.w :: t.workers[w] == s.workers[w];
      assert forall i | Holds(t.workers[e.w], i) :: Holds(s.workers[e.w], i) || i == s.next < t.next;
      if e.Record? {
        assert Holds(s.workers[e.w], s.workers[e.w].i);
        assert Legitimate(job, s.workers[e.w].i, s.workers[e.w].item);
      }
    }
  }

  lemma StepIsOwn(job: Job, s: State, e: Event)
    requires job.Valid() && |s.items| == |job.checks| && OutcomesAreOwn(job, s) && After(job, s, e).Some?
    ensures OutcomesAreOwn(job, After(job, s, e).value)
  {
  }

  lemma StepDropsNothing(job: Job, s: State, e: Event)
    requires job.Valid() && SlotsAreOwned(job, s) && NothingIsDropped(job, s) && !s.cancelled
    requires After(job, s, e).Some? && !After(job, s, e).value.cancelled
    ensures NothingIsDropped(job, After(job, s, e).value)
  {
    hide Legitimate, ItemFor, MayReturn;
    var t := After(job, s, e).value;
    forall i | 0 <= i < t.next && i < |t.items| && t.items[i].None?
      ensures exists w :: 0 <= w < |t.workers| && Holds(t.workers[w], i)
    {
      if i == s.next {
        assert Holds(t.workers[e.w], i);
      } else {
        assert s.items[i].None?;
        var w :| 0 <= w < |s.workers| && Holds(s.workers[w], i);
        assert Holds(t.workers[w], i);
      }
    }
  }

  lemma StepKeepsInv(job: Job, s: State, e: Event)
    requires job.Valid() && Inv(job, s) && After(job, s, e).Some?
    ensures Inv(job, After(job, s, e).value)
  {
    hide SlotsAreOwned, OutcomesAreOwn, NothingIsDropped;
    InvBounds(job, s);
    StepOwns(job, s, e);
    StepIsOwn(job, s, e);
    if !s.cancelled && !After(job, s, e).value.cancelled {
      StepDropsNothing(job, s, e);
    }
  }

  // ---- runs --------------------------------------------------------------------------------------

  /** The state after these events, when each of them can happen in its turn. */
  function Run(job: Job, s: State, events: seq<Event>): (r: Option<State>)
    requires job.Valid()
    ensures r.Some? ==> |r.value.items| == |job.checks| == |s.items| && |r.value.workers| == |s.workers|
    decreases |events|
  {
    if |s.items| != |job.checks| then None
    else if events == [] then Some(s)
    else
      match After(job, s, events[0])
      case None => None
      case Some(t) => Run(job, t, events[1..])
  }

  lemma {:induction false} RunsKeepInv(job: Job, s: State, events: seq<Event>)
    requires job.Valid() && Inv(job, s) && Run(job, s, events).Some?
    ensures Inv(job, Run(job, s, events).value)
    ensures s.cancelled ==> Run(job, s, events).value.cancelled
    ensures s.next <= Run(job, s, events).value.next
    decreases |events|
  {
    hide Inv;
    if events != [] {
      StepKeepsInv(job, s, events[0]);
      StepIsForward(job, s, events[0]);
      RunsKeepInv(job, After(job, s, events[0]).value, events[1..]);
    }
  }

  lemma StepIsForward(job: Job, s: State, e: Event)
    requires job.Valid() && |s.items| == |job.checks| && After(job, s, e).Some?
    ensures var t := After(job, s, e).value;
            s.next <= t.next && (s.cancelled ==> t.cancelled)
  {
  }

  predicate AllStopped(s: State) {
    forall w | 0 <= w < |s.workers| :: s.workers[w].Stopped?
  }

  /** After these events every worker is gone and the batch has not been cancelled. */
  predicate EndsAlive(job: Job, workers: nat, events: seq<Event>)
    requires job.Valid()
  {
    var end := Run(job, Initial(job, workers), events);
    end.Some? && AllStopped(end.value) && !end.value.cancelled
  }

  /** When every worker is gone and the batch is still alive, every slot holds an item of its own check: exactly
      one of a result and an error, and anything but the check's own outcome only under a time limit. */
  lemma EverySlotIsFilled(job: Job, workers: nat, events: seq<Event>)
    requires job.Valid() && workers > 0
    requires EndsAlive(job, workers, events)
    ensures var items := Run(job, Initial(job, workers), events).value.items;
            && |items| == |job.checks|
            && forall i | 0 <= i < |items| ::
                 items[i].Some? && HasOneOutcome(items[i].value) && Legitimate(job, i, items[i].value)
  {
    hide Run, ItemFor;
    StartsSound(job, workers);
    RunsKeepInv(job, Initial(job, workers), events);
    var end := Run(job, Initial(job, workers), events).value;
    assert end.workers[0].Stopped?;
    forall i | 0 <= i < |end.items|
      ensures end.items[i].Some? && HasOneOutcome(end.items[i].value)
    {
      ItemsHaveOneOutcome(job, i, end.items[i].value);
    }
  }

  lemma ItemsHaveOneOutcome(job: Job, i: nat, item: BatchItem)
    requires job.Valid() && Legitimate(job, i, item)
    ensures HasOneOutcome(item)
  {
  }

  /** The checks one after another, none of them cut short. */
  function Sequential(job: Job): (items: seq<BatchItem>)
    requires job.Valid()
    ensures |items| == |job.checks|
  {
    seq(|job.checks|, i requires 0 <= i < |job.checks| => ItemFor(job, i, job.own[i]))
  }

  /** Without time limits, every run that ends alive has the items of the sequential batch, whatever the
      interleaving and the number of workers. */
  lemma ConcurrencyIsInvisible(job: Job, workers: nat, events: seq<Event>)
    requires job.Valid() && workers > 0
    requires forall i | 0 <= i < |job.checks| :: !job.Limited(i)
    requires EndsAlive(job, workers, events)
    ensures var items := Run(job, Initial(job, workers), events).value.items;
            && |items| == |job.checks|
            && forall i | 0 <= i < |items| :: items[i] == Some(Sequential(job)[i])
  {
    hide Run, ItemFor;
    EverySlotIsFilled(job, workers, events);
  }

  /** The end of checkBatchConcurrent, when all workers are gone: an error when the batch was cancelled, else the
      items and their flags. */
  method Report(job: Job, ghost workers: nat, ghost events: seq<Event>, end: State)
      returns (r: Result<BatchResult, ProbeError>)
    requires job.Valid() && workers > 0
    requires Run(job, Initial(job, workers), events) == Some(end) && AllStopped(end)
    ensures r.Err? <==> end.cancelled
    ensures r.Ok? ==> IsSummaryOf(r.value, r.value.items) && |r.value.items| == |end.items|
    ensures r.Ok? ==> forall i | 0 <= i < |end.items| :: end.items[i] == Some(r.value.items[i])
  {
    hide Run, IsSummaryOf, Legitimate;
    if end.cancelled {
      return Err(ContextDone);
    }
    EverySlotIsFilled(job, workers, events);
    var items := seq(|end.items|, i requires 0 <= i < |end.items| => end.items[i].value);
    var summary := Summarize(items);
    SummaryKeepsItems(summary, items);
    return Ok(summary);
  }

  // ---- what the items report ------------------------------------------------------------------------

  /** The item of check i after a run of it that ended in this outcome: the result; or the error, which is a timeout
      when the check has a time limit and its deadline passed. */
  predicate Reports(job: Job, i: nat, outcome: RunOutcome, item: BatchItem) {
    && i < |job.checks| && IsItemFor(item, job.checks[i])
    && var timeout := job.checks[i].timeout;
       if outcome.Ok? then item.result == Some(outcome.value) && item.error == None
       else if timeout.Limit? && timeout.nanoseconds > 0 && outcome.error.deadline
       then item.result == None && item.error == Some(TimedOut)
       else item.result == None && item.error == Some(Failed(outcome.error.cause))
  }

  /** At some moment a worker that was running check i ended in this outcome. */
  ghost predicate Finished(job: Job, start: State, events: seq<Event>, i: nat, outcome: RunOutcome)
    requires job.Valid()
  {
    exists k, w | 0 <= k < |events| && events[k] == Finish(w, outcome) ::
      RunsAt(Run(job, start, events[..k]), w, i)
  }

  predicate RunsAt(s: Option<State>, w: nat, i: nat) {
    s.Some? && w < |s.value.workers| && s.value.workers[w] == Running(i)
  }

  ghost predicate IsTraced(job: Job, start: State, events: seq<Event>, i: nat, item: BatchItem)
    requires job.Valid()
  {
    exists outcome :: Finished(job, start, events, i, outcome) && Reports(job, i, outcome, item)
  }

  /** Whatever was recorded, or is about to be, comes from such a moment. */
  ghost predicate AllTraced(job: Job, start: State, events: seq<Event>, s: State)
    requires job.Valid()
  {
    && (forall w | 0 <= w < |s.workers| && s.workers[w].Ran? ::
          Finished(job, start, events, s.workers[w].i, s.workers[w].outcome))
    && (forall w | 0 <= w < |s.workers| && s.workers[w].Recording? ::
          IsTraced(job, start, events, s.workers[w].i, s.workers[w].item))
    && (forall i | 0 <= i < |s.items| && s.items[i].Some? :: IsTraced(job, start, events, i, s.items[i].value))
  }

  lemma ItemForReports(job: Job, i: nat, outcome: RunOutcome)
    requires i < |job.checks|
    ensures Reports(job, i, outcome, ItemFor(job, i, outcome))
  {
  }

  lemma FinishedBefore(job: Job, start: State, before: seq<Event>, e: Event)
    requires job.Valid()
    ensures forall i, outcome | Finished(job, start, before, i, outcome) ::
              Finished(job, start, before + [e], i, outcome)
    ensures forall i, item | IsTraced(job, start, before, i, item) :: IsTraced(job, start, before + [e], i, item)
  {
    hide Run, Reports;
    var events := before + [e];
    forall i, outcome | Finished(job, start, before, i, outcome)
      ensures Finished(job, start, events, i, outcome)
    {
      var k, w :| 0 <= k < |before| && before[k] == Finish(w, outcome) && RunsAt(Run(job, start, before[..k]), w, i);
      assert events[k] == before[k] && events[..k] == before[..k];
    }
  }

  lemma StepIsTraced(job: Job, start: State, before: seq<Event>, e: Event, s: State, t: State)
    requires job.Valid() && Run(job, start, before) == Some(s) && After(job, s, e) == Some(t)
    requires AllTraced(job, start, before, s)
    ensures AllTraced(job, start, before + [e], t)
  {
    hide Run, Reports, MayReturn, Finished, IsTraced, ItemFor;
    var events := before + [e];
    FinishedBefore(job, start, before, e);
    if e.Finish? {
      NowFinished(job, start, before, e, s);
    } else if e.Judge? && s.workers[e.w].Ran? {
      JudgedIsTraced(job, start, events, s.workers[e.w].i, s.workers[e.w].outcome);
    }
  }

  lemma NowFinished(job: Job, start: State, before: seq<Event>, e: Event, s: State)
    requires job.Valid() && Run(job, start, before) == Some(s)
    requires e.Finish? && e.w < |s.workers| && s.workers[e.w].Running?
    ensures Finished(job, start, before + [e], s.workers[e.w].i, e.outcome)
  {
    hide Run;
    var events := before + [e];
    assert events[|before|] == Finish(e.w, e.outcome) && events[..|before|] == before;
    assert RunsAt(Run(job, start, events[..|before|]), e.w, s.workers[e.w].i);
  }

  lemma JudgedIsTraced(job: Job, start: State, events: seq<Event>, i: nat, outcome: RunOutcome)
    requires job.Valid() && i < |job.checks| && Finished(job, start, events, i, outcome)
    ensures IsTraced(job, start, events, i, ItemFor(job, i, outcome))
  {
    hide Finished, Reports;
    ItemForReports(job, i, outcome);
  }

  lemma {:induction false} RunsAreTraced(job: Job, start: State, events: seq<Event>)
    requires job.Valid() && AllTraced(job, start, [], start) && Run(job, start, events).Some?
    ensures AllTraced(job, start, events, Run(job, start, events).value)
    decreases |events|
  {
    hide Run, AllTraced, After;
    if events == [] {
      NoEvents(job, start);
    } else {
      var before, e := events[..|events| - 1], events[|events| - 1];
      assert events == before + [e];
      RunsCompose(job, start, before, [e]);
      RunsAreTraced(job, start, before);
      var s := Run(job, start, before).value;
      OneStep(job, s, e);
      StepIsTraced(job, start, before, e, s, After(job, s, e).value);
    }
  }

  lemma NoEvents(job: Job, start: State)
    requires job.Valid() && Run(job, start, []).Some?
    ensures Run(job, start, []) == Some(start)
  {
  }

  /** In every run, whatever stands in a slot reports the outcome in which a worker's run of that slot's own check
      ended. */
  lemma ItemsReportTheirRuns(job: Job, workers: nat, events: seq<Event>, i: nat)
    requires job.Valid() && Run(job, Initial(job, workers), events).Some? && i < |job.checks|
    ensures var item := Run(job, Initial(job, workers), events).value.items[i];
            item.Some? ==>
              exists outcome :: && Finished(job, Initial(job, workers), events, i, outcome)
                                && Reports(job, i, outcome, item.value)
  {
    hide Run, Finished, Reports;
    RunsAreTraced(job, Initial(job, workers), events);
  }

  /** A result of check i is on its way into its slot, or there. */
  predicate IsKept(job: Job, s: State, i: nat, outcome: RunOutcome)
    requires i < |job.checks|
  {
    || (i < |s.items| && s.items[i] == Some(ItemFor(job, i, outcome)))
    || exists w | 0 <= w < |s.workers| ::
         s.workers[w] == Ran(i, outcome) || s.workers[w] == Recording(i, ItemFor(job, i, outcome))
  }

  lemma StepKeepsResults(job: Job, s: State, e: Event, i: nat, outcome: RunOutcome)
    requires job.Valid() && Inv(job, s) && |s.items| == |job.checks| && After(job, s, e).Some?
    requires i < |job.checks| && outcome.Ok? && IsKept(job, s, i, outcome)
    ensures IsKept(job, After(job, s, e).value, i, outcome)
  {
    hide Inv, ItemFor, MayReturn;
    var t := After(job, s, e).value;
    if s.items[i] == Some(ItemFor(job, i, outcome)) {
      StepKeepsItems(job, s, e, i);
    } else {
      var w :| 0 <= w < |s.workers| &&
               (s.workers[w] == Ran(i, outcome) || s.workers[w] == Recording(i, ItemFor(job, i, outcome)));
      if e.Cancel? || e.w != w {
        assert t.workers[w] == s.workers[w];
      } else if e.Judge? {
        assert t.workers[w] == Recording(i, ItemFor(job, i, outcome));
      }
    }
  }

  lemma {:induction false} RunsKeepResults(job: Job, s: State, events: seq<Event>, i: nat, outcome: RunOutcome)
    requires job.Valid() && Inv(job, s) && Run(job, s, events).Some?
    requires i < |job.checks| && outcome.Ok? && IsKept(job, s, i, outcome)
    ensures IsKept(job, Run(job, s, events).value, i, outcome)
    decreases |events|
  {
    hide Inv, After, IsKept;
    if events != [] {
      StepKeepsInv(job, s, events[0]);
      StepKeepsResults(job, s, events[0], i, outcome);
      RunsKeepResults(job, After(job, s, events[0]).value, events[1..], i, outcome);
    }
  }

  /** No result is dropped, not even when the batch is cancelled after the check has run: with all workers gone, a
      check that finished with a result has it in its slot. */
  lemma ResultsAreKept(job: Job, workers: nat, before: seq<Event>, e: Event, rest: seq<Event>)
    requires job.Valid() && e.Finish? && e.outcome.Ok?
    requires Run(job, Initial(job, workers), before + [e] + rest).Some?
    requires AllStopped(Run(job, Initial(job, workers), before + [e] + rest).value)
    ensures var s := Run(job, Initial(job, workers), before);
            && s.Some? && e.w < |s.value.workers| && s.value.workers[e.w].Running?
            && var i := s.value.workers[e.w].i;
               && i < |job.checks|
               && Run(job, Initial(job, workers), before + [e] + rest).value.items[i].Some?
               && Reports(job, i, e.outcome, Run(job, Initial(job, workers), before + [e] + rest).value.items[i].value)
  {
    hide Inv, Run, ItemFor, Reports;
    var start := Initial(job, workers);
    StartsSound(job, workers);
    RunsCompose(job, start, before + [e], rest);
    RunsCompose(job, start, before, [e]);
    RunsKeepInv(job, start, before);
    var s := Run(job, start, before).value;
    OneStep(job, s, e);
    StepKeepsInv(job, s, e);
    var i, t := s.workers[e.w].i, After(job, s, e).value;
    assert t.workers[e.w] == Ran(i, e.outcome);
    RunsKeepResults(job, t, rest, i, e.outcome);
    ItemForReports(job, i, e.outcome);
  }

  // ---- each index once ---------------------------------------------------------------------------

  /** Index i is taken by this step. */
  predicate Takes(s: State, e: Event, i: int) {
    e.Take? && s.next == i
  }

  /** Slot i is written by this step. */
  predicate Writes(s: State, e: Event, i: int) {
    e.Record? && e.w < |s.workers| && s.workers[e.w].Recording? && s.workers[e.w].i == i
  }

  lemma {:induction false} RunsCompose(job: Job, s: State, first: seq<Event>, second: seq<Event>)
    requires job.Valid()
    ensures Run(job, s, first + second) ==
            if Run(job, s, first).None? then None else Run(job, Run(job, s, first).value, second)
    decreases |first|
  {
    if first == [] {
      assert first + second == second;
    } else if |s.items| == |job.checks| && After(job, s, first[0]).Some? {
      assert (first + second)[0] == first[0] && (first + second)[1..] == first[1..] + second;
      RunsCompose(job, After(job, s, first[0]).value, first[1..], second);
    } else {
      assert (first + second)[0] == first[0];
    }
  }

  lemma {:induction false} ItemsStay(job: Job, s: State, events: seq<Event>, i: nat)
    requires job.Valid() && Inv(job, s) && Run(job, s, events).Some?
    requires i < |s.items| && s.items[i].Some?
    ensures Run(job, s, events).value.items[i] == s.items[i]
    decreases |events|
  {
    hide Inv, After;
    if events != [] {
      StepKeepsInv(job, s, events[0]);
      StepKeepsItems(job, s, events[0], i);
      ItemsStay(job, After(job, s, events[0]).value, events[1..], i);
    }
  }

  lemma StepKeepsItems(job: Job, s: State, e: Event, i: nat)
    requires job.Valid() && Inv(job, s) && |s.items| == |job.checks| && After(job, s, e).Some?
    requires i < |s.items| && s.items[i].Some?
    ensures After(job, s, e).value.items[i] == s.items[i]
  {
    hide Legitimate, MayReturn, ItemFor, NothingIsDropped, OutcomesAreOwn;
    if e.Record? {
      assert Holds(s.workers[e.w], s.workers[e.w].i);
    }
  }

  /** In any run, an index that was taken, and a slot that was written, is never taken or written again. */
  lemma EachIndexOnce(job: Job, workers: nat, before: seq<Event>, e: Event, between: seq<Event>, later: Event, i: nat)
    requires job.Valid()
    requires Run(job, Initial(job, workers), before + [e] + between + [later]).Some?
    ensures var s := Run(job, Initial(job, workers), before);
            var t := Run(job, Initial(job, workers), before + [e] + between);
            && s.Some? && t.Some?
            && (Takes(s.value, e, i) ==> !Takes(t.value, later, i))
            && (Writes(s.value, e, i) ==> !Writes(t.value, later, i))
  {
    hide Inv, Run;
    var start := Initial(job, workers);
    StartsSound(job, workers);
    RunsCompose(job, start, before + [e] + between, [later]);
    RunsCompose(job, start, before + [e], between);
    RunsCompose(job, start, before, [e]);
    var s := Run(job, start, before).value;
    var u := Run(job, s, [e]).value;
    var t := Run(job, u, between).value;
    RunsKeepInv(job, start, before);
    OneStep(job, s, e);
    StepKeepsInv(job, s, e);
    RunsKeepInv(job, u, between);
    if Writes(s, e, i) {
      InvBounds(job, s);
      ItemsStay(job, u, between, i);
      if Writes(t, later, i) {
        WriterFindsEmptySlot(job, t, later, i);
      }
    }
  }

  lemma OneStep(job: Job, s: State, e: Event)
    requires job.Valid() && Run(job, s, [e]).Some?
    ensures |s.items| == |job.checks| && After(job, s, e) == Run(job, s, [e])
    ensures forall i | Takes(s, e, i) :: i < After(job, s, e).value.next
    ensures |After(job, s, e).value.items| == |s.items|
    ensures forall i | Writes(s, e, i) :: i < |s.items| && After(job, s, e).value.items[i].Some?
  {
    hide MayReturn, ItemFor;
    assert [e][1..] == [];
  }

  lemma InvBounds(job: Job, s: State)
    requires job.Valid() && Inv(job, s)
    ensures |s.items| == |job.checks|
  {
  }

  lemma WriterFindsEmptySlot(job: Job, t: State, later: Event, i: nat)
    requires job.Valid() && Inv(job, t) && Writes(t, later, i)
    ensures i < |t.items| && t.items[i].None?
  {
    assert Holds(t.workers[later.w], i);
  }

  // ---- every run ends, and none gets stuck ------------------------------------------------------------

  function Weight(phase: Phase): nat {
    match phase
    case Stopped => 0
    case Idle => 1
    case Recording(_, _) => 2
    case Ran(_, _) => 3
    case Running(_) => 4
    case Took(_) => 5
  }

  function Weights(workers: seq<Phase>): nat {
    if workers == [] then 0 else Weight(workers[0]) + Weights(workers[1..])
  }

  function WorkLeft(job: Job, s: State): nat {
    var untaken := if s.next < |job.checks| then |job.checks| - s.next else 0;
    (if s.cancelled then 0 else 1) + 6 * untaken + Weights(s.workers)
  }

  lemma {:induction false} WeightsAfter(workers: seq<Phase>, w: nat, phase: Phase)
    requires w < |workers|
    ensures Weights(workers[w := phase]) == Weights(workers) - Weight(workers[w]) + Weight(phase)
  {
    if w == 0 {
      assert workers[0 := phase][1..] == workers[1..];
    } else {
      assert workers[w := phase][1..] == workers[1..][w - 1 := phase];
      WeightsAfter(workers[1..], w - 1, phase);
    }
  }

  lemma StepsUseUpWork(job: Job, s: State, e: Event)
    requires job.Valid() && |s.items| == |job.checks| && After(job, s, e).Some?
    ensures WorkLeft(job, After(job, s, e).value) < WorkLeft(job, s)
  {
    hide Weights, MayReturn, ItemFor;
    if !e.Cancel? {
      WeightsAfter(s.workers, e.w, After(job, s, e).value.workers[e.w]);
    }
  }

  lemma {:induction false} RunsUseUpWork(job: Job, s: State, events: seq<Event>)
    requires job.Valid() && Run(job, s, events).Some?
    ensures |events| + WorkLeft(job, Run(job, s, events).value) <= WorkLeft(job, s)
    decreases |events|
  {
    hide WorkLeft, After;
    if events != [] {
      StepsUseUpWork(job, s, events[0]);
      RunsUseUpWork(job, After(job, s, events[0]).value, events[1..]);
    }
  }

  lemma {:induction false} IdleWeights(workers: seq<Phase>)
    requires forall w | 0 <= w < |workers| :: workers[w].Idle?
    ensures Weights(workers) == |workers|
  {
    if workers != [] {
      IdleWeights(workers[1..]);
    }
  }

  /** No run is longer than six steps a check, one step a worker and one for the cancellation. */
  lemma EveryRunEnds(job: Job, workers: nat, events: seq<Event>)
    requires job.Valid() && Run(job, Initial(job, workers), events).Some?
    ensures |events| <= 6 * |job.checks| + workers + 1
  {
    hide Run;
    RunsUseUpWork(job, Initial(job, workers), events);
    IdleWeights(Initial(job, workers).workers);
  }

  /** The step a worker that is not gone can take. */
  function NextStep(job: Job, s: State, w: nat): Event
    requires job.Valid() && w < |s.workers|
  {
    match s.workers[w]
    case Idle => if s.next < |job.checks| then Take(w) else FindDrained(w)
    case Took(_) => LookAgain(w)
    case Running(i) => Finish(w, if i < |job.own| then job.own[i] else Err(RunError(ContextDone, false)))
    case Ran(_, _) => Judge(w)
    case Recording(_, _) => Record(w)
    case Stopped => FindDrained(w)
  }

  /** No worker ever waits for another: in every reachable state each one that is not gone can step. */
  lemma NoWorkerIsStuck(job: Job, workers: nat, events: seq<Event>, w: nat)
    requires job.Valid() && Run(job, Initial(job, workers), events).Some?
    requires w < workers && !Run(job, Initial(job, workers), events).value.workers[w].Stopped?
    ensures var s := Run(job, Initial(job, workers), events).value;
            After(job, s, NextStep(job, s, w)).Some?
  {
    hide Run, ItemFor, Legitimate;
    StartsSound(job, workers);
    RunsKeepInv(job, Initial(job, workers), events);
    var s := Run(job, Initial(job, workers), events).value;
    if !s.workers[w].Idle? {
      assert Holds(s.workers[w], s.workers[w].i);
    }
  }

  // ---- the two engines agree --------------------------------------------------------------------------

  /** On one ledger, with no failing request and no time limits, the worker pool and the prefetched batch
      report the same items. */
  lemma EnginesAgree(job: Job, workers: nat, events: seq<Event>, p: Prober, rpc: Rpc,
                     ledger: map<LedgerKey, LedgerEntry>, latest: uint32, i: nat)
    requires job.Valid() && workers > 0 && i < |job.checks|
    requires forall k | 0 <= k < |job.checks| :: !job.Limited(k)
    requires EndsAlive(job, workers, events)
    requires Refinement.Keyed(ledger) && Refinement.ReadsLedger(rpc, ledger, latest) && Refinement.NeverFails(rpc)
    requires forall k | 0 <= k < |job.checks| :: IsOwn(job.own[k], CheckContract(p, rpc, job.checks[k].check))
    ensures var initial := Fetch(rpc, InitialKeys(p, job.checks));
            var code := Fetch(rpc, CodeKeys(p, initial, job.checks));
            Run(job, Initial(job, workers), events).value.items[i] ==
            Some(ItemOf(job.checks[i], AsItemOutcome(BatchOutcome(p, initial, code, job.checks[i]))))
  {
    hide Run, CheckContract, BatchOutcome, Fetch, InitialKeys, CodeKeys;
    ConcurrencyIsInvisible(job, workers, events);
    Refinement.WithoutFailuresTheBatchIsTheChecks(p, rpc, job.checks, i, ledger, latest);
  }

  predicate IsOwn(own: RunOutcome, separate: Result<CheckResult, ProbeError>) {
    match own
    case Ok(result) => separate == Ok(result)
    case Err(e) => separate == Err(e.cause)
  }
}
