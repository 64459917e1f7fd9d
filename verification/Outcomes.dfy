/** What a finished run says about the step graph, and what is executed when. */
module Outcomes {
  import opened Common
  import opened Flows
  import opened Engine
  import opened RunSafety
  import opened Cluster

  // ---- Succeeded runs cover exactly the least fixpoint ----

  lemma {:induction false} RecordedInClosed(flow: Flow, ss: seq<StepStatus>, C: set<string>, i: nat)
    requires Topological(flow, ss) && Closed(flow, C) && i < |ss|
    ensures ss[i].name in C
  {
    assert Recorded(flow, ss, i);
    var step := FindStep(flow.steps, ss[i].name).value;
    forall d | d in step.runAfter ensures d in C {
      assert DependencyMet(flow, ss[..i], d);
      var j := IndexOf(ss[..i], d);
      assert ss[j].name == d;
      RecordedInClosed(flow, ss, C, j);
    }
    assert DepsWithin(step, C);
  }

  /** For any runAfter graph, cyclic or dangling ones included: when a FlowRun is
      Succeeded, the steps with a status are exactly the least set closed under
      "all runAfter in the set", all of them are settled, and every failure among
      them is tolerated. */
  lemma {:induction false} SucceededIsLeastFixpoint(flow: Flow, c: State, events: seq<Event>, v: nat)
    requires UniqueNames(flow) && Initial(c)
    requires v < |Run(flow, c, events).history|
    requires Run(flow, c, events).history[v].status.phase == RunPhase.Succeeded
    ensures var ss := Run(flow, c, events).history[v].status.steps;
      && LeastClosed(flow, Names(ss))
      && forall s | s in ss :: Settled(s.phase) && (s.phase == StepPhase.Failed ==> Tolerated(flow, s.name))
  {
    Reachable(flow, c, events);
    var st := Run(flow, c, events).history[v].status;
    assert RunInv(flow, st);
    forall C: set<string> | Closed(flow, C) ensures Names(st.steps) <= C {
      forall n | n in Names(st.steps) ensures n in C {
        var i :| 0 <= i < |st.steps| && st.steps[i].name == n;
        RecordedInClosed(flow, st.steps, C, i);
      }
    }
  }

  lemma {:induction false} AllRecordedRanks(flow: Flow, ss: seq<StepStatus>)
    requires UniqueNames(flow) && Topological(flow, ss) && Names(ss) == StepNames(flow)
    ensures Acyclic(flow)
  {
    var rank := map n | n in Names(ss) :: IndexOf(ss, n);
    forall step | step in flow.steps ensures RankedStep(flow, rank, step) {
      assert step.name in StepNames(flow);
      var i := IndexOf(ss, step.name);
      assert Find(ss, step.name).Some?;
      assert Recorded(flow, ss, i);
      FindStepUnique(flow, step);
      forall d | d in step.runAfter
        ensures FindStep(flow.steps, d).Some? && d in rank && rank[d] < rank[step.name]
      {
        assert DependencyMet(flow, ss[..i], d);
        var j := IndexOf(ss[..i], d);
        assert IndexOf(ss, d) == j && ss[j] in ss;
        assert Recorded(flow, ss, j);
      }
    }
    assert RankedBy(flow, rank);
  }

  /** A Succeeded run has settled every step of the Flow exactly when the graph has
      no cycle and no dangling reference; otherwise it succeeds without ever
      running some of the steps. */
  lemma {:induction false} SucceededRanAllIffAcyclic(flow: Flow, c: State, events: seq<Event>, v: nat)
    requires UniqueNames(flow) && Initial(c)
    requires v < |Run(flow, c, events).history|
    requires Run(flow, c, events).history[v].status.phase == RunPhase.Succeeded
    ensures AllSettled(flow, Run(flow, c, events).history[v].status.steps) <==> Acyclic(flow)
  {
    SucceededIsLeastFixpoint(flow, c, events, v);
    Reachable(flow, c, events);
    var ss := Run(flow, c, events).history[v].status.steps;
    assert RunInv(flow, Run(flow, c, events).history[v].status);
    if Acyclic(flow) {
      var rank :| RankedBy(flow, rank);
      forall step | step in flow.steps
        ensures Find(ss, step.name).Some? && Settled(Find(ss, step.name).value.phase)
      {
        RankedInClosed(flow, rank, Names(ss), step);
      }
    }
    if AllSettled(flow, ss) {
      forall n | n in Names(ss) ensures n in StepNames(flow) {
        assert Recorded(flow, ss, IndexOf(ss, n));
      }
      forall n | n in StepNames(flow) ensures n in Names(ss) {
        var step :| step in flow.steps && step.name == n;
        assert Find(ss, step.name).Some?;
      }
      AllRecordedRanks(flow, ss);
    }
  }

  // ---- What a segment executes ----

  /** The segment gets as far as the wave. */
  predicate ReachesWave(flow: Flow, inp: Input, run: FlowRun, pc: Pc) {
    && (pc.Body? || (&& pc.Start? && run.status.phase == RunPhase.Running && inp.flowRead.Found?
                     && !run.meta.deleting && !run.meta.cancelRequested))
    && !TimedOut(inp, run.status) && inp.paramsResolve
    && !AllSettled(flow, run.status.steps)
    && InlineScan(flow, inp, run.status.steps, 0) == InlineResult([], Completed)
  }

  /** The steps whose actions the segment runs, whether or not its write succeeds. */
  function Executed(flow: Flow, inp: Input, run: FlowRun, pc: Pc): seq<Step> {
    var wave := Wave(flow, run.status.steps, 0);
    if ReachesWave(flow, inp, run, pc) && FirstWait(wave).None? then wave else []
  }

  lemma {:induction false} UpsertAllFind(ss: seq<StepStatus>, updates: seq<StepStatus>, name: string)
    ensures Find(UpsertAll(ss, updates), name) == Find(ss, name)
         || exists u | u in updates :: u.name == name && Find(UpsertAll(ss, updates), name) == Some(u)
    decreases |updates|
  {
    if updates != [] {
      FindUpsert(ss, updates[0], name);
      UpsertAllFind(Upsert(ss, updates[0]), updates[1..], name);
    }
  }

  /** The inline pass records no success and no results, so the results read before it
      are still current after it. */
  lemma {:induction false} InlineNeverSucceeds(flow: Flow, inp: Input, ss: seq<StepStatus>, k: nat)
    ensures forall u | u in InlineScan(flow, inp, ss, k).updates ::
      (u.phase == StepPhase.Skipped || u.phase == StepPhase.Failed) && u.results == map[]
    decreases |flow.steps| - k
  {
    if k < |flow.steps| {
      InlineNeverSucceeds(flow, inp, ss, k + 1);
      InlineNeverSucceeds(flow, inp, Upsert(ss, SkippedStatus(flow.steps[k].name, inp.now)), k + 1);
    }
  }

  predicate NewSuccess(ss: seq<StepStatus>, tt: seq<StepStatus>, step: Step) {
    && Find(ss, step.name).None?
    && Find(tt, step.name).Some? && Find(tt, step.name).value.phase == StepPhase.Succeeded
  }

  lemma {:induction false} WaveSuccess(flow: Flow, inp: Input, st: RunStatus, step: Step)
    requires UniqueNames(flow) && step in flow.steps && step.action.Io?
    requires var call := WaveSegment(flow, inp, st);
      call.PutStatus? && NewSuccess(st.steps, call.status.steps, step)
    ensures FirstWait(Wave(flow, st.steps, 0)).None? && step in Wave(flow, st.steps, 0)
  {
    hide Eligible, WaitUpdate, ActStatus;
    var ss := st.steps;
    var wave := Wave(flow, ss, 0);
    FindStepUnique(flow, step);
    if wave != [] {
      match FirstWait(wave) {
        case Some(w) =>
          FindUpsert(ss, WaitUpdate(inp.now, w, ss), step.name);
          FindStepUnique(flow, w);
        case None =>
          var updates := WaveUpdates(inp, wave, ViewOf(ss));
          UpsertAllFind(ss, updates, step.name);
          var u :| u in updates && u.name == step.name;
          var i :| 0 <= i < |updates| && updates[i] == u;
          assert wave[i] in wave;
          FindStepUnique(flow, wave[i]);
      }
    }
  }

  lemma {:induction false} InlineSuccess(flow: Flow, inp: Input, st: RunStatus, from: nat, skipped: bool, step: Step)
    requires UniqueNames(flow) && step in flow.steps && step.action.Io?
    requires var call := InlineSegment(flow, inp, st, from, skipped);
      call.PutStatus? && NewSuccess(st.steps, call.status.steps, step)
    ensures !skipped && InlineScan(flow, inp, st.steps, from) == InlineResult([], Completed)
    ensures FirstWait(Wave(flow, st.steps, 0)).None? && step in Wave(flow, st.steps, 0)
  {
    var scan := InlineScan(flow, inp, st.steps, from);
    InlineNeverSucceeds(flow, inp, st.steps, from);
    UpsertAllFind(st.steps, scan.updates, step.name);
    WaveSuccess(flow, inp, st, step);
  }

  /** Executed is what is recorded: an executor step newly recorded as Succeeded was
      executed by the segment that records it. */
  lemma {:induction false} SuccessWasExecuted(flow: Flow, inp: Input, run: FlowRun, pc: Pc, step: Step)
    requires UniqueNames(flow) && PcOk(flow, run.status, pc)
    requires step in flow.steps && step.action.Io?
    requires var call := Segment(flow, inp, run, pc);
      call.PutStatus? && NewSuccess(run.status.steps, call.status.steps, step)
    ensures step in Executed(flow, inp, run, pc)
  {
    hide InlineSegment, InlineScan, Wave, FirstWait, AllSettled, HasFatalFailure, Find;
    if pc.Inline? {
      InlineSuccess(flow, inp, run.status, pc.from, true, step);
    } else {
      InlineSuccess(flow, inp, run.status, 0, false, step);
    }
  }

  lemma {:induction false} ExecutionRespectsRecord(flow: Flow, inp: Input, run: FlowRun, pc: Pc, step: Step)
    requires UniqueNames(flow) && RunInv(flow, run.status) && PcOk(flow, run.status, pc)
    requires step in Executed(flow, inp, run, pc)
    ensures step.action.Io?
    ensures forall s | s in run.status.steps :: s.phase != StepPhase.Waiting
    ensures Find(run.status.steps, step.name).None?
    ensures DependenciesMet(flow, step, run.status.steps)
  {
    var ss := run.status.steps;
    FreshIsAbsent(flow, ss, step.name);
    forall s | s in ss ensures s.phase != StepPhase.Waiting {
      if s.phase == StepPhase.Waiting { WaitingIsEligible(flow, ss, s); }
    }
  }

  /** A Waiting step is always re-admitted to the wave. */
  lemma {:induction false} WaitingIsEligible(flow: Flow, ss: seq<StepStatus>, s: StepStatus)
    requires Topological(flow, ss) && s in ss && s.phase == StepPhase.Waiting
    ensures var step := FindStep(flow.steps, s.name);
      && step.Some? && step.value.action.Wait? && step.value in Wave(flow, ss, 0)
  {
    var i :| 0 <= i < |ss| && ss[i] == s;
    assert Recorded(flow, ss, i);
    DistinctFind(ss, i);
    var step := FindStep(flow.steps, s.name).value;
    forall d | d in step.runAfter ensures DependencyMet(flow, ss, d) {
      assert DependencyMet(flow, ss[..i], d);
      assert IndexOf(ss, d) == IndexOf(ss[..i], d);
    }
    assert Eligible(flow, step, ss);
  }

  /** In every reachable state, whatever a worker is about to execute: no executor step
      runs against a version that records a Waiting step, no step with a recorded
      status runs again, and a step runs only after its dependencies are satisfied. */
  lemma {:induction false} NothingRunsDuringWait(flow: Flow, c: State, events: seq<Event>, w: nat, inp: Input,
                                                 step: Step)
    requires UniqueNames(flow) && Initial(c)
    requires var t := Run(flow, c, events);
      && w in t.workers && t.workers[w].version < |t.history|
      && step in Executed(flow, inp, t.history[t.workers[w].version], t.workers[w].pc)
    ensures var t := Run(flow, c, events);
      var ss := t.history[t.workers[w].version].status.steps;
      && step.action.Io?
      && (forall s | s in ss :: s.phase != StepPhase.Waiting)
      && Find(ss, step.name).None?
      && DependenciesMet(flow, step, ss)
  {
    hide Executed;
    Reachable(flow, c, events);
    var t := Run(flow, c, events);
    var at := t.workers[w];
    assert WorkerOk(flow, t.history, at);
    assert RunInv(flow, t.history[at.version].status);
    ExecutionRespectsRecord(flow, inp, t.history[at.version], at.pc, step);
  }

  /** If the executor is unreachable for any step of the wave, the actions may have run
      but nothing of the wave is recorded. */
  lemma {:induction false} UnreachableRecordsNothing(flow: Flow, inp: Input, run: FlowRun, pc: Pc, step: Step)
    requires step in Executed(flow, inp, run, pc) && inp.unreachable(step)
    ensures Segment(flow, inp, run, pc) == Return
  {
    hide Wave, InlineScan, AllSettled;
  }

  // ---- Waits pause ----

  /** In any version of any run, a wait step recorded as Succeeded completed its
      duration after its recorded start, up to the one-second granularity of stored
      times. */
  lemma {:induction false} WaitPausesForDuration(flow: Flow, c: State, events: seq<Event>, v: nat, step: Step)
    requires UniqueNames(flow) && Initial(c) && step in flow.steps && Pauses(step)
    requires v < |Run(flow, c, events).history|
    requires var s := Find(Run(flow, c, events).history[v].status.steps, step.name);
      s.Some? && s.value.phase == StepPhase.Succeeded
    ensures var s := Find(Run(flow, c, events).history[v].status.steps, step.name).value;
      && s.start.Some? && s.completion.Some?
      && s.completion.value - s.start.value > step.action.duration.value - SECOND
  {
    Reachable(flow, c, events);
    var st := Run(flow, c, events).history[v].status;
    assert RunInv(flow, st);
    assert Recorded(flow, st.steps, IndexOf(st.steps, step.name));
    FindStepUnique(flow, step);
  }

  // ---- Why a run ends as it does ----

  /** From any place, a write that ends a run stores the phase and its completion time
      together and nothing else: the steps were stored before. */
  lemma {:induction false} EndingWrite(flow: Flow, inp: Input, run: FlowRun, pc: Pc)
    requires !Terminal(run.status.phase)
    ensures var call := Segment(flow, inp, run, pc);
      call.PutStatus? && Terminal(call.status.phase) ==>
        call == PutStatus(run.status.(phase := call.status.phase, completionTime := Some(Persisted(inp.now))), Label)
  {
    hide InlineScan, Wave, FirstWait, WaitUpdate, AllSettled, AnyRunning, HasFatalFailure, Fatal, UpsertAll, Upsert,
      ViewOf, StepTolerated;
  }

  /** From any place, a run is cancelled exactly when a reconcile starts on a Running
      object that is being deleted or asks for it. */
  lemma {:induction false} CancelledIffRequested(flow: Flow, inp: Input, run: FlowRun, pc: Pc)
    requires run.status.phase != RunPhase.Cancelled
    ensures var call := Segment(flow, inp, run, pc);
      call.PutStatus? && call.status.phase == RunPhase.Cancelled <==>
        pc.Start? && run.status.phase == RunPhase.Running && (run.meta.deleting || run.meta.cancelRequested)
  {
    hide InlineScan, Wave, FirstWait, WaitUpdate, AllSettled, AnyRunning, HasFatalFailure, Fatal, UpsertAll, Upsert,
      ViewOf, StepTolerated;
  }

  predicate EndsCleanly(a: RunStatus, b: RunStatus) {
    !Terminal(a.phase) && Terminal(b.phase) ==> b == a.(phase := b.phase, completionTime := b.completionTime)
  }

  predicate AllEndCleanly(h: seq<FlowRun>) {
    forall i | 0 < i < |h| :: EndsCleanly(h[i - 1].status, h[i].status)
  }

  lemma {:induction false} NextEndsCleanly(flow: Flow, c: State, e: Event)
    requires AllEndCleanly(c.history)
    ensures AllEndCleanly(Next(flow, c, e).history)
  {
    hide Segment;
    if e.Advance? && e.worker in c.workers && c.workers[e.worker].version < |c.history| {
      var at := c.workers[e.worker];
      var run := c.history[at.version];
      if !Terminal(run.status.phase) { EndingWrite(flow, e.inp, run, at.pc); }
    }
  }

  lemma {:induction false} RunEndsCleanly(flow: Flow, c: State, events: seq<Event>)
    requires AllEndCleanly(c.history)
    ensures AllEndCleanly(Run(flow, c, events).history)
    decreases |events|
  {
    hide Next, AllEndCleanly;
    if events != [] {
      NextEndsCleanly(flow, c, events[0]);
      RunEndsCleanly(flow, Next(flow, c, events[0]), events[1..]);
    }
  }

  /** Under any interleaving, the version that ends a run differs from the one before it in
      phase and completion time only: what a run did is on record before its verdict. */
  lemma {:induction false} VerdictComesLast(flow: Flow, c: State, events: seq<Event>, v: nat)
    requires Initial(c) && 0 < v < |Run(flow, c, events).history|
    ensures var h := Run(flow, c, events).history; EndsCleanly(h[v - 1].status, h[v].status)
  {
    hide Run;
    RunEndsCleanly(flow, c, events);
  }

  /** No execution timeout is set, or the reading lies within it of the start. */
  predicate InTime(inp: Input, st: RunStatus) {
    || inp.executionTimeout <= 0
    || st.startTime.None?
    || inp.now - st.startTime.value <= inp.executionTimeout
  }

  /** In state c the event finds the Flow, its parameters resolve and it comes in time. */
  predicate CalmAt(c: State, e: Event) {
    match e
    case Advance(w, inp) =>
      && !inp.flowRead.NotFound? && inp.paramsResolve
      && (w in c.workers && c.workers[w].version < |c.history| ==> InTime(inp, c.history[c.workers[w].version].status))
    case Scan(_, v, inp) => v < |c.history| ==> InTime(inp, c.history[v].status)
    case _ => true
  }

  /** A run without outside causes of failure. */
  predicate CalmRun(flow: Flow, c: State, events: seq<Event>)
    decreases |events|
  {
    events == [] || (CalmAt(c, events[0]) && CalmRun(flow, Next(flow, c, events[0]), events[1..]))
  }

  /** The Flow can be read, its parameters resolve and no execution timeout is set. */
  predicate Calm(e: Event) {
    (e.Advance? || e.Scan?) ==> !e.inp.flowRead.NotFound? && e.inp.paramsResolve && e.inp.executionTimeout <= 0
  }

  predicate AllCalm(events: seq<Event>) {
    forall i | 0 <= i < |events| :: Calm(events[i])
  }

  lemma {:induction false} CalmEventsRunCalmly(flow: Flow, c: State, events: seq<Event>)
    requires AllCalm(events)
    ensures CalmRun(flow, c, events)
    decreases |events|
  {
    hide Next;
    if events != [] {
      assert Calm(events[0]);
      CalmEventsRunCalmly(flow, Next(flow, c, events[0]), events[1..]);
    }
  }

  predicate FailureExplained(flow: Flow, run: FlowRun) {
    run.status.phase == RunPhase.Failed ==> HasFatalFailure(flow, run.status.steps)
  }

  predicate Explained(flow: Flow, c: State) {
    && (forall i | 0 <= i < |c.history| :: FailureExplained(flow, c.history[i]))
    && (forall w | w in c.workers :: !c.workers[w].pc.Orphan?)
  }

  lemma {:induction false} IssueExplained(flow: Flow, c: State, w: nat, inp: Input)
    requires UniqueNames(flow) && Inv(flow, c) && Explained(flow, c) && w in c.workers
    requires CalmAt(c, Advance(w, inp))
    ensures WorkerOk(flow, c.history, c.workers[w]) && Explained(flow, Issue(flow, c, w, inp))
  {
    hide Segment, HasFatalFailure, RunInv;
    var at := c.workers[w];
    assert WorkerOk(flow, c.history, at);
    var run := c.history[at.version];
    var call := Segment(flow, inp, run, at.pc);
    assert RunInv(flow, run.status);
    SegmentGood(flow, inp, run, at.pc);
    SegmentJustified(flow, inp, run, at.pc);
    assert FailureExplained(flow, run);
    NeverOrphans(flow, inp, run, at.pc);
    if Terminal(run.status.phase) && call.PutStatus? { TerminalUnchanged(flow, run, call); }
  }

  lemma {:induction false} NeverOrphans(flow: Flow, inp: Input, run: FlowRun, pc: Pc)
    ensures var call := Segment(flow, inp, run, pc); !call.Return? ==> !call.next.Orphan?
  {
    hide InlineScan, Wave, FirstWait, AllSettled, AnyRunning, HasFatalFailure, Fatal, UpsertAll;
  }

  lemma {:induction false} TerminalUnchanged(flow: Flow, run: FlowRun, call: ApiCall)
    requires GoodCall(flow, run, call) && Terminal(run.status.phase) && call.PutStatus?
    ensures call.status == run.status
  {}

  lemma {:induction false} RunExplained(flow: Flow, c: State, events: seq<Event>)
    requires UniqueNames(flow) && Inv(flow, c) && Explained(flow, c) && CalmRun(flow, c, events)
    ensures Explained(flow, Run(flow, c, events))
    decreases |events|
  {
    hide Inv, HasFatalFailure;
    if events != [] {
      var e := events[0];
      NextKeepsInv(flow, c, e);
      if e.Advance? && e.worker in c.workers { IssueExplained(flow, c, e.worker, e.inp); }
      RunExplained(flow, Next(flow, c, e), events[1..]);
    }
  }

  /** Without outside causes a run is Failed only if a step failure that nothing
      tolerates is on record. */
  lemma {:induction false} FailedOnlyForFatalStep(flow: Flow, c: State, events: seq<Event>, v: nat)
    requires UniqueNames(flow) && Initial(c) && CalmRun(flow, c, events)
    requires v < |Run(flow, c, events).history|
    requires Run(flow, c, events).history[v].status.phase == RunPhase.Failed
    ensures HasFatalFailure(flow, Run(flow, c, events).history[v].status.steps)
  {
    hide HasFatalFailure, Run;
    Reachable(flow, c, []);
    assert Run(flow, c, []) == c by { RunNothing(flow, c); }
    RunExplained(flow, c, events);
    assert FailureExplained(flow, Run(flow, c, events).history[v]);
  }

  lemma {:induction false} RunNothing(flow: Flow, c: State)
    ensures Run(flow, c, []) == c
  {}
}
