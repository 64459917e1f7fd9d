/** The engine's results in the fields of the Flow and of the stored object: what fails a
    run, which steps get a value, what is stamped when, and when the finalizer is held. */
module Verdicts {
  import opened Common
  import opened Flows
  import opened Engine
  import opened RunSafety
  import opened Cluster
  import opened Outcomes
  import opened Progress
  import opened Semantics

  // ---- Failure policies ----

  /** A step has a value in the meaning exactly when each step it runs after has one that
      lets it run: a success, a skip, or a failure that the Flow or that step continues. */
  lemma {:induction false} HasMeaningIff(flow: Flow, o: Oracle, step: Step)
    requires UniqueNames(flow) && Local(flow, o) && step in flow.steps
    ensures var m := Meaning(flow, o);
      step.name in m <==>
        forall d | d in step.runAfter ::
          && d in m
          && (|| m[d].phase == StepPhase.Succeeded || m[d].phase == StepPhase.Skipped
              || (m[d].phase == StepPhase.Failed
                  && (flow.continueOnFailure
                      || exists dep | dep in flow.steps :: dep.name == d && dep.onFailure == Continue)))
  {
    hide Meaning, Evaluate, Local;
    MeaningIsFixpoint(flow, o);
    FindStepUnique(flow, step);
    assert StepNamed(flow, step.name) == step;
    var m := Meaning(flow, o);
    assert step.name in m <==> Ready(flow, step, m);
    forall d | d in step.runAfter && d in m && m[d].phase == StepPhase.Failed
      ensures Usable(flow, m, d) <==>
        flow.continueOnFailure || exists dep | dep in flow.steps :: dep.name == d && dep.onFailure == Continue
    {
      if dep :| dep in flow.steps && dep.name == d && dep.onFailure == Continue { FindStepUnique(flow, dep); }
    }
  }

  /** And the value is what the step's own fields make of the others: skipped behind skips
      only, decided by its `when`, and otherwise the outcome of its action. */
  lemma {:induction false} MeaningIs(flow: Flow, o: Oracle, step: Step)
    requires UniqueNames(flow) && Local(flow, o) && step in flow.steps && step.name in Meaning(flow, o)
    ensures var m := Meaning(flow, o);
      var verdict := if step.when == [] then Yes else o.when(step, m);
      m[step.name] ==
        if step.runAfter != [] && forall d | d in step.runAfter :: d in m && m[d].phase == StepPhase.Skipped
        then StepValue(StepPhase.Skipped, map[])
        else if verdict == No then StepValue(StepPhase.Skipped, map[])
        else if verdict == Error then StepValue(StepPhase.Failed, map[])
        else if step.action.Wait? then
          StepValue(if step.action.duration.Some? then StepPhase.Succeeded else StepPhase.Failed, map[])
        else if o.act(step, m).Broken? then StepValue(StepPhase.Failed, map[])
        else StepValue(StepPhase.Succeeded, o.act(step, m).results)
  {
    hide Meaning, Local;
    MeaningIsFixpoint(flow, o);
    FindStepUnique(flow, step);
    assert StepNamed(flow, step.name) == step;
  }

  /** A Flow with failurePolicy Continue never fails for its steps. */
  lemma {:induction false} ContinueNeverFails(flow: Flow, c: State, events: seq<Event>, v: nat)
    requires UniqueNames(flow) && Initial(c) && CalmRun(flow, c, events) && flow.continueOnFailure
    requires v < |Run(flow, c, events).history|
    ensures Run(flow, c, events).history[v].status.phase != RunPhase.Failed
  {
    hide Run, CalmRun;
    if Run(flow, c, events).history[v].status.phase == RunPhase.Failed {
      FailedOnlyForFatalStep(flow, c, events, v);
    }
  }

  /** Any other Flow fails exactly for a step that fails without `onFailure: Continue`;
      Fail, Skip and no setting are all the same. */
  lemma {:induction false} FailedIffStepFails(flow: Flow, o: Oracle, c: State, events: seq<Event>, v: nat)
    requires UniqueNames(flow) && Local(flow, o) && Initial(c) && EventsUse(events, o) && CalmRun(flow, c, events)
    requires !flow.continueOnFailure && v < |Run(flow, c, events).history|
    requires var phase := Run(flow, c, events).history[v].status.phase;
      phase == RunPhase.Succeeded || phase == RunPhase.Failed
    ensures Run(flow, c, events).history[v].status.phase == RunPhase.Failed <==>
      exists step | step in flow.steps ::
        && step.onFailure != Continue
        && step.name in Meaning(flow, o) && Meaning(flow, o)[step.name].phase == StepPhase.Failed
  {
    hide Run, CalmRun, Local, Meaning;
    VerdictIsMeaning(flow, o, c, events, v);
  }

  // ---- Time ----

  /** A Running object past the execution timeout is failed by the next reconcile that
      reads the Flow, whatever its steps. */
  lemma {:induction false} OverdueIsFailed(flow: Flow, c: State, w: nat, inp: Input)
    requires c.history != [] && c.live && w in c.workers && c.workers[w] == Worker(|c.history| - 1, Start)
    requires var run := Latest(c);
      && run.status.phase == RunPhase.Running && !run.meta.deleting && !run.meta.cancelRequested
      && run.status.startTime.Some? && inp.flowRead.Found? && inp.executionTimeout > 0
      && inp.now - run.status.startTime.value > inp.executionTimeout
    ensures var t := Next(flow, c, Advance(w, inp));
      && t.history == c.history + [Latest(c).(status := Latest(c).status.(
           phase := RunPhase.Failed, completionTime := Some(Persisted(inp.now))))]
  {
    hide InlineSegment, AllSettled;
  }

  /** Without outside causes, readings within the timeout included, a run is never failed
      for time: some step of the Flow failed without being continued. */
  lemma {:induction false} NeverFailedForTime(flow: Flow, c: State, events: seq<Event>, v: nat)
    requires UniqueNames(flow) && Initial(c) && CalmRun(flow, c, events)
    requires v < |Run(flow, c, events).history|
    requires Run(flow, c, events).history[v].status.phase == RunPhase.Failed
    ensures !flow.continueOnFailure
    ensures exists s, step | s in Run(flow, c, events).history[v].status.steps && step in flow.steps ::
      s.phase == StepPhase.Failed && step.name == s.name && step.onFailure != Continue
  {
    hide Run, CalmRun;
    FailedOnlyForFatalStep(flow, c, events, v);
    var ss := Run(flow, c, events).history[v].status.steps;
    var s, step :| s in ss && s.phase == StepPhase.Failed && step in flow.steps && step.name == s.name
      && !StepTolerated(flow, step);
  }

  /** The write that starts a run stamps its start time and touches no step; the same reconcile
      goes on with the steps. */
  lemma {:induction false} StartingWrite(flow: Flow, inp: Input, run: FlowRun, pc: Pc)
    requires NotStarted(run.status.phase) && PcOk(flow, run.status, pc)
    ensures var call := Segment(flow, inp, run, pc);
      call.PutStatus? && call.status.phase == RunPhase.Running ==>
        && call.status == run.status.(phase := RunPhase.Running, startTime := Some(Persisted(inp.now)))
        && call.next.Body?
  {
    hide InlineSegment, AllSettled, HasFatalFailure;
  }

  /** Nothing is stored for an object that is gone. */
  lemma {:induction false} RemovedIsFinal(flow: Flow, c: State, events: seq<Event>)
    requires !c.live
    ensures Run(flow, c, events).history == c.history
    decreases |events|
  {
    hide Segment;
    if events != [] { RemovedIsFinal(flow, Next(flow, c, events[0]), events[1..]); }
  }

  lemma {:induction false} UpsertMember(ss: seq<StepStatus>, updates: seq<StepStatus>, u: StepStatus)
    requires u in UpsertAll(ss, updates)
    ensures u in ss || u in updates
    decreases |updates|
  {
    if updates != [] { UpsertMember(Upsert(ss, updates[0]), updates[1..], u); }
  }

  /** Stamped at the reading: a settled entry's completion, a paused one's start and resume. */
  predicate Stamped(flow: Flow, now: Time, u: StepStatus) {
    if u.phase == StepPhase.Waiting then
      exists step | step in flow.steps ::
        && step.name == u.name && step.action.Wait? && step.action.duration.Some?
        && u.start == Some(Persisted(now)) && u.resume == Some(Persisted(now + step.action.duration.value))
    else u.completion == Some(Persisted(now))
  }

  lemma {:induction false} InlineStamped(flow: Flow, inp: Input, ss: seq<StepStatus>, k: nat)
    ensures forall u | u in InlineScan(flow, inp, ss, k).updates :: Stamped(flow, inp.now, u)
    decreases |flow.steps| - k
  {
    hide DependenciesMet, Fresh, InlineVerdict, Upsert;
    if k < |flow.steps| {
      InlineStamped(flow, inp, ss, k + 1);
      InlineStamped(flow, inp, Upsert(ss, SkippedStatus(flow.steps[k].name, inp.now)), k + 1);
    }
  }

  lemma {:induction false} WaveStamped(flow: Flow, inp: Input, st: RunStatus, u: StepStatus)
    requires Topological(flow, st.steps) && UniqueNames(flow)
    requires var call := WaveSegment(flow, inp, st); call.PutStatus? && u in call.status.steps && u !in st.steps
    ensures Stamped(flow, inp.now, u)
  {
    hide DependenciesMet, HasFatalFailure, AnyRunning, Fatal;
    var ss := st.steps;
    var wave := Wave(flow, ss, 0);
    if wave != [] {
      match FirstWait(wave) {
        case Some(step) => WaitStamped(flow, inp.now, step, ss);
        case None => UpsertMember(ss, WaveUpdates(inp, wave, ViewOf(ss)), u);
      }
    }
  }

  lemma {:induction false} WaitStamped(flow: Flow, now: Time, step: Step, ss: seq<StepStatus>)
    requires UniqueNames(flow) && Topological(flow, ss)
    requires step in flow.steps && step.action.Wait? && Eligible(flow, step, ss)
    ensures var u := WaitUpdate(now, step, ss); u in ss || Stamped(flow, now, u)
  {
    hide DependenciesMet;
    FindStepUnique(flow, step);
    if Fresh(ss, step.name) {
      FreshIsAbsent(flow, ss, step.name);
    } else {
      assert Recorded(flow, ss, IndexOf(ss, step.name));
    }
  }

  /** Whatever a write adds to the step list carries the clock reading of the reconcile. */
  lemma {:induction false} NewEntriesStamped(flow: Flow, inp: Input, run: FlowRun, pc: Pc, u: StepStatus)
    requires UniqueNames(flow) && RunInv(flow, run.status) && PcOk(flow, run.status, pc)
    requires var call := Segment(flow, inp, run, pc);
      call.PutStatus? && u in call.status.steps && u !in run.status.steps
    ensures Stamped(flow, inp.now, u)
  {
    hide WaveSegment, AllSettled, HasFatalFailure, Stamped, UpsertAll, InlineScan;
    var ss := run.status.steps;
    var k := if pc.Inline? then pc.from else 0;
    InlineStamped(flow, inp, ss, k);
    var updates := InlineScan(flow, inp, ss, k).updates;
    if u in UpsertAll(ss, updates) {
      UpsertMember(ss, updates, u);
    } else {
      WaveStamped(flow, inp, run.status, u);
    }
  }

  /** Every step a wave runs is recorded with the reading as its start. */
  lemma {:induction false} ExecutedStamped(flow: Flow, inp: Input, run: FlowRun, pc: Pc, step: Step)
    requires UniqueNames(flow) && RunInv(flow, run.status) && PcOk(flow, run.status, pc)
    requires step in Executed(flow, inp, run, pc) && Segment(flow, inp, run, pc).PutStatus?
    ensures var s := Find(Segment(flow, inp, run, pc).status.steps, step.name);
      s.Some? && s.value.start == Some(Persisted(inp.now)) && s.value.completion == Some(Persisted(inp.now))
  {
    hide InlineScan, AllSettled, HasFatalFailure, Wave, UpsertAll, Fatal, Find, ViewOf;
    var ss := run.status.steps;
    var wave := Wave(flow, ss, 0);
    WaveDistinct(flow, ss, 0);
    var i :| 0 <= i < |wave| && wave[i] == step;
    var updates := WaveUpdates(inp, wave, ViewOf(ss));
    assert updates[i].name == step.name;
    UpsertAllFinds(ss, updates, i);
  }

  // ---- Failing fast ----

  /** A failure of u that neither its step nor the Flow continues. */
  predicate Uncontinued(flow: Flow, u: StepStatus) {
    && u.phase == StepPhase.Failed && !flow.continueOnFailure
    && exists step | step in flow.steps :: step.name == u.name && step.onFailure != Continue
  }

  lemma {:induction false} InlineFailedIs(flow: Flow, inp: Input, ss: seq<StepStatus>, k: nat)
    ensures var r := InlineScan(flow, inp, ss, k);
      forall u | u in r.updates && u.phase == StepPhase.Failed ::
        r.stop.WhenFailed? && u.name == flow.steps[r.stop.index].name
    decreases |flow.steps| - k
  {
    hide DependenciesMet, Fresh, InlineVerdict, Upsert;
    if k < |flow.steps| {
      InlineFailedIs(flow, inp, ss, k + 1);
      InlineFailedIs(flow, inp, Upsert(ss, SkippedStatus(flow.steps[k].name, inp.now)), k + 1);
    }
  }

  lemma {:induction false} WhenFailedIsNew(flow: Flow, inp: Input, ss: seq<StepStatus>, k: nat)
    requires UniqueNames(flow) && Topological(flow, ss)
    ensures var r := InlineScan(flow, inp, ss, k);
      r.stop.WhenFailed? ==> Find(ss, flow.steps[r.stop.index].name).None?
    decreases |flow.steps| - k
  {
    hide DependenciesMet, InlineVerdict, Upsert, Find;
    if k < |flow.steps| {
      var step := flow.steps[k];
      if !DependenciesMet(flow, step, ss) || !Fresh(ss, step.name) {
        WhenFailedIsNew(flow, inp, ss, k + 1);
      } else {
        FreshIsAbsent(flow, ss, step.name);
        match InlineVerdict(inp, step, ss) {
          case Yes => WhenFailedIsNew(flow, inp, ss, k + 1);
          case No =>
            var u := SkippedStatus(step.name, inp.now);
            InlineLegal(flow, inp, ss, k);
            LegalKeepsOrder(flow, ss, u);
            WhenFailedIsNew(flow, inp, Upsert(ss, u), k + 1);
            var r := InlineScan(flow, inp, Upsert(ss, u), k + 1);
            if r.stop.WhenFailed? { FindUpsert(ss, u, flow.steps[r.stop.index].name); }
          case Error =>
        }
      }
    }
  }

  lemma {:induction false} UncontinuedIff(flow: Flow, u: StepStatus, step: Step)
    requires UniqueNames(flow) && step in flow.steps && step.name == u.name && u.phase == StepPhase.Failed
    ensures Uncontinued(flow, u) <==> !StepTolerated(flow, step)
  {
    FindStepUnique(flow, step);
    if Uncontinued(flow, u) {
      var other :| other in flow.steps && other.name == u.name && other.onFailure != Continue;
      FindStepUnique(flow, other);
    }
  }

  /** The write adds a failure that is not continued. */
  predicate AddsFatal(flow: Flow, ss: seq<StepStatus>, tt: seq<StepStatus>) {
    exists u | u in tt :: u !in ss && Uncontinued(flow, u)
  }

  lemma {:induction false} InlineFailsFast(flow: Flow, inp: Input, ss: seq<StepStatus>, k: nat)
    requires UniqueNames(flow) && Topological(flow, ss)
    ensures var r := InlineScan(flow, inp, ss, k);
      AddsFatal(flow, ss, UpsertAll(ss, r.updates)) <==>
        r.stop.WhenFailed? && !StepTolerated(flow, flow.steps[r.stop.index])
  {
    hide InlineScan, UpsertAll, Find, StepTolerated, Uncontinued;
    var r := InlineScan(flow, inp, ss, k);
    var tt := UpsertAll(ss, r.updates);
    if u :| u in tt && u !in ss && Uncontinued(flow, u) {
      UpsertMember(ss, r.updates, u);
      InlineFailedIs(flow, inp, ss, k);
      assert u.phase == StepPhase.Failed by { UncontinuedFailed(flow, u); }
      UncontinuedIff(flow, u, flow.steps[r.stop.index]);
    }
    if r.stop.WhenFailed? && !StepTolerated(flow, flow.steps[r.stop.index]) {
      var step := flow.steps[r.stop.index];
      InlineFailureRecorded(flow, inp, ss, k);
      WhenFailedIsNew(flow, inp, ss, k);
      var u := Find(tt, step.name).value;
      UncontinuedIff(flow, u, step);
      assert u in tt && u !in ss;
    }
  }

  lemma {:induction false} UncontinuedFailed(flow: Flow, u: StepStatus)
    requires Uncontinued(flow, u)
    ensures u.phase == StepPhase.Failed
  {}

  lemma {:induction false} IoFailsFast(flow: Flow, inp: Input, ss: seq<StepStatus>)
    requires UniqueNames(flow) && Topological(flow, ss)
    requires FirstWait(Wave(flow, ss, 0)).None?
    ensures var wave := Wave(flow, ss, 0);
      var updates := WaveUpdates(inp, wave, ViewOf(ss));
      AddsFatal(flow, ss, UpsertAll(ss, updates)) <==> Fatal(flow, wave, updates)
  {
    hide UpsertAll, Find, StepTolerated, Uncontinued, ActStatus, Wave;
    var wave := Wave(flow, ss, 0);
    var updates := WaveUpdates(inp, wave, ViewOf(ss));
    WaveDistinct(flow, ss, 0);
    if u :| u in UpsertAll(ss, updates) && u !in ss && Uncontinued(flow, u) {
      UpsertMember(ss, updates, u);
      UncontinuedFailed(flow, u);
      var i :| 0 <= i < |updates| && updates[i] == u;
      assert wave[i] in wave;
      UncontinuedIff(flow, u, wave[i]);
    }
    if i :| 0 <= i < |wave| && updates[i].phase == StepPhase.Failed && !StepTolerated(flow, wave[i]) {
      assert wave[i] in wave && updates[i].name == wave[i].name;
      UpsertAllFinds(ss, updates, i);
      FreshIsAbsent(flow, ss, wave[i].name);
      UncontinuedIff(flow, updates[i], wave[i]);
      assert updates[i] in UpsertAll(ss, updates) && updates[i] !in ss;
    }
  }

  lemma {:induction false} WaitFailsFast(flow: Flow, now: Time, step: Step, ss: seq<StepStatus>)
    requires UniqueNames(flow) && Topological(flow, ss)
    requires step in flow.steps && step.action.Wait? && Eligible(flow, step, ss)
    ensures var u := WaitUpdate(now, step, ss);
      AddsFatal(flow, ss, Upsert(ss, u)) <==> u.phase == StepPhase.Failed && !StepTolerated(flow, step)
  {
    hide StepTolerated, Uncontinued, WaitUpdate, Find;
    var u := WaitUpdate(now, step, ss);
    if x :| x in Upsert(ss, u) && x !in ss && Uncontinued(flow, x) {
      UncontinuedFailed(flow, x);
      UncontinuedIff(flow, u, step);
    }
    if u.phase == StepPhase.Failed && !StepTolerated(flow, step) {
      UncontinuedIff(flow, u, step);
      FindUpsert(ss, u, u.name);
      WaitLegal(flow, now, step, ss);
      assert u in Upsert(ss, u);
      assert u !in ss by { FailedIsNew(flow, ss, u); }
    }
  }

  lemma {:induction false} FailedIsNew(flow: Flow, ss: seq<StepStatus>, u: StepStatus)
    requires Topological(flow, ss) && Legal(flow, ss, u) && u.phase == StepPhase.Failed
    ensures u !in ss
  {
    if u in ss {
      var i :| 0 <= i < |ss| && ss[i] == u;
      DistinctFind(ss, i);
    }
  }

  lemma {:induction false} WaveFailsFast(flow: Flow, inp: Input, st: RunStatus)
    requires UniqueNames(flow) && Topological(flow, st.steps)
    ensures var call := WaveSegment(flow, inp, st);
      call.PutStatus? && call.status.phase == st.phase ==>
        (call.next.FailNow? <==> AddsFatal(flow, st.steps, call.status.steps))
  {
    hide WaitUpdate, UpsertAll, Upsert, Fatal, HasFatalFailure, AnyRunning, Uncontinued, StepTolerated;
    var wave := Wave(flow, st.steps, 0);
    if wave != [] {
      match FirstWait(wave) {
        case Some(step) => WaitFailsFast(flow, inp.now, step, st.steps);
        case None => IoFailsFast(flow, inp, st.steps);
      }
    }
  }

  /** A reconcile of a Running object goes on to fail the run at once exactly when the write
      before adds a failed step without `onFailure: Continue` under a Flow that does not
      continue. */
  lemma {:induction false} FailsFastIff(flow: Flow, inp: Input, run: FlowRun, pc: Pc)
    requires UniqueNames(flow) && RunInv(flow, run.status) && PcOk(flow, run.status, pc)
    requires run.status.phase == RunPhase.Running
    ensures var call := Segment(flow, inp, run, pc);
      call.PutStatus? && call.status.phase == RunPhase.Running ==>
        (call.next.FailNow? <==>
           && !flow.continueOnFailure
           && exists u, step |
                u in call.status.steps && u !in run.status.steps && u.phase == StepPhase.Failed && step in flow.steps ::
                step.name == u.name && step.onFailure != Continue)
  {
    hide WaveSegment, InlineScan, UpsertAll, AllSettled, HasFatalFailure, StepTolerated;
    var ss := run.status.steps;
    var call := Segment(flow, inp, run, pc);
    InlineFailsFast(flow, inp, ss, if pc.Inline? then pc.from else 0);
    WaveFailsFast(flow, inp, run.status);
    if call.PutStatus? && call.status.phase == RunPhase.Running {
      assert call.next.FailNow? <==> AddsFatal(flow, ss, call.status.steps);
      if AddsFatal(flow, ss, call.status.steps) {
        var u :| u in call.status.steps && u !in ss && Uncontinued(flow, u);
      }
      forall u, step |
        u in call.status.steps && u !in ss && u.phase == StepPhase.Failed && step in flow.steps
        && step.name == u.name && step.onFailure != Continue && !flow.continueOnFailure
        ensures AddsFatal(flow, ss, call.status.steps)
      {
        assert Uncontinued(flow, u);
      }
    }
  }

  /** A `when` error that is continued does not end the reconcile: it goes on with the step
      after it. */
  lemma {:induction false} WhenErrorContinues(flow: Flow, inp: Input, run: FlowRun)
    requires run.status.phase == RunPhase.Running && inp.flowRead.Found? && inp.paramsResolve
    requires !run.meta.deleting && !run.meta.cancelRequested && inp.executionTimeout <= 0
    requires !AllSettled(flow, run.status.steps) && InlineScan(flow, inp, run.status.steps, 0).stop.WhenFailed?
    ensures var k := InlineScan(flow, inp, run.status.steps, 0).stop.index;
      var call := Segment(flow, inp, run, Start);
      && call.PutStatus?
      && call.next == if flow.continueOnFailure || flow.steps[k].onFailure == Continue then Inline(k + 1) else FailNow
  {
    hide InlineScan, AllSettled, UpsertAll;
  }

  /** The startup scan fails a Running object past the execution timeout. */
  lemma {:induction false} OrphanIsFailed(flow: Flow, c: State, w: nat, inp: Input, later: Input)
    requires c.history != [] && c.live && w !in c.workers
    requires var run := Latest(c);
      && run.status.phase == RunPhase.Running && run.status.startTime.Some? && inp.executionTimeout > 0
      && inp.now - run.status.startTime.value > inp.executionTimeout
    ensures var t := Next(flow, Next(flow, c, Scan(w, |c.history| - 1, inp)), Advance(w, later));
      t.history == c.history + [Latest(c).(status := Latest(c).status.(
        phase := RunPhase.Failed, completionTime := Some(Persisted(later.now))))]
  {}

  // ---- The finalizer and the phase label ----

  /** A Running object holds the finalizer; a label is the terminal phase, and then the
      finalizer is gone. */
  predicate MetaOk(run: FlowRun) {
    && (run.status.phase == RunPhase.Running ==> run.meta.finalizer)
    && (run.meta.phaseLabel.Some? ==>
          Terminal(run.status.phase) && run.meta.phaseLabel.value == run.status.phase && !run.meta.finalizer)
  }

  predicate WorkerMeta(h: seq<FlowRun>, w: Worker) {
    w.version < |h| && (w.pc.Begin? ==> h[w.version].meta.finalizer)
  }

  predicate AllMeta(c: State) {
    && (forall i | 0 <= i < |c.history| :: MetaOk(c.history[i]))
    && (forall w | w in c.workers :: WorkerMeta(c.history, c.workers[w]))
  }

  lemma {:induction false} SegmentMeta(flow: Flow, inp: Input, run: FlowRun, pc: Pc)
    requires UniqueNames(flow) && RunInv(flow, run.status) && PcOk(flow, run.status, pc)
    requires MetaOk(run) && (pc.Begin? ==> run.meta.finalizer)
    ensures var call := Segment(flow, inp, run, pc);
      !call.Return? ==> MetaOk(Stored(run, call)) && (call.next.Begin? ==> Stored(run, call).meta.finalizer)
  {
    hide InlineScan, Wave, FirstWait, WaitUpdate, AllSettled, AnyRunning, HasFatalFailure, Fatal, UpsertAll, Upsert,
      ViewOf, StepTolerated, RunInv;
    if Terminal(run.status.phase) {
      SegmentGood(flow, inp, run, pc);
    }
  }

  lemma {:induction false} NextMeta(flow: Flow, c: State, e: Event)
    requires UniqueNames(flow) && Inv(flow, c) && AllMeta(c) && !e.Edit?
    ensures AllMeta(Next(flow, c, e))
  {
    hide Segment, RunInv, MetaOk;
    if e.Advance? && e.worker in c.workers {
      var at := c.workers[e.worker];
      assert WorkerOk(flow, c.history, at) && WorkerMeta(c.history, at);
      assert RunInv(flow, c.history[at.version].status);
      SegmentMeta(flow, e.inp, c.history[at.version], at.pc);
    }
  }

  ghost predicate NoEdits(events: seq<Event>) {
    forall e | e in events :: !e.Edit?
  }

  lemma {:induction false} RunMeta(flow: Flow, c: State, events: seq<Event>)
    requires UniqueNames(flow) && Inv(flow, c) && AllMeta(c) && NoEdits(events)
    ensures AllMeta(Run(flow, c, events))
    decreases |events|
  {
    hide Inv, AllMeta, Next;
    if events != [] {
      NextKeepsInv(flow, c, events[0]);
      NextMeta(flow, c, events[0]);
      RunMeta(flow, Next(flow, c, events[0]), events[1..]);
    }
  }

  /** Unless someone edits it, an object holds the executing finalizer in every version in
      which it is Running, and carries as label only the phase it ended in. */
  lemma {:induction false} FinalizerHeld(flow: Flow, c: State, events: seq<Event>, v: nat)
    requires UniqueNames(flow) && Initial(c) && c.history[0].meta.phaseLabel.None? && NoEdits(events)
    requires v < |Run(flow, c, events).history|
    ensures var run := Run(flow, c, events).history[v];
      && (run.status.phase == RunPhase.Running ==> run.meta.finalizer)
      && (run.meta.phaseLabel.Some? ==>
            Terminal(run.status.phase) && run.meta.phaseLabel.value == run.status.phase && !run.meta.finalizer)
  {
    hide Run;
    Reachable(flow, c, []);
    RunNothing(flow, c);
    RunMeta(flow, c, events);
  }

  /** A reconcile that ends a run leaves the label and takes the finalizer off. */
  lemma {:induction false} SoloLabels(flow: Flow, inp: Pc -> Input, run: FlowRun, pc: Pc)
    requires UniqueNames(flow) && RunInv(flow, run.status) && PcOk(flow, run.status, pc)
    requires !Terminal(run.status.phase) || pc.Label?
    ensures var r := Solo(flow, inp, run, pc);
      Terminal(r.status.phase) ==> r.meta.phaseLabel == Some(r.status.phase) && !r.meta.finalizer
    decreases PcRank(flow, pc)
  {
    hide RunInv, InlineSegment, BodySegment, Measure;
    var call := Segment(flow, inp(pc), run, pc);
    SegmentForward(flow, inp(pc), run, pc);
    SegmentGood(flow, inp(pc), run, pc);
    if pc.Label? {
      assert Solo(flow, inp, run, pc) == Solo(flow, inp, Stored(run, call), Stop);
      assert Solo(flow, inp, Stored(run, call), Stop) == Stored(run, call);
    } else if !call.Return? {
      EndingWrite(flow, inp(pc), run, pc);
      SoloLabels(flow, inp, Stored(run, call), call.next);
    }
  }
}
