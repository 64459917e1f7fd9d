/** Undisturbed reconciles make progress, so a run ends. */
module Progress {
  import opened Common
  import opened Flows
  import opened Engine
  import opened RunSafety
  import opened Outcomes

  /** A whole reconcile whose writes all succeed. A place is passed at most once,
      so inputs indexed by place are arbitrary inputs at every API call. */
  ghost function Solo(flow: Flow, inp: Pc -> Input, run: FlowRun, pc: Pc): FlowRun
    decreases PcRank(flow, pc)
  {
    var call := Segment(flow, inp(pc), run, pc);
    SegmentForward(flow, inp(pc), run, pc);
    if call.Return? then run else Solo(flow, inp, Stored(run, call), call.next)
  }

  lemma {:induction false} SoloKeeps(flow: Flow, inp: Pc -> Input, run: FlowRun, pc: Pc)
    requires UniqueNames(flow) && RunInv(flow, run.status) && PcOk(flow, run.status, pc)
    ensures var r := Solo(flow, inp, run, pc);
      && RunInv(flow, r.status)
      && (Terminal(run.status.phase) ==> r.status == run.status)
      && (run.status.phase == RunPhase.Running ==> !NotStarted(r.status.phase))
      && Measure(flow.steps, r.status.steps) <= Measure(flow.steps, run.status.steps)
    decreases PcRank(flow, pc)
  {
    var call := Segment(flow, inp(pc), run, pc);
    SegmentGood(flow, inp(pc), run, pc);
    SegmentForward(flow, inp(pc), run, pc);
    if !call.Return? { SoloKeeps(flow, inp, Stored(run, call), call.next); }
  }

  /** The wave's first wait is not still pausing; without a wait in the wave, the executor
      is reachable for each of its steps. */
  predicate WaveReady(flow: Flow, inp: Input, ss: seq<StepStatus>) {
    var wave := Wave(flow, ss, 0);
    match FirstWait(wave)
    case Some(step) =>
      var s := Find(ss, step.name);
      s.Some? && s.value.phase == StepPhase.Waiting && s.value.resume.Some? ==> s.value.resume.value <= inp.now
    case None => forall step | step in wave :: !inp.unreachable(step)
  }

  /** The reconcile can read the Flow unless it only has to cancel, and the wave it gets to,
      if any, is ready. */
  predicate Undisturbed(flow: Flow, inp: Input, run: FlowRun) {
    || (run.status.phase == RunPhase.Running && (run.meta.deleting || run.meta.cancelRequested))
    || (&& !inp.flowRead.ReadError?
        && (ReachesWave(flow, inp, run, Start) ==> WaveReady(flow, inp, run.status.steps)))
  }

  /** The requeue for an empty wave with a running step is never taken. */
  lemma {:induction false} EmptyWaveNeverRunning(flow: Flow, ss: seq<StepStatus>)
    requires Topological(flow, ss) && Wave(flow, ss, 0) == []
    ensures !AnyRunning(flow, ss)
  {
    if AnyRunning(flow, ss) {
      var step :| step in flow.steps && Find(ss, step.name).Some? &&
        (Find(ss, step.name).value.phase == StepPhase.Running || Find(ss, step.name).value.phase == StepPhase.Waiting);
      var s := Find(ss, step.name).value;
      assert Recorded(flow, ss, IndexOf(ss, step.name));
      WaitingIsEligible(flow, ss, s);
    }
  }

  ghost predicate Advances(flow: Flow, run: FlowRun, call: ApiCall) {
    && call.PutStatus?
    && (Terminal(call.status.phase)
        || Measure(flow.steps, call.status.steps) < Measure(flow.steps, run.status.steps))
  }

  lemma {:induction false} UpdatesAdvance(flow: Flow, ss: seq<StepStatus>, updates: seq<StepStatus>)
    requires Topological(flow, ss) && LegalAll(flow, ss, updates) && updates != []
    requires Find(ss, updates[0].name) != Some(updates[0])
    ensures Measure(flow.steps, UpsertAll(ss, updates)) < Measure(flow.steps, ss)
  {
    MeasureDrops(flow.steps, ss, updates[0]);
    LegalKeepsOrder(flow, ss, updates[0]);
    LegalAllKeeps(flow, Upsert(ss, updates[0]), updates[1..]);
  }

  lemma {:induction false} WaitAdvances(flow: Flow, inp: Input, ss: seq<StepStatus>, step: Step)
    requires UniqueNames(flow) && Topological(flow, ss) && FirstWait(Wave(flow, ss, 0)) == Some(step)
    ensures var u := WaitUpdate(inp.now, step, ss);
      if WaveReady(flow, inp, ss) then Measure(flow.steps, Upsert(ss, u)) < Measure(flow.steps, ss)
      else Upsert(ss, u) == ss
  {
    hide Measure;
    var u := WaitUpdate(inp.now, step, ss);
    WaitLegal(flow, inp.now, step, ss);
    FindStepUnique(flow, step);
    if Fresh(ss, step.name) {
      FreshIsAbsent(flow, ss, step.name);
      MeasureDrops(flow.steps, ss, u);
    } else {
      assert Recorded(flow, ss, IndexOf(ss, step.name));
      if WaveReady(flow, inp, ss) { MeasureDrops(flow.steps, ss, u); }
    }
  }

  lemma {:induction false} IoAdvances(flow: Flow, inp: Input, ss: seq<StepStatus>)
    requires UniqueNames(flow) && Topological(flow, ss)
    requires Wave(flow, ss, 0) != [] && FirstWait(Wave(flow, ss, 0)).None?
    ensures var updates := WaveUpdates(inp, Wave(flow, ss, 0), ViewOf(ss));
      Measure(flow.steps, UpsertAll(ss, updates)) < Measure(flow.steps, ss)
  {
    hide Measure;
    var wave := Wave(flow, ss, 0);
    WaveDistinct(flow, ss, 0);
    forall step | step in wave ensures Find(ss, step.name).None? {
      FreshIsAbsent(flow, ss, step.name);
    }
    WaveLegal(flow, inp, wave, ViewOf(ss), ss);
    var updates := WaveUpdates(inp, wave, ViewOf(ss));
    assert updates[0].name == wave[0].name;
    UpdatesAdvance(flow, ss, updates);
  }

  /** The wave ends the run or lowers the measure if and only if it is ready. */
  lemma {:induction false} WaveAdvancesIff(flow: Flow, inp: Input, run: FlowRun)
    requires UniqueNames(flow) && RunInv(flow, run.status) && run.status.phase == RunPhase.Running
    ensures Advances(flow, run, WaveSegment(flow, inp, run.status)) <==> WaveReady(flow, inp, run.status.steps)
  {
    hide Measure, WaitUpdate, AnyRunning, HasFatalFailure, Upsert, UpsertAll, Fatal;
    var ss := run.status.steps;
    var wave := Wave(flow, ss, 0);
    if wave == [] {
      EmptyWaveNeverRunning(flow, ss);
    } else {
      match FirstWait(wave) {
        case Some(step) => WaitAdvances(flow, inp, ss, step);
        case None => IoAdvances(flow, inp, ss);
      }
    }
  }

  lemma {:induction false} InlineHeadIsNew(flow: Flow, inp: Input, ss: seq<StepStatus>, k: nat)
    requires Topological(flow, ss) && InlineScan(flow, inp, ss, k).updates != []
    ensures Find(ss, InlineScan(flow, inp, ss, k).updates[0].name).None?
    decreases |flow.steps| - k
  {
    var step := flow.steps[k];
    if DependenciesMet(flow, step, ss) && Fresh(ss, step.name) {
      FreshIsAbsent(flow, ss, step.name);
      if InlineVerdict(inp, step, ss).Yes? { InlineHeadIsNew(flow, inp, ss, k + 1); }
    } else {
      InlineHeadIsNew(flow, inp, ss, k + 1);
    }
  }

  lemma {:induction false} InlineAdvancesIff(flow: Flow, inp: Input, run: FlowRun)
    requires UniqueNames(flow) && RunInv(flow, run.status) && run.status.phase == RunPhase.Running
    ensures Advances(flow, run, InlineSegment(flow, inp, run.status, 0, false)) <==>
      (InlineScan(flow, inp, run.status.steps, 0) == InlineResult([], Completed) ==>
         WaveReady(flow, inp, run.status.steps))
  {
    hide Measure, InlineScan, WaveSegment, WaveReady, UpsertAll;
    var ss := run.status.steps;
    var scan := InlineScan(flow, inp, ss, 0);
    if scan.updates == [] {
      WhenFailedRecords(flow, inp, ss, 0);
      WaveAdvancesIff(flow, inp, run);
    } else {
      InlineHeadIsNew(flow, inp, ss, 0);
      InlineLegal(flow, inp, ss, 0);
      UpdatesAdvance(flow, ss, scan.updates);
    }
  }

  /** The first write of a reconcile of a Running object ends the run or lowers the measure
      if and only if the reconcile is undisturbed. */
  lemma {:induction false} StartAdvancesIff(flow: Flow, inp: Input, run: FlowRun)
    requires UniqueNames(flow) && RunInv(flow, run.status) && run.status.phase == RunPhase.Running
    ensures Advances(flow, run, Segment(flow, inp, run, Start)) <==> Undisturbed(flow, inp, run)
  {
    hide Measure, InlineScan, InlineSegment, WaveReady, AllSettled, HasFatalFailure, RunInv;
    InlineAdvancesIff(flow, inp, run);
  }

  lemma {:induction false} WhenFailedRecords(flow: Flow, inp: Input, ss: seq<StepStatus>, k: nat)
    ensures var r := InlineScan(flow, inp, ss, k); r.stop.WhenFailed? ==> r.updates != []
    decreases |flow.steps| - k
  {
    if k < |flow.steps| { WhenFailedRecords(flow, inp, ss, k + 1); }
  }

  /** An undisturbed reconcile of a Running object ends the run or strictly lowers
      the measure. */
  lemma {:induction false} ReconcileProgress(flow: Flow, inp: Pc -> Input, run: FlowRun)
    requires UniqueNames(flow) && RunInv(flow, run.status) && run.status.phase == RunPhase.Running
    requires Undisturbed(flow, inp(Start), run)
    ensures var r := Solo(flow, inp, run, Start);
      && RunInv(flow, r.status)
      && (Terminal(r.status.phase)
          || (r.status.phase == RunPhase.Running
              && Measure(flow.steps, r.status.steps) < Measure(flow.steps, run.status.steps)))
  {
    var call := Segment(flow, inp(Start), run, Start);
    StartAdvancesIff(flow, inp(Start), run);
    SegmentGood(flow, inp(Start), run, Start);
    SoloKeeps(flow, inp, Stored(run, call), call.next);
  }

  ghost function SoloMany(flow: Flow, inps: seq<Pc -> Input>, run: FlowRun): FlowRun
    decreases |inps|
  {
    if inps == [] then run else SoloMany(flow, inps[1..], Solo(flow, inps[0], run, Start))
  }

  ghost predicate AllUndisturbed(flow: Flow, inps: seq<Pc -> Input>, run: FlowRun)
    decreases |inps|
  {
    inps == [] || (&& Undisturbed(flow, inps[0](Start), run)
                   && AllUndisturbed(flow, inps[1..], Solo(flow, inps[0], run, Start)))
  }

  lemma {:induction false} ManyEnd(flow: Flow, inps: seq<Pc -> Input>, run: FlowRun)
    requires UniqueNames(flow) && RunInv(flow, run.status) && !NotStarted(run.status.phase)
    requires AllUndisturbed(flow, inps, run)
    requires |inps| > Measure(flow.steps, run.status.steps) || Terminal(run.status.phase)
    ensures Terminal(SoloMany(flow, inps, run).status.phase)
    decreases |inps|
  {
    if inps != [] {
      var r := Solo(flow, inps[0], run, Start);
      SoloKeeps(flow, inps[0], run, Start);
      if run.status.phase == RunPhase.Running { ReconcileProgress(flow, inps[0], run); }
      ManyEnd(flow, inps[1..], r);
    }
  }

  /** A Running FlowRun of n steps is terminal after at most 2n + 1 undisturbed
      reconciles, whatever the outcomes and verdicts. */
  lemma {:induction false} RunEnds(flow: Flow, inps: seq<Pc -> Input>, run: FlowRun)
    requires UniqueNames(flow) && RunInv(flow, run.status) && run.status.phase == RunPhase.Running
    requires AllUndisturbed(flow, inps, run) && |inps| == 2 * |flow.steps| + 1
    ensures Terminal(SoloMany(flow, inps, run).status.phase)
  {
    MeasureBound(flow.steps, run.status.steps);
    ManyEnd(flow, inps, run);
  }
}
