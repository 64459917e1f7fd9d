/** What every API write of the engine keeps: the recorded steps are a
    topological order of the part of the graph that ran, nothing recorded as
    settled is ever changed, and phases only move forward. */
module RunSafety {
  import opened Common
  import opened Flows
  import opened Engine

  // ---- How recorded statuses may change ----

  /** A settled entry is frozen; a Waiting entry stays as it is, resume time
      included, or succeeds at or after its resume time. */
  predicate StepEdge(a: Option<StepStatus>, b: Option<StepStatus>) {
    match a
    case None => true
    case Some(x) =>
      if Settled(x.phase) then b == a
      else if x.phase == StepPhase.Waiting then
        || b == a
        || (&& b.Some? && b.value.phase == StepPhase.Succeeded
            && b.value.completion.Some? && x.resume.Some?
            && b.value.completion.value >= x.resume.value)
      else true
  }

  ghost predicate Grows(ss: seq<StepStatus>, tt: seq<StepStatus>) {
    forall n: string :: StepEdge(Find(ss, n), Find(tt, n))
  }

  lemma {:induction false} GrowsTrans(ss: seq<StepStatus>, tt: seq<StepStatus>, uu: seq<StepStatus>)
    requires Grows(ss, tt) && Grows(tt, uu)
    ensures Grows(ss, uu)
  {
    forall n: string ensures StepEdge(Find(ss, n), Find(uu, n)) {
      assert StepEdge(Find(ss, n), Find(tt, n)) && StepEdge(Find(tt, n), Find(uu, n));
    }
  }

  lemma {:induction false} MetGrows(flow: Flow, step: Step, ss: seq<StepStatus>, tt: seq<StepStatus>)
    requires Grows(ss, tt) && DependenciesMet(flow, step, ss)
    ensures DependenciesMet(flow, step, tt)
  {
    forall d | d in step.runAfter ensures DependencyMet(flow, tt, d) {
      assert DependencyMet(flow, ss, d) && StepEdge(Find(ss, d), Find(tt, d));
    }
  }

  // ---- The recorded list as a topological order ----

  /** The step is a wait of a positive duration. */
  predicate Pauses(step: Step) {
    step.action.Wait? && step.action.duration.Some? && step.action.duration.value > 0
  }

  /** Settled entries carry a completion time, Waiting ones a resume time; up to the
      one-second granularity of stored times both lie the wait's duration after the
      recorded start. */
  predicate WellShaped(step: Step, s: StepStatus) {
    || (&& Settled(s.phase) && s.completion.Some?
        && (Pauses(step) && s.phase == StepPhase.Succeeded ==>
              s.start.Some? && s.completion.value > s.start.value + step.action.duration.value - SECOND))
    || (&& s.phase == StepPhase.Waiting && Pauses(step)
        && s.results == map[] && s.start.Some? && s.completion.None?
        && s.resume.Some? && s.resume.value % SECOND == 0
        && s.start.value + step.action.duration.value - SECOND < s.resume.value
        && s.resume.value < s.start.value + step.action.duration.value + SECOND)
  }

  predicate Recorded(flow: Flow, ss: seq<StepStatus>, i: nat)
    requires i < |ss|
  {
    var step := FindStep(flow.steps, ss[i].name);
    step.Some? && WellShaped(step.value, ss[i]) && DependenciesMet(flow, step.value, ss[..i])
  }

  /** Each entry is a step of the Flow whose dependencies were all satisfied by
      entries recorded before it. */
  predicate Topological(flow: Flow, ss: seq<StepStatus>) {
    Distinct(ss) && forall i | 0 <= i < |ss| :: Recorded(flow, ss, i)
  }

  /** An update the engine may record in state ss. */
  predicate Legal(flow: Flow, ss: seq<StepStatus>, s: StepStatus) {
    var step := FindStep(flow.steps, s.name);
    && step.Some? && WellShaped(step.value, s)
    && DependenciesMet(flow, step.value, ss)
    && (Find(ss, s.name).None? || Find(ss, s.name).value.phase == StepPhase.Waiting)
    && StepEdge(Find(ss, s.name), Some(s))
  }

  predicate LegalAll(flow: Flow, ss: seq<StepStatus>, updates: seq<StepStatus>)
    decreases |updates|
  {
    updates == [] || (Legal(flow, ss, updates[0]) && LegalAll(flow, Upsert(ss, updates[0]), updates[1..]))
  }

  /** Twice the steps without a status plus the waiting ones. */
  function Measure(steps: seq<Step>, ss: seq<StepStatus>): nat {
    if steps == [] then 0
    else
      var s := Find(ss, steps[0].name);
      (if s.None? then 2 else if s.value.phase == StepPhase.Waiting then 1 else 0) + Measure(steps[1..], ss)
  }

  lemma {:induction false} MeasureBound(steps: seq<Step>, ss: seq<StepStatus>)
    ensures Measure(steps, ss) <= 2 * |steps|
  {
    if steps != [] { MeasureBound(steps[1..], ss); }
  }

  lemma {:induction false} MeasureDrops(steps: seq<Step>, ss: seq<StepStatus>, s: StepStatus)
    requires Find(ss, s.name).None? || (Find(ss, s.name).value.phase == StepPhase.Waiting && Settled(s.phase))
    requires Settled(s.phase) || s.phase == StepPhase.Waiting
    ensures Measure(steps, Upsert(ss, s)) <= Measure(steps, ss)
    ensures FindStep(steps, s.name).Some? ==> Measure(steps, Upsert(ss, s)) < Measure(steps, ss)
  {
    if steps != [] {
      FindUpsert(ss, s, steps[0].name);
      MeasureDrops(steps[1..], ss, s);
    }
  }

  lemma {:induction false} UpsertGrows(flow: Flow, ss: seq<StepStatus>, s: StepStatus)
    requires StepEdge(Find(ss, s.name), Some(s))
    ensures Grows(ss, Upsert(ss, s))
  {
    forall n: string ensures StepEdge(Find(ss, n), Find(Upsert(ss, s), n)) {
      FindUpsert(ss, s, n);
    }
  }

  lemma {:induction false} LegalKeepsOrder(flow: Flow, ss: seq<StepStatus>, s: StepStatus)
    requires Topological(flow, ss) && Legal(flow, ss, s)
    ensures Topological(flow, Upsert(ss, s))
  {
    var i := IndexOf(ss, s.name);
    var tt := Upsert(ss, s);
    UpsertDistinct(ss, s);
    forall j | 0 <= j < |tt| ensures Recorded(flow, tt, j) {
      if j < |ss| { assert Recorded(flow, ss, j); }
      if j <= i {
        assert tt[..j] == ss[..j];
        assert j == |ss| ==> ss[..j] == ss;
      } else {
        var step := FindStep(flow.steps, tt[j].name).value;
        var before := ss[..j];
        assert IndexOf(before, s.name) == i;
        assert tt[..j] == Upsert(before, s);
        assert Find(before, s.name) == Find(ss, s.name);
        UpsertGrows(flow, before, s);
        MetGrows(flow, step, before, tt[..j]);
      }
    }
  }

  ghost predicate Progress(flow: Flow, ss: seq<StepStatus>, tt: seq<StepStatus>) {
    tt == ss || Measure(flow.steps, tt) < Measure(flow.steps, ss)
  }

  lemma {:induction false} LegalProgress(flow: Flow, ss: seq<StepStatus>, s: StepStatus)
    requires Topological(flow, ss) && Legal(flow, ss, s)
    ensures Progress(flow, ss, Upsert(ss, s))
  {
    if Find(ss, s.name) == Some(s) {
      assert Upsert(ss, s) == ss;
    } else {
      MeasureDrops(flow.steps, ss, s);
    }
  }

  lemma {:induction false} LegalAllKeeps(flow: Flow, ss: seq<StepStatus>, updates: seq<StepStatus>)
    requires Topological(flow, ss) && LegalAll(flow, ss, updates)
    ensures Topological(flow, UpsertAll(ss, updates))
    ensures Grows(ss, UpsertAll(ss, updates))
    ensures Progress(flow, ss, UpsertAll(ss, updates))
    decreases |updates|
  {
    if updates == [] {
      forall n: string ensures StepEdge(Find(ss, n), Find(ss, n)) {}
    } else {
      var s := updates[0];
      var tt := Upsert(ss, s);
      LegalKeepsOrder(flow, ss, s);
      UpsertGrows(flow, ss, s);
      LegalProgress(flow, ss, s);
      LegalAllKeeps(flow, tt, updates[1..]);
      GrowsTrans(ss, tt, UpsertAll(ss, updates));
    }
  }

  // ---- The engine's updates are legal ----

  lemma {:induction false} FreshIsAbsent(flow: Flow, ss: seq<StepStatus>, name: string)
    requires Topological(flow, ss) && Fresh(ss, name)
    ensures Find(ss, name).None?
  {
    var i := IndexOf(ss, name);
    assert i < |ss| ==> Recorded(flow, ss, i);
  }

  lemma {:induction false} InlineLegal(flow: Flow, inp: Input, ss: seq<StepStatus>, k: nat)
    requires UniqueNames(flow) && Topological(flow, ss)
    ensures LegalAll(flow, ss, InlineScan(flow, inp, ss, k).updates)
    decreases |flow.steps| - k
  {
    if k < |flow.steps| {
      var step := flow.steps[k];
      if !DependenciesMet(flow, step, ss) || !Fresh(ss, step.name) {
        InlineLegal(flow, inp, ss, k + 1);
      } else {
        FreshIsAbsent(flow, ss, step.name);
        FindStepUnique(flow, step);
        match InlineVerdict(inp, step, ss) {
          case Yes => InlineLegal(flow, inp, ss, k + 1);
          case No =>
            var u := SkippedStatus(step.name, inp.now);
            LegalKeepsOrder(flow, ss, u);
            InlineLegal(flow, inp, Upsert(ss, u), k + 1);
            assert ([u] + InlineScan(flow, inp, Upsert(ss, u), k + 1).updates)[1..]
                == InlineScan(flow, inp, Upsert(ss, u), k + 1).updates;
          case Error =>
        }
      }
    }
  }

  lemma {:induction false} WaitLegal(flow: Flow, now: Time, step: Step, ss: seq<StepStatus>)
    requires UniqueNames(flow) && Topological(flow, ss)
    requires step in flow.steps && step.action.Wait? && Eligible(flow, step, ss)
    ensures Legal(flow, ss, WaitUpdate(now, step, ss))
  {
    hide DependenciesMet;
    FindStepUnique(flow, step);
    if Fresh(ss, step.name) {
      FreshIsAbsent(flow, ss, step.name);
    } else {
      assert Recorded(flow, ss, IndexOf(ss, step.name));
    }
  }

  lemma {:induction false} WaveDistinct(flow: Flow, ss: seq<StepStatus>, k: nat)
    requires UniqueNames(flow)
    ensures DistinctSteps(Wave(flow, ss, k))
    ensures forall step | step in Wave(flow, ss, k) :: exists j | k <= j < |flow.steps| :: flow.steps[j] == step
    decreases |flow.steps| - k
  {
    if k < |flow.steps| {
      WaveDistinct(flow, ss, k + 1);
      var rest := Wave(flow, ss, k + 1);
      forall i | 0 <= i < |rest| ensures rest[i].name != flow.steps[k].name {
        assert rest[i] in rest;
      }
    }
  }

  lemma {:induction false} WaveUpdatesTail(inp: Input, wave: seq<Step>, view: View)
    requires wave != []
    ensures var updates := WaveUpdates(inp, wave, view);
      && updates != [] && updates[0] == ActStatus(inp, wave[0], view)
      && updates[1..] == WaveUpdates(inp, wave[1..], view)
  {}

  lemma {:induction false} WaveUpdatesEmpty(inp: Input, view: View)
    ensures WaveUpdates(inp, [], view) == []
  {}

  lemma {:induction false} ActLegal(flow: Flow, inp: Input, step: Step, view: View, ss: seq<StepStatus>)
    requires UniqueNames(flow) && step in flow.steps && step.action.Io?
    requires DependenciesMet(flow, step, ss) && Find(ss, step.name).None?
    ensures Legal(flow, ss, ActStatus(inp, step, view))
  {
    FindStepUnique(flow, step);
  }

  lemma {:induction false} WaveLegal(flow: Flow, inp: Input, wave: seq<Step>, view: View, ss: seq<StepStatus>)
    requires UniqueNames(flow) && Topological(flow, ss)
    requires forall step | step in wave ::
      step in flow.steps && step.action.Io? && DependenciesMet(flow, step, ss) && Find(ss, step.name).None?
    requires DistinctSteps(wave)
    ensures LegalAll(flow, ss, WaveUpdates(inp, wave, view))
    decreases |wave|
  {
    hide WaveUpdates, DependenciesMet;
    if wave != [] {
      var u := ActStatus(inp, wave[0], view);
      ActLegal(flow, inp, wave[0], view, ss);
      LegalKeepsOrder(flow, ss, u);
      UpsertGrows(flow, ss, u);
      forall step | step in wave[1..]
        ensures step in flow.steps && step.action.Io?
        ensures DependenciesMet(flow, step, Upsert(ss, u)) && Find(Upsert(ss, u), step.name).None?
      {
        MetGrows(flow, step, ss, Upsert(ss, u));
        FindUpsert(ss, u, step.name);
      }
      WaveLegal(flow, inp, wave[1..], view, Upsert(ss, u));
      WaveUpdatesTail(inp, wave, view);
    } else {
      assert WaveUpdates(inp, [], view) == [] by { WaveUpdatesEmpty(inp, view); }
    }
  }

  // ---- A fatal failure is on record before the run is failed for it ----

  lemma {:induction false} FatalIfRecorded(flow: Flow, ss: seq<StepStatus>, step: Step)
    requires step in flow.steps && !StepTolerated(flow, step)
    requires Find(ss, step.name).Some? && Find(ss, step.name).value.phase == StepPhase.Failed
    ensures HasFatalFailure(flow, ss)
  {
    assert Find(ss, step.name).value in ss;
  }

  lemma {:induction false} InlineFailureRecorded(flow: Flow, inp: Input, ss: seq<StepStatus>, k: nat)
    ensures var r := InlineScan(flow, inp, ss, k);
      r.stop.WhenFailed? ==>
        var s := Find(UpsertAll(ss, r.updates), flow.steps[r.stop.index].name);
        s.Some? && s.value.phase == StepPhase.Failed
    decreases |flow.steps| - k
  {
    hide DependenciesMet, Fresh, InlineVerdict, Upsert, Find;
    if k < |flow.steps| {
      var step := flow.steps[k];
      if !DependenciesMet(flow, step, ss) || !Fresh(ss, step.name) {
        InlineFailureRecorded(flow, inp, ss, k + 1);
      } else {
        match InlineVerdict(inp, step, ss) {
          case Yes => InlineFailureRecorded(flow, inp, ss, k + 1);
          case No =>
            var u := SkippedStatus(step.name, inp.now);
            InlineFailureRecorded(flow, inp, Upsert(ss, u), k + 1);
            var rest := InlineScan(flow, inp, Upsert(ss, u), k + 1).updates;
            assert ([u] + rest)[0] == u && ([u] + rest)[1..] == rest;
          case Error =>
            var u := FailedStatus(step.name, inp.now);
            FindUpsert(ss, u, step.name);
            assert [u][1..] == [];
        }
      }
    }
  }

  lemma {:induction false} UpsertAllOther(ss: seq<StepStatus>, updates: seq<StepStatus>, name: string)
    requires forall u | u in updates :: u.name != name
    ensures Find(UpsertAll(ss, updates), name) == Find(ss, name)
    decreases |updates|
  {
    hide Upsert, Find;
    if updates != [] {
      FindUpsert(ss, updates[0], name);
      UpsertAllOther(Upsert(ss, updates[0]), updates[1..], name);
    }
  }

  lemma {:induction false} UpsertAllFinds(ss: seq<StepStatus>, updates: seq<StepStatus>, i: nat)
    requires Distinct(updates) && i < |updates|
    ensures Find(UpsertAll(ss, updates), updates[i].name) == Some(updates[i])
    decreases |updates|
  {
    hide Upsert, Find;
    if i == 0 {
      FindUpsert(ss, updates[0], updates[0].name);
      UpsertAllOther(Upsert(ss, updates[0]), updates[1..], updates[0].name);
    } else {
      UpsertAllFinds(Upsert(ss, updates[0]), updates[1..], i - 1);
    }
  }

  lemma {:induction false} WaveFailureRecorded(flow: Flow, inp: Input, wave: seq<Step>, view: View, ss: seq<StepStatus>)
    requires DistinctSteps(wave) && (forall step | step in wave :: step in flow.steps)
    requires Fatal(flow, wave, WaveUpdates(inp, wave, view))
    ensures HasFatalFailure(flow, UpsertAll(ss, WaveUpdates(inp, wave, view)))
  {
    hide ActStatus, Find, UpsertAll;
    var updates := WaveUpdates(inp, wave, view);
    var i :| 0 <= i < |wave| && updates[i].phase == StepPhase.Failed && !StepTolerated(flow, wave[i]);
    assert updates[i].name == wave[i].name && wave[i] in wave;
    UpsertAllFinds(ss, updates, i);
    FatalIfRecorded(flow, UpsertAll(ss, updates), wave[i]);
  }

  // ---- Success ----

  /** Everything that could run has settled and every failure is tolerated. */
  ghost predicate Complete(flow: Flow, ss: seq<StepStatus>) {
    && Closed(flow, Names(ss))
    && forall s | s in ss :: Settled(s.phase) && (s.phase == StepPhase.Failed ==> Tolerated(flow, s.name))
  }

  lemma {:induction false} NoFatalTolerated(flow: Flow, ss: seq<StepStatus>, s: StepStatus)
    requires Topological(flow, ss) && !HasFatalFailure(flow, ss)
    requires s in ss && s.phase == StepPhase.Failed
    ensures Tolerated(flow, s.name)
  {
    var i :| 0 <= i < |ss| && ss[i] == s;
    assert Recorded(flow, ss, i);
    var step := FindStep(flow.steps, s.name).value;
    assert StepTolerated(flow, step);
  }

  lemma {:induction false} SettledComplete(flow: Flow, ss: seq<StepStatus>)
    requires Topological(flow, ss) && AllSettled(flow, ss) && !HasFatalFailure(flow, ss)
    ensures Complete(flow, ss)
  {
    forall s | s in ss ensures Settled(s.phase) && (s.phase == StepPhase.Failed ==> Tolerated(flow, s.name)) {
      var i :| 0 <= i < |ss| && ss[i] == s;
      assert Recorded(flow, ss, i);
      DistinctFind(ss, i);
      if s.phase == StepPhase.Failed { NoFatalTolerated(flow, ss, s); }
    }
  }

  lemma {:induction false} QuietComplete(flow: Flow, ss: seq<StepStatus>)
    requires Topological(flow, ss) && Wave(flow, ss, 0) == []
    requires !AnyRunning(flow, ss) && !HasFatalFailure(flow, ss)
    ensures Complete(flow, ss)
  {
    forall s | s in ss ensures Settled(s.phase) && (s.phase == StepPhase.Failed ==> Tolerated(flow, s.name)) {
      var i :| 0 <= i < |ss| && ss[i] == s;
      assert Recorded(flow, ss, i);
      DistinctFind(ss, i);
      assert FindStep(flow.steps, s.name).value in flow.steps;
      if s.phase == StepPhase.Failed { NoFatalTolerated(flow, ss, s); }
    }
    forall step | step in flow.steps && DepsWithin(step, Names(ss)) ensures step.name in Names(ss) {
      forall d | d in step.runAfter ensures DependencyMet(flow, ss, d) {
        assert Find(ss, d).Some?;
      }
      assert !Eligible(flow, step, ss);
      assert Find(ss, step.name).Some?;
    }
  }

  // ---- Invariant of every stored version, and the edge between two versions ----

  ghost predicate RunInv(flow: Flow, st: RunStatus) {
    && Topological(flow, st.steps)
    && (NotStarted(st.phase) ==> st.steps == [] && st.startTime.None? && st.completionTime.None?)
    && (st.phase == RunPhase.Running ==> st.startTime.Some? && st.completionTime.None?)
    && (Terminal(st.phase) ==> st.completionTime.Some?)
    && (st.phase == RunPhase.Succeeded ==> Complete(flow, st.steps))
  }

  predicate PhaseEdge(a: RunPhase, b: RunPhase) {
    || a == b
    || (NotStarted(a) && (b == RunPhase.Running || b == RunPhase.Failed))
    || (a == RunPhase.Running && Terminal(b))
  }

  ghost predicate RunEdge(flow: Flow, a: RunStatus, b: RunStatus) {
    && PhaseEdge(a.phase, b.phase)
    && (Terminal(a.phase) ==> b == a)
    && (a.startTime.Some? ==> b.startTime == a.startTime)
    && Grows(a.steps, b.steps)
    && Progress(flow, a.steps, b.steps)
  }

  /** What a worker knows of its object at each place. */
  predicate PcOk(flow: Flow, st: RunStatus, pc: Pc) {
    match pc
    case Start => true
    case Begin => NotStarted(st.phase)
    case Body => st.phase == RunPhase.Running
    case Inline(_) => st.phase == RunPhase.Running
    case FailNow => st.phase == RunPhase.Running && HasFatalFailure(flow, st.steps)
    case Orphan => st.phase == RunPhase.Running
    case Label => Terminal(st.phase)
    case Stop => true
  }

  ghost predicate GoodCall(flow: Flow, run: FlowRun, call: ApiCall) {
    match call
    case PutStatus(st, next) => RunInv(flow, st) && RunEdge(flow, run.status, st) && PcOk(flow, st, next)
    case PutMeta(_, next) => PcOk(flow, run.status, next)
    case Return => true
  }

  lemma {:induction false} SameSteps(flow: Flow, ss: seq<StepStatus>)
    ensures Grows(ss, ss) && Progress(flow, ss, ss)
  {
    forall n: string ensures StepEdge(Find(ss, n), Find(ss, n)) {}
  }

  lemma {:induction false} StepsGood(flow: Flow, st: RunStatus, updates: seq<StepStatus>)
    requires RunInv(flow, st) && st.phase == RunPhase.Running && LegalAll(flow, st.steps, updates)
    ensures var st' := st.(steps := UpsertAll(st.steps, updates));
            RunInv(flow, st') && RunEdge(flow, st, st')
  {
    LegalAllKeeps(flow, st.steps, updates);
  }

  lemma {:induction false} VerdictGood(flow: Flow, inp: Input, run: FlowRun)
    requires RunInv(flow, run.status) && run.status.phase == RunPhase.Running
    requires var ss := run.status.steps; AllSettled(flow, ss) || (Wave(flow, ss, 0) == [] && !AnyRunning(flow, ss))
    ensures GoodCall(flow, run, FinalVerdict(flow, inp, run.status))
  {
    var ss := run.status.steps;
    SameSteps(flow, ss);
    if !HasFatalFailure(flow, ss) {
      if AllSettled(flow, ss) { SettledComplete(flow, ss); } else { QuietComplete(flow, ss); }
    }
  }

  lemma {:induction false} WaveGood(flow: Flow, inp: Input, run: FlowRun)
    requires UniqueNames(flow) && RunInv(flow, run.status) && run.status.phase == RunPhase.Running
    ensures GoodCall(flow, run, WaveSegment(flow, inp, run.status))
  {
    var st := run.status;
    var wave := Wave(flow, st.steps, 0);
    if wave == [] {
      if !AnyRunning(flow, st.steps) { VerdictGood(flow, inp, run); }
    } else {
      match FirstWait(wave) {
        case Some(step) =>
          var u := WaitUpdate(inp.now, step, st.steps);
          WaitLegal(flow, inp.now, step, st.steps);
          assert LegalAll(flow, st.steps, [u]);
          assert UpsertAll(st.steps, [u]) == Upsert(st.steps, u);
          StepsGood(flow, st, [u]);
          FindUpsert(st.steps, u, step.name);
          if u.phase == StepPhase.Failed && !StepTolerated(flow, step) {
            FatalIfRecorded(flow, Upsert(st.steps, u), step);
          }
        case None =>
          WaveDistinct(flow, st.steps, 0);
          forall step | step in wave ensures Find(st.steps, step.name).None? {
            FreshIsAbsent(flow, st.steps, step.name);
          }
          var view := ViewOf(st.steps);
          WaveLegal(flow, inp, wave, view, st.steps);
          StepsGood(flow, st, WaveUpdates(inp, wave, view));
          if Fatal(flow, wave, WaveUpdates(inp, wave, view)) {
            WaveFailureRecorded(flow, inp, wave, view, st.steps);
          }
      }
    }
  }

  lemma {:induction false} InlineGood(flow: Flow, inp: Input, run: FlowRun, from: nat, skipped: bool)
    requires UniqueNames(flow) && RunInv(flow, run.status) && run.status.phase == RunPhase.Running
    ensures GoodCall(flow, run, InlineSegment(flow, inp, run.status, from, skipped))
  {
    hide HasFatalFailure, InlineScan, UpsertAll, WaveSegment, RunEdge, Topological, Complete;
    var r := InlineScan(flow, inp, run.status.steps, from);
    InlineLegal(flow, inp, run.status.steps, from);
    StepsGood(flow, run.status, r.updates);
    InlineFailureRecorded(flow, inp, run.status.steps, from);
    if r.stop.WhenFailed? && !StepTolerated(flow, flow.steps[r.stop.index]) {
      FatalIfRecorded(flow, UpsertAll(run.status.steps, r.updates), flow.steps[r.stop.index]);
    }
    WaveGood(flow, inp, run);
  }

  lemma {:induction false} FinishGood(flow: Flow, run: FlowRun, phase: RunPhase, now: Time)
    requires RunInv(flow, run.status)
    requires (run.status.phase == RunPhase.Running && (phase == RunPhase.Failed || phase == RunPhase.Cancelled))
          || (NotStarted(run.status.phase) && phase == RunPhase.Failed)
    ensures GoodCall(flow, run, Finish(run.status, phase, now))
  {
    SameSteps(flow, run.status.steps);
  }

  lemma {:induction false} BodyGood(flow: Flow, inp: Input, run: FlowRun)
    requires UniqueNames(flow) && RunInv(flow, run.status) && run.status.phase == RunPhase.Running
    ensures GoodCall(flow, run, BodySegment(flow, inp, run.status))
  {
    if TimedOut(inp, run.status) || !inp.paramsResolve {
      FinishGood(flow, run, RunPhase.Failed, inp.now);
    } else if AllSettled(flow, run.status.steps) {
      VerdictGood(flow, inp, run);
    } else {
      InlineGood(flow, inp, run, 0, false);
    }
  }

  lemma {:induction false} BeginGood(flow: Flow, run: FlowRun, now: Time)
    requires RunInv(flow, run.status) && NotStarted(run.status.phase)
    ensures GoodCall(flow, run, BeginRunning(run.status, now))
  {
    SameSteps(flow, run.status.steps);
  }

  lemma {:induction false} StartGood(flow: Flow, inp: Input, run: FlowRun)
    requires UniqueNames(flow) && RunInv(flow, run.status)
    ensures GoodCall(flow, run, StartSegment(flow, inp, run))
  {
    if run.status.phase == RunPhase.Running {
      FinishGood(flow, run, RunPhase.Cancelled, inp.now);
      FinishGood(flow, run, RunPhase.Failed, inp.now);
      BodyGood(flow, inp, run);
    } else if NotStarted(run.status.phase) {
      FinishGood(flow, run, RunPhase.Failed, inp.now);
      BeginGood(flow, run, inp.now);
    }
  }

  /** Every write the engine issues is a legal edge to a state that again
      satisfies the invariant, whatever the inputs. */
  lemma {:induction false} SegmentGood(flow: Flow, inp: Input, run: FlowRun, pc: Pc)
    requires UniqueNames(flow) && RunInv(flow, run.status) && PcOk(flow, run.status, pc)
    ensures GoodCall(flow, run, Segment(flow, inp, run, pc))
  {
    match pc {
      case Start => StartGood(flow, inp, run);
      case Begin => BeginGood(flow, run, inp.now);
      case Body => BodyGood(flow, inp, run);
      case Inline(k) => InlineGood(flow, inp, run, k, true);
      case FailNow => FinishGood(flow, run, RunPhase.Failed, inp.now);
      case Orphan => FinishGood(flow, run, RunPhase.Failed, inp.now);
      case Label =>
      case Stop =>
    }
  }

  /** A reason outside the steps for failing a run. */
  predicate ExternalCause(inp: Input, st: RunStatus) {
    inp.flowRead.NotFound? || !inp.paramsResolve || TimedOut(inp, st)
  }

  /** A run is failed only for a recorded fatal failure or an outside cause, cancelled
      only on request, and never succeeds over a fatal failure. */
  ghost predicate Justified(flow: Flow, inp: Input, run: FlowRun, pc: Pc, call: ApiCall) {
    call.PutStatus? && call.status.phase != run.status.phase ==>
      match call.status.phase
      case Failed => HasFatalFailure(flow, call.status.steps) || ExternalCause(inp, run.status) || pc.Orphan?
      case Cancelled => run.meta.deleting || run.meta.cancelRequested
      case Succeeded => !HasFatalFailure(flow, call.status.steps)
      case _ => true
  }

  lemma {:induction false} WaveJustified(flow: Flow, inp: Input, run: FlowRun, pc: Pc)
    requires run.status.phase == RunPhase.Running
    ensures Justified(flow, inp, run, pc, WaveSegment(flow, inp, run.status))
  {
    hide Wave, FirstWait, WaitUpdate, WaveUpdates, Fatal, HasFatalFailure, UpsertAll, Upsert, AnyRunning;
  }

  lemma {:induction false} SegmentJustified(flow: Flow, inp: Input, run: FlowRun, pc: Pc)
    requires PcOk(flow, run.status, pc)
    ensures Justified(flow, inp, run, pc, Segment(flow, inp, run, pc))
  {
    hide WaveSegment, HasFatalFailure, UpsertAll, AllSettled, InlineScan;
    if run.status.phase == RunPhase.Running { WaveJustified(flow, inp, run, pc); }
  }
}
