/** Reconcile as it runs: loops over the spec and the recorded list that rewrite
    the worker's own copy in place, each proved to compute the segment the
    protocol model is about. */
module Reconciler {
  import opened Common
  import opened Flows
  import opened Engine

  // ---- The inline pass, stopped before index i ----

  /** The updates of the whole pass are those recorded so far followed by those of
      the rest of the pass. */
  ghost predicate Scanned(flow: Flow, inp: Input, before: seq<StepStatus>, from: nat,
                          done: seq<StepStatus>, ss: seq<StepStatus>, i: nat)
  {
    var rest := InlineScan(flow, inp, ss, i);
    && ss == UpsertAll(before, done)
    && InlineScan(flow, inp, before, from) == InlineResult(done + rest.updates, rest.stop)
  }

  lemma {:induction false} ScanStarts(flow: Flow, inp: Input, before: seq<StepStatus>, from: nat)
    ensures Scanned(flow, inp, before, from, [], before, from)
  {
    hide InlineScan;
    var r := InlineScan(flow, inp, before, from);
    assert [] + r.updates == r.updates;
  }

  lemma {:induction false} ScanPasses(flow: Flow, inp: Input, before: seq<StepStatus>, from: nat,
                   done: seq<StepStatus>, ss: seq<StepStatus>, i: nat)
    requires i < |flow.steps| && Scanned(flow, inp, before, from, done, ss, i)
    requires var step := flow.steps[i];
      DependenciesMet(flow, step, ss) && Fresh(ss, step.name) ==> InlineVerdict(inp, step, ss) == Yes
    ensures Scanned(flow, inp, before, from, done, ss, i + 1)
  {
    hide DependenciesMet, Fresh, InlineVerdict, UpsertAll;
    assert InlineScan(flow, inp, ss, i) == InlineScan(flow, inp, ss, i + 1);
  }

  lemma {:induction false} ScanSkips(flow: Flow, inp: Input, before: seq<StepStatus>, from: nat,
                  done: seq<StepStatus>, ss: seq<StepStatus>, i: nat)
    requires i < |flow.steps| && Scanned(flow, inp, before, from, done, ss, i)
    requires var step := flow.steps[i];
      DependenciesMet(flow, step, ss) && Fresh(ss, step.name) && InlineVerdict(inp, step, ss) == No
    ensures var u := SkippedStatus(flow.steps[i].name, inp.now);
      Scanned(flow, inp, before, from, done + [u], Upsert(ss, u), i + 1)
  {
    hide DependenciesMet, Fresh, InlineVerdict, UpsertAll, Upsert, SkippedStatus;
    var u := SkippedStatus(flow.steps[i].name, inp.now);
    UpsertAllAppend(before, done, u);
    var rest := InlineScan(flow, inp, Upsert(ss, u), i + 1);
    assert InlineScan(flow, inp, ss, i) == InlineResult([u] + rest.updates, rest.stop);
    assert done + ([u] + rest.updates) == (done + [u]) + rest.updates;
  }

  lemma {:induction false} ScanFails(flow: Flow, inp: Input, before: seq<StepStatus>, from: nat,
                  done: seq<StepStatus>, ss: seq<StepStatus>, i: nat)
    requires i < |flow.steps| && Scanned(flow, inp, before, from, done, ss, i)
    requires var step := flow.steps[i];
      DependenciesMet(flow, step, ss) && Fresh(ss, step.name) && InlineVerdict(inp, step, ss) == Error
    ensures var u := FailedStatus(flow.steps[i].name, inp.now);
      && InlineScan(flow, inp, before, from) == InlineResult(done + [u], WhenFailed(i))
      && Upsert(ss, u) == UpsertAll(before, done + [u])
  {
    hide DependenciesMet, Fresh, InlineVerdict, UpsertAll, Upsert, FailedStatus;
    var u := FailedStatus(flow.steps[i].name, inp.now);
    UpsertAllAppend(before, done, u);
    assert InlineScan(flow, inp, ss, i) == InlineResult([u], WhenFailed(i));
  }

  lemma {:induction false} ScanEnds(flow: Flow, inp: Input, before: seq<StepStatus>, from: nat,
                 done: seq<StepStatus>, ss: seq<StepStatus>, i: nat)
    requires i >= |flow.steps| && Scanned(flow, inp, before, from, done, ss, i)
    ensures InlineScan(flow, inp, before, from) == InlineResult(done, Completed)
    ensures ss == UpsertAll(before, done)
  {
    assert InlineScan(flow, inp, ss, i) == InlineResult([], Completed);
    assert done + [] == done;
  }

  lemma {:induction false} WaveStep(flow: Flow, ss: seq<StepStatus>, i: nat)
    ensures Wave(flow, ss, i) ==
      if i >= |flow.steps| then []
      else (if Eligible(flow, flow.steps[i], ss) then [flow.steps[i]] else []) + Wave(flow, ss, i + 1)
  {
    hide Eligible;
    assert i < |flow.steps| ==> [] + Wave(flow, ss, i + 1) == Wave(flow, ss, i + 1);
  }

  /** A worker's local copy of the FlowRun. */
  class LocalRun {
    var meta: Meta
    var phase: RunPhase
    var startTime: Option<Time>
    var completionTime: Option<Time>
    var steps: seq<StepStatus>

    constructor (run: FlowRun)
      ensures Value() == run
    {
      meta, phase := run.meta, run.status.phase;
      startTime, completionTime, steps := run.status.startTime, run.status.completionTime, run.status.steps;
    }

    function Status(): RunStatus
      reads this
    {
      RunStatus(phase, startTime, completionTime, steps)
    }

    function Value(): FlowRun
      reads this
    {
      FlowRun(meta, Status())
    }

    method UpsertStepStatus(s: StepStatus)
      modifies this`steps
      ensures steps == Upsert(old(steps), s)
    {
      for i := 0 to |steps|
        invariant steps == old(steps)
        invariant forall j | 0 <= j < i :: steps[j].name != s.name
      {
        if steps[i].name == s.name {
          assert IndexOf(steps, s.name) == i;
          steps := steps[i := s];
          return;
        }
      }
      assert IndexOf(steps, s.name) == |steps|;
      steps := steps + [s];
    }

    /** Cascade skips and `when` verdicts, recorded as they are found. */
    method InlinePass(flow: Flow, inp: Input, from: nat) returns (stop: InlineStop, recorded: bool)
      modifies this`steps
      ensures var r := InlineScan(flow, inp, old(steps), from);
        && steps == UpsertAll(old(steps), r.updates)
        && stop == r.stop
        && recorded == (r.updates != [])
    {
      hide InlineScan, UpsertAll, Upsert, Scanned, DependenciesMet, Fresh, InlineVerdict;
      stop, recorded := Completed, false;
      ghost var before := steps;
      ghost var done: seq<StepStatus> := [];
      ScanStarts(flow, inp, before, from);
      var i := from;
      while i < |flow.steps|
        invariant stop == Completed
        invariant recorded == (done != [])
        invariant Scanned(flow, inp, before, from, done, steps, i)
      {
        var step := flow.steps[i];
        if DependenciesMet(flow, step, steps) && Fresh(steps, step.name) {
          var verdict := InlineVerdict(inp, step, steps);
          if verdict.Error? {
            ScanFails(flow, inp, before, from, done, steps, i);
            UpsertStepStatus(FailedStatus(step.name, inp.now));
            return WhenFailed(i), true;
          }
          if verdict.No? {
            var u := SkippedStatus(step.name, inp.now);
            ScanSkips(flow, inp, before, from, done, steps, i);
            UpsertStepStatus(u);
            recorded, done := true, done + [u];
          } else {
            ScanPasses(flow, inp, before, from, done, steps, i);
          }
        } else {
          ScanPasses(flow, inp, before, from, done, steps, i);
        }
        i := i + 1;
      }
      ScanEnds(flow, inp, before, from, done, steps, i);
    }

    method CollectWave(flow: Flow) returns (wave: seq<Step>)
      ensures wave == Wave(flow, steps, 0)
    {
      hide Wave, Eligible;
      wave := [];
      assert [] + Wave(flow, steps, 0) == Wave(flow, steps, 0);
      for i := 0 to |flow.steps|
        invariant wave + Wave(flow, steps, i) == Wave(flow, steps, 0)
      {
        WaveStep(flow, steps, i);
        if Eligible(flow, flow.steps[i], steps) {
          assert wave + Wave(flow, steps, i) == (wave + [flow.steps[i]]) + Wave(flow, steps, i + 1);
          wave := wave + [flow.steps[i]];
        }
      }
      WaveStep(flow, steps, |flow.steps|);
      assert wave + [] == wave;
    }

    /** One pass over the spec: is everything settled, is anything still running. */
    method Survey(flow: Flow) returns (allSettled: bool, anyRunning: bool)
      ensures allSettled == AllSettled(flow, steps)
      ensures anyRunning == AnyRunning(flow, steps)
    {
      allSettled, anyRunning := true, false;
      for i := 0 to |flow.steps|
        invariant allSettled <==> forall j | 0 <= j < i ::
          var s := Find(steps, flow.steps[j].name); s.Some? && Settled(s.value.phase)
        invariant anyRunning <==> exists j | 0 <= j < i ::
          var s := Find(steps, flow.steps[j].name);
          s.Some? && (s.value.phase == StepPhase.Running || s.value.phase == StepPhase.Waiting)
      {
        var s := Find(steps, flow.steps[i].name);
        if s.None? || !Settled(s.value.phase) { allSettled := false; }
        if s.Some? && (s.value.phase == StepPhase.Running || s.value.phase == StepPhase.Waiting) { anyRunning := true; }
      }
      assert AllSettled(flow, steps) ==> forall j | 0 <= j < |flow.steps| :: flow.steps[j] in flow.steps;
    }

    method Conclude(flow: Flow, inp: Input) returns (call: ApiCall)
      modifies this`phase, this`completionTime
      ensures call == FinalVerdict(flow, inp, old(Status()))
      ensures call.PutStatus? && Status() == call.status
    {
      for i := 0 to |steps|
        invariant forall j | 0 <= j < i :: steps[j].phase == StepPhase.Failed ==>
          forall step | step in flow.steps :: step.name == steps[j].name ==> StepTolerated(flow, step)
      {
        if steps[i].phase == StepPhase.Failed {
          for k := 0 to |flow.steps|
            invariant forall l | 0 <= l < k ::
              flow.steps[l].name == steps[i].name ==> StepTolerated(flow, flow.steps[l])
          {
            if flow.steps[k].name == steps[i].name && !StepTolerated(flow, flow.steps[k]) {
              assert steps[i] in steps && flow.steps[k] in flow.steps;
              call := FinishRun(RunPhase.Failed, inp.now);
              return;
            }
          }
        }
      }
      assert !HasFatalFailure(flow, steps);
      call := FinishRun(RunPhase.Succeeded, inp.now);
    }

    method FinishRun(to: RunPhase, now: Time) returns (call: ApiCall)
      modifies this`phase, this`completionTime
      ensures call == Finish(old(Status()), to, now)
      ensures call.PutStatus? && Status() == call.status
    {
      phase, completionTime := to, Some(Persisted(now));
      call := PutStatus(Status(), Label);
    }

    /** Runs a wave without wait steps: all outcomes first, then one batched update. */
    method RunWave(flow: Flow, inp: Input, wave: seq<Step>) returns (call: ApiCall)
      requires wave != []
      modifies this`steps
      ensures call == if exists step | step in wave :: inp.unreachable(step) then Return
                      else var updates := WaveUpdates(inp, wave, ViewOf(old(steps)));
                        PutStatus(old(Status()).(steps := UpsertAll(old(steps), updates)),
                                  if Fatal(flow, wave, updates) then FailNow else Stop)
      ensures Status() == if call.PutStatus? then call.status else old(Status())
    {
      hide Upsert, ViewOf, ActStatus;
      var view := ViewOf(steps);
      var results := new StepStatus[|wave|](i requires 0 <= i < |wave| => ActStatus(inp, wave[i], view));
      var transport := false;
      for i := 0 to |wave|
        invariant transport <==> exists j | 0 <= j < i :: inp.unreachable(wave[j])
      {
        if inp.unreachable(wave[i]) { transport := true; }
      }
      if transport { return Return; }
      ghost var before := steps;
      var fatal := false;
      for i := 0 to |wave|
        invariant results[..] == WaveUpdates(inp, wave, view)
        invariant steps == UpsertAll(before, results[..i])
        invariant fatal <==>
          exists j | 0 <= j < i :: results[j].phase == StepPhase.Failed && !StepTolerated(flow, wave[j])
      {
        UpsertAllAppend(before, results[..i], results[i]);
        assert results[..i + 1] == results[..i] + [results[i]];
        UpsertStepStatus(results[i]);
        if results[i].phase == StepPhase.Failed && !StepTolerated(flow, wave[i]) { fatal := true; }
      }
      assert results[..|wave|] == results[..];
      call := PutStatus(Status(), if fatal then FailNow else Stop);
    }

    method WavePass(flow: Flow, inp: Input, anyRunning: bool) returns (call: ApiCall)
      requires anyRunning == AnyRunning(flow, steps)
      modifies this`steps, this`phase, this`completionTime
      ensures call == WaveSegment(flow, inp, old(Status()))
      ensures Status() == if call.PutStatus? then call.status else old(Status())
    {
      var wave := CollectWave(flow);
      if wave == [] {
        if anyRunning { return Return; }
        call := Conclude(flow, inp);
        return;
      }
      for i := 0 to |wave|
        invariant steps == old(steps)
        invariant FirstWait(wave) == FirstWait(wave[i..])
      {
        var step := wave[i];
        assert wave[i..][1..] == wave[i + 1..];
        if step.action.Wait? {
          var u := WaitUpdate(inp.now, step, steps);
          UpsertStepStatus(u);
          var fatal := u.phase == StepPhase.Failed && !StepTolerated(flow, step);
          call := PutStatus(Status(), if fatal then FailNow else Stop);
          return;
        }
      }
      call := RunWave(flow, inp, wave);
    }

    method InlineThenWave(flow: Flow, inp: Input, from: nat, skippedBefore: bool, anyRunning: bool)
      returns (call: ApiCall)
      requires !skippedBefore ==> anyRunning == AnyRunning(flow, steps)
      modifies this`steps, this`phase, this`completionTime
      ensures call == InlineSegment(flow, inp, old(Status()), from, skippedBefore)
      ensures Status() == if call.PutStatus? then call.status else old(Status())
    {
      hide InlineScan, WaveSegment, AnyRunning, Upsert;
      var stop, recorded := InlinePass(flow, inp, from);
      match stop {
        case WhenFailed(k) =>
          call := PutStatus(Status(), if StepTolerated(flow, flow.steps[k]) then Inline(k + 1) else FailNow);
        case Completed =>
          if skippedBefore || recorded {
            call := PutStatus(Status(), Stop);
          } else {
            call := WavePass(flow, inp, anyRunning);
          }
      }
    }

    method ProcessBody(flow: Flow, inp: Input) returns (call: ApiCall)
      modifies this`steps, this`phase, this`completionTime
      ensures call == BodySegment(flow, inp, old(Status()))
      ensures Status() == if call.PutStatus? then call.status else old(Status())
    {
      if TimedOut(inp, Status()) || !inp.paramsResolve {
        call := FinishRun(RunPhase.Failed, inp.now);
        return;
      }
      var allSettled, anyRunning := Survey(flow);
      if allSettled {
        call := Conclude(flow, inp);
      } else {
        call := InlineThenWave(flow, inp, 0, false, anyRunning);
      }
    }

    method StartRunning(inp: Input) returns (call: ApiCall)
      modifies this`phase, this`startTime
      ensures call == BeginRunning(old(Status()), inp.now)
      ensures call.PutStatus? && Status() == call.status
    {
      phase, startTime := RunPhase.Running, Some(Persisted(inp.now));
      call := PutStatus(Status(), Body);
    }

    method Begin(flow: Flow, inp: Input) returns (call: ApiCall)
      modifies this
      ensures call == StartSegment(flow, inp, old(Value()))
      ensures Value() == Stored(old(Value()), call)
    {
      if phase == RunPhase.Running && (meta.deleting || meta.cancelRequested) {
        call := FinishRun(RunPhase.Cancelled, inp.now);
      } else if Terminal(phase) {
        call := Return;
      } else {
        match inp.flowRead {
          case NotFound => call := FinishRun(RunPhase.Failed, inp.now);
          case ReadError => call := Return;
          case Found =>
            if !NotStarted(phase) {
              call := ProcessBody(flow, inp);
            } else if !meta.finalizer {
              meta := meta.(finalizer := true);
              call := PutMeta(meta, Pc.Begin);
            } else {
              call := StartRunning(inp);
            }
        }
      }
    }

    /** Runs from one API call to the next and leaves the copy as the server will
        return it. */
    method Advance(flow: Flow, inp: Input, pc: Pc) returns (call: ApiCall)
      modifies this
      ensures call == Segment(flow, inp, old(Value()), pc)
      ensures Value() == Stored(old(Value()), call)
    {
      match pc {
        case Start => call := Begin(flow, inp);
        case Begin => call := StartRunning(inp);
        case Body => call := ProcessBody(flow, inp);
        case Inline(k) => call := InlineThenWave(flow, inp, k, true, false);
        case FailNow => call := FinishRun(RunPhase.Failed, inp.now);
        case Orphan => call := FinishRun(RunPhase.Failed, inp.now);
        case Label =>
          meta := meta.(phaseLabel := Some(phase), finalizer := false);
          call := PutMeta(meta, Pc.Stop);
        case Stop => call := Return;
      }
    }
  }
}
