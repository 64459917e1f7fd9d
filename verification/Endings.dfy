/** Undisturbed reconciles are runs of the cluster, so every Flow has runs that end,
    and they end in its meaning. */
module Endings {
  import opened Common
  import opened Flows
  import opened Engine
  import opened RunSafety
  import opened Cluster
  import opened Outcomes
  import opened Progress
  import opened Semantics

  lemma {:induction false} RunConcat(flow: Flow, c: State, a: seq<Event>, b: seq<Event>)
    ensures Run(flow, c, a + b) == Run(flow, Run(flow, c, a), b)
    decreases |a|
  {
    hide Next;
    if a == [] {
      assert a + b == b;
    } else {
      assert (a + b)[1..] == a[1..] + b;
      RunConcat(flow, Next(flow, c, a[0]), a[1..], b);
    }
  }

  /** The events of one worker going through a reconcile alone. */
  ghost function SoloEvents(flow: Flow, inp: Pc -> Input, run: FlowRun, pc: Pc, w: nat): seq<Event>
    decreases PcRank(flow, pc)
  {
    var call := Segment(flow, inp(pc), run, pc);
    SegmentForward(flow, inp(pc), run, pc);
    [Advance(w, inp(pc))] + (if call.Return? then [] else SoloEvents(flow, inp, Stored(run, call), call.next, w))
  }

  /** Worker w holds the newest version of a live object. */
  predicate Holds(c: State, w: nat, pc: Pc) {
    c.live && w in c.workers && c.workers[w].version + 1 == |c.history| && c.workers[w].pc == pc
  }

  lemma {:induction false} SoloIsRun(flow: Flow, inp: Pc -> Input, c: State, pc: Pc, w: nat)
    requires Holds(c, w, pc)
    ensures var t := Run(flow, c, SoloEvents(flow, inp, Latest(c), pc, w));
      && t.live && t.history != [] && t.workers == c.workers - {w}
      && Latest(t) == Solo(flow, inp, Latest(c), pc)
    decreases PcRank(flow, pc)
  {
    hide Segment;
    var run := Latest(c);
    var call := Segment(flow, inp(pc), run, pc);
    SegmentForward(flow, inp(pc), run, pc);
    var n := Next(flow, c, Advance(w, inp(pc)));
    assert n == Issue(flow, c, w, inp(pc));
    var rest := if call.Return? then [] else SoloEvents(flow, inp, Stored(run, call), call.next, w);
    assert ([Advance(w, inp(pc))] + rest)[1..] == rest;
    if !call.Return? {
      assert n.workers - {w} == c.workers - {w};
      SoloIsRun(flow, inp, n, call.next, w);
    }
  }

  ghost function ReconcileEvents(flow: Flow, inp: Pc -> Input, c: State): seq<Event>
    requires c.history != []
  {
    [Read(0, |c.history| - 1)] + SoloEvents(flow, inp, Latest(c), Start, 0)
  }

  lemma {:induction false} ReconcileIsRun(flow: Flow, inp: Pc -> Input, c: State)
    requires c.live && c.history != [] && c.workers == map[]
    ensures var t := Run(flow, c, ReconcileEvents(flow, inp, c));
      t.live && t.history != [] && t.workers == map[] && Latest(t) == Solo(flow, inp, Latest(c), Start)
  {
    hide Solo, SoloEvents;
    var n := Next(flow, c, Read(0, |c.history| - 1));
    var rest := SoloEvents(flow, inp, Latest(c), Start, 0);
    assert ([Read(0, |c.history| - 1)] + rest)[1..] == rest;
    assert Latest(n) == Latest(c) && n.workers - {0} == map[];
    SoloIsRun(flow, inp, n, Start, 0);
  }

  /** One reconcile after the other, each reading the newest version. */
  ghost function ManyEvents(flow: Flow, inps: seq<Pc -> Input>, c: State): seq<Event>
    decreases |inps|
  {
    if inps == [] || c.history == [] then []
    else
      var first := ReconcileEvents(flow, inps[0], c);
      first + ManyEvents(flow, inps[1..], Run(flow, c, first))
  }

  lemma {:induction false} ManyIsRun(flow: Flow, inps: seq<Pc -> Input>, c: State)
    requires c.live && c.history != [] && c.workers == map[]
    ensures var t := Run(flow, c, ManyEvents(flow, inps, c));
      t.history != [] && Latest(t) == SoloMany(flow, inps, Latest(c))
    decreases |inps|
  {
    hide ReconcileEvents, Solo, Run;
    if inps == [] {
      RunNothing(flow, c);
    } else {
      var first := ReconcileEvents(flow, inps[0], c);
      var n := Run(flow, c, first);
      ReconcileIsRun(flow, inps[0], c);
      ManyIsRun(flow, inps[1..], n);
      RunConcat(flow, c, first, ManyEvents(flow, inps[1..], n));
    }
  }

  // ---- Calm inputs that use the oracle ----

  ghost predicate CalmInput(inp: Input, o: Oracle) {
    Uses(inp, o) && !inp.flowRead.NotFound? && inp.paramsResolve && inp.executionTimeout <= 0
  }

  ghost predicate CalmInputs(inp: Pc -> Input, o: Oracle) {
    forall pc: Pc :: CalmInput(inp(pc), o)
  }

  ghost predicate AllCalmInputs(inps: seq<Pc -> Input>, o: Oracle) {
    forall i | 0 <= i < |inps| :: CalmInputs(inps[i], o)
  }

  ghost predicate CalmEvents(events: seq<Event>, o: Oracle) {
    EventsUse(events, o) && AllCalm(events)
  }

  lemma {:induction false} CalmConcat(a: seq<Event>, b: seq<Event>, o: Oracle)
    requires CalmEvents(a, o) && CalmEvents(b, o)
    ensures CalmEvents(a + b, o)
  {
    hide Calm, Uses;
  }

  lemma {:induction false} SoloCalm(flow: Flow, inp: Pc -> Input, run: FlowRun, pc: Pc, w: nat, o: Oracle)
    requires CalmInputs(inp, o)
    ensures CalmEvents(SoloEvents(flow, inp, run, pc, w), o)
    decreases PcRank(flow, pc)
  {
    hide Segment, Uses;
    var call := Segment(flow, inp(pc), run, pc);
    SegmentForward(flow, inp(pc), run, pc);
    assert CalmInput(inp(pc), o);
    var head := [Advance(w, inp(pc))];
    assert CalmEvents(head, o) && CalmEvents([], o);
    if call.Return? {
      CalmConcat(head, [], o);
    } else {
      SoloCalm(flow, inp, Stored(run, call), call.next, w, o);
      CalmConcat(head, SoloEvents(flow, inp, Stored(run, call), call.next, w), o);
    }
  }

  lemma {:induction false} ManyCalm(flow: Flow, inps: seq<Pc -> Input>, c: State, o: Oracle)
    requires AllCalmInputs(inps, o)
    ensures CalmEvents(ManyEvents(flow, inps, c), o)
    decreases |inps|
  {
    hide SoloEvents, CalmInputs, Run;
    if inps != [] && c.history != [] {
      var read := [Read(0, |c.history| - 1)];
      var first := ReconcileEvents(flow, inps[0], c);
      assert CalmEvents(read, o);
      SoloCalm(flow, inps[0], Latest(c), Start, 0, o);
      CalmConcat(read, SoloEvents(flow, inps[0], Latest(c), Start, 0), o);
      ManyCalm(flow, inps[1..], Run(flow, c, first), o);
      CalmConcat(first, ManyEvents(flow, inps[1..], Run(flow, c, first)), o);
    }
  }

  // ---- Nobody cancels ----

  predicate Wanted(run: FlowRun) {
    !run.meta.deleting && !run.meta.cancelRequested && run.status.phase != RunPhase.Cancelled
  }

  lemma {:induction false} StepWanted(flow: Flow, inp: Input, run: FlowRun, pc: Pc)
    requires Wanted(run)
    ensures Wanted(Stored(run, Segment(flow, inp, run, pc)))
  {
    CancelledIffRequested(flow, inp, run, pc);
    MetaKept(flow, inp, run, pc);
    hide Segment;
  }

  lemma {:induction false} MetaKept(flow: Flow, inp: Input, run: FlowRun, pc: Pc)
    ensures var call := Segment(flow, inp, run, pc);
      call.PutMeta? ==> call.meta.deleting == run.meta.deleting && call.meta.cancelRequested == run.meta.cancelRequested
  {
    hide InlineScan, Wave, FirstWait, WaitUpdate, AllSettled, AnyRunning, HasFatalFailure, Fatal, UpsertAll, Upsert,
      ViewOf, StepTolerated;
  }

  lemma {:induction false} SoloWanted(flow: Flow, inp: Pc -> Input, run: FlowRun, pc: Pc)
    requires Wanted(run)
    ensures Wanted(Solo(flow, inp, run, pc))
    decreases PcRank(flow, pc)
  {
    hide Segment;
    var call := Segment(flow, inp(pc), run, pc);
    SegmentForward(flow, inp(pc), run, pc);
    StepWanted(flow, inp(pc), run, pc);
    if !call.Return? { SoloWanted(flow, inp, Stored(run, call), call.next); }
  }

  lemma {:induction false} ManyWanted(flow: Flow, inps: seq<Pc -> Input>, run: FlowRun)
    requires Wanted(run)
    ensures Wanted(SoloMany(flow, inps, run))
    decreases |inps|
  {
    hide Solo;
    if inps != [] {
      SoloWanted(flow, inps[0], run, Start);
      ManyWanted(flow, inps[1..], Solo(flow, inps[0], run, Start));
    }
  }

  // ---- From creation to the end ----

  /** The first reconcile that can read the Flow starts the run. */
  lemma {:induction false} FirstStarts(flow: Flow, inp: Pc -> Input, run: FlowRun)
    requires UniqueNames(flow) && RunInv(flow, run.status) && NotStarted(run.status.phase)
    requires !inp(Start).flowRead.ReadError?
    ensures !NotStarted(Solo(flow, inp, run, Start).status.phase)
  {
    hide RunInv, BodySegment, InlineSegment, Measure;
    var call := Segment(flow, inp(Start), run, Start);
    SegmentGood(flow, inp(Start), run, Start);
    var next := Stored(run, call);
    if call.PutMeta? {
      assert Solo(flow, inp, run, Start) == Solo(flow, inp, next, Begin);
      var begun := Segment(flow, inp(Begin), next, Begin);
      SegmentGood(flow, inp(Begin), next, Begin);
      assert Solo(flow, inp, next, Begin) == Solo(flow, inp, Stored(next, begun), begun.next);
      SoloStays(flow, inp, Stored(next, begun), begun.next);
    } else {
      SoloStays(flow, inp, next, call.next);
    }
  }

  lemma {:induction false} SoloStays(flow: Flow, inp: Pc -> Input, run: FlowRun, pc: Pc)
    requires UniqueNames(flow) && RunInv(flow, run.status) && PcOk(flow, run.status, pc)
    requires !NotStarted(run.status.phase)
    ensures !NotStarted(Solo(flow, inp, run, pc).status.phase)
  {
    SoloKeeps(flow, inp, run, pc);
  }

  /** From creation, 2n + 2 undisturbed reconciles end a FlowRun of n steps. */
  lemma {:induction false} EndsFromCreation(flow: Flow, inps: seq<Pc -> Input>, run: FlowRun)
    requires UniqueNames(flow) && RunInv(flow, run.status) && NotStarted(run.status.phase)
    requires AllUndisturbed(flow, inps, run) && |inps| == 2 * |flow.steps| + 2
    ensures Terminal(SoloMany(flow, inps, run).status.phase)
  {
    hide Solo, RunInv, Measure, SoloMany;
    var next := Solo(flow, inps[0], run, Start);
    FirstStarts(flow, inps[0], run);
    SoloKeeps(flow, inps[0], run, Start);
    MeasureBound(flow.steps, next.status.steps);
    ManyEnd(flow, inps[1..], next);
    assert SoloMany(flow, inps, run) == SoloMany(flow, inps[1..], next) by { ManyUnfolds(flow, inps, run); }
  }

  lemma {:induction false} ManyUnfolds(flow: Flow, inps: seq<Pc -> Input>, run: FlowRun)
    requires inps != []
    ensures SoloMany(flow, inps, run) == SoloMany(flow, inps[1..], Solo(flow, inps[0], run, Start))
  {}

  /** An object just created, live, with nobody asking to cancel it. */
  predicate Created(c: State) {
    Initial(c) && c.live && !c.history[0].meta.deleting && !c.history[0].meta.cancelRequested
  }

  /** The run has ended in the Flow's meaning: Failed if the meaning has a failure that
      nothing tolerates, and otherwise Succeeded with the whole meaning on record. */
  ghost predicate EndsInMeaning(flow: Flow, o: Oracle, t: State) {
    && t.history != []
    && Latest(t).status.phase == (if MeaningFails(flow, o) then RunPhase.Failed else RunPhase.Succeeded)
    && (!MeaningFails(flow, o) ==> ViewOf(Latest(t).status.steps) == Meaning(flow, o))
  }

  /** From creation, 2n + 2 calm undisturbed reconciles are a run of the cluster that
      ends in the Flow's meaning. */
  lemma {:induction false} UndisturbedRunEnds(flow: Flow, o: Oracle, c: State, inps: seq<Pc -> Input>)
    requires UniqueNames(flow) && Local(flow, o) && Created(c)
    requires AllCalmInputs(inps, o) && |inps| == 2 * |flow.steps| + 2
    requires AllUndisturbed(flow, inps, c.history[0])
    ensures CalmEvents(ManyEvents(flow, inps, c), o)
    ensures EndsInMeaning(flow, o, Run(flow, c, ManyEvents(flow, inps, c)))
  {
    hide Run, ManyEvents, SoloMany, AllUndisturbed, Local, Meaning, MeaningFails, RunInv, AllCalmInputs;
    var events := ManyEvents(flow, inps, c);
    var t := Run(flow, c, events);
    ManyIsRun(flow, inps, c);
    ManyCalm(flow, inps, c, o);
    assert RunInv(flow, c.history[0].status) by { FirstVersionOk(flow, c); }
    EndsFromCreation(flow, inps, c.history[0]);
    ManyWanted(flow, inps, c.history[0]);
    var v := |t.history| - 1;
    assert Terminal(t.history[v].status.phase) && t.history[v].status.phase != RunPhase.Cancelled;
    CalmEventsRunCalmly(flow, c, events);
    VerdictIsMeaning(flow, o, c, events, v);
    if t.history[v].status.phase == RunPhase.Succeeded { SucceededIsMeaning(flow, o, c, events, v); }
  }

  lemma {:induction false} FirstVersionOk(flow: Flow, c: State)
    requires UniqueNames(flow) && Initial(c)
    ensures RunInv(flow, c.history[0].status)
  {
    Reachable(flow, c, []);
    RunNothing(flow, c);
  }

  // ---- Clocks that move forward ----

  /** Clock readings of reconciles are at least `floor` and never fall. */
  predicate Rising(events: seq<Event>, floor: Time) {
    && (forall i | 0 <= i < |events| && events[i].Advance? :: floor <= events[i].inp.now)
    && (forall i, j | 0 <= i < j < |events| && events[i].Advance? && events[j].Advance? ::
          events[i].inp.now <= events[j].inp.now)
  }

  predicate NoneAfter(events: seq<Event>, now: Time) {
    forall i | 0 <= i < |events| && events[i].Advance? :: events[i].inp.now <= now
  }

  lemma {:induction false} RisingConcat(a: seq<Event>, b: seq<Event>, floor: Time, now: Time)
    requires Rising(a, floor) && NoneAfter(a, now) && Rising(b, now) && floor <= now
    ensures Rising(a + b, floor)
  {
    var c := a + b;
    forall i, j | 0 <= i < j < |c| && c[i].Advance? && c[j].Advance? ensures c[i].inp.now <= c[j].inp.now {
      if i < |a| <= j {
        assert a[i].inp.now <= now && now <= b[j - |a|].inp.now;
      } else if j < |a| {
        assert a[i].inp.now <= a[j].inp.now;
      } else {
        assert b[i - |a|].inp.now <= b[j - |a|].inp.now;
      }
    }
  }

  /** One clock reading serves the whole reconcile. */
  ghost predicate Steady(inp: Pc -> Input) {
    forall pc: Pc :: inp(pc).now == inp(Start).now
  }

  ghost predicate InputsRise(inps: seq<Pc -> Input>, floor: Time)
    decreases |inps|
  {
    inps == [] || (Steady(inps[0]) && floor <= inps[0](Start).now && InputsRise(inps[1..], inps[0](Start).now))
  }

  lemma {:induction false} SoloSteady(flow: Flow, inp: Pc -> Input, run: FlowRun, pc: Pc, w: nat)
    requires Steady(inp)
    ensures forall e | e in SoloEvents(flow, inp, run, pc, w) :: e.Advance? && e.inp.now == inp(Start).now
    decreases PcRank(flow, pc)
  {
    hide Segment;
    var call := Segment(flow, inp(pc), run, pc);
    SegmentForward(flow, inp(pc), run, pc);
    if !call.Return? { SoloSteady(flow, inp, Stored(run, call), call.next, w); }
  }

  lemma {:induction false} ManyRise(flow: Flow, inps: seq<Pc -> Input>, c: State, floor: Time)
    requires InputsRise(inps, floor)
    ensures Rising(ManyEvents(flow, inps, c), floor)
    decreases |inps|
  {
    hide SoloEvents, Run;
    if inps != [] && c.history != [] {
      var first := ReconcileEvents(flow, inps[0], c);
      var now := inps[0](Start).now;
      SoloSteady(flow, inps[0], Latest(c), Start, 0);
      assert forall e | e in first && e.Advance? :: e.inp.now == now;
      var rest := ManyEvents(flow, inps[1..], Run(flow, c, first));
      ManyRise(flow, inps[1..], Run(flow, c, first), now);
      RisingConcat(first, rest, floor, now);
    }
  }

  // ---- Every Flow has such a run ----

  function LatestResume(ss: seq<StepStatus>, floor: Time): (t: Time)
    ensures floor <= t && forall s | s in ss && s.resume.Some? :: s.resume.value <= t
  {
    if ss == [] then floor
    else
      var t := LatestResume(ss[1..], floor);
      if ss[0].resume.Some? && ss[0].resume.value > t then ss[0].resume.value else t
  }

  function QuietInput(o: Oracle, now: Time): Input {
    Input(now, Found, true, 0, o.when, o.act, _ => false)
  }

  lemma {:induction false} QuietIsUndisturbed(flow: Flow, o: Oracle, run: FlowRun, floor: Time)
    ensures Undisturbed(flow, QuietInput(o, LatestResume(run.status.steps, floor)), run)
  {
    hide Wave, FirstWait, ReachesWave, LatestResume;
  }

  lemma {:induction false} QuietInputs(flow: Flow, o: Oracle, run: FlowRun, n: nat, floor: Time)
    returns (inps: seq<Pc -> Input>)
    ensures |inps| == n && AllCalmInputs(inps, o) && AllUndisturbed(flow, inps, run) && InputsRise(inps, floor)
    decreases n
  {
    hide Solo, Undisturbed;
    if n == 0 {
      inps := [];
    } else {
      var now := LatestResume(run.status.steps, floor);
      var first := (_: Pc) => QuietInput(o, now);
      QuietIsUndisturbed(flow, o, run, floor);
      assert CalmInputs(first, o) && Steady(first);
      var rest := QuietInputs(flow, o, Solo(flow, first, run, Start), n - 1, now);
      inps := [first] + rest;
      assert inps[1..] == rest;
    }
  }

  /** Every created FlowRun of every Flow has a run, with a clock that starts anywhere and
      never goes back, that ends in the Flow's meaning. */
  lemma {:induction false} SomeRunEnds(flow: Flow, o: Oracle, c: State, floor: Time) returns (events: seq<Event>)
    requires UniqueNames(flow) && Local(flow, o) && Created(c)
    ensures CalmEvents(events, o) && Rising(events, floor) && EndsInMeaning(flow, o, Run(flow, c, events))
  {
    hide Run, ManyEvents, AllUndisturbed, AllCalmInputs, EndsInMeaning, InputsRise;
    var inps := QuietInputs(flow, o, c.history[0], 2 * |flow.steps| + 2, floor);
    UndisturbedRunEnds(flow, o, c, inps);
    ManyRise(flow, inps, c, floor);
    events := ManyEvents(flow, inps, c);
  }

  /** A Flow with a cycle or a dangling reference, and no fatal failure among the steps
      that can run, has a run that is Succeeded although some step never ran. */
  lemma {:induction false} CyclicFlowSucceeds(flow: Flow, o: Oracle, c: State, floor: Time)
    returns (events: seq<Event>)
    requires UniqueNames(flow) && Local(flow, o) && Created(c)
    requires !Acyclic(flow) && !MeaningFails(flow, o)
    ensures CalmEvents(events, o) && Rising(events, floor)
    ensures var t := Run(flow, c, events);
      && t.history != [] && Latest(t).status.phase == RunPhase.Succeeded
      && !AllSettled(flow, Latest(t).status.steps)
  {
    hide Run, AllSettled, Acyclic, MeaningFails, Meaning, CalmEvents, Rising;
    events := SomeRunEnds(flow, o, c, floor);
    assert CalmEvents(events, o) ==> EventsUse(events, o) by { CalmUses(events, o); }
    SucceededRanAllIffAcyclic(flow, c, events, |Run(flow, c, events).history| - 1);
  }

  lemma {:induction false} CalmUses(events: seq<Event>, o: Oracle)
    ensures CalmEvents(events, o) ==> EventsUse(events, o)
  {}

  // ---- Succeeded with failures ----

  predicate HasFailed(view: View) {
    exists n | n in view :: view[n].phase == StepPhase.Failed
  }

  predicate RecordsFailed(ss: seq<StepStatus>) {
    exists s | s in ss :: s.phase == StepPhase.Failed
  }

  lemma {:induction false} ViewFails(ss: seq<StepStatus>)
    requires Distinct(ss)
    ensures RecordsFailed(ss) <==> HasFailed(ViewOf(ss))
  {
    if s :| s in ss && s.phase == StepPhase.Failed {
      var i :| 0 <= i < |ss| && ss[i] == s;
      DistinctFind(ss, i);
      assert s.name in ViewOf(ss) && ViewOf(ss)[s.name].phase == StepPhase.Failed;
    }
    if n :| n in ViewOf(ss) && ViewOf(ss)[n].phase == StepPhase.Failed {
      assert Find(ss, n).value in ss;
    }
  }

  /** A Succeeded run records no failure if and only if nothing fails in the Flow's meaning. */
  lemma {:induction false} NoFailureRecordedIff(flow: Flow, o: Oracle, c: State, events: seq<Event>, v: nat)
    requires UniqueNames(flow) && Local(flow, o) && Initial(c) && EventsUse(events, o)
    requires v < |Run(flow, c, events).history|
    requires Run(flow, c, events).history[v].status.phase == RunPhase.Succeeded
    ensures (forall s | s in Run(flow, c, events).history[v].status.steps ::
               s.phase == StepPhase.Succeeded || s.phase == StepPhase.Skipped) <==> !HasFailed(Meaning(flow, o))
  {
    hide Run, Local, Meaning;
    var st := Run(flow, c, events).history[v].status;
    SucceededIsMeaning(flow, o, c, events, v);
    SucceededIsLeastFixpoint(flow, c, events, v);
    Reachable(flow, c, events);
    assert RunInv(flow, st);
    ViewFails(st.steps);
  }

  /** Every step of the Flow succeeded or was skipped. */
  predicate AllSucceeded(flow: Flow, ss: seq<StepStatus>) {
    forall step | step in flow.steps ::
      var s := Find(ss, step.name);
      s.Some? && (s.value.phase == StepPhase.Succeeded || s.value.phase == StepPhase.Skipped)
  }

  /** A Succeeded run has every step of the Flow succeeded or skipped if and only if the graph
      has no cycle and no dangling reference and nothing fails in the Flow's meaning. */
  lemma {:induction false} AllSucceededIff(flow: Flow, o: Oracle, c: State, events: seq<Event>, v: nat)
    requires UniqueNames(flow) && Local(flow, o) && Initial(c) && EventsUse(events, o)
    requires v < |Run(flow, c, events).history|
    requires Run(flow, c, events).history[v].status.phase == RunPhase.Succeeded
    ensures AllSucceeded(flow, Run(flow, c, events).history[v].status.steps) <==>
      Acyclic(flow) && !HasFailed(Meaning(flow, o))
  {
    hide Run, Local, Meaning, Acyclic, HasFailed;
    var ss := Run(flow, c, events).history[v].status.steps;
    NoFailureRecordedIff(flow, o, c, events, v);
    SucceededRanAllIffAcyclic(flow, c, events, v);
    Reachable(flow, c, events);
    assert RunInv(flow, Run(flow, c, events).history[v].status);
    if AllSucceeded(flow, ss) {
      forall s | s in ss ensures s.phase == StepPhase.Succeeded || s.phase == StepPhase.Skipped {
        var i :| 0 <= i < |ss| && ss[i] == s;
        assert Recorded(flow, ss, i);
        DistinctFind(ss, i);
      }
    }
  }

  /** If something fails in the meaning and all of it is tolerated, some run is Succeeded
      with a failed step on record. */
  lemma {:induction false} ToleratedFailureSucceeds(flow: Flow, o: Oracle, c: State, floor: Time)
    returns (events: seq<Event>)
    requires UniqueNames(flow) && Local(flow, o) && Created(c)
    requires HasFailed(Meaning(flow, o)) && !MeaningFails(flow, o)
    ensures CalmEvents(events, o) && Rising(events, floor)
    ensures var t := Run(flow, c, events);
      && t.history != [] && Latest(t).status.phase == RunPhase.Succeeded
      && RecordsFailed(Latest(t).status.steps)
  {
    hide Run, MeaningFails, Meaning, Rising;
    events := SomeRunEnds(flow, o, c, floor);
    var t := Run(flow, c, events);
    Reachable(flow, c, events);
    assert RunInv(flow, Latest(t).status);
    ViewFails(Latest(t).status.steps);
  }

  /** One step that always fails and may. */
  lemma {:induction false} LoneFailureSucceeds(c: State, floor: Time) returns (flow: Flow, events: seq<Event>)
    requires Created(c)
    ensures Rising(events, floor)
    ensures var t := Run(flow, c, events);
      && t.history != [] && Latest(t).status.phase == RunPhase.Succeeded
      && RecordsFailed(Latest(t).status.steps)
  {
    hide Run, Rising, Layer, Local;
    var step := Step("call", [], [], Io("http"), Continue);
    flow := Flow([step], false);
    var o := Oracle((s, v) => Yes, (s, v) => Broken);
    assert Local(flow, o) by { ConstantIsLocal(flow, o); }
    LoneMeaning(flow, o, step);
    events := ToleratedFailureSucceeds(flow, o, c, floor);
  }

  lemma {:induction false} ConstantIsLocal(flow: Flow, o: Oracle)
    requires forall s: Step, v: View, w: View :: o.when(s, v) == o.when(s, w) && o.act(s, v) == o.act(s, w)
    ensures Local(flow, o)
  {}

  lemma {:induction false} LoneMeaning(flow: Flow, o: Oracle, step: Step)
    requires flow == Flow([step], false) && step == Step("call", [], [], Io("http"), Continue)
    requires forall v: View :: o.act(step, v) == Broken
    ensures UniqueNames(flow) && HasFailed(Meaning(flow, o)) && !MeaningFails(flow, o)
  {
    var view: View := map[];
    assert step in flow.steps && step.name in StepNames(flow);
    assert StepNamed(flow, "call") == step;
    assert Layer(flow, o, view)["call"] == StepValue(StepPhase.Failed, map[]);
    assert Meaning(flow, o) == Layer(flow, o, Stage(flow, o, 0));
    assert "call" in Meaning(flow, o) && Meaning(flow, o)["call"].phase == StepPhase.Failed;
    assert StepTolerated(flow, step);
  }
}
