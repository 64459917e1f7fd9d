/** Any number of reconcile workers and startup scans over one FlowRun object.

    The API server keeps the object's versions; a write succeeds only against
    the newest version. Between two API calls a worker's copy is exactly a stored
    version, so a worker is a version number and a place. Reads may be stale, a
    worker may crash anywhere, and anyone may edit metadata. */
module Cluster {
  import opened Common
  import opened Flows
  import opened Engine
  import opened RunSafety

  datatype Worker = Worker(version: nat, pc: Pc)

  datatype State = State(history: seq<FlowRun>, live: bool, workers: map<nat, Worker>)

  datatype Event =
    | Read(worker: nat, version: nat)
    | Scan(worker: nat, version: nat, inp: Input)
    | Advance(worker: nat, inp: Input)
    | Crash(worker: nat)
    | Edit(meta: Meta)
    | Remove

  function Latest(c: State): FlowRun
    requires c.history != []
  {
    c.history[|c.history| - 1]
  }

  function Issue(flow: Flow, c: State, w: nat, inp: Input): State
    requires w in c.workers && c.workers[w].version < |c.history|
  {
    var at := c.workers[w];
    var run := c.history[at.version];
    var call := Segment(flow, inp, run, at.pc);
    if call.Return? || !c.live || at.version + 1 != |c.history| then c.(workers := c.workers - {w})
    else c.(history := c.history + [Stored(run, call)], workers := c.workers[w := Worker(|c.history|, call.next)])
  }

  /** Events that are not enabled change nothing. */
  function Next(flow: Flow, c: State, e: Event): State {
    match e
    case Read(w, v) =>
      if v < |c.history| && w !in c.workers then c.(workers := c.workers[w := Worker(v, Start)]) else c
    case Scan(w, v, inp) =>
      if v < |c.history| && w !in c.workers && c.history[v].status.phase == RunPhase.Running
         && TimedOut(inp, c.history[v].status)
      then c.(workers := c.workers[w := Worker(v, Orphan)]) else c
    case Advance(w, inp) =>
      if w in c.workers && c.workers[w].version < |c.history| then Issue(flow, c, w, inp) else c
    case Crash(w) => c.(workers := c.workers - {w})
    case Edit(m) =>
      if c.live && c.history != [] then c.(history := c.history + [Latest(c).(meta := m)]) else c
    case Remove => c.(live := false)
  }

  function Run(flow: Flow, c: State, events: seq<Event>): State
    decreases |events|
  {
    if events == [] then c else Run(flow, Next(flow, c, events[0]), events[1..])
  }

  /** The object as a gateway creates it, nobody working on it. */
  predicate Initial(c: State) {
    && |c.history| == 1 && c.workers == map[]
    && NotStarted(c.history[0].status.phase)
    && c.history[0].status.steps == []
    && c.history[0].status.startTime.None? && c.history[0].status.completionTime.None?
  }

  // ---- The invariant of every reachable state ----

  ghost predicate VersionsOk(flow: Flow, h: seq<FlowRun>) {
    && (forall i | 0 <= i < |h| :: RunInv(flow, h[i].status))
    && (forall i | 0 < i < |h| :: RunEdge(flow, h[i - 1].status, h[i].status))
  }

  predicate WorkerOk(flow: Flow, h: seq<FlowRun>, w: Worker) {
    w.version < |h| && PcOk(flow, h[w.version].status, w.pc)
  }

  ghost predicate Inv(flow: Flow, c: State) {
    && c.history != []
    && VersionsOk(flow, c.history)
    && forall w | w in c.workers :: WorkerOk(flow, c.history, c.workers[w])
  }

  lemma {:induction false} AppendOk(flow: Flow, h: seq<FlowRun>, run: FlowRun)
    requires h != [] && VersionsOk(flow, h)
    requires RunInv(flow, run.status) && RunEdge(flow, h[|h| - 1].status, run.status)
    ensures VersionsOk(flow, h + [run])
  {
    var g := h + [run];
    forall i | 0 < i < |g| ensures RunEdge(flow, g[i - 1].status, g[i].status) {
      if i < |h| { assert g[i - 1] == h[i - 1] && g[i] == h[i]; }
    }
  }

  lemma {:induction false} SameStatusEdge(flow: Flow, st: RunStatus)
    ensures RunEdge(flow, st, st)
  {
    SameSteps(flow, st.steps);
  }

  lemma {:induction false} IssueKeepsInv(flow: Flow, c: State, w: nat, inp: Input)
    requires UniqueNames(flow) && Inv(flow, c) && w in c.workers
    ensures WorkerOk(flow, c.history, c.workers[w]) && Inv(flow, Issue(flow, c, w, inp))
  {
    var at := c.workers[w];
    assert WorkerOk(flow, c.history, at);
    var run := c.history[at.version];
    var call := Segment(flow, inp, run, at.pc);
    SegmentGood(flow, inp, run, at.pc);
    if !(call.Return? || !c.live || at.version + 1 != |c.history|) {
      SameStatusEdge(flow, run.status);
      AppendOk(flow, c.history, Stored(run, call));
    }
  }

  lemma {:induction false} NextKeepsInv(flow: Flow, c: State, e: Event)
    requires UniqueNames(flow) && Inv(flow, c)
    ensures Inv(flow, Next(flow, c, e))
  {
    if e.Advance? && e.worker in c.workers {
      IssueKeepsInv(flow, c, e.worker, e.inp);
    } else if e.Edit? {
      SameStatusEdge(flow, Latest(c).status);
      AppendOk(flow, c.history, Latest(c).(meta := e.meta));
    }
  }

  lemma {:induction false} RunKeepsInv(flow: Flow, c: State, events: seq<Event>)
    requires UniqueNames(flow) && Inv(flow, c)
    ensures Inv(flow, Run(flow, c, events))
    decreases |events|
  {
    if events != [] {
      NextKeepsInv(flow, c, events[0]);
      RunKeepsInv(flow, Next(flow, c, events[0]), events[1..]);
    }
  }

  lemma {:induction false} Reachable(flow: Flow, c: State, events: seq<Event>)
    requires UniqueNames(flow) && Initial(c)
    ensures Inv(flow, Run(flow, c, events))
  {
    RunKeepsInv(flow, c, events);
  }

  // ---- What that means between any two versions ----

  predicate PhaseLater(a: RunPhase, b: RunPhase) {
    || a == b
    || (NotStarted(a) && !NotStarted(b))
    || (a == RunPhase.Running && Terminal(b))
  }

  lemma {:induction false} Later(flow: Flow, h: seq<FlowRun>, i: nat, j: nat)
    requires VersionsOk(flow, h) && i <= j < |h|
    ensures var a, b := h[i].status, h[j].status;
      && PhaseLater(a.phase, b.phase)
      && (Terminal(a.phase) ==> b == a)
      && Grows(a.steps, b.steps)
      && (b.steps == a.steps || Measure(flow.steps, b.steps) < Measure(flow.steps, a.steps))
    decreases j - i
  {
    hide RunInv, Measure, Grows;
    if i == j {
      SameSteps(flow, h[i].status.steps);
    } else {
      Later(flow, h, i, j - 1);
      assert RunEdge(flow, h[j - 1].status, h[j].status);
      GrowsTrans(h[i].status.steps, h[j - 1].status.steps, h[j].status.steps);
    }
  }

  /** Under any interleaving of workers, scans, stale reads, lost updates and
      crashes: adjacent versions take one edge of the phase diagram, a terminal
      status is never written again and carries its completion time, and a
      settled step status is never changed. */
  lemma {:induction false} HistorySafe(flow: Flow, c: State, events: seq<Event>, i: nat, j: nat, step: string)
    requires UniqueNames(flow) && Initial(c)
    requires i <= j < |Run(flow, c, events).history|
    ensures var h := Run(flow, c, events).history;
      && (i + 1 == j ==> PhaseEdge(h[i].status.phase, h[j].status.phase))
      && PhaseLater(h[i].status.phase, h[j].status.phase)
      && (Terminal(h[i].status.phase) ==> h[j].status == h[i].status && h[i].status.completionTime.Some?)
      && var a := Find(h[i].status.steps, step);
         (a.Some? && Settled(a.value.phase) ==> Find(h[j].status.steps, step) == a)
  {
    Reachable(flow, c, events);
    var h := Run(flow, c, events).history;
    Later(flow, h, i, j);
    assert RunInv(flow, h[i].status);
    assert i + 1 == j ==> RunEdge(flow, h[j - 1].status, h[j].status);
    assert StepEdge(Find(h[i].status.steps, step), Find(h[j].status.steps, step));
  }

  /** A recorded wait keeps its resume time through every requeue and is
      completed only at or after it. */
  lemma {:induction false} WaitKeepsResumeTime(flow: Flow, c: State, events: seq<Event>, i: nat, j: nat, step: string)
    requires UniqueNames(flow) && Initial(c)
    requires i <= j < |Run(flow, c, events).history|
    requires var a := Find(Run(flow, c, events).history[i].status.steps, step);
      a.Some? && a.value.phase == StepPhase.Waiting
    ensures var h := Run(flow, c, events).history;
      var a, b := Find(h[i].status.steps, step).value, Find(h[j].status.steps, step);
      && a.resume.Some?
      && b.Some?
      && (b.value == a || (&& b.value.phase == StepPhase.Succeeded
                           && b.value.completion.Some? && b.value.completion.value >= a.resume.value))
  {
    Reachable(flow, c, events);
    var h := Run(flow, c, events).history;
    Later(flow, h, i, j);
    var ss := h[i].status.steps;
    assert RunInv(flow, h[i].status);
    assert Recorded(flow, ss, IndexOf(ss, step));
    assert StepEdge(Find(ss, step), Find(h[j].status.steps, step));
  }

  // ---- Bounded work ----

  /** Versions in which the recorded steps changed. */
  function StepWrites(h: seq<FlowRun>): nat {
    if |h| <= 1 then 0
    else StepWrites(h[..|h| - 1]) + (if h[|h| - 1].status.steps != h[|h| - 2].status.steps then 1 else 0)
  }

  lemma {:induction false} StepWritesFall(flow: Flow, h: seq<FlowRun>)
    requires VersionsOk(flow, h) && h != []
    ensures StepWrites(h) + Measure(flow.steps, h[|h| - 1].status.steps) <= Measure(flow.steps, h[0].status.steps)
    decreases |h|
  {
    if |h| > 1 {
      var g := h[..|h| - 1];
      assert VersionsOk(flow, g) by {
        forall i | 0 < i < |g| ensures RunEdge(flow, g[i - 1].status, g[i].status) {
          assert g[i - 1] == h[i - 1] && g[i] == h[i];
        }
      }
      StepWritesFall(flow, g);
      assert RunEdge(flow, h[|h| - 2].status, h[|h| - 1].status);
    }
  }

  /** However workers interleave, the step list is rewritten at most twice per
      step over the whole life of the object. */
  lemma {:induction false} StepWritesBounded(flow: Flow, c: State, events: seq<Event>)
    requires UniqueNames(flow) && Initial(c)
    ensures StepWrites(Run(flow, c, events).history) <= 2 * |flow.steps|
  {
    Reachable(flow, c, events);
    var h := Run(flow, c, events).history;
    StepWritesFall(flow, h);
    MeasureBound(flow.steps, h[0].status.steps);
  }
}
