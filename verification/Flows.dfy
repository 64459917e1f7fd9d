/** The data the FlowRun engine works on: Flow specs, recorded step statuses,
    and the dependency tests that decide when a step may start. */
module Flows {
  import opened Common

  datatype StepPhase = Blank | Pending | Running | Waiting | Succeeded | Failed | Skipped

  datatype OnFailure = Default | Fail | Continue | Skip

  /** A wait carries its parsed duration, or None when it is absent or unparsable;
      every other action type is run by an executor. */
  datatype Action = Wait(duration: Option<int>) | Io(kind: string)

  datatype Step = Step(name: string, runAfter: seq<string>, when: seq<string>, action: Action, onFailure: OnFailure)

  datatype Flow = Flow(steps: seq<Step>, continueOnFailure: bool)

  datatype StepStatus = StepStatus(
    name: string,
    phase: StepPhase,
    results: map<string, string>,
    start: Option<Time>,
    completion: Option<Time>,
    resume: Option<Time>)

  predicate Settled(p: StepPhase) {
    p == StepPhase.Succeeded || p == StepPhase.Failed || p == StepPhase.Skipped
  }

  // ---- Lookup and in-place replacement in Status.Steps ----

  /** Position of the first entry called name, or |ss|. */
  function IndexOf(ss: seq<StepStatus>, name: string): (i: nat)
    ensures i <= |ss|
    ensures i < |ss| ==> ss[i].name == name
    ensures forall j | 0 <= j < i :: ss[j].name != name
  {
    if ss == [] then 0
    else if ss[0].name == name then 0
    else 1 + IndexOf(ss[1..], name)
  }

  function Find(ss: seq<StepStatus>, name: string): (r: Option<StepStatus>)
    ensures r.Some? ==> r.value.name == name && r.value in ss
    ensures r.None? ==> forall s | s in ss :: s.name != name
  {
    var i := IndexOf(ss, name);
    if i < |ss| then Some(ss[i]) else None
  }

  function Upsert(ss: seq<StepStatus>, s: StepStatus): seq<StepStatus> {
    var i := IndexOf(ss, s.name);
    if i < |ss| then ss[i := s] else ss + [s]
  }

  function UpsertAll(ss: seq<StepStatus>, updates: seq<StepStatus>): seq<StepStatus>
    decreases |updates|
  {
    if updates == [] then ss else UpsertAll(Upsert(ss, updates[0]), updates[1..])
  }

  function Names(ss: seq<StepStatus>): set<string> {
    set s | s in ss :: s.name
  }

  predicate Distinct(ss: seq<StepStatus>) {
    forall i, j | 0 <= i < j < |ss| :: ss[i].name != ss[j].name
  }

  /** Reading back after a write: the written entry under its own name,
      every other name untouched. */
  lemma {:induction false} FindUpsert(ss: seq<StepStatus>, s: StepStatus, name: string)
    ensures Find(Upsert(ss, s), name) == if name == s.name then Some(s) else Find(ss, name)
  {
    var i := IndexOf(ss, s.name);
    var tt := Upsert(ss, s);
    var k := IndexOf(tt, name);
    if name == s.name {
      assert i < |tt| && tt[i] == s;
      assert k == i;
    } else {
      var m := IndexOf(ss, name);
      if m < |ss| {
        assert tt[m] == ss[m];
        assert forall j | 0 <= j < m :: tt[j].name != name;
        assert k == m;
      } else {
        assert forall j | 0 <= j < |tt| :: tt[j].name != name;
        assert k == |tt|;
      }
    }
  }

  lemma {:induction false} DistinctFind(ss: seq<StepStatus>, i: nat)
    requires Distinct(ss) && i < |ss|
    ensures Find(ss, ss[i].name) == Some(ss[i])
  {
    assert IndexOf(ss, ss[i].name) == i;
  }

  lemma {:induction false} UpsertDistinct(ss: seq<StepStatus>, s: StepStatus)
    requires Distinct(ss)
    ensures Distinct(Upsert(ss, s))
  {}

  lemma {:induction false} UpsertAllAppend(ss: seq<StepStatus>, xs: seq<StepStatus>, y: StepStatus)
    decreases |xs|
    ensures UpsertAll(ss, xs + [y]) == Upsert(UpsertAll(ss, xs), y)
  {
    if xs != [] {
      assert (xs + [y])[0] == xs[0] && (xs + [y])[1..] == xs[1..] + [y];
      UpsertAllAppend(Upsert(ss, xs[0]), xs[1..], y);
    } else {
      assert ([y])[1..] == [];
      assert xs + [y] == [y];
    }
  }

  // ---- The step graph ----

  function StepNames(flow: Flow): set<string> {
    set s | s in flow.steps :: s.name
  }

  predicate DistinctSteps(steps: seq<Step>) {
    forall i, j | 0 <= i < j < |steps| :: steps[i].name != steps[j].name
  }

  /** Step names are the list's map key, so the API server keeps them distinct. */
  predicate UniqueNames(flow: Flow) {
    DistinctSteps(flow.steps)
  }

  function FindStep(steps: seq<Step>, name: string): (r: Option<Step>)
    ensures r.Some? ==> r.value in steps && r.value.name == name
    ensures r.None? ==> forall s | s in steps :: s.name != name
  {
    if steps == [] then None
    else if steps[0].name == name then Some(steps[0])
    else FindStep(steps[1..], name)
  }

  lemma {:induction false} FindStepUnique(flow: Flow, step: Step)
    requires UniqueNames(flow) && step in flow.steps
    ensures FindStep(flow.steps, step.name) == Some(step)
  {
    var k :| 0 <= k < |flow.steps| && flow.steps[k] == step;
    var r := FindStep(flow.steps, step.name).value;
    var j :| 0 <= j < |flow.steps| && flow.steps[j] == r;
  }

  predicate StepTolerated(flow: Flow, step: Step) {
    step.onFailure == Continue || flow.continueOnFailure
  }

  /** A failed dependency counts as satisfied. */
  predicate Tolerated(flow: Flow, name: string) {
    flow.continueOnFailure ||
    (var s := FindStep(flow.steps, name); s.Some? && s.value.onFailure == Continue)
  }

  predicate DependencyMet(flow: Flow, ss: seq<StepStatus>, dep: string) {
    var s := Find(ss, dep);
    && s.Some?
    && (match s.value.phase
        case Succeeded => true
        case Skipped => true
        case Failed => Tolerated(flow, dep)
        case _ => false)
  }

  predicate DependenciesMet(flow: Flow, step: Step, ss: seq<StepStatus>) {
    forall d | d in step.runAfter :: DependencyMet(flow, ss, d)
  }

  predicate AllDepsSkipped(step: Step, ss: seq<StepStatus>) {
    && |step.runAfter| > 0
    && forall d | d in step.runAfter :: Find(ss, d).Some? && Find(ss, d).value.phase == StepPhase.Skipped
  }

  predicate DepsWithin(step: Step, S: set<string>) {
    forall d | d in step.runAfter :: d in S
  }

  /** S contains every step all of whose runAfter names it contains. */
  ghost predicate Closed(flow: Flow, S: set<string>) {
    forall step | step in flow.steps && DepsWithin(step, S) :: step.name in S
  }

  /** S is the least fixpoint of "all runAfter already in the set". */
  ghost predicate LeastClosed(flow: Flow, S: set<string>) {
    Closed(flow, S) && forall C: set<string> | Closed(flow, C) :: S <= C
  }

  /** Every runAfter name of the step is a step with a strictly smaller rank. */
  ghost predicate RankedStep(flow: Flow, rank: map<string, nat>, step: Step) {
    && step.name in rank
    && forall d | d in step.runAfter :: FindStep(flow.steps, d).Some? && d in rank && rank[d] < rank[step.name]
  }

  ghost predicate RankedBy(flow: Flow, rank: map<string, nat>) {
    forall step | step in flow.steps :: RankedStep(flow, rank, step)
  }

  /** No dangling reference and no cycle. */
  ghost predicate Acyclic(flow: Flow) {
    exists rank: map<string, nat> :: RankedBy(flow, rank)
  }

  lemma {:induction false} RankedInClosed(flow: Flow, rank: map<string, nat>, C: set<string>, step: Step)
    requires RankedBy(flow, rank) && Closed(flow, C) && step in flow.steps
    ensures RankedStep(flow, rank, step) && step.name in C
    decreases rank[step.name]
  {
    assert RankedStep(flow, rank, step);
    forall d | d in step.runAfter ensures d in C {
      var dep := FindStep(flow.steps, d).value;
      RankedInClosed(flow, rank, C, dep);
    }
    assert DepsWithin(step, C);
  }
}
