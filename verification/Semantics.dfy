/** The meaning of a Flow as a recursive evaluation of its step graph, and the
    proof that waves, retries, lost updates and interleavings only ever record
    that meaning. */
module Semantics {
  import opened Common
  import opened Flows
  import opened Engine
  import opened RunSafety
  import opened Cluster
  import opened Outcomes

  /** Verdicts and outcomes as functions of what a step can see. */
  datatype Oracle = Oracle(when: (Step, View) -> Verdict, act: (Step, View) -> Outcome)

  // ---- Recursive evaluation ----

  predicate Usable(flow: Flow, view: View, dep: string) {
    && dep in view
    && (view[dep].phase == StepPhase.Succeeded || view[dep].phase == StepPhase.Skipped
        || (view[dep].phase == StepPhase.Failed && Tolerated(flow, dep)))
  }

  predicate Ready(flow: Flow, step: Step, view: View) {
    forall d | d in step.runAfter :: Usable(flow, view, d)
  }

  predicate OnlySkipped(step: Step, view: View) {
    |step.runAfter| > 0 && forall d | d in step.runAfter :: d in view && view[d].phase == StepPhase.Skipped
  }

  function Perform(o: Oracle, step: Step, view: View): StepValue {
    match step.action
    case Wait(None) => StepValue(StepPhase.Failed, map[])
    case Wait(Some(_)) => StepValue(StepPhase.Succeeded, map[])
    case Io(_) =>
      match o.act(step, view)
      case Done(results) => StepValue(StepPhase.Succeeded, results)
      case Broken => StepValue(StepPhase.Failed, map[])
  }

  /** A step's value from the values of the steps it can see. */
  function Evaluate(o: Oracle, step: Step, view: View): StepValue {
    if OnlySkipped(step, view) then StepValue(StepPhase.Skipped, map[])
    else if step.when == [] then Perform(o, step, view)
    else
      match o.when(step, view)
      case Yes => Perform(o, step, view)
      case No => StepValue(StepPhase.Skipped, map[])
      case Error => StepValue(StepPhase.Failed, map[])
  }

  /** One layer of the recursion: every step whose dependencies have usable values. */
  function Layer(flow: Flow, o: Oracle, view: View): View {
    map n | n in StepNames(flow) && Ready(flow, StepNamed(flow, n), view) :: Evaluate(o, StepNamed(flow, n), view)
  }

  function StepNamed(flow: Flow, name: string): (step: Step)
    requires name in StepNames(flow)
    ensures step in flow.steps && step.name == name
  {
    FindStep(flow.steps, name).value
  }

  function Stage(flow: Flow, o: Oracle, depth: nat): View {
    if depth == 0 then map[] else Layer(flow, o, Stage(flow, o, depth - 1))
  }

  /** The meaning of the Flow: the value of every step that can get one. */
  function Meaning(flow: Flow, o: Oracle): View {
    Stage(flow, o, |flow.steps|)
  }

  // ---- Locality: verdicts and outcomes depend only on ancestors ----

  ghost predicate AncestorClosed(flow: Flow, A: set<string>) {
    forall step | step in flow.steps && step.name in A :: DepsWithin(step, A)
  }

  ghost predicate AgreeOn(v: View, w: View, A: set<string>) {
    forall n | n in A :: (n in v <==> n in w) && (n in v ==> v[n] == w[n])
  }

  /** The views agree on all transitive runAfter ancestors of the step. */
  ghost predicate SameAncestors(flow: Flow, step: Step, v: View, w: View) {
    exists A: set<string> :: AncestorClosed(flow, A) && DepsWithin(step, A) && AgreeOn(v, w, A)
  }

  ghost predicate Local(flow: Flow, o: Oracle) {
    forall step: Step, v: View, w: View | step in flow.steps && SameAncestors(flow, step, v, w) ::
      o.when(step, v) == o.when(step, w) && o.act(step, v) == o.act(step, w)
  }

  lemma {:induction false} EvaluateLocal(flow: Flow, o: Oracle, step: Step, v: View, w: View, A: set<string>)
    requires Local(flow, o) && step in flow.steps
    requires AncestorClosed(flow, A) && DepsWithin(step, A) && AgreeOn(v, w, A)
    ensures Evaluate(o, step, v) == Evaluate(o, step, w)
    ensures Ready(flow, step, v) == Ready(flow, step, w)
  {
    assert SameAncestors(flow, step, v, w);
    assert forall d | d in step.runAfter :: d in A;
  }

  // ---- The stages grow to a fixpoint ----

  ghost predicate Within(v: View, w: View) {
    forall n | n in v :: n in w && w[n] == v[n]
  }

  lemma {:induction false} LayerMonotone(flow: Flow, o: Oracle, v: View, w: View)
    requires UniqueNames(flow) && Local(flow, o) && Within(v, w) && AncestorClosed(flow, v.Keys)
    ensures Within(Layer(flow, o, v), Layer(flow, o, w))
  {
    forall n | n in Layer(flow, o, v) ensures n in Layer(flow, o, w) && Layer(flow, o, w)[n] == Layer(flow, o, v)[n] {
      var step := StepNamed(flow, n);
      forall d | d in step.runAfter ensures d in v.Keys { assert Usable(flow, v, d); }
      EvaluateLocal(flow, o, step, v, w, v.Keys);
    }
  }

  lemma {:induction false} LayerAncestors(flow: Flow, o: Oracle, v: View)
    requires UniqueNames(flow) && Within(v, Layer(flow, o, v))
    ensures AncestorClosed(flow, Layer(flow, o, v).Keys)
  {
    var next := Layer(flow, o, v);
    forall step | step in flow.steps && step.name in next ensures DepsWithin(step, next.Keys) {
      FindStepUnique(flow, step);
      forall d | d in step.runAfter ensures d in next.Keys { assert Usable(flow, v, d); }
    }
  }

  lemma {:induction false} StagesGrow(flow: Flow, o: Oracle, depth: nat)
    requires UniqueNames(flow) && Local(flow, o)
    ensures Within(Stage(flow, o, depth), Stage(flow, o, depth + 1))
    ensures AncestorClosed(flow, Stage(flow, o, depth).Keys)
  {
    hide Layer;
    if depth > 0 {
      var v, w := Stage(flow, o, depth - 1), Stage(flow, o, depth);
      StagesGrow(flow, o, depth - 1);
      LayerMonotone(flow, o, v, w);
      LayerAncestors(flow, o, v);
    }
  }

  lemma {:induction false} NamesBound(steps: seq<Step>)
    ensures |set s | s in steps :: s.name| <= |steps|
  {
    if steps != [] {
      var last := |steps| - 1;
      NamesBound(steps[..last]);
      assert (set s | s in steps :: s.name) == (set s | s in steps[..last] :: s.name) + {steps[last].name}
      by {
        forall s | s in steps ensures s.name in (set t | t in steps[..last] :: t.name) + {steps[last].name} {
          var i :| 0 <= i < |steps| && steps[i] == s;
          if i < last { assert steps[..last][i] == s; }
        }
        forall s | s in steps[..last] ensures s in steps {}
        assert steps[last] in steps;
      }
    }
  }

  lemma {:induction false} SubsetSize<T>(a: set<T>, b: set<T>)
    requires a <= b
    ensures |a| <= |b|
    ensures |a| == |b| ==> a == b
  {
    assert b == a + (b - a);
    assert |b| == |a| + |b - a|;
  }

  lemma {:induction false} SameKeysSameView(v: View, w: View)
    requires Within(v, w) && |v.Keys| == |w.Keys|
    ensures v == w
  {
    SubsetSize(v.Keys, w.Keys);
  }

  lemma {:induction false} GrowsOrSettles(v: View, w: View, size: nat)
    requires Within(v, w) && |v.Keys| >= size
    ensures v == w || |w.Keys| >= size + 1
  {
    assert v.Keys <= w.Keys;
    SubsetSize(v.Keys, w.Keys);
    if |v.Keys| == |w.Keys| { SameKeysSameView(v, w); }
  }

  lemma {:induction false} StagesSettle(flow: Flow, o: Oracle, depth: nat)
    requires UniqueNames(flow) && Local(flow, o)
    ensures Stage(flow, o, depth) == Stage(flow, o, depth + 1) || |Stage(flow, o, depth + 1).Keys| >= depth + 1
  {
    hide Layer;
    var v := Stage(flow, o, depth);
    StagesGrow(flow, o, depth);
    if depth > 0 && Stage(flow, o, depth - 1) == v {
      assert Stage(flow, o, depth + 1) == Layer(flow, o, v);
    } else {
      if depth > 0 { StagesSettle(flow, o, depth - 1); }
      GrowsOrSettles(v, Stage(flow, o, depth + 1), depth);
    }
  }

  /** Meaning solves the recursion: it assigns a value to exactly the steps whose
      dependencies have usable values in it, and that value is the step evaluated
      in it. */
  lemma {:induction false} MeaningIsFixpoint(flow: Flow, o: Oracle)
    requires UniqueNames(flow) && Local(flow, o)
    ensures Layer(flow, o, Meaning(flow, o)) == Meaning(flow, o)
    ensures AncestorClosed(flow, Meaning(flow, o).Keys)
  {
    var n := |flow.steps|;
    StagesGrow(flow, o, n);
    StagesSettle(flow, o, n);
    var w := Stage(flow, o, n + 1);
    assert w.Keys <= StepNames(flow);
    SubsetSize(w.Keys, StepNames(flow));
    NamesBound(flow.steps);
  }

  lemma {:induction false} LayerAt(flow: Flow, o: Oracle, v: View, n: string)
    requires n in StepNames(flow)
    ensures n in Layer(flow, o, v) <==> Ready(flow, StepNamed(flow, n), v)
    ensures n in Layer(flow, o, v) ==> Layer(flow, o, v)[n] == Evaluate(o, StepNamed(flow, n), v)
  {}

  function RankedBelow(flow: Flow, rank: map<string, nat>, bound: nat): set<string> {
    set n | n in StepNames(flow) && n in rank && rank[n] < bound
  }

  lemma {:induction false} BelowIsClosed(flow: Flow, rank: map<string, nat>, bound: nat)
    requires RankedBy(flow, rank)
    ensures AncestorClosed(flow, RankedBelow(flow, rank, bound))
    ensures forall step | step in flow.steps && step.name in RankedBelow(flow, rank, bound + 1) ::
      DepsWithin(step, RankedBelow(flow, rank, bound))
  {
    forall step | step in flow.steps ensures step.name in RankedBelow(flow, rank, bound + 1) ==>
      DepsWithin(step, RankedBelow(flow, rank, bound))
    {
      assert RankedStep(flow, rank, step);
    }
  }

  lemma {:induction false} SolutionsAgree(flow: Flow, o: Oracle, v: View, w: View, rank: map<string, nat>, bound: nat)
    requires UniqueNames(flow) && Local(flow, o) && RankedBy(flow, rank)
    requires Layer(flow, o, v) == v && Layer(flow, o, w) == w
    ensures AgreeOn(v, w, RankedBelow(flow, rank, bound))
  {
    hide Layer, Local, RankedBy, AncestorClosed, DepsWithin, Evaluate, Ready;
    if bound > 0 {
      SolutionsAgree(flow, o, v, w, rank, bound - 1);
      BelowIsClosed(flow, rank, bound - 1);
      var A := RankedBelow(flow, rank, bound - 1);
      forall n | n in RankedBelow(flow, rank, bound) ensures (n in v <==> n in w) && (n in v ==> v[n] == w[n]) {
        EvaluateLocal(flow, o, StepNamed(flow, n), v, w, A);
        LayerAt(flow, o, v, n);
        LayerAt(flow, o, w, n);
      }
    }
  }

  lemma {:induction false} LayerKeys(flow: Flow, o: Oracle, v: View)
    ensures Layer(flow, o, v).Keys <= StepNames(flow)
  {}

  lemma {:induction false} SolutionsEqual(flow: Flow, o: Oracle, v: View, w: View, rank: map<string, nat>)
    requires UniqueNames(flow) && Local(flow, o) && RankedBy(flow, rank)
    requires Layer(flow, o, v) == v && Layer(flow, o, w) == w
    ensures v == w
  {
    hide Layer, Local;
    LayerKeys(flow, o, v);
    LayerKeys(flow, o, w);
    forall n | n in StepNames(flow) ensures (n in v <==> n in w) && (n in v ==> v[n] == w[n]) {
      assert RankedStep(flow, rank, StepNamed(flow, n));
      SolutionsAgree(flow, o, v, w, rank, rank[n] + 1);
      assert n in RankedBelow(flow, rank, rank[n] + 1);
    }
  }

  /** On an acyclic Flow it is the only solution. */
  lemma {:induction false} MeaningIsUnique(flow: Flow, o: Oracle, v: View)
    requires UniqueNames(flow) && Local(flow, o) && Acyclic(flow)
    requires Layer(flow, o, v) == v
    ensures v == Meaning(flow, o)
  {
    hide Layer, Meaning, Local;
    var rank :| RankedBy(flow, rank);
    MeaningIsFixpoint(flow, o);
    SolutionsEqual(flow, o, v, Meaning(flow, o), rank);
  }

  ghost predicate SamePermuted(f: Flow, g: Flow) {
    && UniqueNames(f) && UniqueNames(g) && multiset(f.steps) == multiset(g.steps)
    && f.continueOnFailure == g.continueOnFailure
  }

  lemma {:induction false} SameLookup(f: Flow, g: Flow, n: string)
    requires SamePermuted(f, g)
    ensures FindStep(f.steps, n) == FindStep(g.steps, n)
    ensures n in StepNames(f) <==> n in StepNames(g)
  {
    forall s ensures s in f.steps <==> s in g.steps {
      assert s in f.steps <==> s in multiset(f.steps);
      assert s in g.steps <==> s in multiset(g.steps);
    }
    if FindStep(f.steps, n).Some? { FindStepUnique(g, FindStep(f.steps, n).value); }
    else if FindStep(g.steps, n).Some? { FindStepUnique(f, FindStep(g.steps, n).value); }
  }

  lemma {:induction false} LayerOrderIrrelevant(f: Flow, g: Flow, o: Oracle, v: View)
    requires SamePermuted(f, g)
    ensures Layer(f, o, v) == Layer(g, o, v)
  {
    forall n: string
      ensures FindStep(f.steps, n) == FindStep(g.steps, n) && (n in StepNames(f) <==> n in StepNames(g))
    {
      SameLookup(f, g, n);
    }
    forall n | n in StepNames(f) ensures Ready(f, StepNamed(f, n), v) == Ready(g, StepNamed(g, n), v) {
      forall d | d in StepNamed(f, n).runAfter ensures Usable(f, v, d) == Usable(g, v, d) {
        assert FindStep(f.steps, d) == FindStep(g.steps, d);
      }
    }
  }

  lemma {:induction false} StageOrderIrrelevant(f: Flow, g: Flow, o: Oracle, depth: nat)
    requires SamePermuted(f, g)
    ensures Stage(f, o, depth) == Stage(g, o, depth)
  {
    hide Layer;
    if depth > 0 {
      StageOrderIrrelevant(f, g, o, depth - 1);
      LayerOrderIrrelevant(f, g, o, Stage(f, o, depth - 1));
    }
  }

  /** The order in which the spec lists the steps is irrelevant. */
  lemma {:induction false} SpecOrderIrrelevant(f: Flow, g: Flow, o: Oracle)
    requires SamePermuted(f, g)
    ensures Meaning(f, o) == Meaning(g, o)
  {
    assert |f.steps| == |multiset(f.steps)| == |multiset(g.steps)| == |g.steps|;
    StageOrderIrrelevant(f, g, o, |f.steps|);
  }

  // ---- The engine records the meaning ----

  /** A recorded status says what the meaning says; a Waiting step will succeed. */
  predicate Agrees(meaning: View, s: StepStatus) {
    && s.name in meaning
    && meaning[s.name] ==
       (if s.phase == StepPhase.Waiting then StepValue(StepPhase.Succeeded, map[]) else StepValue(s.phase, s.results))
  }

  predicate Consistent(meaning: View, ss: seq<StepStatus>) {
    forall s | s in ss :: Agrees(meaning, s)
  }

  /** The reconcile draws its verdicts and outcomes from the oracle; its clock and
      its transport are its own. */
  ghost predicate Uses(inp: Input, o: Oracle) {
    inp.when == o.when && inp.act == o.act
  }

  function SettledNames(ss: seq<StepStatus>): set<string> {
    set s | s in ss && Settled(s.phase) :: s.name
  }

  lemma {:induction false} SettledAncestors(flow: Flow, ss: seq<StepStatus>)
    requires UniqueNames(flow) && Topological(flow, ss)
    ensures AncestorClosed(flow, SettledNames(ss))
  {
    forall s | s in flow.steps && s.name in SettledNames(ss) ensures DepsWithin(s, SettledNames(ss)) {
      FindStepUnique(flow, s);
      var i :| 0 <= i < |ss| && Settled(ss[i].phase) && ss[i].name == s.name;
      assert Recorded(flow, ss, i);
      forall d | d in s.runAfter ensures d in SettledNames(ss) {
        assert DependencyMet(flow, ss[..i], d);
        assert ss[IndexOf(ss[..i], d)] in ss;
      }
    }
  }

  lemma {:induction false} SettledAgree(m: View, ss: seq<StepStatus>)
    requires Distinct(ss) && Consistent(m, ss)
    ensures AgreeOn(ViewOf(ss), m, SettledNames(ss))
  {
    forall n | n in SettledNames(ss) ensures n in ViewOf(ss) && n in m && ViewOf(ss)[n] == m[n] {
      var i :| 0 <= i < |ss| && Settled(ss[i].phase) && ss[i].name == n;
      DistinctFind(ss, i);
    }
  }

  lemma {:induction false} MetIsReady(flow: Flow, ss: seq<StepStatus>, step: Step)
    requires DependenciesMet(flow, step, ss)
    ensures Ready(flow, step, ViewOf(ss)) && DepsWithin(step, SettledNames(ss))
  {
    forall d | d in step.runAfter ensures Usable(flow, ViewOf(ss), d) && d in SettledNames(ss) {
      assert DependencyMet(flow, ss, d);
    }
  }

  /** A step whose dependencies are met evaluates, on what is recorded so far, to its
      meaning. */
  lemma {:induction false} SeesAncestors(flow: Flow, o: Oracle, ss: seq<StepStatus>, step: Step)
    requires UniqueNames(flow) && Local(flow, o) && Topological(flow, ss)
    requires Consistent(Meaning(flow, o), ss)
    requires step in flow.steps && DependenciesMet(flow, step, ss)
    ensures step.name in Meaning(flow, o)
    ensures Meaning(flow, o)[step.name] == Evaluate(o, step, ViewOf(ss))
  {
    var m := Meaning(flow, o);
    SettledAncestors(flow, ss);
    SettledAgree(m, ss);
    MetIsReady(flow, ss, step);
    EvaluateLocal(flow, o, step, ViewOf(ss), m, SettledNames(ss));
    MeaningIsFixpoint(flow, o);
    FindStepUnique(flow, step);
    assert step.name in Layer(flow, o, m);
  }

  lemma {:induction false} ViewSkips(ss: seq<StepStatus>, step: Step)
    ensures OnlySkipped(step, ViewOf(ss)) == AllDepsSkipped(step, ss)
  {
    forall d | d in step.runAfter
      ensures (d in ViewOf(ss) && ViewOf(ss)[d].phase == StepPhase.Skipped)
           == (Find(ss, d).Some? && Find(ss, d).value.phase == StepPhase.Skipped)
    {}
  }

  lemma {:induction false} UpsertConsistent(m: View, ss: seq<StepStatus>, s: StepStatus)
    requires Consistent(m, ss) && Agrees(m, s)
    ensures Consistent(m, Upsert(ss, s))
  {}

  lemma {:induction false} UpsertAllConsistent(m: View, ss: seq<StepStatus>, updates: seq<StepStatus>)
    requires Consistent(m, ss) && Consistent(m, updates)
    ensures Consistent(m, UpsertAll(ss, updates))
    decreases |updates|
  {
    if updates != [] {
      UpsertConsistent(m, ss, updates[0]);
      UpsertAllConsistent(m, Upsert(ss, updates[0]), updates[1..]);
    }
  }

  lemma {:induction false} InlineAgrees(flow: Flow, o: Oracle, inp: Input, ss: seq<StepStatus>, k: nat)
    requires UniqueNames(flow) && Local(flow, o) && Topological(flow, ss) && Uses(inp, o)
    requires Consistent(Meaning(flow, o), ss)
    ensures Consistent(Meaning(flow, o), InlineScan(flow, inp, ss, k).updates)
    decreases |flow.steps| - k
  {
    hide Meaning, Local, DependenciesMet;
    if k < |flow.steps| {
      var step := flow.steps[k];
      if DependenciesMet(flow, step, ss) && Fresh(ss, step.name) {
        SeesAncestors(flow, o, ss, step);
        ViewSkips(ss, step);
        if InlineVerdict(inp, step, ss).No? {
          var u := SkippedStatus(step.name, inp.now);
          FreshIsAbsent(flow, ss, step.name);
          FindStepUnique(flow, step);
          LegalKeepsOrder(flow, ss, u);
          UpsertConsistent(Meaning(flow, o), ss, u);
          InlineAgrees(flow, o, inp, Upsert(ss, u), k + 1);
        } else if InlineVerdict(inp, step, ss).Yes? {
          InlineAgrees(flow, o, inp, ss, k + 1);
        }
      } else {
        InlineAgrees(flow, o, inp, ss, k + 1);
      }
    }
  }

  lemma {:induction false} QuietVerdicts(flow: Flow, inp: Input, ss: seq<StepStatus>, k: nat, j: nat)
    requires InlineScan(flow, inp, ss, k) == InlineResult([], Completed)
    requires k <= j < |flow.steps|
    requires DependenciesMet(flow, flow.steps[j], ss) && Fresh(ss, flow.steps[j].name)
    ensures InlineVerdict(inp, flow.steps[j], ss) == Yes
    decreases |flow.steps| - k
  {
    hide DependenciesMet, Fresh, InlineVerdict;
    if k < j { QuietVerdicts(flow, inp, ss, k + 1, j); }
  }

  /** A step admitted fresh to the wave evaluates to its action's outcome. */
  lemma {:induction false} FreshPerforms(flow: Flow, o: Oracle, inp: Input, ss: seq<StepStatus>, step: Step)
    requires UniqueNames(flow) && Local(flow, o) && Topological(flow, ss) && Uses(inp, o)
    requires Consistent(Meaning(flow, o), ss)
    requires InlineScan(flow, inp, ss, 0) == InlineResult([], Completed)
    requires step in flow.steps && DependenciesMet(flow, step, ss) && Fresh(ss, step.name)
    ensures step.name in Meaning(flow, o)
    ensures Meaning(flow, o)[step.name] == Perform(o, step, ViewOf(ss))
  {
    SeesAncestors(flow, o, ss, step);
    ViewSkips(ss, step);
    var j :| 0 <= j < |flow.steps| && flow.steps[j] == step;
    QuietVerdicts(flow, inp, ss, 0, j);
  }

  lemma {:induction false} WaitAgrees(flow: Flow, o: Oracle, inp: Input, ss: seq<StepStatus>, step: Step)
    requires UniqueNames(flow) && Local(flow, o) && Topological(flow, ss) && Uses(inp, o)
    requires Consistent(Meaning(flow, o), ss)
    requires InlineScan(flow, inp, ss, 0) == InlineResult([], Completed)
    requires step in flow.steps && step.action.Wait? && Eligible(flow, step, ss)
    ensures Agrees(Meaning(flow, o), WaitUpdate(inp.now, step, ss))
  {
    hide DependenciesMet, Meaning, Local, InlineScan;
    if Fresh(ss, step.name) {
      FreshPerforms(flow, o, inp, ss, step);
      FreshIsAbsent(flow, ss, step.name);
    } else {
      assert Recorded(flow, ss, IndexOf(ss, step.name));
      FindStepUnique(flow, step);
    }
  }

  lemma {:induction false} ActAgrees(flow: Flow, o: Oracle, inp: Input, ss: seq<StepStatus>, step: Step)
    requires UniqueNames(flow) && Local(flow, o) && Topological(flow, ss) && Uses(inp, o)
    requires Consistent(Meaning(flow, o), ss)
    requires InlineScan(flow, inp, ss, 0) == InlineResult([], Completed)
    requires step in flow.steps && step.action.Io? && Eligible(flow, step, ss)
    ensures Agrees(Meaning(flow, o), ActStatus(inp, step, ViewOf(ss)))
  {
    hide Meaning, Local, DependenciesMet, InlineScan;
    FreshPerforms(flow, o, inp, ss, step);
  }

  ghost predicate ConsistentCall(m: View, call: ApiCall) {
    call.PutStatus? ==> Consistent(m, call.status.steps)
  }

  lemma {:induction false} WaveConsistent(flow: Flow, o: Oracle, inp: Input, st: RunStatus)
    requires UniqueNames(flow) && Local(flow, o) && Topological(flow, st.steps) && Uses(inp, o)
    requires Consistent(Meaning(flow, o), st.steps)
    requires InlineScan(flow, inp, st.steps, 0) == InlineResult([], Completed)
    ensures ConsistentCall(Meaning(flow, o), WaveSegment(flow, inp, st))
  {
    hide Meaning, Local, Wave, WaitUpdate, ActStatus, Topological, UpsertAll, Upsert;
    var m, ss := Meaning(flow, o), st.steps;
    var wave := Wave(flow, ss, 0);
    if wave != [] {
      match FirstWait(wave) {
        case Some(step) =>
          WaitAgrees(flow, o, inp, ss, step);
          UpsertConsistent(m, ss, WaitUpdate(inp.now, step, ss));
        case None =>
          var updates := WaveUpdates(inp, wave, ViewOf(ss));
          forall u | u in updates ensures Agrees(m, u) {
            var i :| 0 <= i < |updates| && updates[i] == u;
            assert wave[i] in wave;
            ActAgrees(flow, o, inp, ss, wave[i]);
          }
          UpsertAllConsistent(m, ss, updates);
      }
    }
  }

  lemma {:induction false} InlineConsistent(flow: Flow, o: Oracle, inp: Input, st: RunStatus, from: nat, skipped: bool)
    requires UniqueNames(flow) && Local(flow, o) && Topological(flow, st.steps) && Uses(inp, o)
    requires Consistent(Meaning(flow, o), st.steps)
    requires skipped || from == 0
    ensures ConsistentCall(Meaning(flow, o), InlineSegment(flow, inp, st, from, skipped))
  {
    var r := InlineScan(flow, inp, st.steps, from);
    InlineAgrees(flow, o, inp, st.steps, from);
    UpsertAllConsistent(Meaning(flow, o), st.steps, r.updates);
    if r.stop.Completed? && !skipped && r.updates == [] {
      WaveConsistent(flow, o, inp, st);
    }
  }

  lemma {:induction false} SegmentConsistent(flow: Flow, o: Oracle, inp: Input, run: FlowRun, pc: Pc)
    requires UniqueNames(flow) && Local(flow, o) && Topological(flow, run.status.steps) && Uses(inp, o)
    requires Consistent(Meaning(flow, o), run.status.steps)
    ensures ConsistentCall(Meaning(flow, o), Segment(flow, inp, run, pc))
  {
    hide Meaning, Local, Topological, Consistent, InlineSegment;
    if pc.Inline? {
      InlineConsistent(flow, o, inp, run.status, pc.from, true);
    } else {
      InlineConsistent(flow, o, inp, run.status, 0, false);
    }
  }

  ghost predicate HistoryConsistent(m: View, h: seq<FlowRun>) {
    forall i | 0 <= i < |h| :: Consistent(m, h[i].status.steps)
  }

  ghost predicate EventsUse(events: seq<Event>, o: Oracle) {
    forall e | e in events :: (e.Advance? ==> Uses(e.inp, o))
  }

  lemma {:induction false} RunConsistent(flow: Flow, o: Oracle, c: State, events: seq<Event>)
    requires UniqueNames(flow) && Local(flow, o) && Inv(flow, c) && EventsUse(events, o)
    requires HistoryConsistent(Meaning(flow, o), c.history)
    ensures HistoryConsistent(Meaning(flow, o), Run(flow, c, events).history)
    decreases |events|
  {
    hide Meaning, Local, Segment;
    if events != [] {
      var e := events[0];
      var n := Next(flow, c, e);
      NextKeepsInv(flow, c, e);
      if e.Advance? && e.worker in c.workers {
        var at := c.workers[e.worker];
        assert WorkerOk(flow, c.history, at);
        var run := c.history[at.version];
        assert RunInv(flow, run.status);
        SegmentConsistent(flow, o, e.inp, run, at.pc);
      }
      assert HistoryConsistent(Meaning(flow, o), n.history);
      RunConsistent(flow, o, n, events[1..]);
    }
  }

  /** Refinement: whatever the interleaving, the stale reads, the lost updates, the
      crashes and the transport failures, every settled step status recorded in any
      version has the phase and the results of the recursive evaluation. */
  lemma {:induction false} WavesRefineEvaluation(flow: Flow, o: Oracle, c: State, events: seq<Event>, v: nat,
                                                 s: StepStatus)
    requires UniqueNames(flow) && Local(flow, o) && Initial(c) && EventsUse(events, o)
    requires v < |Run(flow, c, events).history|
    requires s in Run(flow, c, events).history[v].status.steps && Settled(s.phase)
    ensures s.name in Meaning(flow, o)
    ensures Meaning(flow, o)[s.name] == StepValue(s.phase, s.results)
  {
    Reachable(flow, c, []);
    RunConsistent(flow, o, c, events);
    assert Agrees(Meaning(flow, o), s);
  }

  lemma {:induction false} LayerInClosed(flow: Flow, o: Oracle, C: set<string>, v: View)
    requires Closed(flow, C) && v.Keys <= C
    ensures Layer(flow, o, v).Keys <= C
  {
    forall n | n in Layer(flow, o, v) ensures n in C {
      var step := StepNamed(flow, n);
      forall d | d in step.runAfter ensures d in C { assert Usable(flow, v, d); }
      assert DepsWithin(step, C);
    }
  }

  lemma {:induction false} StageInClosed(flow: Flow, o: Oracle, C: set<string>, depth: nat)
    requires Closed(flow, C)
    ensures Stage(flow, o, depth).Keys <= C
  {
    hide Layer;
    if depth > 0 {
      StageInClosed(flow, o, C, depth - 1);
      LayerInClosed(flow, o, C, Stage(flow, o, depth - 1));
    }
  }

  /** A Succeeded run has recorded the whole meaning: same steps, same phases, same
      results. Two Succeeded runs of a Flow therefore agree on everything. */
  lemma {:induction false} SucceededIsMeaning(flow: Flow, o: Oracle, c: State, events: seq<Event>, v: nat)
    requires UniqueNames(flow) && Local(flow, o) && Initial(c) && EventsUse(events, o)
    requires v < |Run(flow, c, events).history|
    requires Run(flow, c, events).history[v].status.phase == RunPhase.Succeeded
    ensures ViewOf(Run(flow, c, events).history[v].status.steps) == Meaning(flow, o)
  {
    hide Run, Local, Layer;
    var ss := Run(flow, c, events).history[v].status.steps;
    var m := Meaning(flow, o);
    SucceededIsLeastFixpoint(flow, c, events, v);
    forall n | n in Names(ss) ensures n in m && ViewOf(ss)[n] == m[n] {
      WavesRefineEvaluation(flow, o, c, events, v, Find(ss, n).value);
    }
    StageInClosed(flow, o, Names(ss), |flow.steps|);
    assert ViewOf(ss).Keys == Names(ss);
  }

  /** Some step of the meaning fails and nothing tolerates it. */
  predicate MeaningFails(flow: Flow, o: Oracle) {
    exists step | step in flow.steps ::
      && step.name in Meaning(flow, o)
      && Meaning(flow, o)[step.name].phase == StepPhase.Failed
      && !StepTolerated(flow, step)
  }

  /** The verdict is the meaning's: without outside causes, a run that ends in
      Succeeded or Failed ends in Succeeded exactly when the recursive evaluation
      has no failure that nothing tolerates, however it was scheduled. */
  lemma {:induction false} VerdictIsMeaning(flow: Flow, o: Oracle, c: State, events: seq<Event>, v: nat)
    requires UniqueNames(flow) && Local(flow, o) && Initial(c) && EventsUse(events, o)
    requires CalmRun(flow, c, events)
    requires v < |Run(flow, c, events).history|
    requires var phase := Run(flow, c, events).history[v].status.phase;
      phase == RunPhase.Succeeded || phase == RunPhase.Failed
    ensures Run(flow, c, events).history[v].status.phase == RunPhase.Succeeded <==> !MeaningFails(flow, o)
  {
    hide Run, Local, Layer, Meaning;
    var st := Run(flow, c, events).history[v].status;
    if st.phase == RunPhase.Succeeded {
      SucceededIsMeaning(flow, o, c, events, v);
      SucceededIsLeastFixpoint(flow, c, events, v);
      forall step | step in flow.steps && step.name in Meaning(flow, o)
        && Meaning(flow, o)[step.name].phase == StepPhase.Failed
        ensures StepTolerated(flow, step)
      {
        assert step.name in ViewOf(st.steps);
        assert Find(st.steps, step.name).value in st.steps;
        FindStepUnique(flow, step);
      }
    } else {
      FailedOnlyForFatalStep(flow, c, events, v);
      var s, step :| s in st.steps && s.phase == StepPhase.Failed && step in flow.steps && step.name == s.name
        && !StepTolerated(flow, step);
      WavesRefineEvaluation(flow, o, c, events, v, s);
    }
  }
}
