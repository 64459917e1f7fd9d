/** One reconcile of a FlowRun, cut at its API writes.

    Reconcile reads the object, computes locally, writes, and goes on with the
    object the server returned. Segment gives, for the object a worker holds and
    the place it has reached, the next API write (or the end of the reconcile).
    The clock, the `when` verdicts, the action outcomes, the executor transport
    and the Flow read are inputs. */
module Engine {
  import opened Common
  import opened Flows

  datatype RunPhase = Blank | Pending | Running | Succeeded | Failed | Cancelled

  datatype Meta = Meta(finalizer: bool, deleting: bool, cancelRequested: bool, phaseLabel: Option<RunPhase>)

  datatype RunStatus = RunStatus(
    phase: RunPhase,
    startTime: Option<Time>,
    completionTime: Option<Time>,
    steps: seq<StepStatus>)

  /** Metadata and status are separate API subresources. */
  datatype FlowRun = FlowRun(meta: Meta, status: RunStatus)

  predicate Terminal(p: RunPhase) {
    p == RunPhase.Succeeded || p == RunPhase.Failed || p == RunPhase.Cancelled
  }

  predicate NotStarted(p: RunPhase) {
    p == RunPhase.Blank || p == RunPhase.Pending
  }

  // ---- Inputs from outside the engine ----

  datatype StepValue = StepValue(phase: StepPhase, results: map<string, string>)

  /** What a `when` expression or an action can see of the other steps. */
  type View = map<string, StepValue>

  datatype Verdict = Yes | No | Error

  datatype Outcome = Done(results: map<string, string>) | Broken

  datatype FlowRead = Found | NotFound | ReadError

  datatype Input = Input(
    now: Time,
    flowRead: FlowRead,
    paramsResolve: bool,
    executionTimeout: int,
    when: (Step, View) -> Verdict,
    act: (Step, View) -> Outcome,
    unreachable: Step -> bool)

  function ViewOf(ss: seq<StepStatus>): View {
    map n | n in Names(ss) :: var s := Find(ss, n).value; StepValue(s.phase, s.results)
  }

  // ---- Inline transitions: cascade skips and `when` verdicts ----

  /** The step has not been processed yet. */
  predicate Fresh(ss: seq<StepStatus>, name: string) {
    var s := Find(ss, name);
    s.None? || s.value.phase == StepPhase.Blank || s.value.phase == StepPhase.Pending
  }

  function InlineVerdict(inp: Input, step: Step, ss: seq<StepStatus>): Verdict {
    if AllDepsSkipped(step, ss) then No
    else if |step.when| > 0 then inp.when(step, ViewOf(ss))
    else Yes
  }

  function SkippedStatus(name: string, now: Time): StepStatus {
    StepStatus(name, StepPhase.Skipped, map[], None, Some(Persisted(now)), None)
  }

  function FailedStatus(name: string, now: Time): StepStatus {
    StepStatus(name, StepPhase.Failed, map[], None, Some(Persisted(now)), None)
  }

  datatype InlineStop = Completed | WhenFailed(index: nat)

  datatype InlineResult = InlineResult(updates: seq<StepStatus>, stop: InlineStop)

  /** The inline pass over the steps from index k: the statuses it records, in
      order, up to the first `when` error or the end. */
  function InlineScan(flow: Flow, inp: Input, ss: seq<StepStatus>, k: nat): (r: InlineResult)
    ensures r.stop.WhenFailed? ==> k <= r.stop.index < |flow.steps|
    decreases |flow.steps| - k
  {
    if k >= |flow.steps| then InlineResult([], Completed)
    else
      var step := flow.steps[k];
      if !DependenciesMet(flow, step, ss) || !Fresh(ss, step.name) then InlineScan(flow, inp, ss, k + 1)
      else
        match InlineVerdict(inp, step, ss)
        case Yes => InlineScan(flow, inp, ss, k + 1)
        case No =>
          var u := SkippedStatus(step.name, inp.now);
          var r := InlineScan(flow, inp, Upsert(ss, u), k + 1);
          InlineResult([u] + r.updates, r.stop)
        case Error => InlineResult([FailedStatus(step.name, inp.now)], WhenFailed(k))
  }

  // ---- The wave ----

  predicate Eligible(flow: Flow, step: Step, ss: seq<StepStatus>) {
    && DependenciesMet(flow, step, ss)
    && (Fresh(ss, step.name) || (Find(ss, step.name).value.phase == StepPhase.Waiting && step.action.Wait?))
  }

  /** The steps admitted to this wave, in spec order, from index k. */
  function Wave(flow: Flow, ss: seq<StepStatus>, k: nat): (w: seq<Step>)
    ensures forall step | step in w :: step in flow.steps && Eligible(flow, step, ss)
    ensures forall j | k <= j < |flow.steps| && Eligible(flow, flow.steps[j], ss) :: flow.steps[j] in w
    decreases |flow.steps| - k
  {
    if k >= |flow.steps| then []
    else if Eligible(flow, flow.steps[k], ss) then [flow.steps[k]] + Wave(flow, ss, k + 1)
    else Wave(flow, ss, k + 1)
  }

  function FirstWait(wave: seq<Step>): (r: Option<Step>)
    ensures r.Some? ==> r.value in wave && r.value.action.Wait?
    ensures r.None? ==> forall s | s in wave :: !s.action.Wait?
  {
    if wave == [] then None
    else if wave[0].action.Wait? then Some(wave[0])
    else FirstWait(wave[1..])
  }

  /** The status a wait step gets when it is examined. */
  function WaitUpdate(now: Time, step: Step, ss: seq<StepStatus>): (u: StepStatus)
    requires step.action.Wait?
    ensures u.name == step.name
  {
    var prior := Find(ss, step.name);
    var start := if prior.Some? && prior.value.start.Some? then prior.value.start else Some(Persisted(now));
    match step.action.duration
    case None => StepStatus(step.name, StepPhase.Failed, map[], start, Some(Persisted(now)), None)
    case Some(d) =>
      if prior.Some? && prior.value.resume.Some? then
        if now < prior.value.resume.value then
          StepStatus(step.name, StepPhase.Waiting, map[], start, None, prior.value.resume)
        else
          StepStatus(step.name, StepPhase.Succeeded, map[], start, Some(Persisted(now)), None)
      else if d > 0 then
        StepStatus(step.name, StepPhase.Waiting, map[], start, None, Some(Persisted(now + d)))
      else
        StepStatus(step.name, StepPhase.Succeeded, map[], start, Some(Persisted(now)), Some(Persisted(now + d)))
  }

  function ActStatus(inp: Input, step: Step, view: View): (u: StepStatus)
    ensures u.name == step.name
  {
    match inp.act(step, view)
    case Done(results) =>
      StepStatus(step.name, StepPhase.Succeeded, results, Some(Persisted(inp.now)), Some(Persisted(inp.now)), None)
    case Broken =>
      StepStatus(step.name, StepPhase.Failed, map[], Some(Persisted(inp.now)), Some(Persisted(inp.now)), None)
  }

  function WaveUpdates(inp: Input, wave: seq<Step>, view: View): seq<StepStatus> {
    seq(|wave|, i requires 0 <= i < |wave| => ActStatus(inp, wave[i], view))
  }

  /** Some step of the wave failed and its failure ends the run. */
  predicate Fatal(flow: Flow, wave: seq<Step>, updates: seq<StepStatus>)
    requires |wave| == |updates|
  {
    exists i | 0 <= i < |wave| :: updates[i].phase == StepPhase.Failed && !StepTolerated(flow, wave[i])
  }

  // ---- Segments ----

  /** Where a worker stands between two API calls. */
  datatype Pc =
    | Start             // the object has just been read
    | Begin             // the finalizer has been added
    | Body              // the object is Running
    | Inline(from: nat) // a tolerated `when` error has been stored
    | FailNow           // a fatal step failure has been stored
    | Orphan            // the startup scan found the run past its time
    | Label             // a terminal phase has been stored
    | Stop

  /** Each write moves a worker strictly forward through Reconcile. */
  function PcRank(flow: Flow, pc: Pc): nat {
    match pc
    case Start => |flow.steps| + 6
    case Begin => |flow.steps| + 5
    case Body => |flow.steps| + 4
    case Inline(k) => 3 + (if k < |flow.steps| then |flow.steps| - k else 0)
    case FailNow => 2
    case Orphan => 2
    case Label => 1
    case Stop => 0
  }

  datatype ApiCall = PutStatus(status: RunStatus, next: Pc) | PutMeta(meta: Meta, next: Pc) | Return

  function Finish(st: RunStatus, phase: RunPhase, now: Time): ApiCall {
    PutStatus(st.(phase := phase, completionTime := Some(Persisted(now))), Label)
  }

  function BeginRunning(st: RunStatus, now: Time): ApiCall {
    PutStatus(st.(phase := RunPhase.Running, startTime := Some(Persisted(now))), Body)
  }

  /** A recorded failure that no policy tolerates. */
  predicate HasFatalFailure(flow: Flow, ss: seq<StepStatus>) {
    exists s | s in ss :: s.phase == StepPhase.Failed &&
      exists step | step in flow.steps :: step.name == s.name && !StepTolerated(flow, step)
  }

  function FinalVerdict(flow: Flow, inp: Input, st: RunStatus): ApiCall {
    Finish(st, if HasFatalFailure(flow, st.steps) then RunPhase.Failed else RunPhase.Succeeded, inp.now)
  }

  predicate AllSettled(flow: Flow, ss: seq<StepStatus>) {
    forall step | step in flow.steps :: Find(ss, step.name).Some? && Settled(Find(ss, step.name).value.phase)
  }

  predicate AnyRunning(flow: Flow, ss: seq<StepStatus>) {
    exists step | step in flow.steps ::
      var s := Find(ss, step.name);
      s.Some? && (s.value.phase == StepPhase.Running || s.value.phase == StepPhase.Waiting)
  }

  function WaveSegment(flow: Flow, inp: Input, st: RunStatus): ApiCall {
    var wave := Wave(flow, st.steps, 0);
    if wave == [] then
      if AnyRunning(flow, st.steps) then Return else FinalVerdict(flow, inp, st)
    else
      match FirstWait(wave)
      case Some(step) =>
        var u := WaitUpdate(inp.now, step, st.steps);
        var next := if u.phase == StepPhase.Failed && !StepTolerated(flow, step) then FailNow else Stop;
        PutStatus(st.(steps := Upsert(st.steps, u)), next)
      case None =>
        if exists step | step in wave :: inp.unreachable(step) then Return
        else
          var updates := WaveUpdates(inp, wave, ViewOf(st.steps));
          PutStatus(st.(steps := UpsertAll(st.steps, updates)), if Fatal(flow, wave, updates) then FailNow else Stop)
  }

  function InlineSegment(flow: Flow, inp: Input, st: RunStatus, from: nat, skipped: bool): ApiCall {
    var r := InlineScan(flow, inp, st.steps, from);
    var st' := st.(steps := UpsertAll(st.steps, r.updates));
    match r.stop
    case WhenFailed(k) =>
      PutStatus(st', if StepTolerated(flow, flow.steps[k]) then Inline(k + 1) else FailNow)
    case Completed =>
      if skipped || r.updates != [] then PutStatus(st', Stop) else WaveSegment(flow, inp, st)
  }

  predicate TimedOut(inp: Input, st: RunStatus) {
    inp.executionTimeout > 0 && st.startTime.Some? && inp.now - st.startTime.value > inp.executionTimeout
  }

  function BodySegment(flow: Flow, inp: Input, st: RunStatus): ApiCall {
    if TimedOut(inp, st) || !inp.paramsResolve then Finish(st, RunPhase.Failed, inp.now)
    else if AllSettled(flow, st.steps) then FinalVerdict(flow, inp, st)
    else InlineSegment(flow, inp, st, 0, false)
  }

  function StartSegment(flow: Flow, inp: Input, run: FlowRun): ApiCall {
    var st := run.status;
    if st.phase == RunPhase.Running && (run.meta.deleting || run.meta.cancelRequested) then
      Finish(st, RunPhase.Cancelled, inp.now)
    else if Terminal(st.phase) then Return
    else
      match inp.flowRead
      case NotFound => Finish(st, RunPhase.Failed, inp.now)
      case ReadError => Return
      case Found =>
        if NotStarted(st.phase) then
          if !run.meta.finalizer then PutMeta(run.meta.(finalizer := true), Begin)
          else BeginRunning(st, inp.now)
        else BodySegment(flow, inp, st)
  }

  function Segment(flow: Flow, inp: Input, run: FlowRun, pc: Pc): ApiCall {
    match pc
    case Start => StartSegment(flow, inp, run)
    case Begin => BeginRunning(run.status, inp.now)
    case Body => BodySegment(flow, inp, run.status)
    case Inline(k) => InlineSegment(flow, inp, run.status, k, true)
    case FailNow => Finish(run.status, RunPhase.Failed, inp.now)
    case Orphan => Finish(run.status, RunPhase.Failed, inp.now)
    case Label => PutMeta(run.meta.(phaseLabel := Some(run.status.phase), finalizer := false), Stop)
    case Stop => Return
  }

  lemma {:induction false} WaveForward(flow: Flow, inp: Input, st: RunStatus)
    ensures var call := WaveSegment(flow, inp, st); !call.Return? ==> PcRank(flow, call.next) <= 2
  {
    hide Wave, FirstWait, WaitUpdate, HasFatalFailure, AnyRunning, Fatal, UpsertAll, Upsert, ViewOf, StepTolerated;
  }

  lemma {:induction false} InlineForward(flow: Flow, inp: Input, st: RunStatus, from: nat, skipped: bool)
    ensures var call := InlineSegment(flow, inp, st, from, skipped);
      !call.Return? ==> PcRank(flow, call.next) < PcRank(flow, Inline(from))
  {
    hide InlineScan, UpsertAll, WaveSegment, StepTolerated;
    WaveForward(flow, inp, st);
  }

  lemma {:induction false} BodyForward(flow: Flow, inp: Input, st: RunStatus)
    ensures var call := BodySegment(flow, inp, st); !call.Return? ==> PcRank(flow, call.next) < PcRank(flow, Body)
  {
    hide InlineSegment, AllSettled, HasFatalFailure;
    InlineForward(flow, inp, st, 0, false);
  }

  /** Every write moves a worker strictly forward, so a reconcile ends. */
  lemma {:induction false} SegmentForward(flow: Flow, inp: Input, run: FlowRun, pc: Pc)
    ensures var call := Segment(flow, inp, run, pc); !call.Return? ==> PcRank(flow, call.next) < PcRank(flow, pc)
  {
    hide InlineSegment, BodySegment;
    match pc {
      case Start => BodyForward(flow, inp, run.status);
      case Body => BodyForward(flow, inp, run.status);
      case Inline(k) => InlineForward(flow, inp, run.status, k, true);
      case _ =>
    }
  }

  /** The server's side of a write: one subresource is replaced, the other kept. */
  function Stored(run: FlowRun, call: ApiCall): FlowRun {
    match call
    case PutStatus(st, _) => run.(status := st)
    case PutMeta(m, _) => run.(meta := m)
    case Return => run
  }
}
