/** What the rotator's ticks guarantee over a whole run, and when the webhook
    configuration agrees with the served certificates. */
module CertRotation {
  import opened Common
  import opened WebhookCerts

  // ---- Runs by position ----

  /** The state after the first j events. */
  function After(opts: Options, s: State, events: seq<Event>, j: nat): State
    requires j <= |events|
  {
    Run(opts, s, events[..j])
  }

  lemma {:induction false} RunConcat(opts: Options, s: State, a: seq<Event>, b: seq<Event>)
    ensures Run(opts, s, a + b) == Run(opts, Run(opts, s, a), b)
    decreases |a|
  {
    hide Next;
    if a == [] {
      assert a + b == b;
    } else {
      assert (a + b)[1..] == a[1..] + b;
      RunConcat(opts, Next(opts, s, a[0]), a[1..], b);
    }
  }

  lemma {:induction false} AfterSplits(opts: Options, s: State, events: seq<Event>, i: nat, j: nat)
    requires i <= j <= |events|
    ensures After(opts, s, events, j) == Run(opts, After(opts, s, events, i), events[i..j])
  {
    assert events[..j] == events[..i] + events[i..j];
    RunConcat(opts, s, events[..i], events[i..j]);
  }

  lemma {:induction false} AfterNext(opts: Options, s: State, events: seq<Event>, i: nat)
    requires i < |events|
    ensures After(opts, s, events, i + 1) == Next(opts, After(opts, s, events, i), events[i])
  {
    hide Next;
    AfterSplits(opts, s, events, i, i + 1);
    assert events[i..i + 1] == [events[i]] + [];
    RunCons(opts, After(opts, s, events, i), events[i], []);
    RunNone(opts, Next(opts, After(opts, s, events, i), events[i]));
  }

  // ---- Since a moment ----

  /** How far a replica has got with what was judged at or after a moment. */
  datatype Progress = Judged | Written | Served

  /** Everything the replica is about to install was judged at or after `since`; with
      Written also what is on its disk, with Served also what it serves, if anything. */
  predicate Since(replica: Replica, since: Time, p: Progress) {
    && (match replica.pc
        case Creating(_, checked) => checked >= since
        case Updating(_, _, _, checked) => checked >= since
        case WriteCert(_, checked) => checked >= since
        case WriteKey(_, checked) => checked >= since && replica.disk.checked >= since
        case _ => true)
    && (p != Judged && replica.disk.cert.Good? ==> replica.disk.checked >= since)
    && (p == Served && replica.serving.Pair? ==> replica.serving.checked >= since)
  }

  lemma {:induction false} StepSince(opts: Options, s: State, r: nat, choice: nat, since: Time, p: Progress)
    requires r < |s.replicas| && since <= s.now && Since(s.replicas[r], since, p)
    ensures var t := StepReplica(opts, s, r, choice);
      r < |t.replicas| && t.now == s.now && Since(t.replicas[r], since, p)
  {
    hide NeedsRotation, NewSecret, Reissued, Patched, Version;
    var pc := s.replicas[r].pc;
    if pc.Patching? || pc.PatchHave? { ReturnedSince(s.replicas[r], since, p); hide Returned, Since; }
  }

  lemma {:induction false} ReturnedSince(replica: Replica, since: Time, p: Progress)
    requires (replica.pc.Patching? || replica.pc.PatchHave?) && Since(replica, since, p)
    ensures Since(Returned(replica), since, p)
    ensures forall pc: Pc | pc.Patching? || pc.PatchHave? :: Since(replica.(pc := pc), since, p)
  {}

  lemma {:induction false} OtherSteps(opts: Options, s: State, r: nat, choice: nat, other: nat)
    requires r < |s.replicas| && other < |s.replicas| && other != r
    ensures var t := StepReplica(opts, s, r, choice);
      other < |t.replicas| && t.now == s.now && t.replicas[other] == s.replicas[other]
  {
    hide NeedsRotation, NewSecret, Reissued, Patched;
  }

  lemma {:induction false} NextSince(opts: Options, s: State, e: Event, r: nat, since: Time, p: Progress)
    requires r < |s.replicas| && since <= s.now && Since(s.replicas[r], since, p)
    ensures var t := Next(opts, s, e); r < |t.replicas| && since <= t.now && Since(t.replicas[r], since, p)
  {
    hide StepReplica;
    if e.Step? && e.replica < |s.replicas| {
      if e.replica == r { StepSince(opts, s, r, e.choice, since, p); }
      else { OtherSteps(opts, s, e.replica, e.choice, r); }
    }
  }

  lemma {:induction false} RunSince(opts: Options, s: State, events: seq<Event>, r: nat, since: Time, p: Progress)
    requires r < |s.replicas| && since <= s.now && Since(s.replicas[r], since, p)
    ensures var t := Run(opts, s, events); r < |t.replicas| && since <= t.now && Since(t.replicas[r], since, p)
    decreases |events|
  {
    hide Since, Next;
    if events != [] {
      NextSince(opts, s, events[0], r, since, p);
      RunSince(opts, Next(opts, s, events[0]), events[1..], r, since, p);
    }
  }

  // ---- Ticks ----

  /** A successful tick of replica r: idle after a events, taking the key write of Ensure
      as event b, and as event d loading complete files or still starting up. */
  predicate Tick(opts: Options, s: State, events: seq<Event>, r: nat, a: nat, b: nat, d: nat) {
    && a <= b < d < |events| && r < |s.replicas|
    && TickStarts(After(opts, s, events, a), r)
    && TickWrites(After(opts, s, events, b), events[b], r)
    && TickLoads(After(opts, s, events, d), events[d], r)
  }

  predicate TickStarts(t: State, r: nat) {
    r < |t.replicas| && t.replicas[r].pc.Idle?
  }

  predicate TickWrites(t: State, e: Event, r: nat) {
    r < |t.replicas| && t.replicas[r].pc.WriteKey? && e.Step? && e.replica == r
  }

  predicate TickLoads(t: State, e: Event, r: nat) {
    r < |t.replicas| && (t.replicas[r].serving.Nothing? || (t.replicas[r].disk.complete && e == Load(r)))
  }

  /** From the load of a successful tick on, what the replica serves, if anything, was
      judged after the tick began, whatever failures, restarts, stale reads, rotations and
      other replicas follow. */
  lemma {:induction false} TickServes(opts: Options, s: State, events: seq<Event>, r: nat, a: nat, b: nat, d: nat,
                                      j: nat)
    requires Initial(s) && Tick(opts, s, events, r, a, b, d) && d < j <= |events|
    ensures var t := After(opts, s, events, j);
      r < |t.replicas| && Since(t.replicas[r], After(opts, s, events, a).now, Served)
  {
    hide Since, Run, Next, TickLoads, TickWrites;
    var start := After(opts, s, events, a);
    var since := start.now;
    assert Since(start.replicas[r], since, Judged) by { IdleSince(start.replicas[r], since); }
    AfterSplits(opts, s, events, a, b);
    RunSince(opts, start, events[a..b], r, since, Judged);
    var writing := After(opts, s, events, b);
    AfterNext(opts, s, events, b);
    KeyWritten(opts, writing, events[b], r, since);
    var written := After(opts, s, events, b + 1);
    AfterSplits(opts, s, events, b + 1, d);
    RunSince(opts, written, events[b + 1..d], r, since, Written);
    var loading := After(opts, s, events, d);
    AfterNext(opts, s, events, d);
    Reachable(opts, s, events[..d]);
    FilesLoaded(opts, loading, events[d], r, since);
    AfterSplits(opts, s, events, d + 1, j);
    RunSince(opts, After(opts, s, events, d + 1), events[d + 1..j], r, since, Served);
  }

  lemma {:induction false} IdleSince(replica: Replica, since: Time)
    requires replica.pc.Idle?
    ensures Since(replica, since, Judged)
  {}

  lemma {:induction false} KeyWritten(opts: Options, s: State, e: Event, r: nat, since: Time)
    requires TickWrites(s, e, r) && since <= s.now && Since(s.replicas[r], since, Judged)
    ensures var t := Next(opts, s, e); r < |t.replicas| && since <= t.now && Since(t.replicas[r], since, Written)
  {}

  lemma {:induction false} FilesLoaded(opts: Options, s: State, e: Event, r: nat, since: Time)
    requires Inv(opts, s) && TickLoads(s, e, r) && since <= s.now && Since(s.replicas[r], since, Written)
    ensures var t := Next(opts, s, e); r < |t.replicas| && since <= t.now && Since(t.replicas[r], since, Served)
  {
    assert ReplicaOk(opts, s, s.replicas[r]);
    if s.replicas[r].serving.Nothing? {
      hide Since, Next;
      assert Since(s.replicas[r], since, Served) by { NothingServed(s.replicas[r], since); }
      NextSince(opts, s, e, r, since, Served);
    }
  }

  lemma {:induction false} NothingServed(replica: Replica, since: Time)
    requires replica.serving.Nothing? && Since(replica, since, Written)
    ensures Since(replica, since, Served)
  {}

  /** After j events, some completed tick began at most the rotation margin ago. */
  ghost predicate RecentTick(opts: Options, s: State, events: seq<Event>, r: nat, j: nat)
    requires j <= |events|
  {
    exists a: nat, b: nat, d: nat ::
      && a <= b < d < j && Tick(opts, s, events, r, a, b, d)
      && After(opts, s, events, j).now <= After(opts, s, events, a).now + opts.rotateBefore
  }

  predicate ServesUnexpired(t: State, r: nat) {
    r < |t.replicas| && (t.replicas[r].serving.Pair? ==> t.now <= t.replicas[r].serving.leaf.notAfter)
  }

  /** With leaves that live at least the rotation margin, a replica that has completed a
      tick begun within the margin serves no expired certificate. */
  lemma {:induction false} RecentTickSuffices(opts: Options, s: State, events: seq<Event>, r: nat, j: nat)
    requires Initial(s) && opts.certValidity >= opts.rotateBefore
    requires j <= |events| && RecentTick(opts, s, events, r, j)
    ensures ServesUnexpired(After(opts, s, events, j), r)
  {
    hide Run, Tick;
    var a: nat, b: nat, d: nat :| a <= b < d < j && Tick(opts, s, events, r, a, b, d)
      && After(opts, s, events, j).now <= After(opts, s, events, a).now + opts.rotateBefore;
    TickServes(opts, s, events, r, a, b, d, j);
    if After(opts, s, events, j).replicas[r].serving.Pair? { ServedLeafUnexpired(opts, s, events[..j], r); }
  }

  /** A margin in the past has no recent tick. */
  lemma {:induction false} NoRecentTick(opts: Options, s: State, events: seq<Event>, r: nat, j: nat)
    requires Initial(s) && opts.rotateBefore < 0 && j <= |events|
    ensures !RecentTick(opts, s, events, r, j)
  {
    hide Run, Tick;
    forall a: nat | a <= j ensures After(opts, s, events, a).now <= After(opts, s, events, j).now {
      Reachable(opts, s, events[..a]);
      AfterSplits(opts, s, events, a, j);
      RunKeeps(opts, After(opts, s, events, a), events[a..j]);
    }
  }

  ghost predicate TicksKeepUp(opts: Options, s: State, events: seq<Event>, r: nat, from: nat) {
    forall j: nat | from <= j <= |events| :: RecentTick(opts, s, events, r, j)
  }

  ghost predicate NeverExpired(opts: Options, s: State, events: seq<Event>, r: nat, from: nat) {
    forall j: nat | from <= j <= |events| :: ServesUnexpired(After(opts, s, events, j), r)
  }

  ghost predicate TicksSuffice(opts: Options) {
    forall s: State, events: seq<Event>, r: nat, from: nat ::
      Initial(s) && TicksKeepUp(opts, s, events, r, from) ==> NeverExpired(opts, s, events, r, from)
  }

  /** One successful tick per rotation margin keeps every replica from ever serving an
      expired certificate, over every run, if and only if leaves live at least the margin
      (or the margin lies in the past, and no tick is ever recent). */
  lemma {:induction false} NeverExpiresIff(opts: Options)
    ensures TicksSuffice(opts) <==> opts.certValidity >= opts.rotateBefore || opts.rotateBefore < 0
  {
    hide RecentTick, ServesUnexpired, Initial;
    if opts.certValidity >= opts.rotateBefore || opts.rotateBefore < 0 {
      forall s: State, events: seq<Event>, r: nat, from: nat | Initial(s) && TicksKeepUp(opts, s, events, r, from)
        ensures NeverExpired(opts, s, events, r, from)
      {
        forall j: nat | from <= j <= |events| ensures ServesUnexpired(After(opts, s, events, j), r) {
          if opts.rotateBefore < 0 {
            NoRecentTick(opts, s, events, r, j);
          } else {
            RecentTickSuffices(opts, s, events, r, j);
          }
        }
      }
    } else {
      var s, events := ShortLeafRun(opts);
      assert TicksKeepUp(opts, s, events, 0, |events|);
      assert !NeverExpired(opts, s, events, 0, |events|) by {
        assert !ServesUnexpired(After(opts, s, events, |events|), 0);
      }
    }
  }

  /** A lone replica creates the Secret, installs and serves it, and time passes. */
  lemma {:induction false} ShortLeafRun(opts: Options) returns (s: State, events: seq<Event>)
    requires 0 <= opts.rotateBefore && opts.certValidity < opts.rotateBefore
    ensures Initial(s) && RecentTick(opts, s, events, 0, |events|)
    ensures !ServesUnexpired(After(opts, s, events, |events|), 0)
  {
    hide Run;
    s := State(0, 0, [], [], [BLANK]);
    var wait: nat := if opts.certValidity + 1 > 0 then opts.certValidity + 1 else 0;
    events := FirstEnsure(0) + [Pass(wait)];
    var d := NewSecret(opts, 0, 0);
    FirstEnsureServes(opts, s, 0, [Pass(wait)]);
    AfterNext(opts, s, events, 5);
    var t := After(opts, s, events, 6);
    assert t.replicas[0].serving == Pair(d.tlsCert.value, d.tlsKey.value, 0) && t.now == wait;
    assert Tick(opts, s, events, 0, 0, 3, 4);
  }

  /** Replica r through its first Ensure while there is no configuration. */
  function FirstEnsure(r: nat): seq<Event> {
    [Step(r, 0), Step(r, 0), Step(r, 0), Step(r, 0), Step(r, 0)]
  }

  /** With no Secret and no configuration yet, a starting replica creates the Secret and
      serves its leaf. */
  lemma {:induction false} FirstEnsureServes(opts: Options, s: State, r: nat, rest: seq<Event>)
    requires s.secret == [] && s.config == [] && r < |s.replicas| && s.replicas[r] == BLANK
    ensures var events := FirstEnsure(r) + rest;
      var d := NewSecret(opts, s.now, s.nextKey);
      var t := After(opts, s, events, 5);
      && After(opts, s, events, 0) == s
      && TickWrites(After(opts, s, events, 3), events[3], r) && TickLoads(After(opts, s, events, 4), events[4], r)
      && |t.replicas| == |s.replicas| && t.now == s.now && t.config == [] && t.secret == [d]
      && t.replicas[r].serving == Pair(d.tlsCert.value, d.tlsKey.value, s.now)
  {
    hide Run, NewSecret, Patched;
    var events := FirstEnsure(r) + rest;
    var d := NewSecret(opts, s.now, s.nextKey);
    SecretIs(opts, s.now, s.nextKey);
    RunNone(opts, s);
    assert events[..0] == [];
    AfterNext(opts, s, events, 0);
    var s1 := After(opts, s, events, 1);
    assert s1.replicas[r] == BLANK.(pc := Creating(d, s.now)) && s1.secret == [] && s1.config == [];
    AfterNext(opts, s, events, 1);
    var s2 := After(opts, s, events, 2);
    assert s2.replicas[r] == BLANK.(pc := WriteCert(d, s.now)) && s2.secret == [d] && s2.config == [];
    AfterNext(opts, s, events, 2);
    var s3 := After(opts, s, events, 3);
    assert s3.replicas[r].pc == WriteKey(d, s.now) && s3.replicas[r].disk.cert == d.tlsCert;
    AfterNext(opts, s, events, 3);
    var s4 := After(opts, s, events, 4);
    assert s4.replicas[r] == Replica(Patching(d.caCert), Disk(d.tlsCert, d.tlsKey, true, s.now), Nothing);
    AfterNext(opts, s, events, 4);
  }

  lemma {:induction false} SecretIs(opts: Options, now: Time, k: nat)
    ensures NewSecret(opts, now, k) == Data(Good(Ca(k, now + opts.caValidity)), Good(k),
                                            Good(Leaf(k + 1, k, now + opts.certValidity)), Good(k + 1))
  {}

  // ---- The caBundle and the served certificate ----

  /** Every entry of the newest webhook configuration verifies every served leaf. */
  predicate Agreed(t: State) {
    t.config != [] ==>
      forall b, replica | b in t.config[|t.config| - 1] && replica in t.replicas && replica.serving.Pair? ::
        Verifies(b, replica.serving.leaf)
  }

  /** Every entry of the newest configuration, if there is one, verifies what the CA signs. */
  predicate Verified(t: State) {
    t.config != [] ==>
      t.secret != [] && t.secret[0].caCert.Good?
      && forall b | b in t.config[|t.config| - 1] :: b.Good? && b.value.key == t.secret[0].caCert.value.key
  }

  /** The replica serves, or has found the configuration current and is about to. */
  predicate Relies(t: State, replica: Replica) {
    || replica.serving.Pair?
    || (&& replica.pc.PatchHave? && replica.pc.version < |t.config|
        && Patched(t.config[replica.pc.version], replica.pc.ca) == t.config[replica.pc.version])
  }

  /** Some replica relies on the configuration as it is. */
  predicate Relied(t: State) {
    exists i | 0 <= i < |t.replicas| :: Relies(t, t.replicas[i])
  }

  predicate Safe(t: State) {
    Verified(t) || !Relied(t)
  }

  lemma {:induction false} SafeAgrees(opts: Options, t: State)
    requires Inv(opts, t) && Safe(t)
    ensures Agreed(t)
  {
    forall b, replica
      | t.config != [] && b in t.config[|t.config| - 1] && replica in t.replicas && replica.serving.Pair?
      ensures Verifies(b, replica.serving.leaf)
    {
      var i :| 0 <= i < |t.replicas| && t.replicas[i] == replica;
      assert ReplicaOk(opts, t, t.replicas[i]) && Relies(t, t.replicas[i]);
    }
  }

  lemma {:induction false} CurrentMeansAll(entries: seq<Blob<Ca>>, ca: Blob<Ca>)
    requires Patched(entries, ca) == entries
    ensures forall b | b in entries :: b == ca
  {}

  /** What a step of replica r does to the configuration and to r's reliance on it. */
  lemma {:induction false} StepReliance(opts: Options, s: State, r: nat, choice: nat)
    requires Inv(opts, s) && r < |s.replicas|
    ensures var t := StepReplica(opts, s, r, choice);
      && |t.replicas| == |s.replicas|
      && (t.config == s.config || Verified(t))
      && (Verified(s) ==> Verified(t))
      && (Relies(t, t.replicas[r]) && !Relies(s, s.replicas[r]) ==> Verified(t))
  {
    hide NeedsRotation, NewSecret, Reissued, SignedBy;
    var replica := s.replicas[r];
    assert ReplicaOk(opts, s, replica);
    if replica.pc.Patching? {
      hide Patched;
      var found := Version(replica, |s.config|, choice);
      if found < |s.config| && Patched(s.config[found], replica.pc.ca) == s.config[found] {
        CurrentMeansAll(s.config[found], replica.pc.ca);
      }
    }
  }

  lemma {:induction false} StepSafe(opts: Options, s: State, r: nat, choice: nat)
    requires Inv(opts, s) && r < |s.replicas| && Safe(s)
    ensures Safe(StepReplica(opts, s, r, choice))
  {
    hide StepReplica, Inv, Verified, Relies;
    var t := StepReplica(opts, s, r, choice);
    StepReliance(opts, s, r, choice);
    if !Verified(t) {
      forall i | 0 <= i < |t.replicas| ensures !Relies(t, t.replicas[i]) {
        assert !Relies(s, s.replicas[i]);
        if i != r {
          OtherSteps(opts, s, r, choice, i);
          SameConfig(s, t, s.replicas[i]);
        }
      }
    }
  }

  lemma {:induction false} SameConfig(s: State, t: State, replica: Replica)
    requires s.config == t.config
    ensures Relies(s, replica) == Relies(t, replica)
  {}

  lemma {:induction false} RelianceKept(opts: Options, s: State, e: Event, i: nat)
    requires Inv(opts, s) && !e.Step? && i < |s.replicas| && !Relies(s, s.replicas[i])
    ensures !Relies(Next(opts, s, e), Next(opts, s, e).replicas[i])
  {
    assert ReplicaOk(opts, s, s.replicas[i]);
  }

  lemma {:induction false} NextSafe(opts: Options, s: State, e: Event)
    requires Inv(opts, s) && Safe(s)
    requires e.Apply? ==> !Relied(s) || Verified(Next(opts, s, e))
    ensures Safe(Next(opts, s, e))
  {
    hide StepReplica, Inv, Relies;
    var t := Next(opts, s, e);
    if e.Step? {
      if e.replica < |s.replicas| { StepSafe(opts, s, e.replica, e.choice); }
    } else if !Verified(t) {
      assert Verified(s) ==> e.Apply?;
      forall i | 0 <= i < |t.replicas| ensures !Relies(t, t.replicas[i]) {
        assert !Relies(s, s.replicas[i]);
        RelianceKept(opts, s, e, i);
      }
    }
  }

  /** Each outside write comes while no replica relies on the configuration, or verifies
      what the CA signs. */
  predicate Considerate(opts: Options, s: State, events: seq<Event>)
    decreases |events|
  {
    events == [] ||
    (&& (events[0].Apply? ==> !Relied(s) || Verified(Next(opts, s, events[0])))
     && Considerate(opts, Next(opts, s, events[0]), events[1..]))
  }

  lemma {:induction false} RunSafe(opts: Options, s: State, events: seq<Event>)
    requires Inv(opts, s) && Safe(s) && Considerate(opts, s, events)
    ensures Safe(Run(opts, s, events)) && Agreed(Run(opts, s, events))
    decreases |events|
  {
    hide Inv, Safe, Next, Agreed;
    if events == [] {
      SafeAgrees(opts, s);
    } else {
      NextKeeps(opts, s, events[0]);
      NextSafe(opts, s, events[0]);
      RunSafe(opts, Next(opts, s, events[0]), events[1..]);
    }
  }

  lemma {:induction false} QuietIsConsiderate(opts: Options, s: State, events: seq<Event>)
    requires Undisturbed(events)
    ensures Considerate(opts, s, events)
    decreases |events|
  {
    hide Next;
    if events != [] { QuietIsConsiderate(opts, Next(opts, s, events[0]), events[1..]); }
  }

  lemma {:induction false} InitialSafe(opts: Options, s: State)
    requires Initial(s)
    ensures Inv(opts, s) && Safe(s)
  {
    forall i | 0 <= i < |s.replicas| ensures s.replicas[i] == BLANK {
      assert s.replicas[i] in s.replicas;
    }
  }

  /** No certificate is ever served that the configuration does not verify, in any run with
      any number of replicas, failures, restarts, stale reads and rotations, as long as
      outside writes are considerate; in particular if there are none. */
  lemma {:induction false} BundleNeverLags(opts: Options, s: State, events: seq<Event>)
    requires Initial(s) && (Undisturbed(events) || Considerate(opts, s, events))
    ensures Agreed(Run(opts, s, events))
  {
    hide Run, Agreed, Considerate;
    InitialSafe(opts, s);
    if Undisturbed(events) { QuietIsConsiderate(opts, s, events); }
    RunSafe(opts, s, events);
  }

  /** All entries verify what the CA signs. */
  predicate Fits(s: State, entries: seq<Blob<Ca>>) {
    forall b | b in entries :: s.secret != [] && s.secret[0].caCert.Good? && b.Good?
                               && b.value.key == s.secret[0].caCert.value.key
  }

  /** The outside write is followed by a disagreement: at once, or when a replica that had
      found the configuration current starts to serve. */
  lemma {:induction false} OutsideWriteDisagrees(opts: Options, s: State, entries: seq<Blob<Ca>>)
    returns (rest: seq<Event>)
    requires Inv(opts, s) && Relied(s) && !Fits(s, entries)
    ensures Undisturbed(rest) && !Agreed(Run(opts, Next(opts, s, Apply(entries)), rest))
  {
    hide Run;
    var i :| 0 <= i < |s.replicas| && Relies(s, s.replicas[i]);
    assert ReplicaOk(opts, s, s.replicas[i]);
    var t := Next(opts, s, Apply(entries));
    var b :| b in entries && !(s.secret != [] && s.secret[0].caCert.Good? && b.Good?
                               && b.value.key == s.secret[0].caCert.value.key);
    assert t.config[|t.config| - 1] == entries;
    if s.replicas[i].serving.Pair? {
      rest := [];
      RunNone(opts, t);
      assert t.replicas[i] in t.replicas && !Verifies(b, t.replicas[i].serving.leaf);
    } else {
      rest := [Step(i, 0)] + [];
      RunCons(opts, t, Step(i, 0), []);
      var u := Next(opts, t, Step(i, 0));
      RunNone(opts, u);
      assert t.config[s.replicas[i].pc.version] == s.config[s.replicas[i].pc.version];
      assert u.replicas[i] == Returned(s.replicas[i]) && u.config == t.config;
      assert u.replicas[i] in u.replicas && !Verifies(b, u.replicas[i].serving.leaf);
    }
  }

  /** After an outside write the configuration and the served certificates agree ever after,
      further outside writes apart, if and only if no replica relied on the configuration
      or all entries written verify what the CA signs. */
  lemma {:induction false} OutsideWriteIff(opts: Options, s: State, past: seq<Event>, entries: seq<Blob<Ca>>)
    requires Initial(s)
    ensures var t := Run(opts, s, past);
      (forall rest: seq<Event> | Undisturbed(rest) :: Agreed(Run(opts, Next(opts, t, Apply(entries)), rest))) <==>
        !Relied(t) || Fits(t, entries)
  {
    hide Run, Agreed, Relied, Undisturbed;
    Reachable(opts, s, past);
    var t := Run(opts, s, past);
    var u := Next(opts, t, Apply(entries));
    if !Relied(t) || Fits(t, entries) {
      NextKeeps(opts, t, Apply(entries));
      assert Safe(u) by { WriteSafe(opts, t, entries); }
      forall rest: seq<Event> | Undisturbed(rest) ensures Agreed(Run(opts, u, rest)) {
        QuietIsConsiderate(opts, u, rest);
        RunSafe(opts, u, rest);
      }
    } else {
      var rest := OutsideWriteDisagrees(opts, t, entries);
    }
  }

  lemma {:induction false} WriteSafe(opts: Options, s: State, entries: seq<Blob<Ca>>)
    requires Inv(opts, s) && (!Relied(s) || Fits(s, entries))
    ensures Safe(Next(opts, s, Apply(entries)))
  {
    var t := Next(opts, s, Apply(entries));
    if !Relied(s) {
      forall i | 0 <= i < |t.replicas| ensures !Relies(t, t.replicas[i]) {
        assert !Relies(s, s.replicas[i]);
        RelianceKept(opts, s, Apply(entries), i);
      }
    } else {
      var i :| 0 <= i < |s.replicas| && Relies(s, s.replicas[i]);
      assert ReplicaOk(opts, s, s.replicas[i]);
    }
  }

  /** A replica that starts while there is no configuration serves, and one that is applied
      afterwards does not verify its certificate until the next tick. */
  lemma {:induction false} LateConfigurationDisagrees(opts: Options, s: State, entries: seq<Blob<Ca>>)
    requires Initial(s) && s.config == [] && s.replicas != []
    requires exists b | b in entries :: !(b.Good? && b.value.key == s.nextKey)
    ensures !Agreed(Run(opts, s, FirstEnsure(0) + [Apply(entries)]))
  {
    hide Run, NewSecret;
    assert s.replicas[0] in s.replicas;
    var events := FirstEnsure(0) + [Apply(entries)];
    FirstEnsureServes(opts, s, 0, [Apply(entries)]);
    SecretIs(opts, s.now, s.nextKey);
    AfterNext(opts, s, events, 5);
    assert events[..6] == events && events[5] == Apply(entries);
    var t := After(opts, s, events, 6);
    assert t.config == [entries] && t.replicas[0].serving.leaf.issuer == s.nextKey;
    var b :| b in entries && !(b.Good? && b.value.key == s.nextKey);
    assert t.replicas[0] in t.replicas && b in t.config[|t.config| - 1];
    assert !Verifies(b, t.replicas[0].serving.leaf);
    assert t == Run(opts, s, events);
  }

  /** A patch by any replica ends a disagreement. */
  lemma {:induction false} PatchRestoresAgreement(opts: Options, s: State, past: seq<Event>, patch: Event)
    requires Initial(s) && patch.Step? && |Next(opts, Run(opts, s, past), patch).config| > |Run(opts, s, past).config|
    ensures Agreed(Next(opts, Run(opts, s, past), patch))
  {
    hide Run, Next;
    var t := Run(opts, s, past);
    var u := Next(opts, t, patch);
    Reachable(opts, s, past);
    PatchBundles(opts, t, patch);
    NextKeeps(opts, t, patch);
    assert Verified(u);
    SafeAgrees(opts, u);
  }
}
