/** When leaves are kept and when they are issued. */
module CertIssue {
  import opened Common
  import opened WebhookCerts

  /** From a Secret it has read, Ensure installs that Secret exactly when certificate and key
      are there, the certificate parses, and it outlives the rotation margin. */
  lemma {:induction false} KeptIff(opts: Options, s: State, r: nat, choice: nat)
    requires r < |s.replicas| && s.replicas[r].pc.Have? && s.replicas[r].pc.version < |s.secret|
    ensures var d := s.secret[s.replicas[r].pc.version];
      var t := StepReplica(opts, s, r, choice);
      && r < |t.replicas|
      && (t.replicas[r].pc == WriteCert(d, s.now) <==>
            && d.tlsCert.Good? && !d.tlsKey.Missing? && !d.caCert.Missing?
            && s.now + opts.rotateBefore <= d.tlsCert.value.notAfter)
      && (t.replicas[r].pc == WriteCert(d, s.now) || t.replicas[r].pc == Rotating(s.replicas[r].pc.version))
  {}

  /** A rotation that reads the newest version and meets no other writer stores a new leaf
      of full validity under the same CA and goes on to install it. */
  lemma {:induction false} RotationCompletes(opts: Options, s: State, r: nat)
    requires r < |s.replicas| && s.replicas[r].pc.Rotating? && s.replicas[r].pc.source < |s.secret|
    requires var d := s.secret[s.replicas[r].pc.source]; d.caCert.Good? && d.caKey.Good?
    ensures var newest := |s.secret| - 1;
      var t := StepReplica(opts, StepReplica(opts, s, r, newest), r, newest);
      && t.secret == s.secret + [t.secret[|t.secret| - 1]] && r < |t.replicas|
      && var made := t.secret[|t.secret| - 1];
         && made.tlsCert.Good? && made.tlsCert.value.notAfter == s.now + opts.certValidity
         && made.caCert == s.secret[s.replicas[r].pc.source].caCert
         && t.replicas[r].pc == WriteCert(made, s.now)
  {}

  /** No version is lost: a step adds one only if it has just read the newest. */
  lemma {:induction false} NoLostUpdate(opts: Options, s: State, e: Event)
    requires s.secret != [] && |Next(opts, s, e).secret| > |s.secret|
    ensures e.Step? && e.replica < |s.replicas|
    ensures var pc := s.replicas[e.replica].pc;
      pc.Updating? && pc.version == |s.secret| - 1 && Next(opts, s, e).secret == s.secret + [pc.made]
  {
    hide NeedsRotation, NewSecret, Reissued, Patched;
  }

  /** A rotation that met another writer stores nothing and is tried again. */
  lemma {:induction false} ConflictRetries(opts: Options, s: State, r: nat, choice: nat)
    requires r < |s.replicas| && s.replicas[r].pc.Updating? && s.replicas[r].pc.version != |s.secret| - 1
    ensures var t := StepReplica(opts, s, r, choice);
      t.secret == s.secret && r < |t.replicas| && t.replicas[r].pc == Rotating(s.replicas[r].pc.source)
  {}

  /** Every version lacks a CA that can sign, and no rotation is under way. */
  predicate Unsignable(s: State) {
    && s.secret != []
    && (forall d | d in s.secret :: !d.caCert.Good? || !d.caKey.Good?)
    && forall replica | replica in s.replicas :: !replica.pc.Updating?
  }

  lemma {:induction false} StepUnsignable(opts: Options, s: State, r: nat, choice: nat)
    requires Unsignable(s) && r < |s.replicas|
    ensures var t := StepReplica(opts, s, r, choice); t.secret == s.secret && Unsignable(t)
    ensures var t := StepReplica(opts, s, r, choice);
      s.replicas[r].pc.Rotating? ==> r < |t.replicas| && t.replicas[r].pc.Idle?
  {
    hide NeedsRotation, NewSecret, Reissued, Patched;
    var t := StepReplica(opts, s, r, choice);
    assert s.replicas[r] in s.replicas;
    forall i | 0 <= i < |t.replicas| ensures !t.replicas[i].pc.Updating? {
      if i != r { assert t.replicas[i] == s.replicas[i] && s.replicas[i] in s.replicas; }
    }
  }

  lemma {:induction false} NextUnsignable(opts: Options, s: State, e: Event)
    requires Unsignable(s)
    ensures Next(opts, s, e).secret == s.secret && Unsignable(Next(opts, s, e))
  {
    hide StepReplica;
    if e.Step? && e.replica < |s.replicas| {
      StepUnsignable(opts, s, e.replica, e.choice);
    } else {
      var t := Next(opts, s, e);
      forall i | 0 <= i < |t.replicas| ensures !t.replicas[i].pc.Updating? {
        assert s.replicas[i] in s.replicas;
      }
    }
  }

  /** A Secret without a usable CA is never repaired: starting over means creating it under a
      name that is taken, so no run stores another version. */
  lemma {:induction false} NeverRepaired(opts: Options, s: State, events: seq<Event>)
    requires Unsignable(s)
    ensures Run(opts, s, events).secret == s.secret
    decreases |events|
  {
    hide Next;
    if events != [] {
      NextUnsignable(opts, s, events[0]);
      NeverRepaired(opts, Next(opts, s, events[0]), events[1..]);
    }
  }

  /** A restarted process serves nothing and starts over, on its disk or an empty one. */
  lemma {:induction false} RestartStartsOver(opts: Options, s: State, r: nat, keepsDisk: bool)
    requires r < |s.replicas|
    ensures var replica := Next(opts, s, Restart(r, keepsDisk)).replicas[r];
      && replica.serving.Nothing? && replica.pc.Idle?
      && (if keepsDisk then replica.disk == s.replicas[r].disk
          else replica.disk.cert.Missing? && replica.disk.key.Missing?)
  {}

  /** A created Secret has a CA and a leaf that end their validity after the reading, the
      leaf signed by the CA; a rotation keeps the CA and has a new leaf of full validity. */
  lemma {:induction false} FullValidity(opts: Options, d: Data, now: Time, k: nat)
    requires d.caCert.Good? && d.caKey.Good?
    ensures var made := NewSecret(opts, now, k);
      && made.caCert.Good? && made.caCert.value.notAfter == now + opts.caValidity
      && made.caKey == Good(made.caCert.value.key)
      && made.tlsCert.Good? && made.tlsCert.value.notAfter == now + opts.certValidity
      && made.tlsCert.value.issuer == made.caCert.value.key && made.tlsKey == Good(made.tlsCert.value.key)
      && made.tlsCert.value.key != made.caCert.value.key
    ensures var again := Reissued(opts, d, now, k);
      && again.caCert == d.caCert && again.caKey == d.caKey
      && again.tlsCert.Good? && again.tlsCert.value.notAfter == now + opts.certValidity
      && again.tlsCert.value.issuer == d.caKey.value && again.tlsKey == Good(again.tlsCert.value.key)
  {}

  // ---- Over runs ----

  /** The leaf of version v ends within the margin of the moment. */
  predicate Due(opts: Options, s: State, v: nat, moment: Time) {
    v < |s.secret| && s.secret[v].tlsCert.Good? && moment + opts.rotateBefore > s.secret[v].tlsCert.value.notAfter
  }

  /** A leaf issued at the moment, for the sake of version v. */
  predicate IssuedFor(opts: Options, s: State, v: nat, d: Data, moment: Time) {
    && Due(opts, s, v, moment) && moment <= s.now
    && d.tlsCert.Good? && d.tlsCert.value.notAfter == moment + opts.certValidity
  }

  predicate PcDue(opts: Options, s: State, pc: Pc) {
    match pc
    case Rotating(v) => Due(opts, s, v, s.now)
    case Updating(v, _, d, checked) => IssuedFor(opts, s, v, d, checked)
    case _ => true
  }

  /** Version i was issued at a moment when an earlier version's leaf was due. */
  predicate Justified(opts: Options, s: State, i: nat)
    requires i < |s.secret|
  {
    && s.secret[i].tlsCert.Good?
    && var moment := s.secret[i].tlsCert.value.notAfter - opts.certValidity;
       moment <= s.now && exists v: nat | v < i :: Due(opts, s, v, moment)
  }

  ghost predicate AllJustified(opts: Options, s: State) {
    && (forall i | 0 < i < |s.secret| :: Justified(opts, s, i))
    && (forall r | 0 <= r < |s.replicas| :: PcDue(opts, s, s.replicas[r].pc))
  }

  lemma {:induction false} DueStays(opts: Options, s: State, t: State, pc: Pc)
    requires Extends(s, t) && PcDue(opts, s, pc)
    ensures PcDue(opts, t, pc)
  {
    assert forall v: nat | v < |s.secret| :: t.secret[v] == s.secret[v] by {
      forall v: nat | v < |s.secret| ensures t.secret[v] == s.secret[v] {
        assert t.secret[..|s.secret|][v] == s.secret[v];
      }
    }
  }

  lemma {:induction false} JustifiedStays(opts: Options, s: State, t: State, i: nat)
    requires Extends(s, t) && i < |s.secret| && Justified(opts, s, i)
    ensures i < |t.secret| && Justified(opts, t, i)
  {
    forall v: nat | v < |s.secret| ensures t.secret[v] == s.secret[v] {
      assert t.secret[..|s.secret|][v] == s.secret[v];
    }
    var moment := s.secret[i].tlsCert.value.notAfter - opts.certValidity;
    var v: nat :| v < i && Due(opts, s, v, moment);
    assert Due(opts, t, v, moment);
  }

  /** What a step leaves behind: its own next place is in order, and so is a new version. */
  lemma {:induction false} StepDue(opts: Options, s: State, r: nat, choice: nat)
    requires Inv(opts, s) && r < |s.replicas| && PcDue(opts, s, s.replicas[r].pc)
    ensures var t := StepReplica(opts, s, r, choice);
      && |t.replicas| == |s.replicas| && PcDue(opts, t, t.replicas[r].pc)
      && (s.secret != [] && |t.secret| > |s.secret| ==>
            |t.secret| == |s.secret| + 1 && Justified(opts, t, |s.secret|))
  {
    hide NewSecret, Patched, SignedBy;
    var pc := s.replicas[r].pc;
    assert ReplicaOk(opts, s, s.replicas[r]);
    if pc.Have? && pc.version < |s.secret| {
      assert s.secret[pc.version] in s.secret;
      SignedIsComplete(s.secret[pc.version], s.secret[0].caCert.value);
    }
    if pc.Updating? {
      var t := StepReplica(opts, s, r, choice);
      if |t.secret| > |s.secret| {
        assert t.secret[|s.secret|] == pc.made;
        assert Due(opts, t, pc.source, pc.checked);
      }
    }
  }

  lemma {:induction false} SignedIsComplete(d: Data, ca: Ca)
    requires SignedBy(d, ca)
    ensures d.tlsCert.Good? && d.tlsKey.Good? && d.caCert.Good? && d.caKey.Good?
  {}

  lemma {:induction false} StepJustified(opts: Options, s: State, r: nat, choice: nat)
    requires Inv(opts, s) && r < |s.replicas| && AllJustified(opts, s)
    ensures AllJustified(opts, StepReplica(opts, s, r, choice))
  {
    hide Inv, StepReplica, PcDue, Justified;
    var t := StepReplica(opts, s, r, choice);
    assert Extends(s, t) by { NextKeeps(opts, s, Step(r, choice)); }
    StepDue(opts, s, r, choice);
    forall i | 0 < i < |t.secret| ensures Justified(opts, t, i) {
      if i < |s.secret| { JustifiedStays(opts, s, t, i); } else { FirstOrNext(opts, s, r, choice); }
    }
    forall q | 0 <= q < |t.replicas| ensures PcDue(opts, t, t.replicas[q].pc) {
      if q != r {
        OtherStays(opts, s, r, choice, q);
        DueStays(opts, s, t, s.replicas[q].pc);
      }
    }
  }

  /** Versions come one at a time. */
  lemma {:induction false} FirstOrNext(opts: Options, s: State, r: nat, choice: nat)
    requires r < |s.replicas|
    ensures |StepReplica(opts, s, r, choice).secret| <= |s.secret| + 1
  {
    hide NewSecret, Patched, NeedsRotation, Reissued;
  }

  lemma {:induction false} OtherStays(opts: Options, s: State, r: nat, choice: nat, other: nat)
    requires r < |s.replicas| && other < |s.replicas| && other != r
    ensures var t := StepReplica(opts, s, r, choice);
      other < |t.replicas| && t.replicas[other] == s.replicas[other]
  {
    hide NeedsRotation, NewSecret, Reissued, Patched;
  }

  lemma {:induction false} NextJustified(opts: Options, s: State, e: Event)
    requires Inv(opts, s) && AllJustified(opts, s)
    ensures AllJustified(opts, Next(opts, s, e))
  {
    hide Inv, StepReplica, Justified, PcDue;
    var t := Next(opts, s, e);
    NextKeeps(opts, s, e);
    if e.Step? && e.replica < |s.replicas| {
      StepJustified(opts, s, e.replica, e.choice);
    } else {
      forall i | 0 < i < |t.secret| ensures Justified(opts, t, i) { JustifiedStays(opts, s, t, i); }
      forall q | 0 <= q < |t.replicas| ensures PcDue(opts, t, t.replicas[q].pc) {
        assert t.replicas[q].pc == s.replicas[q].pc || t.replicas[q].pc == Idle;
        DueStays(opts, s, t, s.replicas[q].pc);
        IdleIsDue(opts, t);
      }
    }
  }

  lemma {:induction false} IdleIsDue(opts: Options, t: State)
    ensures PcDue(opts, t, Idle)
  {}

  lemma {:induction false} RunJustified(opts: Options, s: State, events: seq<Event>)
    requires Inv(opts, s) && AllJustified(opts, s)
    ensures AllJustified(opts, Run(opts, s, events))
    decreases |events|
  {
    hide Inv, AllJustified, Next;
    if events != [] {
      NextKeeps(opts, s, events[0]);
      NextJustified(opts, s, events[0]);
      RunJustified(opts, Next(opts, s, events[0]), events[1..]);
    }
  }

  /** Over every run, each version of the Secret after the first holds a leaf issued at a
      moment when the leaf of an earlier version ended within the rotation margin. */
  lemma {:induction false} IssuedOnlyWhenDue(opts: Options, s: State, events: seq<Event>, i: nat)
    requires Initial(s) && 0 < i < |Run(opts, s, events).secret|
    ensures var t := Run(opts, s, events);
      && t.secret[i].tlsCert.Good?
      && var moment := t.secret[i].tlsCert.value.notAfter - opts.certValidity;
         && moment <= t.now
         && exists v: nat | v < i ::
              t.secret[v].tlsCert.Good? && moment + opts.rotateBefore > t.secret[v].tlsCert.value.notAfter
  {
    hide Run, Inv;
    Reachable(opts, s, []);
    RunNone(opts, s);
    forall r | 0 <= r < |s.replicas| ensures PcDue(opts, s, s.replicas[r].pc) { assert s.replicas[r] in s.replicas; }
    RunJustified(opts, s, events);
    var t := Run(opts, s, events);
    assert Justified(opts, t, i);
    var v: nat :| v < i && Due(opts, t, v, t.secret[i].tlsCert.value.notAfter - opts.certValidity);
  }

  /** So a Secret whose leaves all outlive the margin has had one version only. */
  lemma {:induction false} LongLivedIsKept(opts: Options, s: State, events: seq<Event>)
    requires Initial(s)
    requires var t := Run(opts, s, events);
      forall d | d in t.secret :: d.tlsCert.Good? ==> t.now + opts.rotateBefore <= d.tlsCert.value.notAfter
    ensures |Run(opts, s, events).secret| <= 1
  {
    hide Run;
    var t := Run(opts, s, events);
    if |t.secret| > 1 {
      assert t.secret[0] in t.secret;
      IssuedOnlyWhenDue(opts, s, events, 1);
    }
  }
}
