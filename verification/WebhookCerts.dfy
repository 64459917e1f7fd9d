/** Self-managed webhook certificates: any number of replicas run Ensure over one
    shared Secret, their own disks and one shared webhook configuration, with no
    leader. Certificates are reduced to who signed them, which key they carry and
    when they expire; keys are numbers drawn fresh. */
module WebhookCerts {
  import opened Common

  datatype Ca = Ca(key: nat, notAfter: Time)

  datatype Leaf = Leaf(key: nat, issuer: nat, notAfter: Time)

  /** A data key of the Secret: absent, present but unparsable, or parsed. */
  datatype Blob<T> = Missing | Garbage | Good(value: T)

  datatype Data = Data(caCert: Blob<Ca>, caKey: Blob<nat>, tlsCert: Blob<Leaf>, tlsKey: Blob<nat>)

  datatype Options = Options(caValidity: int, certValidity: int, rotateBefore: int)

  /** GenerateCA and IssueLeafCert with keys k and k + 1. */
  function NewSecret(opts: Options, now: Time, k: nat): Data {
    Data(Good(Ca(k, now + opts.caValidity)), Good(k), Good(Leaf(k + 1, k, now + opts.certValidity)), Good(k + 1))
  }

  /** A new leaf under the CA of d. */
  function Reissued(opts: Options, d: Data, now: Time, k: nat): Data
    requires d.caCert.Good? && d.caKey.Good?
  {
    d.(tlsCert := Good(Leaf(k, d.caKey.value, now + opts.certValidity)), tlsKey := Good(k))
  }

  predicate NeedsRotation(opts: Options, d: Data, now: Time) {
    || d.tlsCert.Missing? || d.tlsKey.Missing? || d.caCert.Missing?
    || d.tlsCert.Garbage?
    || now + opts.rotateBefore > d.tlsCert.value.notAfter
  }

  // ---- Replicas ----

  /** Where a replica stands in Ensure. `checked` is the clock reading at which the
      leaf it is about to install was judged fresh or issued. */
  datatype Pc =
    | Idle
    | Creating(made: Data, checked: Time)
    | Reading
    | Have(version: nat)
    | Rotating(source: nat)
    | Updating(source: nat, version: nat, made: Data, checked: Time)
    | WriteCert(data: Data, checked: Time)
    | WriteKey(data: Data, checked: Time)
    | Patching(ca: Blob<Ca>)
    | PatchHave(ca: Blob<Ca>, version: nat)

  /** The certificate and key files. `complete` is false from the moment the first
      file is written until the second one is; `checked` belongs to the certificate. */
  datatype Disk = Disk(cert: Blob<Leaf>, key: Blob<nat>, complete: bool, checked: Time)

  /** The pair the TLS server has loaded, with the `checked` of its certificate. A process
      that is starting up serves nothing until its first Ensure has returned. */
  datatype Serving = Nothing | Pair(leaf: Leaf, key: nat, checked: Time)

  datatype Replica = Replica(pc: Pc, disk: Disk, serving: Serving)

  /** The files are read; a certificate and a key that do not belong together are refused. */
  function FromDisk(disk: Disk, serving: Serving): Serving {
    if disk.cert.Good? && disk.key == Good(disk.cert.value.key)
    then Pair(disk.cert.value, disk.key.value, disk.checked) else serving
  }

  /** The certificate watcher of a running process looks at the files. */
  function Loaded(replica: Replica): Replica {
    if replica.serving.Nothing? then replica
    else replica.(serving := FromDisk(replica.disk, replica.serving))
  }

  /** Ensure returns without an error; the first time, the watcher is created and loads. */
  function Returned(replica: Replica): Replica {
    if replica.serving.Nothing? then replica.(pc := Idle, serving := FromDisk(replica.disk, Nothing))
    else replica.(pc := Idle)
  }

  /** The version a read of n versions gives: a starting process reads past the cache, a
      running one may see any earlier version or none. */
  function Version(replica: Replica, n: nat, choice: nat): nat {
    if replica.serving.Pair? then choice else if n == 0 then 0 else n - 1
  }

  /** All versions of the Secret and of the webhook configuration's caBundle list;
      an empty list is an absent object. */
  datatype State = State(
    now: Time,
    nextKey: nat,
    secret: seq<Data>,
    config: seq<seq<Blob<Ca>>>,
    replicas: seq<Replica>)

  datatype Event =
    | Step(replica: nat, choice: nat) // cached reads return version `choice`, or not-found
    | Crash(replica: nat)             // Ensure returns an error
    | Load(replica: nat)
    | Restart(replica: nat, keepsDisk: bool)
    | Apply(entries: seq<Blob<Ca>>)   // the configuration is written from outside
    | Pass(duration: nat)

  function Patched(entries: seq<Blob<Ca>>, ca: Blob<Ca>): seq<Blob<Ca>> {
    seq(|entries|, _ => ca)
  }

  function At(s: State, r: nat, pc: Pc): State
    requires r < |s.replicas|
  {
    s.(replicas := s.replicas[r := s.replicas[r].(pc := pc)])
  }

  function Create(opts: Options, s: State, r: nat): State
    requires r < |s.replicas|
  {
    At(s, r, Creating(NewSecret(opts, s.now, s.nextKey), s.now)).(nextKey := s.nextKey + 2)
  }

  function Back(s: State, r: nat): State
    requires r < |s.replicas|
  {
    s.(replicas := s.replicas[r := Returned(s.replicas[r])])
  }

  function StepReplica(opts: Options, s: State, r: nat, choice: nat): State
    requires r < |s.replicas|
  {
    var seen := Version(s.replicas[r], |s.secret|, choice);
    match s.replicas[r].pc
    case Idle =>
      if seen < |s.secret| then At(s, r, Have(seen)) else Create(opts, s, r)
    case Creating(d, checked) =>
      if s.secret == [] then At(s, r, WriteCert(d, checked)).(secret := [d]) else At(s, r, Reading)
    case Reading =>
      if seen < |s.secret| then At(s, r, Have(seen)) else At(s, r, Idle)
    case Have(v) =>
      if v >= |s.secret| then At(s, r, Idle)
      else if NeedsRotation(opts, s.secret[v], s.now) then At(s, r, Rotating(v))
      else At(s, r, WriteCert(s.secret[v], s.now))
    case Rotating(v) =>
      if v >= |s.secret| then At(s, r, Idle)
      else if !s.secret[v].caCert.Good? || !s.secret[v].caKey.Good? then At(s, r, Idle) // the name is taken
      else if seen < |s.secret| then
        At(s, r, Updating(v, seen, Reissued(opts, s.secret[v], s.now, s.nextKey), s.now)).(nextKey := s.nextKey + 1)
      else At(s, r, Idle)
    case Updating(v, w, d, checked) =>
      if w + 1 == |s.secret| then At(s, r, WriteCert(d, checked)).(secret := s.secret + [d])
      else At(s, r, Rotating(v))
    case WriteCert(d, checked) =>
      var disk := s.replicas[r].disk.(cert := d.tlsCert, complete := false, checked := checked);
      s.(replicas := s.replicas[r := s.replicas[r].(pc := WriteKey(d, checked), disk := disk)])
    case WriteKey(d, checked) =>
      var disk := s.replicas[r].disk.(key := d.tlsKey, complete := true);
      s.(replicas := s.replicas[r := s.replicas[r].(pc := Patching(d.caCert), disk := disk)])
    case Patching(ca) =>
      var found := Version(s.replicas[r], |s.config|, choice);
      if found < |s.config| then At(s, r, PatchHave(ca, found)) else Back(s, r)
    case PatchHave(ca, v) =>
      if v >= |s.config| || Patched(s.config[v], ca) == s.config[v] then Back(s, r)
      else if v + 1 == |s.config| then Back(s, r).(config := s.config + [Patched(s.config[v], ca)])
      else At(s, r, Patching(ca))
  }

  const EMPTY := Disk(Missing, Missing, false, 0)

  /** The process dies and starts again, on the same disk or a new one. */
  function Restarted(replica: Replica, keepsDisk: bool): Replica {
    Replica(Idle, if keepsDisk then replica.disk else EMPTY, Nothing)
  }

  function Next(opts: Options, s: State, e: Event): State {
    match e
    case Step(r, choice) => if r < |s.replicas| then StepReplica(opts, s, r, choice) else s
    case Crash(r) => if r < |s.replicas| then At(s, r, Idle) else s
    case Load(r) => if r < |s.replicas| then s.(replicas := s.replicas[r := Loaded(s.replicas[r])]) else s
    case Restart(r, keeps) =>
      if r < |s.replicas| then s.(replicas := s.replicas[r := Restarted(s.replicas[r], keeps)]) else s
    case Apply(entries) => s.(config := s.config + [entries])
    case Pass(d) => s.(now := s.now + d)
  }

  function Run(opts: Options, s: State, events: seq<Event>): State
    decreases |events|
  {
    if events == [] then s else Run(opts, Next(opts, s, events[0]), events[1..])
  }

  const BLANK := Replica(Idle, EMPTY, Nothing)

  /** No Secret yet, any webhook configuration or none, empty disks. */
  predicate Initial(s: State) {
    s.secret == [] && |s.config| <= 1 && forall r | r in s.replicas :: r == BLANK
  }

  // ---- The invariant ----

  /** Complete Secret data whose CA is ca. */
  predicate SignedBy(d: Data, ca: Ca) {
    && d.caCert == Good(ca) && d.caKey == Good(ca.key)
    && d.tlsCert.Good? && d.tlsCert.value.issuer == ca.key
    && d.tlsKey == Good(d.tlsCert.value.key)
  }

  predicate LongLived(opts: Options, d: Data, checked: Time) {
    d.tlsCert.Good? && d.tlsCert.value.notAfter >= checked + opts.rotateBefore
  }

  predicate InstallOk(opts: Options, s: State, d: Data, checked: Time) {
    && s.secret != [] && s.secret[0].caCert.Good? && SignedBy(d, s.secret[0].caCert.value)
    && (opts.certValidity >= opts.rotateBefore ==> LongLived(opts, d, checked))
    && checked <= s.now
  }

  predicate PcOk(opts: Options, s: State, pc: Pc) {
    match pc
    case Creating(d, checked) =>
      && d.caCert.Good? && SignedBy(d, d.caCert.value) && checked <= s.now
      && (opts.certValidity >= opts.rotateBefore ==> LongLived(opts, d, checked))
    case Updating(_, _, d, checked) => InstallOk(opts, s, d, checked)
    case WriteCert(d, checked) => InstallOk(opts, s, d, checked)
    case WriteKey(d, checked) => InstallOk(opts, s, d, checked)
    case Patching(ca) => s.secret != [] && ca == s.secret[0].caCert
    case PatchHave(ca, v) => s.secret != [] && ca == s.secret[0].caCert && v < |s.config|
    case _ => true
  }

  predicate CertOk(s: State, cert: Blob<Leaf>) {
    cert.Missing? || (&& cert.Good? && s.secret != [] && s.secret[0].caCert.Good?
                      && cert.value.issuer == s.secret[0].caCert.value.key)
  }

  predicate DiskOk(opts: Options, s: State, replica: Replica) {
    var disk := replica.disk;
    && CertOk(s, disk.cert)
    && (disk.cert.Good? && opts.certValidity >= opts.rotateBefore ==>
          disk.cert.value.notAfter >= disk.checked + opts.rotateBefore)
    && (disk.complete ==> disk.cert.Good? && disk.key == Good(disk.cert.value.key))
    && (replica.pc.WriteKey? ==> disk.cert == replica.pc.data.tlsCert)
    && (replica.pc.Patching? || replica.pc.PatchHave? ==> disk.complete)
  }

  predicate ServingOk(opts: Options, s: State, serving: Serving) {
    serving.Pair? ==>
      && CertOk(s, Good(serving.leaf)) && serving.key == serving.leaf.key
      && (opts.certValidity >= opts.rotateBefore ==> serving.leaf.notAfter >= serving.checked + opts.rotateBefore)
  }

  predicate ReplicaOk(opts: Options, s: State, replica: Replica) {
    PcOk(opts, s, replica.pc) && DiskOk(opts, s, replica) && ServingOk(opts, s, replica.serving)
  }

  predicate SecretOk(s: State) {
    s.secret != [] ==>
      && s.secret[0].caCert.Good?
      && forall d | d in s.secret :: SignedBy(d, s.secret[0].caCert.value)
  }

  predicate Inv(opts: Options, s: State) {
    && SecretOk(s)
    && forall i | 0 <= i < |s.replicas| :: ReplicaOk(opts, s, s.replicas[i])
  }

  /** Time passes and the Secret only gains versions. */
  predicate Extends(s: State, t: State) {
    && s.now <= t.now
    && |s.secret| <= |t.secret| && t.secret[..|s.secret|] == s.secret
    && |s.config| <= |t.config| && t.config[..|s.config|] == s.config
  }

  lemma {:induction false} ReplicaStays(opts: Options, s: State, t: State, replica: Replica)
    requires Extends(s, t) && ReplicaOk(opts, s, replica)
    ensures ReplicaOk(opts, t, replica)
  {
    assert s.secret != [] ==> t.secret[0] == s.secret[0];
  }

  /** One replica moves to a state that is fine for it; the others are unaffected. */
  lemma {:induction false} MoveKeeps(opts: Options, s: State, t: State, r: nat, replica: Replica)
    requires Inv(opts, s) && r < |s.replicas| && Extends(s, t)
    requires t.replicas == s.replicas[r := replica]
    requires SecretOk(t) && ReplicaOk(opts, t, replica)
    ensures Inv(opts, t)
  {
    forall i | 0 <= i < |t.replicas| ensures ReplicaOk(opts, t, t.replicas[i]) {
      if i != r { ReplicaStays(opts, s, t, s.replicas[i]); }
    }
  }

  lemma {:induction false} SecretStepKeeps(opts: Options, s: State, r: nat, choice: nat)
    requires Inv(opts, s) && r < |s.replicas|
    requires var pc := s.replicas[r].pc; pc.Creating? || pc.Updating?
    ensures Inv(opts, StepReplica(opts, s, r, choice)) && Extends(s, StepReplica(opts, s, r, choice))
  {
    var t := StepReplica(opts, s, r, choice);
    assert ReplicaOk(opts, s, s.replicas[r]);
    ReplicaStays(opts, s, t, s.replicas[r]);
    MoveKeeps(opts, s, t, r, t.replicas[r]);
  }

  lemma {:induction false} DecideStepKeeps(opts: Options, s: State, r: nat, choice: nat)
    requires Inv(opts, s) && r < |s.replicas|
    requires var pc := s.replicas[r].pc; pc.Have? || pc.Rotating?
    ensures Inv(opts, StepReplica(opts, s, r, choice)) && Extends(s, StepReplica(opts, s, r, choice))
  {
    var t := StepReplica(opts, s, r, choice);
    assert ReplicaOk(opts, s, s.replicas[r]);
    var pc := s.replicas[r].pc;
    var v := if pc.Have? then pc.version else pc.source;
    assert v < |s.secret| ==> s.secret[v] in s.secret;
    MoveKeeps(opts, s, t, r, t.replicas[r]);
  }

  lemma {:induction false} LocalStepKeeps(opts: Options, s: State, r: nat, choice: nat)
    requires Inv(opts, s) && r < |s.replicas|
    requires var pc := s.replicas[r].pc; pc.Idle? || pc.Reading? || pc.WriteCert? || pc.WriteKey? || pc.Patching?
    ensures Inv(opts, StepReplica(opts, s, r, choice)) && Extends(s, StepReplica(opts, s, r, choice))
  {
    var t := StepReplica(opts, s, r, choice);
    assert ReplicaOk(opts, s, s.replicas[r]);
    MoveKeeps(opts, s, t, r, t.replicas[r]);
  }

  lemma {:induction false} PatchStepKeeps(opts: Options, s: State, r: nat, choice: nat)
    requires Inv(opts, s) && r < |s.replicas| && s.replicas[r].pc.PatchHave?
    ensures Inv(opts, StepReplica(opts, s, r, choice)) && Extends(s, StepReplica(opts, s, r, choice))
  {
    var t := StepReplica(opts, s, r, choice);
    assert ReplicaOk(opts, s, s.replicas[r]);
    ReplicaStays(opts, s, t, s.replicas[r]);
    MoveKeeps(opts, s, t, r, t.replicas[r]);
  }

  lemma {:induction false} NextKeeps(opts: Options, s: State, e: Event)
    requires Inv(opts, s)
    ensures Inv(opts, Next(opts, s, e)) && Extends(s, Next(opts, s, e))
  {
    var t := Next(opts, s, e);
    match e {
      case Step(r, choice) =>
        if r < |s.replicas| {
          var pc := s.replicas[r].pc;
          if pc.Creating? || pc.Updating? { SecretStepKeeps(opts, s, r, choice); }
          else if pc.Have? || pc.Rotating? { DecideStepKeeps(opts, s, r, choice); }
          else if pc.PatchHave? { PatchStepKeeps(opts, s, r, choice); }
          else { LocalStepKeeps(opts, s, r, choice); }
        }
      case Crash(r) =>
        if r < |s.replicas| {
          assert ReplicaOk(opts, s, s.replicas[r]);
          MoveKeeps(opts, s, t, r, t.replicas[r]);
        }
      case Load(r) =>
        if r < |s.replicas| {
          assert ReplicaOk(opts, s, s.replicas[r]);
          MoveKeeps(opts, s, t, r, Loaded(s.replicas[r]));
        }
      case Restart(r, keeps) =>
        if r < |s.replicas| {
          assert ReplicaOk(opts, s, s.replicas[r]);
          MoveKeeps(opts, s, t, r, Restarted(s.replicas[r], keeps));
        }
      case Apply(_) =>
        forall i | 0 <= i < |t.replicas| ensures ReplicaOk(opts, t, t.replicas[i]) {
          ReplicaStays(opts, s, t, s.replicas[i]);
        }
      case Pass(_) =>
        forall i | 0 <= i < |t.replicas| ensures ReplicaOk(opts, t, t.replicas[i]) {
          ReplicaStays(opts, s, t, s.replicas[i]);
        }
    }
  }

  lemma {:induction false} RunKeeps(opts: Options, s: State, events: seq<Event>)
    requires Inv(opts, s)
    ensures Inv(opts, Run(opts, s, events)) && Extends(s, Run(opts, s, events))
    decreases |events|
  {
    if events != [] {
      var t := Next(opts, s, events[0]);
      NextKeeps(opts, s, events[0]);
      RunKeeps(opts, t, events[1..]);
      ExtendsTrans(s, t, Run(opts, s, events));
    }
  }

  lemma {:induction false} ExtendsTrans(s: State, t: State, u: State)
    requires Extends(s, t) && Extends(t, u)
    ensures Extends(s, u)
  {
    assert u.secret[..|s.secret|] == u.secret[..|t.secret|][..|s.secret|];
    assert u.config[..|s.config|] == u.config[..|t.config|][..|s.config|];
  }

  lemma {:induction false} Reachable(opts: Options, s: State, events: seq<Event>)
    requires Initial(s)
    ensures Inv(opts, Run(opts, s, events))
  {
    forall i | 0 <= i < |s.replicas| ensures ReplicaOk(opts, s, s.replicas[i]) {
      assert s.replicas[i] in s.replicas;
    }
    RunKeeps(opts, s, events);
  }

  // ---- Theorems ----

  /** Whatever the interleaving, the stale reads and the crashes: every version of
      the Secret has the CA of the first one, with its key, and a leaf signed by
      it whose key is stored beside it. */
  lemma {:induction false} CaNeverChanges(opts: Options, s: State, events: seq<Event>, i: nat)
    requires Initial(s) && i < |Run(opts, s, events).secret|
    ensures var all := Run(opts, s, events).secret;
      all[0].caCert.Good? && SignedBy(all[i], all[0].caCert.value)
  {
    Reachable(opts, s, events);
    assert Run(opts, s, events).secret[i] in Run(opts, s, events).secret;
  }

  predicate Verifies(bundle: Blob<Ca>, leaf: Leaf) {
    bundle.Good? && bundle.value.key == leaf.issuer
  }

  /** A certificate file on any replica's disk is signed by that CA, and a fully
      written pair is a certificate with its own key. */
  lemma {:induction false} DiskIsSigned(opts: Options, s: State, events: seq<Event>, r: nat)
    requires Initial(s) && r < |Run(opts, s, events).replicas|
    ensures var t := Run(opts, s, events);
      var disk := t.replicas[r].disk;
      && (!disk.cert.Missing? ==> disk.cert.Good? && t.secret != [] && Verifies(t.secret[0].caCert, disk.cert.value))
      && (disk.complete ==> disk.cert.Good? && disk.key == Good(disk.cert.value.key))
  {
    Reachable(opts, s, events);
    var t := Run(opts, s, events);
    assert ReplicaOk(opts, t, t.replicas[r]);
  }

  /** No outside write among the events. */
  predicate Undisturbed(events: seq<Event>) {
    forall e | e in events :: !e.Apply?
  }

  /** Every entry of every version from v on is the CA. */
  predicate BundledFrom(s: State, v: nat) {
    s.secret != [] && forall w, b | v <= w < |s.config| && b in s.config[w] :: b == s.secret[0].caCert
  }

  lemma {:induction false} StepBundles(opts: Options, s: State, r: nat, choice: nat, v: nat)
    requires Inv(opts, s) && r < |s.replicas| && BundledFrom(s, v)
    ensures BundledFrom(StepReplica(opts, s, r, choice), v)
  {
    hide NeedsRotation, NewSecret, Reissued, SignedBy;
    assert ReplicaOk(opts, s, s.replicas[r]);
  }

  lemma {:induction false} RunBundles(opts: Options, s: State, events: seq<Event>, v: nat)
    requires Inv(opts, s) && BundledFrom(s, v) && Undisturbed(events)
    ensures BundledFrom(Run(opts, s, events), v)
    decreases |events|
  {
    hide Inv, BundledFrom, StepReplica;
    if events != [] {
      var e := events[0];
      NextKeeps(opts, s, e);
      assert BundledFrom(Next(opts, s, e), v) by { NextBundles(opts, s, e, v); }
      RunBundles(opts, Next(opts, s, e), events[1..], v);
    }
  }

  lemma {:induction false} NextBundles(opts: Options, s: State, e: Event, v: nat)
    requires Inv(opts, s) && BundledFrom(s, v) && !e.Apply?
    ensures BundledFrom(Next(opts, s, e), v)
  {
    hide StepReplica, Inv;
    if e.Step? && e.replica < |s.replicas| { StepBundles(opts, s, e.replica, e.choice, v); }
  }

  lemma {:induction false} PatchBundles(opts: Options, s: State, e: Event)
    requires Inv(opts, s) && e.Step? && |Next(opts, s, e).config| > |s.config|
    ensures BundledFrom(Next(opts, s, e), |s.config|)
  {
    hide NeedsRotation, NewSecret, Reissued, SignedBy;
    assert ReplicaOk(opts, s, s.replicas[e.replica]);
  }

  /** Once a replica has patched the webhook configuration, every entry of that and every
      later version verifies every certificate that any replica has or will ever have on
      disk, through all later rotations and restarts, until someone else writes it. */
  lemma {:induction false} PatchedBundleVerifies(opts: Options, s: State, past: seq<Event>, patch: Event,
                                                 future: seq<Event>, r: nat)
    requires Initial(s) && patch.Step? && Undisturbed(future)
    requires |Next(opts, Run(opts, s, past), patch).config| > |Run(opts, s, past).config|
    requires var t := Run(opts, Next(opts, Run(opts, s, past), patch), future);
      r < |t.replicas| && !t.replicas[r].disk.cert.Missing?
    ensures var t := Run(opts, Next(opts, Run(opts, s, past), patch), future);
      && t.replicas[r].disk.cert.Good? && |t.config| > |Run(opts, s, past).config|
      && forall w, b | |Run(opts, s, past).config| <= w < |t.config| && b in t.config[w] ::
           Verifies(b, t.replicas[r].disk.cert.value)
  {
    hide Run, Next, BundledFrom;
    var p := Run(opts, s, past);
    var q := Next(opts, p, patch);
    Reachable(opts, s, past);
    NextKeeps(opts, p, patch);
    PatchBundles(opts, p, patch);
    RunKeeps(opts, q, future);
    RunBundles(opts, q, future, |p.config|);
    var t := Run(opts, q, future);
    assert ReplicaOk(opts, t, t.replicas[r]);
    BundledVerifies(t, |p.config|, t.replicas[r].disk.cert.value);
  }

  lemma {:induction false} BundledVerifies(t: State, v: nat, leaf: Leaf)
    requires BundledFrom(t, v) && CertOk(t, Good(leaf))
    ensures forall w, b | v <= w < |t.config| && b in t.config[w] :: Verifies(b, leaf)
  {}

  /** At every moment, between the two file writes and after a crash there included, what
      a replica serves is a certificate with its own key, signed by the CA. */
  lemma {:induction false} ServedPairMatches(opts: Options, s: State, events: seq<Event>, r: nat)
    requires Initial(s) && r < |Run(opts, s, events).replicas|
    ensures var t := Run(opts, s, events);
      var serving := t.replicas[r].serving;
      serving.Pair? ==> serving.key == serving.leaf.key && t.secret != [] && Verifies(t.secret[0].caCert, serving.leaf)
  {
    Reachable(opts, s, events);
    var t := Run(opts, s, events);
    assert ReplicaOk(opts, t, t.replicas[r]);
  }

  /** A running process that looks at a complete pair of files serves it, and a starting
      one serves it when its first Ensure returns. */
  lemma {:induction false} LoadServesDisk(opts: Options, s: State, events: seq<Event>, r: nat, choice: nat)
    requires Initial(s) && r < |Run(opts, s, events).replicas|
    ensures var t := Run(opts, s, events);
      var before, loaded := t.replicas[r], Next(opts, t, Load(r)).replicas[r].serving;
      before.disk.complete && before.serving.Pair? ==>
        before.disk.cert.Good?
        && loaded == Pair(before.disk.cert.value, before.disk.cert.value.key, before.disk.checked)
    ensures var t := Run(opts, s, events);
      var before, after := t.replicas[r], Next(opts, t, Step(r, choice)).replicas[r];
      (before.pc.Patching? || before.pc.PatchHave?) && before.serving.Nothing? && after.pc.Idle? ==>
        before.disk.cert.Good?
        && after.serving == Pair(before.disk.cert.value, before.disk.cert.value.key, before.disk.checked)
  {
    hide Run, NeedsRotation, NewSecret, Reissued;
    Reachable(opts, s, events);
    var t := Run(opts, s, events);
    assert ReplicaOk(opts, t, t.replicas[r]);
  }

  /** Nothing is served before the first Ensure of the process has returned. */
  lemma {:induction false} ServingNeedsReturn(opts: Options, s: State, e: Event, r: nat)
    requires r < |s.replicas| && s.replicas[r].serving.Nothing?
    ensures var t := Next(opts, s, e);
      && r < |t.replicas|
      && (t.replicas[r].serving.Pair? ==>
            e.Step? && e.replica == r && (s.replicas[r].pc.Patching? || s.replicas[r].pc.PatchHave?))
  {
    hide NeedsRotation, NewSecret, Reissued, Patched;
  }

  /** When leaves live at least as long as the rotation margin, a replica serving a leaf
      that was judged at most that margin ago serves an unexpired certificate, whatever
      has been written to its disk since. */
  lemma {:induction false} ServedLeafUnexpired(opts: Options, s: State, events: seq<Event>, r: nat)
    requires Initial(s) && opts.certValidity >= opts.rotateBefore
    requires var t := Run(opts, s, events);
      && r < |t.replicas| && t.replicas[r].serving.Pair?
      && t.now <= t.replicas[r].serving.checked + opts.rotateBefore
    ensures var t := Run(opts, s, events);
      t.now <= t.replicas[r].serving.leaf.notAfter
  {
    Reachable(opts, s, events);
    var t := Run(opts, s, events);
    assert ReplicaOk(opts, t, t.replicas[r]);
  }

  lemma {:induction false} RunNone(opts: Options, s: State)
    ensures Run(opts, s, []) == s
  {}

  lemma {:induction false} RunCons(opts: Options, s: State, e: Event, rest: seq<Event>)
    ensures Run(opts, s, [e] + rest) == Run(opts, Next(opts, s, e), rest)
  {
    hide Next;
    assert ([e] + rest)[1..] == rest;
  }

  // ---- patchCABundle's loop ----

  /** Overwrites the entries that differ, and says whether there were any. */
  method PatchEntries(bundles: array<Blob<Ca>>, ca: Blob<Ca>) returns (changed: bool)
    modifies bundles
    ensures bundles[..] == Patched(old(bundles[..]), ca)
    ensures changed <==> Patched(old(bundles[..]), ca) != old(bundles[..])
  {
    changed := false;
    for i := 0 to bundles.Length
      invariant forall j | 0 <= j < i :: bundles[j] == ca
      invariant forall j | i <= j < bundles.Length :: bundles[j] == old(bundles[j])
      invariant changed <==> exists j | 0 <= j < i :: old(bundles[j]) != ca
    {
      if bundles[i] != ca {
        bundles[i] := ca;
        changed := true;
      }
    }
    ghost var before := old(bundles[..]);
    if changed {
      ghost var j :| 0 <= j < bundles.Length && old(bundles[j]) != ca;
      assert before[j] != Patched(before, ca)[j];
    } else {
      assert before == Patched(before, ca);
    }
  }
}
