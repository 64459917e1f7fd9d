/** What the Kafka gateway's watcher does with Trigger, Secret and Integration events,
    as a function of its state, and when the result follows the cluster. */
module KafkaSubscriptions {
  import opened Common
  import opened SecretIndex

  datatype Trigger = Trigger(key: Key, isKafka: bool, enabled: bool, topic: string, group: string, integration: string)

  datatype SecretRef = SecretRef(name: string, field: string)

  datatype Sasl = Sasl(user: SecretRef, pass: SecretRef)

  /** `settings` stands for brokers, SASL mechanism and TLS flags. */
  datatype Integration = Unreadable | NotKafka | Kafka(settings: string, ca: Option<SecretRef>, sasl: Option<Sasl>)

  /** The API reads and the brokers, as seen by one handler call. */
  datatype World = World(
    integrations: Key -> Integration,
    values: (Key, string) -> Option<string>,
    connects: Trigger -> bool)

  datatype Credentials = Credentials(ca: string, user: string, pass: string)

  /** What a consumer was started with. */
  datatype Config = Config(integration: string, topic: string, group: string, settings: string, creds: Credentials)

  datatype Subscription = Subscription(consumer: nat, config: Config)

  predicate Active(t: Trigger) {
    t.isKafka && t.enabled
  }

  function IntegrationKey(t: Trigger): Key {
    Key(t.key.namespace, t.integration)
  }

  function GroupOf(t: Trigger): string {
    if t.group == "" then "kubezap-" + t.key.name else t.group
  }

  // ---- Credentials ----

  function SecretKey(ns: string, ref: SecretRef): Key {
    Key(ns, ref.name)
  }

  function Read(w: World, ns: string, ref: SecretRef): Option<string> {
    w.values(SecretKey(ns, ref), ref.field)
  }

  /** `refs` are the Secrets read before resolution ended, with or without success. */
  datatype Resolution = Resolution(refs: seq<Key>, creds: Option<Credentials>)

  function Resolve(w: World, ns: string, i: Integration): Resolution
    requires i.Kafka?
  {
    var ca := if i.ca.None? then Some("") else Read(w, ns, i.ca.value);
    if ca.None? then Resolution([], None)
    else
      var refs := if i.ca.None? then [] else [SecretKey(ns, i.ca.value)];
      if i.sasl.None? then Resolution(refs, Some(Credentials(ca.value, "", "")))
      else
        var user, pass := Read(w, ns, i.sasl.value.user), Read(w, ns, i.sasl.value.pass);
        if user.None? || pass.None? then Resolution(refs, None)
        else
          Resolution(refs + [SecretKey(ns, i.sasl.value.user), SecretKey(ns, i.sasl.value.pass)],
                     Some(Credentials(ca.value, user.value, pass.value)))
  }

  /** The digest over the values read, taken as injective on their concatenation. */
  function Fingerprint(c: Credentials): string {
    c.ca + c.user + c.pass
  }

  function Wanted(t: Trigger, settings: string, creds: Credentials): Config {
    Config(t.integration, t.topic, GroupOf(t), settings, creds)
  }

  /** The comparison that decides against a restart. */
  predicate Keeps(was: Config, want: Config) {
    && was.integration == want.integration && was.topic == want.topic && was.group == want.group
    && Fingerprint(was.creds) == Fingerprint(want.creds)
  }

  // ---- What processing one Trigger does ----

  /** A subscription that already is what is wanted stays; any other is stopped, and the
      wanted one started if the broker accepts. */
  function Resubscribed(was: Option<Config>, want: Config, connects: bool): Option<Config> {
    if was.Some? && Keeps(was.value, want) then was else if connects then Some(want) else None
  }

  /** Inactive Triggers lose their subscription, unresolved credentials leave it
      alone, and resolved ones bring it to what the spec asks for. */
  function ConfigAfter(was: Option<Config>, t: Trigger, w: World): Option<Config> {
    var i := w.integrations(IntegrationKey(t));
    if !Active(t) then None
    else if !i.Kafka? then was
    else
      var r := Resolve(w, t.key.namespace, i);
      if r.creds.None? then was
      else
        Resubscribed(was, Wanted(t, i.settings, r.creds.value), w.connects(t))
  }

  function LinksAfter(was: set<Key>, t: Trigger, w: World): set<Key> {
    var i := w.integrations(IntegrationKey(t));
    if !Active(t) then {} else if !i.Kafka? then was else SetOf(Resolve(w, t.key.namespace, i).refs)
  }

  // ---- The watcher's state as a value, and what each event does to it ----

  datatype View = View(triggers: map<Key, Trigger>, configs: map<Key, Config>, links: Links)

  predicate KeyedByName(triggers: map<Key, Trigger>) {
    forall k | k in triggers :: triggers[k].key == k
  }

  function ConfigOf(configs: map<Key, Config>, k: Key): Option<Config> {
    if k in configs then Some(configs[k]) else None
  }

  function LinksOf(links: Links, k: Key): set<Key> {
    if k in links then links[k] else {}
  }

  function WithConfig(configs: map<Key, Config>, k: Key, c: Option<Config>): map<Key, Config> {
    if c.Some? then configs[k := c.value] else configs - {k}
  }

  function WithLinks(links: Links, k: Key, secrets: set<Key>): Links {
    if secrets == {} then links - {k} else links[k := secrets]
  }

  function NewConfig(v: View, affected: set<Key>, w: World, k: Key): Option<Config> {
    if k in affected && k in v.triggers then ConfigAfter(ConfigOf(v.configs, k), v.triggers[k], w)
    else ConfigOf(v.configs, k)
  }

  function NewLinks(v: View, affected: set<Key>, w: World, k: Key): set<Key> {
    if k in affected && k in v.triggers then LinksAfter(LinksOf(v.links, k), v.triggers[k], w)
    else LinksOf(v.links, k)
  }

  /** Every affected Trigger is processed as last seen, whatever the order. */
  function Reprocessed(v: View, affected: set<Key>, w: World): View {
    View(
      v.triggers,
      map k | k in v.configs.Keys + v.triggers.Keys && NewConfig(v, affected, w, k).Some? ::
        NewConfig(v, affected, w, k).value,
      map k | k in v.links.Keys + v.triggers.Keys && NewLinks(v, affected, w, k) != {} ::
        NewLinks(v, affected, w, k))
  }

  datatype Event =
    | TriggerSeen(trigger: Trigger, world: World)
    | TriggerGone(key: Key)
    | SecretChanged(key: Key, world: World)
    | IntegrationChanged(key: Key, world: World)
    | Unheard(world: World) // a Secret or Integration is deleted, or changes before its event

  function Seen(v: View, t: Trigger, w: World): View {
    Reprocessed(v.(triggers := v.triggers[t.key := t]), {t.key}, w)
  }

  function Gone(v: View, k: Key): View {
    View(v.triggers - {k}, v.configs - {k}, v.links - {k})
  }

  function DependentOn(links: Links, secret: Key): set<Key> {
    set k | k in links && secret in links[k]
  }

  function Referencing(triggers: map<Key, Trigger>, integration: Key): set<Key> {
    set k | k in triggers && Active(triggers[k]) && IntegrationKey(triggers[k]) == integration
  }

  function Handled(v: View, e: Event): View {
    match e
    case TriggerSeen(t, w) => Seen(v, t, w)
    case TriggerGone(k) => Gone(v, k)
    case SecretChanged(s, w) => Reprocessed(v, DependentOn(v.links, s), w)
    case IntegrationChanged(i, w) => Reprocessed(v, Referencing(v.triggers, i), w)
    case Unheard(_) => v
  }

  function HandledAll(v: View, events: seq<Event>): View {
    if events == [] then v else Handled(HandledAll(v, events[..|events| - 1]), events[|events| - 1])
  }

  lemma {:induction false} ReprocessedAt(v: View, affected: set<Key>, w: World, k: Key)
    ensures ConfigOf(Reprocessed(v, affected, w).configs, k) == NewConfig(v, affected, w, k)
    ensures LinksOf(Reprocessed(v, affected, w).links, k) == NewLinks(v, affected, w, k)
  {}

  lemma {:induction false} NoBucketsAfter(v: View, affected: set<Key>, w: World)
    ensures NoEmptyBuckets(Reprocessed(v, affected, w).links)
  {
    hide NewConfig, NewLinks;
  }

  lemma {:induction false} TriggersKept(v: View, affected: set<Key>, w: World)
    ensures Reprocessed(v, affected, w).triggers == v.triggers
  {}

  predicate SameAt(a: View, b: View, k: Key) {
    ConfigOf(a.configs, k) == ConfigOf(b.configs, k) && LinksOf(a.links, k) == LinksOf(b.links, k)
  }

  lemma {:induction false} SameViews(a: View, b: View)
    requires a.triggers == b.triggers && NoEmptyBuckets(a.links) && NoEmptyBuckets(b.links)
    requires forall k: Key :: SameAt(a, b, k)
    ensures a == b
  {
    forall k | k in a.configs ensures k in b.configs && a.configs[k] == b.configs[k] { assert SameAt(a, b, k); }
    forall k | k in b.configs ensures k in a.configs { assert SameAt(a, b, k); }
    forall k | k in a.links ensures k in b.links && a.links[k] == b.links[k] { assert SameAt(a, b, k); }
    forall k | k in b.links ensures k in a.links { assert SameAt(a, b, k); }
  }

  /** Processing one more Trigger that has not been processed yet. */
  lemma {:induction false} ReprocessOne(v: View, affected: set<Key>, w: World, k: Key)
    requires k !in affected && KeyedByName(v.triggers) && NoEmptyBuckets(v.links)
    ensures k in v.triggers ==>
      Seen(Reprocessed(v, affected, w), v.triggers[k], w) == Reprocessed(v, affected + {k}, w)
    ensures k !in v.triggers ==> Reprocessed(v, affected, w) == Reprocessed(v, affected + {k}, w)
  {
    hide ConfigAfter, LinksAfter, Reprocessed, NoEmptyBuckets, ConfigOf, LinksOf;
    var u, target := Reprocessed(v, affected, w), Reprocessed(v, affected + {k}, w);
    TriggersKept(v, affected, w);
    TriggersKept(v, affected + {k}, w);
    NoBucketsAfter(v, affected, w);
    NoBucketsAfter(v, affected + {k}, w);
    if k in v.triggers {
      assert u.(triggers := u.triggers[k := v.triggers[k]]) == u;
      var next := Reprocessed(u, {k}, w);
      TriggersKept(u, {k}, w);
      NoBucketsAfter(u, {k}, w);
      forall j: Key ensures SameAt(next, target, j) {
        ReprocessedAt(u, {k}, w, j);
        ReprocessedAt(v, affected, w, j);
        ReprocessedAt(v, affected + {k}, w, j);
      }
      SameViews(next, target);
    } else {
      forall j: Key ensures SameAt(u, target, j) {
        ReprocessedAt(v, affected, w, j);
        ReprocessedAt(v, affected + {k}, w, j);
      }
      SameViews(u, target);
    }
  }

  lemma {:induction false} ReprocessNone(v: View, w: World)
    requires NoEmptyBuckets(v.links)
    ensures Reprocessed(v, {}, w) == v
  {
    hide Reprocessed;
    NoBucketsAfter(v, {}, w);
    TriggersKept(v, {}, w);
    forall j: Key ensures SameAt(Reprocessed(v, {}, w), v, j) { ReprocessedAt(v, {}, w, j); }
    SameViews(Reprocessed(v, {}, w), v);
  }

  /** Processing one Trigger changes its own entries only. */
  lemma {:induction false} SeenIs(v: View, t: Trigger, w: World)
    requires NoEmptyBuckets(v.links)
    ensures Seen(v, t, w) == View(v.triggers[t.key := t],
      WithConfig(v.configs, t.key, ConfigAfter(ConfigOf(v.configs, t.key), t, w)),
      WithLinks(v.links, t.key, LinksAfter(LinksOf(v.links, t.key), t, w)))
  {
    hide ConfigAfter, LinksAfter, Reprocessed;
    var u := v.(triggers := v.triggers[t.key := t]);
    var target := View(u.triggers,
      WithConfig(v.configs, t.key, ConfigAfter(ConfigOf(v.configs, t.key), t, w)),
      WithLinks(v.links, t.key, LinksAfter(LinksOf(v.links, t.key), t, w)));
    NoBucketsAfter(u, {t.key}, w);
    TriggersKept(u, {t.key}, w);
    forall j: Key ensures SameAt(Seen(v, t, w), target, j) { ReprocessedAt(u, {t.key}, w, j); }
    SameViews(Seen(v, t, w), target);
  }

  // ---- Following the cluster ----

  /** The Trigger is indexed under the Secrets its credentials were read from and, if
      they resolve, consumes as its spec asks with credentials of that fingerprint. */
  predicate Follows(v: View, w: World, k: Key)
    requires k in v.triggers
  {
    var t := v.triggers[k];
    var i := w.integrations(IntegrationKey(t));
    Active(t) && i.Kafka? ==>
      var r := Resolve(w, t.key.namespace, i);
      && LinksOf(v.links, k) == SetOf(r.refs)
      && (r.creds.Some? ==> k in v.configs && Keeps(v.configs[k], Wanted(t, i.settings, r.creds.value)))
  }

  predicate Synced(v: View, w: World) {
    KeyedByName(v.triggers) && forall k | k in v.triggers :: Follows(v, w, k)
  }

  predicate Readable(w: World, ns: string, ref: SecretRef) {
    Read(w, ns, ref).Some?
  }

  /** The CA certificate was read, or the CA certificate and both SASL values were. */
  predicate GotPast(w: World, ns: string, i: Integration, secret: Key)
    requires i.Kafka?
  {
    && (i.ca.Some? ==> Readable(w, ns, i.ca.value))
    && (|| (i.ca.Some? && SecretKey(ns, i.ca.value) == secret)
        || (&& i.sasl.Some?
            && Readable(w, ns, i.sasl.value.user) && Readable(w, ns, i.sasl.value.pass)
            && (SecretKey(ns, i.sasl.value.user) == secret || SecretKey(ns, i.sasl.value.pass) == secret)))
  }

  /** A change to a Secret reaches a Trigger exactly when its last resolution got past
      that Secret: one whose Secret is missing is not reprocessed when it is created. */
  lemma {:induction false} IndexedIffGotPast(v: View, w: World, k: Key, secret: Key)
    requires Synced(v, w) && k in v.triggers && Active(v.triggers[k])
    requires w.integrations(IntegrationKey(v.triggers[k])).Kafka?
    ensures var t := v.triggers[k];
      k in DependentOn(v.links, secret) <==> GotPast(w, t.key.namespace, w.integrations(IntegrationKey(t)), secret)
  {
    hide Follows, GotPast;
    LinkedIffGotPast(v, w, k, secret);
  }

  lemma {:induction false} LinkedIffGotPast(v: View, w: World, k: Key, secret: Key)
    requires k in v.triggers && Active(v.triggers[k]) && Follows(v, w, k)
    requires w.integrations(IntegrationKey(v.triggers[k])).Kafka?
    ensures var t := v.triggers[k];
      k in DependentOn(v.links, secret) <==> GotPast(w, t.key.namespace, w.integrations(IntegrationKey(t)), secret)
  {
    assert k in DependentOn(v.links, secret) <==> secret in LinksOf(v.links, k);
  }

  /** The group of references the last resolution did not get past: the CA certificate,
      or the SASL pair. */
  function Pending(w: World, ns: string, i: Integration): set<SecretRef>
    requires i.Kafka?
  {
    if i.ca.Some? && !Readable(w, ns, i.ca.value) then {i.ca.value}
    else if i.sasl.None? || (Readable(w, ns, i.sasl.value.user) && Readable(w, ns, i.sasl.value.pass)) then {}
    else {i.sasl.value.user, i.sasl.value.pass}
  }

  /** The Trigger waits for this Secret alone and is not indexed under it. */
  predicate Blocked(t: Trigger, w: World, secret: Key) {
    var i := w.integrations(IntegrationKey(t));
    && Active(t) && i.Kafka?
    && !GotPast(w, t.key.namespace, i, secret)
    && Pending(w, t.key.namespace, i) != {}
    && forall ref | ref in Pending(w, t.key.namespace, i) ::
         Readable(w, t.key.namespace, ref) || SecretKey(t.key.namespace, ref) == secret
  }

  predicate NoneBlocked(v: View, w: World, secret: Key) {
    forall k | k in v.triggers :: !Blocked(v.triggers[k], w, secret)
  }

  ghost predicate SameIntegrations(w: World, x: World, but: set<Key>) {
    forall k: Key | k !in but :: w.integrations(k) == x.integrations(k)
  }

  ghost predicate SameValues(w: World, x: World, but: set<Key>) {
    forall k: Key, field: string | k !in but :: w.values(k, field) == x.values(k, field)
  }

  ghost predicate Accepting(w: World) {
    forall t: Trigger :: w.connects(t)
  }

  function WorldAfter(w: World, e: Event): World {
    if e.TriggerGone? then w else e.world
  }

  /** The cluster changed at most where the event says, and brokers accept. */
  ghost predicate Announced(v: View, w: World, e: Event) {
    && (!e.TriggerGone? ==> Accepting(e.world))
    && match e
       case TriggerSeen(_, x) => SameIntegrations(w, x, {}) && SameValues(w, x, {})
       case TriggerGone(_) => true
       case SecretChanged(s, x) => SameIntegrations(w, x, {}) && SameValues(w, x, {s}) && NoneBlocked(v, w, s)
       case IntegrationChanged(i, x) => SameIntegrations(w, x, {i}) && SameValues(w, x, {})
       case Unheard(x) => forall k | k in v.triggers :: Unaffected(v.triggers[k], w, x)
  }

  /** The change makes no difference to the Trigger. */
  predicate Unaffected(t: Trigger, w: World, x: World) {
    var i := w.integrations(IntegrationKey(t));
    Active(t) ==>
      && i == x.integrations(IntegrationKey(t))
      && (i.Kafka? ==> Resolve(w, t.key.namespace, i) == Resolve(x, t.key.namespace, i))
  }

  lemma {:induction false} ProcessedFollows(v: View, affected: set<Key>, w: World, k: Key)
    requires KeyedByName(v.triggers) && k in v.triggers && k in affected && Accepting(w)
    ensures Follows(Reprocessed(v, affected, w), w, k)
  {
    hide Reprocessed, Resolve, Fingerprint;
    ReprocessedAt(v, affected, w, k);
    assert Reprocessed(v, affected, w).triggers == v.triggers by { TriggersKept(v, affected, w); }
    assert w.connects(v.triggers[k]);
  }

  /** A Secret that was not read and does not unblock leaves the resolution as it is. */
  lemma {:induction false} ResolvesAlike(w: World, x: World, secret: Key, t: Trigger)
    requires SameValues(w, x, {secret}) && SameIntegrations(w, x, {}) && Active(t)
    requires var i := w.integrations(IntegrationKey(t));
      i.Kafka? && !GotPast(w, t.key.namespace, i, secret) && !Blocked(t, w, secret)
    ensures var i := w.integrations(IntegrationKey(t));
      Resolve(w, t.key.namespace, i) == Resolve(x, t.key.namespace, i)
  {
    var ns := t.key.namespace;
    var i := w.integrations(IntegrationKey(t));
    if Pending(w, ns, i) != {} {
      var ref :| ref in Pending(w, ns, i) && !Readable(w, ns, ref) && SecretKey(ns, ref) != secret;
      assert !Readable(x, ns, ref);
    }
  }

  lemma {:induction false} OthersFollow(v: View, affected: set<Key>, w: World, x: World, k: Key)
    requires k in v.triggers && Follows(v, w, k) && k !in affected && Unaffected(v.triggers[k], w, x)
    ensures Follows(Reprocessed(v, affected, x), x, k)
  {
    hide Reprocessed, Resolve, Fingerprint;
    ReprocessedAt(v, affected, x, k);
    TriggersKept(v, affected, x);
  }

  lemma {:induction false} SecretStep(v: View, w: World, s: Key, x: World)
    requires Synced(v, w) && Announced(v, w, SecretChanged(s, x))
    ensures Synced(Handled(v, SecretChanged(s, x)), x)
  {
    hide Reprocessed, Resolve, Follows, GotPast, Blocked;
    var affected := DependentOn(v.links, s);
    TriggersKept(v, affected, x);
    forall k | k in v.triggers ensures Follows(Reprocessed(v, affected, x), x, k) {
      if k in affected {
        ProcessedFollows(v, affected, x, k);
      } else {
        var t := v.triggers[k];
        var i := w.integrations(IntegrationKey(t));
        if Active(t) && i.Kafka? {
          IndexedIffGotPast(v, w, k, s);
          ResolvesAlike(w, x, s, t);
        }
        OthersFollow(v, affected, w, x, k);
      }
    }
  }

  /** Once the group a blocked Trigger waits for can be read, its subscription and index
      entry are out of date, and the event that says so changes neither. */
  lemma {:induction false} CreatedSecretIsMissed(v: View, w: World, k: Key, s: Key, x: World)
    requires Synced(v, w) && k in v.triggers && Blocked(v.triggers[k], w, s)
    requires SameIntegrations(w, x, {}) && SameValues(w, x, {s})
    requires var t := v.triggers[k];
      forall ref | ref in Pending(w, t.key.namespace, w.integrations(IntegrationKey(t))) ::
        Readable(x, t.key.namespace, ref)
    ensures var after := Handled(v, SecretChanged(s, x));
      && ConfigOf(after.configs, k) == ConfigOf(v.configs, k) && LinksOf(after.links, k) == LinksOf(v.links, k)
      && k in after.triggers && !Follows(after, x, k)
  {
    hide Reprocessed;
    var t := v.triggers[k];
    var ns, i := t.key.namespace, w.integrations(IntegrationKey(t));
    var affected := DependentOn(v.links, s);
    IndexedIffGotPast(v, w, k, s);
    ReprocessedAt(v, affected, x, k);
    TriggersKept(v, affected, x);
    assert Follows(v, w, k);
    UnblockedReads(w, x, s, t);
    assert s !in LinksOf(v.links, k);
  }

  lemma {:induction false} UnblockedReads(w: World, x: World, s: Key, t: Trigger)
    requires Blocked(t, w, s) && SameIntegrations(w, x, {}) && SameValues(w, x, {s})
    requires forall ref | ref in Pending(w, t.key.namespace, w.integrations(IntegrationKey(t))) ::
      Readable(x, t.key.namespace, ref)
    ensures var i := w.integrations(IntegrationKey(t));
      s in SetOf(Resolve(x, t.key.namespace, i).refs) && s !in SetOf(Resolve(w, t.key.namespace, i).refs)
  {
    var ns, i := t.key.namespace, w.integrations(IntegrationKey(t));
    if i.ca.Some? && !Readable(w, ns, i.ca.value) {
      assert i.ca.value in Pending(w, ns, i);
    } else {
      assert i.sasl.value.user in Pending(w, ns, i) && i.sasl.value.pass in Pending(w, ns, i);
    }
  }

  /** The world with every field of the Secret readable and the brokers accepting. */
  function Revealed(w: World, s: Key): World {
    World(w.integrations,
          (k: Key, field: string) => if k == s && w.values(k, field).None? then Some("") else w.values(k, field),
          _ => true)
  }

  ghost predicate ChangedOnly(w: World, x: World, s: Key) {
    SameIntegrations(w, x, {}) && SameValues(w, x, {s}) && Accepting(x)
  }

  /** Whatever a Secret changes to, its event brings the watcher back in step, if and only
      if no Trigger is blocked by it. */
  lemma {:induction false} SecretFollowedIff(v: View, w: World, s: Key)
    requires Synced(v, w)
    ensures NoneBlocked(v, w, s) <==>
      forall x: World | ChangedOnly(w, x, s) :: Synced(Handled(v, SecretChanged(s, x)), x)
  {
    hide Synced, Blocked, Handled;
    if NoneBlocked(v, w, s) {
      forall x: World | ChangedOnly(w, x, s) ensures Synced(Handled(v, SecretChanged(s, x)), x) {
        SecretStep(v, w, s, x);
      }
    } else {
      var k :| k in v.triggers && Blocked(v.triggers[k], w, s);
      var x := Revealed(w, s);
      assert ChangedOnly(w, x, s);
      BlockedReadable(v.triggers[k], w, s);
      CreatedSecretIsMissed(v, w, k, s, x);
      NotSynced(Handled(v, SecretChanged(s, x)), x, k);
    }
  }

  lemma {:induction false} BlockedReadable(t: Trigger, w: World, s: Key)
    requires Blocked(t, w, s)
    ensures w.integrations(IntegrationKey(t)).Kafka?
    ensures forall ref | ref in Pending(w, t.key.namespace, w.integrations(IntegrationKey(t))) ::
      Readable(Revealed(w, s), t.key.namespace, ref)
  {}

  lemma {:induction false} NotSynced(v: View, w: World, k: Key)
    requires k in v.triggers && !Follows(v, w, k)
    ensures !Synced(v, w)
  {}

  lemma {:induction false} IntegrationStep(v: View, w: World, i: Key, x: World)
    requires Synced(v, w) && Announced(v, w, IntegrationChanged(i, x))
    ensures Synced(Handled(v, IntegrationChanged(i, x)), x)
  {
    hide Reprocessed, Follows;
    var affected := Referencing(v.triggers, i);
    TriggersKept(v, affected, x);
    forall k | k in v.triggers ensures Follows(Reprocessed(v, affected, x), x, k) {
      if k in affected {
        ProcessedFollows(v, affected, x, k);
      } else {
        OthersFollow(v, affected, w, x, k);
      }
    }
  }

  lemma {:induction false} TriggerStep(v: View, w: World, t: Trigger, x: World)
    requires Synced(v, w) && Announced(v, w, TriggerSeen(t, x))
    ensures Synced(Handled(v, TriggerSeen(t, x)), x)
  {
    hide Reprocessed, Follows;
    var u := v.(triggers := v.triggers[t.key := t]);
    TriggersKept(u, {t.key}, x);
    forall k | k in u.triggers ensures Follows(Reprocessed(u, {t.key}, x), x, k) {
      if k == t.key {
        ProcessedFollows(u, {t.key}, x, k);
      } else {
        StillFollows(v, w, t, k);
        OthersFollow(u, {t.key}, w, x, k);
      }
    }
  }

  lemma {:induction false} StillFollows(v: View, w: World, t: Trigger, k: Key)
    requires k in v.triggers && k != t.key && Follows(v, w, k)
    ensures Follows(v.(triggers := v.triggers[t.key := t]), w, k)
  {}

  lemma {:induction false} UnheardStep(v: View, w: World, x: World)
    requires Synced(v, w) && Announced(v, w, Unheard(x))
    ensures Synced(v, x)
  {
    hide Resolve, Fingerprint;
    forall k | k in v.triggers ensures Follows(v, x, k) {
      assert Follows(v, w, k) && Unaffected(v.triggers[k], w, x);
    }
  }

  lemma {:induction false} GoneStep(v: View, w: World, k: Key)
    requires Synced(v, w)
    ensures Synced(Gone(v, k), w)
  {
    forall j | j in Gone(v, k).triggers ensures Follows(Gone(v, k), w, j) {
      assert Follows(v, w, j);
    }
  }

  function WorldAfterAll(w: World, events: seq<Event>): World {
    if events == [] then w else WorldAfter(WorldAfterAll(w, events[..|events| - 1]), events[|events| - 1])
  }

  ghost predicate AllAnnounced(v: View, w: World, events: seq<Event>) {
    events == [] ||
    var front := events[..|events| - 1];
    && AllAnnounced(v, w, front)
    && Announced(HandledAll(v, front), WorldAfterAll(w, front), events[|events| - 1])
  }

  /** Over every run whose changes are announced, each active Trigger with resolvable
      credentials consumes as its spec asks with the current fingerprint, and the index
      holds exactly the Secrets it now depends on. */
  lemma {:induction false} NeverStale(v: View, w: World, events: seq<Event>)
    requires Synced(v, w) && AllAnnounced(v, w, events)
    ensures Synced(HandledAll(v, events), WorldAfterAll(w, events))
  {
    hide Synced, Announced, Reprocessed;
    if events != [] {
      var front, e := events[..|events| - 1], events[|events| - 1];
      NeverStale(v, w, front);
      var u, x := HandledAll(v, front), WorldAfterAll(w, front);
      match e {
        case TriggerSeen(t, y) => TriggerStep(u, x, t, y);
        case TriggerGone(k) => GoneStep(u, x, k);
        case SecretChanged(s, y) => SecretStep(u, x, s, y);
        case IntegrationChanged(i, y) => IntegrationStep(u, x, i, y);
        case Unheard(y) => UnheardStep(u, x, y);
      }
    }
  }

  // ---- Following the world last processed ----

  /** The Triggers an event processes. */
  function Processed(v: View, e: Event): set<Key> {
    match e
    case TriggerSeen(t, _) => {t.key}
    case TriggerGone(_) => {}
    case SecretChanged(s, _) => DependentOn(v.links, s)
    case IntegrationChanged(i, _) => Referencing(v.triggers, i)
    case Unheard(_) => {}
  }

  /** The world in which Trigger k was last processed. */
  function LastWorld(v: View, w: World, events: seq<Event>, k: Key): World {
    if events == [] then w
    else
      var front, e := events[..|events| - 1], events[|events| - 1];
      if !e.TriggerGone? && k in Processed(HandledAll(v, front), e) then e.world else LastWorld(v, w, front, k)
  }

  ghost predicate AllAccepting(events: seq<Event>) {
    forall e | e in events && !e.TriggerGone? :: Accepting(e.world)
  }

  lemma {:induction false} ProcessedOrKept(v: View, e: Event, w: World, k: Key)
    requires KeyedByName(v.triggers) && k in Handled(v, e).triggers && (!e.TriggerGone? ==> Accepting(e.world))
    requires k in v.triggers ==> Follows(v, w, k)
    ensures Follows(Handled(v, e), if !e.TriggerGone? && k in Processed(v, e) then e.world else w, k)
  {
    hide Reprocessed, Follows, Resolve;
    match e {
      case TriggerSeen(t, x) =>
        var u := v.(triggers := v.triggers[t.key := t]);
        TriggersKept(u, {t.key}, x);
        if k == t.key {
          ProcessedFollows(u, {t.key}, x, k);
        } else {
          StillFollows(v, w, t, k);
          KeptFollows(u, {t.key}, w, x, k);
        }
      case TriggerGone(g) => GoneFollows(v, w, g, k);
      case SecretChanged(s, x) =>
        TriggersKept(v, DependentOn(v.links, s), x);
        if k in DependentOn(v.links, s) {
          ProcessedFollows(v, DependentOn(v.links, s), x, k);
        } else {
          KeptFollows(v, DependentOn(v.links, s), w, x, k);
        }
      case IntegrationChanged(i, x) =>
        TriggersKept(v, Referencing(v.triggers, i), x);
        if k in Referencing(v.triggers, i) {
          ProcessedFollows(v, Referencing(v.triggers, i), x, k);
        } else {
          KeptFollows(v, Referencing(v.triggers, i), w, x, k);
        }
      case Unheard(_) =>
    }
  }

  lemma {:induction false} KeptFollows(v: View, affected: set<Key>, w: World, x: World, k: Key)
    requires k in v.triggers && Follows(v, w, k) && k !in affected
    ensures Follows(Reprocessed(v, affected, x), w, k)
  {
    hide Reprocessed, Resolve, Fingerprint;
    ReprocessedAt(v, affected, x, k);
    TriggersKept(v, affected, x);
  }

  lemma {:induction false} GoneFollows(v: View, w: World, g: Key, k: Key)
    requires k in v.triggers && k != g && Follows(v, w, k)
    ensures Follows(Gone(v, g), w, k)
  {}

  lemma {:induction false} StaysKeyed(v: View, e: Event)
    requires KeyedByName(v.triggers)
    ensures KeyedByName(Handled(v, e).triggers)
  {
    hide NewConfig, NewLinks;
  }

  /** Over any run at all, deletions and missed changes included, every known Trigger
      follows the world in which it was last processed. */
  lemma {:induction false} FollowsLastProcessed(v: View, w: World, events: seq<Event>, k: Key)
    requires Synced(v, w) && AllAccepting(events)
    ensures KeyedByName(HandledAll(v, events).triggers)
    ensures k in HandledAll(v, events).triggers ==>
      Follows(HandledAll(v, events), LastWorld(v, w, events, k), k)
  {
    hide Follows, Handled, Processed;
    if events != [] {
      var front, e := events[..|events| - 1], events[|events| - 1];
      FollowsLastProcessed(v, w, front, k);
      var u := HandledAll(v, front);
      StaysKeyed(u, e);
      if k in Handled(u, e).triggers && (k in u.triggers || k in Processed(u, e)) {
        ProcessedOrKept(u, e, LastWorld(v, w, front, k), k);
      } else if k in Handled(u, e).triggers {
        NewIsProcessed(u, e, k);
      }
    }
  }

  lemma {:induction false} NewIsProcessed(v: View, e: Event, k: Key)
    requires k in Handled(v, e).triggers && k !in v.triggers
    ensures k in Processed(v, e)
  {
    hide NewConfig, NewLinks;
  }

  /** A Secret that was deleted and comes back is noticed by every Trigger that had read it
      when it was last processed, whatever happened in between. */
  lemma {:induction false} RecreatedSecretIsFollowed(v: View, w: World, events: seq<Event>, s: Key, y: World, k: Key)
    requires Synced(v, w) && AllAccepting(events) && Accepting(y)
    requires k in HandledAll(v, events).triggers && Active(HandledAll(v, events).triggers[k])
    requires var t, last := HandledAll(v, events).triggers[k], LastWorld(v, w, events, k);
      var i := last.integrations(IntegrationKey(t));
      i.Kafka? && GotPast(last, t.key.namespace, i, s)
    ensures var after := Handled(HandledAll(v, events), SecretChanged(s, y));
      k in after.triggers && Follows(after, y, k)
  {
    hide Reprocessed, HandledAll, LastWorld, GotPast, Follows, Resolve;
    FollowsLastProcessed(v, w, events, k);
    var u, last := HandledAll(v, events), LastWorld(v, w, events, k);
    LinkedIffGotPast(u, last, k, s);
    TriggersKept(u, DependentOn(u.links, s), y);
    ProcessedFollows(u, DependentOn(u.links, s), y, k);
  }

  // ---- What the fingerprint does not see ----

  /** A processed Trigger consumes with the current settings and credentials if and only
      if it had to be restarted or neither had changed. */
  lemma {:induction false} CurrentIffRestartedOrSame(was: Option<Config>, t: Trigger, w: World)
    requires Active(t) && w.connects(t) && w.integrations(IntegrationKey(t)).Kafka?
    requires Resolve(w, t.key.namespace, w.integrations(IntegrationKey(t))).creds.Some?
    ensures var i := w.integrations(IntegrationKey(t));
      var want := Wanted(t, i.settings, Resolve(w, t.key.namespace, i).creds.value);
      ConfigAfter(was, t, w) == Some(want) <==>
        was.None? || !Keeps(was.value, want) || (was.value.settings == want.settings && was.value.creds == want.creds)
  {
    hide Resolve, Fingerprint;
  }

  /** A change of brokers, mechanism or TLS flags alone is not acted on. */
  lemma {:induction false} SettingsChangeUnseen(t: Trigger, w: World, settings: string)
    requires Active(t) && w.integrations(IntegrationKey(t)).Kafka?
    requires w.integrations(IntegrationKey(t)).settings != settings
    requires Resolve(w, t.key.namespace, w.integrations(IntegrationKey(t))).creds.Some?
    ensures var i := w.integrations(IntegrationKey(t));
      var creds := Resolve(w, t.key.namespace, i).creds.value;
      var x := w.(integrations := (k: Key) =>
        if k == IntegrationKey(t) then i.(settings := settings) else w.integrations(k));
      && ConfigAfter(Some(Wanted(t, i.settings, creds)), t, x) == Some(Wanted(t, i.settings, creds))
      && Resolve(x, t.key.namespace, x.integrations(IntegrationKey(t))).creds == Some(creds)
      && Wanted(t, i.settings, creds) != Wanted(t, x.integrations(IntegrationKey(t)).settings, creds)
  {}

  /** Values that keep the lengths of CA certificate and user name are told apart. */
  lemma {:induction false} SameLengthsAreSeen(a: Credentials, b: Credentials)
    requires |a.ca| == |b.ca| && |a.user| == |b.user|
    ensures Fingerprint(a) == Fingerprint(b) <==> a == b
  {
    if Fingerprint(a) == Fingerprint(b) {
      var n, m := |a.ca|, |a.ca| + |a.user|;
      assert a.ca == Fingerprint(a)[..n] && b.ca == Fingerprint(b)[..n];
      assert a.user == Fingerprint(a)[n..m] && b.user == Fingerprint(b)[n..m];
      assert a.pass == Fingerprint(a)[m..] && b.pass == Fingerprint(b)[m..];
    }
  }

  /** Moving characters between user name and password is not seen. */
  lemma {:induction false} MovedBoundaryUnseen(ca: string, x: string, y: string, z: string)
    ensures Fingerprint(Credentials(ca, x + y, z)) == Fingerprint(Credentials(ca, x, y + z))
  {
    assert ca + (x + y) + z == ca + x + (y + z);
  }
}
