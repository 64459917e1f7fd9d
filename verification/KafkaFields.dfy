/** Subscriptions in the fields of the Trigger, the Integration and the Secrets. */
module KafkaFields {
  import opened Common
  import opened SecretIndex
  import opened KafkaSubscriptions

  /** The value a reference of an Integration in the namespace has; none given reads as "". */
  function Held(w: World, ns: string, ref: Option<SecretRef>): Option<string> {
    if ref.None? then Some("") else w.values(Key(ns, ref.value.name), ref.value.field)
  }

  function UserRef(i: Integration): Option<SecretRef>
    requires i.Kafka?
  {
    if i.sasl.None? then None else Some(i.sasl.value.user)
  }

  function PassRef(i: Integration): Option<SecretRef>
    requires i.Kafka?
  {
    if i.sasl.None? then None else Some(i.sasl.value.pass)
  }

  /** All three references of the Integration can be read. */
  predicate Resolvable(w: World, ns: string, i: Integration) {
    i.Kafka? && Held(w, ns, i.ca).Some? && Held(w, ns, UserRef(i)).Some? && Held(w, ns, PassRef(i)).Some?
  }

  /** The configuration consumes the Trigger's topic in its group over its Integration. */
  predicate SameRoute(c: Config, t: Trigger) {
    && c.integration == t.integration && c.topic == t.topic
    && c.group == (if t.group == "" then "kubezap-" + t.key.name else t.group)
  }

  /** With values whose concatenation is that of what the Secrets hold now. */
  predicate SameDigest(c: Config, w: World, ns: string, i: Integration)
    requires Resolvable(w, ns, i)
  {
    c.creds.ca + c.creds.user + c.creds.pass ==
    Held(w, ns, i.ca).value + Held(w, ns, UserRef(i)).value + Held(w, ns, PassRef(i)).value
  }

  /** What processing one Trigger does to its subscription: none for a Trigger that is not
      an enabled kafka one; no change while its Integration or a Secret cannot be read; the
      old one while route and digest are the same; and otherwise a new one, started with the
      topic, group, settings and the three values as they are now, if the broker accepts. */
  lemma {:induction false} ProcessedIs(was: Option<Config>, t: Trigger, w: World)
    ensures var ns := t.key.namespace;
      var i := w.integrations(Key(ns, t.integration));
      ConfigAfter(was, t, w) ==
        if !t.isKafka || !t.enabled then None
        else if !Resolvable(w, ns, i) then was
        else if was.Some? && SameRoute(was.value, t) && SameDigest(was.value, w, ns, i) then was
        else if !w.connects(t) then None
        else
          var group := if t.group == "" then "kubezap-" + t.key.name else t.group;
          var user, pass := Held(w, ns, UserRef(i)).value, Held(w, ns, PassRef(i)).value;
          Some(Config(t.integration, t.topic, group, i.settings, Credentials(Held(w, ns, i.ca).value, user, pass)))
  {}

  /** The Secrets a Trigger is indexed under when it is processed: none if the CA cannot be
      read, the CA's if user name or password cannot, and otherwise all of them. */
  lemma {:induction false} IndexedIs(was: set<Key>, t: Trigger, w: World, secret: Key)
    requires t.isKafka && t.enabled && w.integrations(Key(t.key.namespace, t.integration)).Kafka?
    ensures var ns := t.key.namespace;
      var i := w.integrations(Key(ns, t.integration));
      secret in LinksAfter(was, t, w) <==>
        && Held(w, ns, i.ca).Some?
        && (|| (i.ca.Some? && secret == Key(ns, i.ca.value.name))
            || (&& i.sasl.Some? && Resolvable(w, ns, i)
                && (secret == Key(ns, i.sasl.value.user.name) || secret == Key(ns, i.sasl.value.pass.name))))
  {}

  /** What following a world means for an enabled kafka Trigger whose credentials can be
      read: it has a subscription of its route and of the current digest. */
  lemma {:induction false} FollowsMeans(v: View, w: World, k: Key)
    requires k in v.triggers && Follows(v, w, k) && v.triggers[k].isKafka && v.triggers[k].enabled
    requires var t := v.triggers[k]; Resolvable(w, t.key.namespace, w.integrations(Key(t.key.namespace, t.integration)))
    ensures var t := v.triggers[k];
      && k in v.configs && SameRoute(v.configs[k], t)
      && SameDigest(v.configs[k], w, t.key.namespace, w.integrations(Key(t.key.namespace, t.integration)))
  {}

  /** After any announced run that hits no blocked Trigger, and after any run at all with
      respect to the world last processed, subscriptions are what the Triggers' fields and
      the Secrets' values ask for. */
  lemma {:induction false} ConsumesAsAsked(v: View, w: World, events: seq<Event>, k: Key)
    requires Synced(v, w) && k in HandledAll(v, events).triggers
    requires HandledAll(v, events).triggers[k].isKafka && HandledAll(v, events).triggers[k].enabled
    ensures var u := HandledAll(v, events);
      var t, now, last := u.triggers[k], WorldAfterAll(w, events), LastWorld(v, w, events, k);
      var ns, at := t.key.namespace, Key(t.key.namespace, t.integration);
      && (AllAnnounced(v, w, events) && Resolvable(now, ns, now.integrations(at)) ==>
            k in u.configs && SameRoute(u.configs[k], t) && SameDigest(u.configs[k], now, ns, now.integrations(at)))
      && (AllAccepting(events) && Resolvable(last, ns, last.integrations(at)) ==>
            k in u.configs && SameRoute(u.configs[k], t) && SameDigest(u.configs[k], last, ns, last.integrations(at)))
  {
    hide HandledAll, WorldAfterAll, LastWorld, AllAnnounced, AllAccepting, Follows, Resolvable, SameRoute, SameDigest;
    var u := HandledAll(v, events);
    var t, now, last := u.triggers[k], WorldAfterAll(w, events), LastWorld(v, w, events, k);
    var ns, at := t.key.namespace, Key(t.key.namespace, t.integration);
    if AllAnnounced(v, w, events) && Resolvable(now, ns, now.integrations(at)) {
      NeverStale(v, w, events);
      FollowsMeans(u, now, k);
    }
    if AllAccepting(events) && Resolvable(last, ns, last.integrations(at)) {
      FollowsLastProcessed(v, w, events, k);
      FollowsMeans(u, last, k);
    }
  }
}
