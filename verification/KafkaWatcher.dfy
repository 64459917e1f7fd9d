/** The Kafka gateway's watcher: consumer-group subscriptions kept in step with
    Trigger, Secret and Integration events, one handler at a time. */
module KafkaWatcher {
  import opened Common
  import opened SecretIndex
  import opened KafkaSubscriptions

  /** One subscription per consumer. */
  predicate Injective(subs: map<Key, Subscription>) {
    forall j, k | j in subs && k in subs && j != k :: subs[j].consumer != subs[k].consumer
  }

  function Consumers(subs: map<Key, Subscription>): set<nat> {
    set k | k in subs :: subs[k].consumer
  }

  lemma {:induction false} ConsumersWithout(subs: map<Key, Subscription>, key: Key)
    requires Injective(subs) && key in subs
    ensures Consumers(subs - {key}) == Consumers(subs) - {subs[key].consumer}
    ensures Injective(subs - {key})
  {
    forall c | c in Consumers(subs) && c != subs[key].consumer ensures c in Consumers(subs - {key}) {
      var k :| k in subs && subs[k].consumer == c;
      assert k in subs - {key};
    }
  }

  lemma {:induction false} ConsumersWith(subs: map<Key, Subscription>, key: Key, sub: Subscription)
    requires Injective(subs) && key !in subs && sub.consumer !in Consumers(subs)
    ensures Consumers(subs[key := sub]) == Consumers(subs) + {sub.consumer}
    ensures Injective(subs[key := sub])
  {
    var next := subs[key := sub];
    forall k | k in subs ensures next[k] == subs[k] && next[k].consumer in Consumers(subs) {}
    forall c | c in Consumers(subs) ensures c in Consumers(next) {
      var k :| k in subs && subs[k].consumer == c;
      assert k in next && next[k].consumer == c;
    }
    assert key in next && next[key].consumer == sub.consumer;
  }

  /** The index a full scan of the known Triggers would build. */
  function IntegrationLinks(triggers: map<Key, Trigger>): Links {
    map k | k in triggers && Active(triggers[k]) :: {IntegrationKey(triggers[k])}
  }

  lemma {:induction false} LinksSeen(triggers: map<Key, Trigger>, t: Trigger)
    ensures IntegrationLinks(triggers[t.key := t]) ==
      Updated(IntegrationLinks(triggers), t.key, if Active(t) then [IntegrationKey(t)] else [])
  {
    assert SetOf([IntegrationKey(t)]) == {IntegrationKey(t)};
  }

  lemma {:induction false} LinksGone(triggers: map<Key, Trigger>, key: Key)
    ensures IntegrationLinks(triggers - {key}) == IntegrationLinks(triggers) - {key}
  {}

  function Configs(subs: map<Key, Subscription>): map<Key, Config> {
    map k | k in subs :: subs[k].config
  }

  lemma {:induction false} Untouched(configs: map<Key, Config>, links: Links, k: Key)
    requires NoEmptyBuckets(links)
    ensures WithConfig(configs, k, ConfigOf(configs, k)) == configs
    ensures WithLinks(links, k, LinksOf(links, k)) == links
  {}

  /** A consumer survives exactly when its configuration does. */
  predicate RestartedIffChanged(was: map<Key, Subscription>, now: map<Key, Subscription>) {
    forall k | k in was && k in now :: was[k].consumer == now[k].consumer <==> was[k].config == now[k].config
  }

  class Watcher {
    var triggers: map<Key, Trigger>
    var subscriptions: map<Key, Subscription>
    var credentialFailed: map<Key, bool>
    var running: set<nat> // consumers started and not cancelled
    var nextConsumer: nat
    const secretIndex: Index
    const integrationIndex: Index

    constructor ()
      ensures Valid() && Contents() == View(map[], map[], map[])
      ensures fresh(secretIndex) && fresh(integrationIndex)
    {
      secretIndex := new Index();
      integrationIndex := new Index();
      triggers, subscriptions, credentialFailed, running, nextConsumer := map[], map[], map[], {}, 0;
    }

    ghost function Contents(): View
      reads this, secretIndex
    {
      View(triggers, Configs(subscriptions), secretIndex.byObject)
    }

    /** One running consumer per entry and no other. */
    ghost predicate ConsumersOk()
      reads this`subscriptions, this`running, this`nextConsumer
    {
      Injective(subscriptions) && running == Consumers(subscriptions) && forall c | c in running :: c < nextConsumer
    }

    /** Exactly one running consumer per entry, every entry a known enabled kafka
        Trigger, and the Integration index equal to a full scan. */
    ghost predicate Valid()
      reads this, secretIndex, integrationIndex
    {
      && secretIndex != integrationIndex && secretIndex.Valid() && integrationIndex.Valid()
      && KeyedByName(triggers)
      && ConsumersOk()
      && (forall k | k in subscriptions :: k in triggers && Active(triggers[k]))
      && integrationIndex.byObject == IntegrationLinks(triggers)
      && (forall k | k in secretIndex.byObject :: k in triggers && Active(triggers[k]))
    }

    method StopSubscription(key: Key)
      requires ConsumersOk()
      modifies this`subscriptions, this`running
      ensures ConsumersOk()
      ensures subscriptions == old(subscriptions) - {key}
    {
      if key in subscriptions {
        ConsumersWithout(subscriptions, key);
        var sub := subscriptions[key];
        subscriptions := subscriptions - {key};
        running := running - {sub.consumer};
      } else {
        assert subscriptions - {key} == subscriptions;
      }
    }

    method StartSubscription(key: Key, config: Config)
      requires ConsumersOk() && key !in subscriptions
      modifies this`subscriptions, this`running, this`nextConsumer
      ensures ConsumersOk()
      ensures subscriptions == old(subscriptions)[key := Subscription(old(nextConsumer), config)]
    {
      var sub := Subscription(nextConsumer, config);
      ConsumersWith(subscriptions, key, sub);
      running := running + {nextConsumer};
      nextConsumer := nextConsumer + 1;
      subscriptions := subscriptions[key := sub];
    }

    /** Keeps a subscription that already is what is wanted; otherwise stops it and
        starts the wanted one if the broker accepts. */
    method Resubscribe(key: Key, want: Config, connects: bool)
      requires ConsumersOk()
      modifies this`subscriptions, this`running, this`nextConsumer
      ensures ConsumersOk()
      ensures Configs(subscriptions) == WithConfig(Configs(old(subscriptions)), key,
        Resubscribed(ConfigOf(Configs(old(subscriptions)), key), want, connects))
      ensures RestartedIffChanged(old(subscriptions), subscriptions)
    {
      hide Injective, Fingerprint;
      ghost var was := subscriptions;
      assert forall k | k in was :: was[k].consumer in Consumers(was);
      if key in subscriptions {
        if Keeps(subscriptions[key].config, want) { return; }
        StopSubscription(key);
      }
      if connects { StartSubscription(key, want); }
    }

    /** Records an active Trigger and its Integration reference. */
    method NoteActive(t: Trigger)
      requires Valid() && Active(t)
      modifies this`triggers, integrationIndex
      ensures Valid() && triggers == old(triggers)[t.key := t]
    {
      hide IntegrationLinks, ConsumersOk, Inverse, NoEmptyBuckets, SetOf;
      LinksSeen(triggers, t);
      triggers := triggers[t.key := t];
      integrationIndex.Update(t.key, [IntegrationKey(t)]);
    }

    method NoteSecrets(key: Key, refs: seq<Key>)
      requires Valid() && key in triggers && Active(triggers[key])
      modifies secretIndex
      ensures Valid()
      ensures secretIndex.byObject == WithLinks(old(secretIndex.byObject), key, SetOf(refs))
    {
      hide IntegrationLinks, ConsumersOk, Inverse, NoEmptyBuckets;
      assert refs != [] ==> refs[0] in SetOf(refs);
      secretIndex.Update(key, refs);
    }

    method NoteInactive(t: Trigger)
      requires Valid() && !Active(t)
      modifies this`triggers, this`subscriptions, this`running, secretIndex, integrationIndex
      ensures Valid() && triggers == old(triggers)[t.key := t]
      ensures subscriptions == old(subscriptions) - {t.key}
      ensures secretIndex.byObject == old(secretIndex.byObject) - {t.key}
    {
      hide IntegrationLinks, ConsumersOk, Inverse, NoEmptyBuckets, SetOf;
      LinksSeen(triggers, t);
      triggers := triggers[t.key := t];
      secretIndex.Remove(t.key);
      integrationIndex.Remove(t.key);
      StopSubscription(t.key);
    }

    /** Resolves an active Trigger's credentials, indexes the Secrets read and brings its
        subscription in line. */
    method FollowIntegration(t: Trigger, world: World)
      requires Valid() && Active(t) && t.key in triggers && Active(triggers[t.key])
      modifies this`credentialFailed, this`subscriptions, this`running, this`nextConsumer, secretIndex
      ensures Valid()
      ensures Configs(subscriptions) == WithConfig(Configs(old(subscriptions)), t.key,
        ConfigAfter(ConfigOf(Configs(old(subscriptions)), t.key), t, world))
      ensures secretIndex.byObject == WithLinks(old(secretIndex.byObject), t.key,
        LinksAfter(LinksOf(old(secretIndex.byObject), t.key), t, world))
      ensures RestartedIffChanged(old(subscriptions), subscriptions)
    {
      hide IntegrationLinks, ConsumersOk, Inverse, Resolve, Resubscribed, SetOf, ConfigOf, LinksOf, WithLinks;
      Untouched(Configs(subscriptions), secretIndex.byObject, t.key);
      var integration := world.integrations(IntegrationKey(t));
      if !integration.Kafka? {
        credentialFailed := credentialFailed[t.key := true];
        return;
      }
      var r := Resolve(world, t.key.namespace, integration);
      NoteSecrets(t.key, r.refs);
      credentialFailed := credentialFailed[t.key := r.creds.None?];
      if r.creds.Some? {
        Resubscribe(t.key, Wanted(t, integration.settings, r.creds.value), world.connects(t));
        assert forall k | k in subscriptions :: k in Configs(subscriptions);
      }
    }

    /** Brings one Trigger's subscription in line with its spec. */
    method ReconcileTrigger(t: Trigger, world: World)
      requires Valid()
      modifies this, secretIndex, integrationIndex
      ensures Valid()
      ensures Contents() == Seen(old(Contents()), t, world)
      ensures RestartedIffChanged(old(subscriptions), subscriptions)
    {
      hide IntegrationLinks, ConsumersOk, Inverse, Resolve, Resubscribed, Seen, SetOf;
      SeenIs(Contents(), t, world);
      if Active(t) {
        NoteActive(t);
        FollowIntegration(t, world);
      } else {
        NoteInactive(t);
        assert Configs(subscriptions) == Configs(old(subscriptions)) - {t.key};
      }
    }

    method OnTriggerDelete(key: Key)
      requires Valid()
      modifies this, secretIndex, integrationIndex
      ensures Valid()
      ensures Contents() == Gone(old(Contents()), key)
      ensures subscriptions == old(subscriptions) - {key} && credentialFailed == old(credentialFailed) - {key}
    {
      hide IntegrationLinks, ConsumersOk, Inverse, NoEmptyBuckets;
      LinksGone(triggers, key);
      triggers := triggers - {key};
      secretIndex.Remove(key);
      integrationIndex.Remove(key);
      credentialFailed := credentialFailed - {key};
      StopSubscription(key);
    }

    /** Reprocesses the listed Triggers with the objects last seen. */
    method Reprocess(keys: seq<Key>, world: World)
      requires Valid() && forall i, j | 0 <= i < j < |keys| :: keys[i] != keys[j]
      modifies this, secretIndex, integrationIndex
      ensures Valid()
      ensures Contents() == Reprocessed(old(Contents()), SetOf(keys), world)
    {
      hide IntegrationLinks, ConsumersOk, Inverse, Reprocessed, Seen;
      ghost var start := Contents();
      assert NoEmptyBuckets(start.links);
      ReprocessNone(start, world);
      assert SetOf(keys[..0]) == {};
      for i := 0 to |keys|
        invariant Valid()
        invariant Contents() == Reprocessed(start, SetOf(keys[..i]), world)
      {
        ghost var done := SetOf(keys[..i]);
        assert SetOf(keys[..i + 1]) == done + {keys[i]};
        TriggersKept(start, done, world);
        ReprocessOne(start, done, world, keys[i]);
        if keys[i] in triggers {
          ReconcileTrigger(triggers[keys[i]], world);
        }
      }
      assert keys[..|keys|] == keys;
    }

    /** Reprocesses each Trigger indexed under the Secret. */
    method HandleSecretChange(secret: Key, world: World)
      requires Valid()
      modifies this, secretIndex, integrationIndex
      ensures Valid()
      ensures Contents() == Handled(old(Contents()), SecretChanged(secret, world))
    {
      var affected := secretIndex.ObjectsFor(secret);
      assert SetOf(affected) == DependentOn(secretIndex.byObject, secret);
      Reprocess(affected, world);
    }

    /** Reprocesses exactly the Triggers a full scan by IntegrationRef would find. */
    method HandleIntegrationChange(integration: Key, world: World)
      requires Valid()
      modifies this, secretIndex, integrationIndex
      ensures Valid()
      ensures Contents() == Handled(old(Contents()), IntegrationChanged(integration, world))
    {
      var affected := integrationIndex.ObjectsFor(integration);
      assert SetOf(affected) == Referencing(triggers, integration);
      Reprocess(affected, world);
    }

    /** After any sequence of events no consumer is leaked or missing, and the state is
        the one the events call for. */
    method HandleAll(events: seq<Event>)
      requires Valid()
      modifies this, secretIndex, integrationIndex
      ensures Valid()
      ensures Contents() == HandledAll(old(Contents()), events)
      ensures forall k | k in subscriptions :: k in triggers && triggers[k].isKafka && triggers[k].enabled
      ensures running == set k | k in subscriptions :: subscriptions[k].consumer
    {
      hide Valid, Contents, Handled;
      for i := 0 to |events|
        invariant Valid() && Contents() == HandledAll(old(Contents()), events[..i])
      {
        assert events[..i + 1][..i] == events[..i];
        Handle(events[i]);
      }
      assert events[..|events|] == events;
      OnlyEnabled();
    }

    lemma {:induction false} OnlyEnabled()
      requires Valid()
      ensures forall k | k in subscriptions :: k in triggers && triggers[k].isKafka && triggers[k].enabled
      ensures running == set k | k in subscriptions :: subscriptions[k].consumer
    {}

    method Handle(e: Event)
      requires Valid()
      modifies this, secretIndex, integrationIndex
      ensures Valid() && Contents() == Handled(old(Contents()), e)
    {
      hide Valid, Contents, Reprocessed;
      match e {
        case TriggerSeen(t, world) => ReconcileTrigger(t, world);
        case TriggerGone(key) => OnTriggerDelete(key);
        case SecretChanged(key, world) => HandleSecretChange(key, world);
        case IntegrationChanged(key, world) => HandleIntegrationChange(key, world);
        case Unheard(_) => // no handler is called
      }
    }
  }
}
