/** The resource watcher's per-resource cooldown: the time of the last admitted
    event per key, swept periodically and dropped when its Trigger goes. */
module ResourceCooldown {
  import opened Common

  const EVICTION_WINDOW: int := 3_600_000_000_000

  type Tracker = map<string, Time>

  predicate Suppressed(m: Tracker, key: string, cooldown: int, now: Time) {
    cooldown > 0 && key in m && now - m[key] < cooldown
  }

  function Noted(m: Tracker, key: string, cooldown: int, now: Time): Tracker {
    if cooldown <= 0 || Suppressed(m, key, cooldown, now) then m else m[key := now]
  }

  function Swept(m: Tracker, now: Time): Tracker {
    map k | k in m && !(m[k] < now - EVICTION_WINDOW) :: m[k]
  }

  function Dropped(m: Tracker, prefix: string): Tracker {
    map k | k in m && !(prefix <= k) :: m[k]
  }

  class Watcher {
    var tracker: Tracker

    constructor ()
      ensures tracker == map[]
    {
      tracker := map[];
    }

    method HandleEvent(key: string, cooldown: int, now: Time) returns (admitted: bool)
      modifies this
      ensures admitted == !Suppressed(old(tracker), key, cooldown, now)
      ensures tracker == Noted(old(tracker), key, cooldown, now)
    {
      if cooldown > 0 {
        if key in tracker && now - tracker[key] < cooldown { return false; }
        tracker := tracker[key := now];
      }
      return true;
    }

    method Sweep(now: Time)
      modifies this
      ensures tracker == Swept(old(tracker), now)
    {
      var cutoff := now - EVICTION_WINDOW;
      var todo := tracker.Keys;
      while todo != {}
        invariant todo <= tracker.Keys <= old(tracker).Keys
        invariant forall k | k in tracker :: tracker[k] == old(tracker)[k]
        invariant forall k | k in old(tracker) && k !in todo :: k in tracker <==> !(old(tracker)[k] < cutoff)
        decreases |todo|
      {
        var k :| k in todo;
        if tracker[k] < cutoff { tracker := tracker - {k}; }
        todo := todo - {k};
      }
    }

    method Deregister(triggerKey: string)
      modifies this
      ensures tracker == Dropped(old(tracker), triggerKey + "/")
    {
      var prefix := triggerKey + "/";
      var todo := tracker.Keys;
      while todo != {}
        invariant todo <= tracker.Keys <= old(tracker).Keys
        invariant forall k | k in tracker :: tracker[k] == old(tracker)[k]
        invariant forall k | k in old(tracker) && k !in todo :: k in tracker <==> !(prefix <= k)
        decreases |todo|
      {
        var k :| k in todo;
        if prefix <= k { tracker := tracker - {k}; }
        todo := todo - {k};
      }
    }
  }

  // ---- Keys ----

  function CooldownKey(namespace: string, name: string, resNamespace: string, resName: string, event: string): string {
    namespace + "/" + name + "/" + resNamespace + "/" + resName + "/" + event
  }

  function FirstSlash(s: string): (i: nat)
    ensures i <= |s|
    ensures i < |s| ==> s[i] == '/'
    ensures forall j | 0 <= j < i :: s[j] != '/'
  {
    if s == "" || s[0] == '/' then 0 else 1 + FirstSlash(s[1..])
  }

  lemma {:induction false} SlashAfter(a: string, x: string)
    requires '/' !in a
    ensures FirstSlash(a + "/" + x) == |a|
  {
    hide FirstSlash;
    var s := a + "/" + x;
    assert s[|a|] == '/';
    assert forall j | 0 <= j < |a| :: s[j] == a[j];
  }

  lemma {:induction false} SlashInPrefix(t: string, s: string)
    requires t <= s && FirstSlash(t) < |t|
    ensures FirstSlash(s) == FirstSlash(t)
  {
    hide FirstSlash;
    assert forall j | 0 <= j < |t| :: s[j] == t[j];
  }

  lemma {:induction false} SlashPrefix(a: string, x: string, b: string, y: string)
    requires '/' !in a && '/' !in b
    ensures b + "/" + y <= a + "/" + x <==> b == a && y <= x
  {
    hide FirstSlash;
    var s, t := a + "/" + x, b + "/" + y;
    SlashAfter(a, x);
    SlashAfter(b, y);
    if t <= s {
      SlashInPrefix(t, s);
      assert a == s[..|a|] && b == t[..|b|];
      assert s[..|b|] == t[..|b|];
      assert y == t[|b| + 1..] && x == s[|a| + 1..];
      assert forall i | 0 <= i < |y| :: y[i] == t[|b| + 1 + i] == s[|b| + 1 + i];
    }
  }

  /** Deregistering a Trigger matches exactly its own keys: names hold no slash. */
  lemma {:induction false} DeregisterIsExact(namespace: string, name: string, otherNs: string, other: string,
                                             resNamespace: string, resName: string, event: string)
    requires '/' !in namespace && '/' !in name && '/' !in otherNs && '/' !in other
    ensures otherNs + "/" + other + "/" <= CooldownKey(namespace, name, resNamespace, resName, event)
      <==> otherNs == namespace && other == name
  {
    var tail := resNamespace + "/" + resName + "/" + event;
    var key := CooldownKey(namespace, name, resNamespace, resName, event);
    assert key == namespace + "/" + (name + "/" + tail);
    assert otherNs + "/" + other + "/" == otherNs + "/" + (other + "/" + "");
    SlashPrefix(namespace, name + "/" + tail, otherNs, other + "/" + "");
    SlashPrefix(name, tail, other, "");
  }

  lemma {:induction false} SameTail(a: string, x: string, b: string, y: string)
    requires '/' !in a && '/' !in b
    ensures a + "/" + x == b + "/" + y <==> a == b && x == y
  {
    hide FirstSlash;
    SlashPrefix(a, x, b, y);
    SlashPrefix(b, y, a, x);
  }

  /** Events share a cooldown exactly when Trigger, resource and event type are the same. */
  lemma {:induction false} KeysDiffer(ns: string, name: string, resNs: string, resName: string, event: string,
                                      ns': string, name': string, resNs': string, resName': string, event': string)
    requires '/' !in ns && '/' !in name && '/' !in resNs && '/' !in resName
    requires '/' !in ns' && '/' !in name' && '/' !in resNs' && '/' !in resName'
    ensures CooldownKey(ns, name, resNs, resName, event) == CooldownKey(ns', name', resNs', resName', event') <==>
      ns == ns' && name == name' && resNs == resNs' && resName == resName' && event == event'
  {
    var c, c' := resName + "/" + event, resName' + "/" + event';
    var b, b' := resNs + "/" + c, resNs' + "/" + c';
    var a, a' := name + "/" + b, name' + "/" + b';
    assert CooldownKey(ns, name, resNs, resName, event) == ns + "/" + a;
    assert CooldownKey(ns', name', resNs', resName', event') == ns' + "/" + a';
    SameTail(ns, a, ns', a');
    SameTail(name, b, name', b');
    SameTail(resNs, c, resNs', c');
    SameTail(resName, event, resName', event');
  }

  // ---- Eviction is transparent ----

  datatype Event = Seen(key: string, cooldown: int, now: Time) | Tick(now: Time) | Gone(trigger: string)

  function Step(m: Tracker, e: Event, evicting: bool): Tracker {
    match e
    case Seen(key, cooldown, now) => Noted(m, key, cooldown, now)
    case Tick(now) => if evicting then Swept(m, now) else m
    case Gone(trigger) => Dropped(m, trigger + "/")
  }

  /** For each event seen, whether it is admitted; sweeps and removals are not events. */
  function Admissions(m: Tracker, events: seq<Event>, evicting: bool): (r: seq<bool>)
    ensures |r| == |events|
    decreases |events|
  {
    if events == [] then []
    else
      var e := events[0];
      [e.Seen? && !Suppressed(m, e.key, e.cooldown, e.now)] + Admissions(Step(m, e, evicting), events[1..], evicting)
  }

  /** Event after event through the watcher gives these admissions, its sweeper running. */
  method WatchAll(watcher: Watcher, events: seq<Event>) returns (admitted: seq<bool>)
    modifies watcher
    ensures admitted == Admissions(old(watcher.tracker), events, true)
  {
    admitted := [];
    for i := 0 to |events|
      invariant admitted + Admissions(watcher.tracker, events[i..], true)
             == Admissions(old(watcher.tracker), events, true)
    {
      var e := events[i];
      ghost var m := watcher.tracker;
      assert events[i..][0] == e && events[i..][1..] == events[i + 1..];
      var ok := false;
      match e {
        case Seen(key, cooldown, now) => ok := watcher.HandleEvent(key, cooldown, now);
        case Tick(now) => watcher.Sweep(now);
        case Gone(trigger) => watcher.Deregister(trigger);
      }
      assert watcher.tracker == Step(m, e, true);
      admitted := admitted + [ok];
    }
    assert Admissions(watcher.tracker, [], true) == [];
  }

  predicate AtOrAfter(e: Event, now: Time) {
    !e.Gone? ==> e.now >= now
  }

  predicate Ordered(events: seq<Event>, now: Time)
    decreases |events|
  {
    events == [] ||
    (AtOrAfter(events[0], now) && Ordered(events[1..], if events[0].Gone? then now else events[0].now))
  }

  predicate CooldownsAtMost(events: seq<Event>, bound: int) {
    forall i | 0 <= i < |events| :: events[i].Seen? ==> events[i].cooldown <= bound
  }

  /** What the sweeping tracker has lost is older than the eviction window. */
  predicate Lags(swept: Tracker, full: Tracker, now: Time) {
    && (forall k | k in swept :: k in full && swept[k] == full[k])
    && (forall k | k in full && k !in swept :: full[k] < now - EVICTION_WINDOW)
  }

  lemma {:induction false} StepLags(swept: Tracker, full: Tracker, e: Event, now: Time)
    requires Lags(swept, full, now) && AtOrAfter(e, now)
    requires e.Seen? ==> e.cooldown <= EVICTION_WINDOW + 1
    ensures e.Seen? ==> Suppressed(swept, e.key, e.cooldown, e.now) == Suppressed(full, e.key, e.cooldown, e.now)
    ensures Lags(Step(swept, e, true), Step(full, e, false), if e.Gone? then now else e.now)
  {}

  lemma {:induction false} AdmissionsAgree(swept: Tracker, full: Tracker, events: seq<Event>, now: Time)
    requires Lags(swept, full, now) && Ordered(events, now) && CooldownsAtMost(events, EVICTION_WINDOW + 1)
    ensures Admissions(swept, events, true) == Admissions(full, events, false)
    decreases |events|
  {
    if events != [] {
      var e := events[0];
      StepLags(swept, full, e, now);
      AdmissionsAgree(Step(swept, e, true), Step(full, e, false), events[1..], if e.Gone? then now else e.now);
    }
  }

  predicate EvictionUnseen(events: seq<Event>) {
    Admissions(map[], events, true) == Admissions(map[], events, false)
  }

  predicate Plausible(events: seq<Event>, start: Time, cooldown: int) {
    Ordered(events, start) && CooldownsAtMost(events, cooldown)
  }

  /** Eviction cannot be observed exactly when cooldowns do not outlast the eviction
      window: up to it (plus the tick at which an entry becomes old) every run admits
      the same events; for any longer cooldown some run does not. */
  lemma {:induction false} EvictionTransparentIff(cooldown: int)
    ensures cooldown <= 60 * 60 * SECOND + 1 <==>
      forall events: seq<Event>, start: Time | Plausible(events, start, cooldown) :: EvictionUnseen(events)
  {
    if cooldown <= EVICTION_WINDOW + 1 {
      forall events: seq<Event>, start: Time | Plausible(events, start, cooldown) ensures EvictionUnseen(events)
      {
        AdmissionsAgree(map[], map[], events, start);
      }
    } else {
      LongCooldownObserved(cooldown);
      assert Plausible(Witness(cooldown), 0, cooldown);
    }
  }

  function Witness(cooldown: int): seq<Event> {
    [Seen("k", cooldown, 0), Tick(EVICTION_WINDOW + 1), Seen("k", cooldown, EVICTION_WINDOW + 1)]
  }

  lemma {:induction false} LongCooldownObserved(cooldown: int)
    requires cooldown > EVICTION_WINDOW + 1
    ensures Ordered(Witness(cooldown), 0) && CooldownsAtMost(Witness(cooldown), cooldown)
    ensures !EvictionUnseen(Witness(cooldown))
  {
    var es := Witness(cooldown);
    var late := EVICTION_WINDOW + 1;
    var last := es[2];
    assert es[1..] == [Tick(late), last] && es[1..][1..] == [last] && [last][1..] == [];
    assert Ordered([last], late);
    assert Ordered(es[1..], 0);
    var m := Step(map[], es[0], true);
    assert m == map["k" := 0];
    assert Step(m, Tick(late), true) == map[];
    assert Admissions(map[], [last], true) == [true];
    assert Admissions(m, [last], false) == [false];
    assert Admissions(m, es[1..], true) == [false] + [true];
    assert Admissions(m, es[1..], false) == [false] + [false];
    assert Admissions(map[], es, true) == [true] + Admissions(m, es[1..], true);
    assert Admissions(map[], es, false) == [true] + Admissions(m, es[1..], false);
    assert Admissions(map[], es, true)[2] != Admissions(map[], es, false)[2];
  }

  // ---- Spacing ----

  /** The key keeps a note no older than `since`. */
  predicate NotedSince(m: Tracker, key: string, since: Time) {
    key in m && m[key] >= since
  }

  lemma {:induction false} NoteStays(m: Tracker, e: Event, key: string, since: Time)
    requires NotedSince(m, key, since) && AtOrAfter(e, since)
    requires e.Gone? ==> !(e.trigger + "/" <= key)
    ensures NotedSince(Step(m, e, false), key, since)
  {}

  lemma {:induction false} NextAdmissionIsSpaced(m: Tracker, events: seq<Event>, now: Time, key: string,
                                                 since: Time, j: nat)
    requires NotedSince(m, key, since) && since <= now && Ordered(events, now) && j < |events|
    requires forall i | 0 <= i < j :: events[i].Gone? ==> !(events[i].trigger + "/" <= key)
    requires events[j].Seen? && events[j].key == key && Admissions(m, events, false)[j]
    ensures events[j].cooldown > 0 ==> events[j].now - since >= events[j].cooldown
    decreases |events|
  {
    if j > 0 {
      var e := events[0];
      NoteStays(m, e, key, since);
      assert Admissions(m, events, false)[j] == Admissions(Step(m, e, false), events[1..], false)[j - 1];
      NextAdmissionIsSpaced(Step(m, e, false), events[1..], if e.Gone? then now else e.now, key, since, j - 1);
    }
  }

  lemma {:induction false} AdmissionsSpacedFrom(m: Tracker, events: seq<Event>, now: Time, i: nat, j: nat)
    requires Ordered(events, now) && i < j < |events|
    requires events[i].Seen? && events[j].Seen? && events[i].key == events[j].key && events[i].cooldown > 0
    requires forall k | i < k < j :: events[k].Gone? ==> !(events[k].trigger + "/" <= events[i].key)
    requires Admissions(m, events, false)[i] && Admissions(m, events, false)[j]
    ensures events[j].cooldown > 0 ==> events[j].now - events[i].now >= events[j].cooldown
    decreases |events|
  {
    var e := events[0];
    var rest := events[1..];
    var n := Step(m, e, false);
    var later := if e.Gone? then now else e.now;
    assert forall k | 0 < k < |events| :: Admissions(m, events, false)[k] == Admissions(n, rest, false)[k - 1];
    if i == 0 {
      assert NotedSince(n, e.key, e.now);
      NextAdmissionIsSpaced(n, rest, later, e.key, e.now, j - 1);
    } else {
      AdmissionsSpacedFrom(n, rest, later, i - 1, j - 1);
    }
  }

  /** With the sweeper running, two admitted events of a key are at least the cooldown
      apart unless the Trigger was deregistered in between. */
  lemma {:induction false} AdmissionsSpaced(events: seq<Event>, start: Time, i: nat, j: nat)
    requires Ordered(events, start) && CooldownsAtMost(events, EVICTION_WINDOW + 1) && i < j < |events|
    requires events[i].Seen? && events[j].Seen? && events[i].key == events[j].key
    requires events[i].cooldown > 0 && events[j].cooldown > 0
    requires forall k | i < k < j :: events[k].Gone? ==> !(events[k].trigger + "/" <= events[i].key)
    requires Admissions(map[], events, true)[i] && Admissions(map[], events, true)[j]
    ensures events[j].now - events[i].now >= events[j].cooldown
  {
    AdmissionsAgree(map[], map[], events, start);
    AdmissionsSpacedFrom(map[], events, start, i, j);
  }

  /** An admitted event of the same key, recorded, within the cooldown before event j. */
  predicate Blocks(events: seq<Event>, admissions: seq<bool>, i: nat, j: nat)
    requires |admissions| == |events| && i < |events| && j < |events|
  {
    && events[i].Seen? && events[j].Seen? && events[i].key == events[j].key
    && admissions[i] && events[i].cooldown > 0
    && events[j].now - events[i].now < events[j].cooldown
  }

  lemma {:induction false} SuppressionTraced(m: Tracker, events: seq<Event>, evicting: bool, j: nat)
    requires j < |events| && events[j].Seen? && !Admissions(m, events, evicting)[j]
    ensures (exists i: nat | i < j :: Blocks(events, Admissions(m, events, evicting), i, j))
         || Suppressed(m, events[j].key, events[j].cooldown, events[j].now)
    decreases |events|
  {
    if j > 0 {
      var e, rest := events[0], events[1..];
      var n := Step(m, e, evicting);
      var all := Admissions(m, events, evicting);
      assert forall k | 0 < k < |events| :: all[k] == Admissions(n, rest, evicting)[k - 1] && events[k] == rest[k - 1];
      SuppressionTraced(n, rest, evicting, j - 1);
      var later, last := Admissions(n, rest, evicting), j - 1;
      if i: nat :| i < last && Blocks(rest, later, i, last) {
        assert Blocks(events, all, i + 1, j);
      } else if !Suppressed(m, events[j].key, events[j].cooldown, events[j].now) {
        assert Blocks(events, all, 0, j);
      }
    }
  }

  /** An event is suppressed only because an admitted event of its key precedes it by
      less than its cooldown. */
  lemma {:induction false} SuppressionHasCause(events: seq<Event>, evicting: bool, j: nat)
    requires j < |events| && events[j].Seen? && !Admissions(map[], events, evicting)[j]
    ensures exists i: nat | i < j :: Blocks(events, Admissions(map[], events, evicting), i, j)
  {
    SuppressionTraced(map[], events, evicting, j);
  }
}
