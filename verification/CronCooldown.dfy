/** The cron job's fixed-window cooldown, whose window lives in the stored Trigger
    status and is updated by merge patches. */
module CronCooldown {
  import opened Common

  datatype TriggerStatus = TriggerStatus(last: Option<Time>, count: int, result: string)

  /** A budget of zero or less switches the cooldown off. */
  datatype Policy = Policy(max: int, window: int)

  /** One firing: its clock reading, and which of its API calls the server accepts. */
  datatype Firing = Firing(now: Time, countPatch: bool, create: bool, finalPatch: bool)

  // ---- Merge patches ----

  function StoredTime(t: Option<Time>): Option<Time> {
    if t.None? then None else Some(Persisted(t.value))
  }

  /** Only the fields whose serialized values differ between base and changed are
      written. */
  function Merged(stored: TriggerStatus, base: TriggerStatus, changed: TriggerStatus): TriggerStatus {
    TriggerStatus(
      if StoredTime(base.last) != StoredTime(changed.last) then StoredTime(changed.last) else stored.last,
      if base.count != changed.count then changed.count else stored.count,
      if base.result != changed.result then changed.result else stored.result)
  }

  /** A patch writes a field only if it says something new about it. */
  predicate Writes(base: TriggerStatus, changed: TriggerStatus, field: Field) {
    match field
    case Last => StoredTime(base.last) != StoredTime(changed.last)
    case Count => base.count != changed.count
    case Result => base.result != changed.result
  }

  datatype Field = Last | Count | Result

  /** Patches that write different fields do not disturb each other, whatever copies
      they were computed from and whichever comes first. */
  lemma {:induction false} PatchesCommute(st: TriggerStatus, b: TriggerStatus, c: TriggerStatus,
                                          d: TriggerStatus, e: TriggerStatus)
    ensures (forall f: Field :: !(Writes(b, c, f) && Writes(d, e, f)))
      ==> Merged(Merged(st, b, c), d, e) == Merged(Merged(st, d, e), b, c)
  {
    assert Writes(b, c, Last) == (StoredTime(b.last) != StoredTime(c.last));
    assert Writes(b, c, Count) == (b.count != c.count) && Writes(b, c, Result) == (b.result != c.result);
  }

  // ---- What a firing does to the stored status ----

  datatype Effect = Effect(status: TriggerStatus, created: bool)

  predicate InWindow(p: Policy, st: TriggerStatus, now: Time) {
    st.last.Some? && now < st.last.value + p.window
  }

  /** The stored status once the cooldown check has passed. */
  function Counted(p: Policy, st: TriggerStatus, now: Time): TriggerStatus {
    if p.max <= 0 then st
    else if InWindow(p, st, now) then st.(count := st.count + 1)
    else st.(last := Some(Persisted(now)), count := 1)
  }

  predicate Limited(p: Policy, st: TriggerStatus, now: Time) {
    p.max > 0 && InWindow(p, st, now) && st.count >= p.max
  }

  /** A FlowRun is named after the Trigger and the second it fires in; `names` are the
      seconds taken, and a taken name refuses the creation. */
  predicate Creates(names: set<Time>, f: Firing) {
    f.create && Persisted(f.now) !in names
  }

  function Named(names: set<Time>, f: Firing, created: bool): set<Time> {
    if created then names + {Persisted(f.now)} else names
  }

  /** A window opens, counts and expires; nothing else moves its start. */
  function Fired(p: Policy, st: TriggerStatus, names: set<Time>, f: Firing): Effect {
    if Limited(p, st, f.now) then
      Effect(if f.countPatch then st.(result := "RateLimited") else st, false)
    else if p.max > 0 && !f.countPatch then Effect(st, false)
    else
      var counted := Counted(p, st, f.now);
      if !Creates(names, f) then Effect(counted, false)
      else if !f.finalPatch then Effect(counted, true)
      else
        var last := if p.max > 0 then counted.last else Some(Persisted(f.now));
        Effect(counted.(result := "Success", last := last), true)
  }

  class StoredTrigger {
    var status: TriggerStatus
    var names: set<Time>

    constructor (st: TriggerStatus, taken: set<Time>)
      ensures status == st && names == taken
    {
      status, names := st, taken;
    }

    /** A successful patch also refreshes the caller's copy. */
    method Patch(base: TriggerStatus, changed: TriggerStatus, succeeds: bool) returns (local: TriggerStatus)
      modifies this`status
      ensures status == if succeeds then Merged(old(status), base, changed) else old(status)
      ensures local == if succeeds then status else changed
    {
      if succeeds { status := Merged(status, base, changed); }
      local := if succeeds then status else changed;
    }

    /** The job as it runs, on a local copy with a base taken before each patch. The
        local start time is overwritten on the way; the stored one is not. */
    method Fire(p: Policy, f: Firing) returns (created: bool)
      requires StoredTime(status.last) == status.last
      modifies this
      ensures Effect(status, created) == Fired(p, old(status), old(names), f)
      ensures names == Named(old(names), f, created)
      ensures StoredTime(status.last) == status.last
    {
      var local := status;
      if p.max > 0 {
        if local.last.Some? {
          if f.now < local.last.value + p.window {
            if local.count >= p.max {
              var base := local;
              local := local.(result := "RateLimited");
              local := Patch(base, local, f.countPatch);
              return false;
            }
            var base := local;
            local := local.(count := local.count + 1);
            local := Patch(base, local, f.countPatch);
            if !f.countPatch { return false; }
          } else {
            var base := local;
            local := local.(count := 1, last := Some(f.now));
            local := Patch(base, local, f.countPatch);
            if !f.countPatch { return false; }
          }
          local := local.(last := Some(f.now));
        } else {
          var base := local;
          local := local.(last := Some(f.now), count := 1);
          local := Patch(base, local, f.countPatch);
          if !f.countPatch { return false; }
        }
      }
      if !f.create || Persisted(f.now) in names { return false; }
      names := names + {Persisted(f.now)};
      var base := local;
      local := local.(last := Some(f.now), result := "Success");
      local := Patch(base, local, f.finalPatch);
      return true;
    }
  }

  // ---- A run of firings ----

  function Creations(p: Policy, st: TriggerStatus, names: set<Time>, fires: seq<Firing>): seq<Time>
    decreases |fires|
  {
    if fires == [] then []
    else
      var e := Fired(p, st, names, fires[0]);
      (if e.created then [fires[0].now] else [])
      + Creations(p, e.status, Named(names, fires[0], e.created), fires[1..])
  }

  /** Times in the half-open interval [from, to). */
  function CountIn(ts: seq<Time>, from: Time, to: Time): nat {
    if ts == [] then 0 else (if from <= ts[0] < to then 1 else 0) + CountIn(ts[1..], from, to)
  }

  predicate InOrder(fires: seq<Firing>) {
    forall i, j | 0 <= i <= j < |fires| :: fires[i].now <= fires[j].now
  }

  const FRESH := TriggerStatus(None, 0, "")

  /** Firing after firing through the stored object gives the run's FlowRuns. */
  method FireAll(p: Policy, trigger: StoredTrigger, fires: seq<Firing>) returns (created: seq<Time>)
    requires StoredTime(trigger.status.last) == trigger.status.last
    modifies trigger
    ensures created == Creations(p, old(trigger.status), old(trigger.names), fires)
  {
    hide Fired;
    created := [];
    for i := 0 to |fires|
      invariant StoredTime(trigger.status.last) == trigger.status.last
      invariant created + Creations(p, trigger.status, trigger.names, fires[i..])
             == Creations(p, old(trigger.status), old(trigger.names), fires)
    {
      var made := trigger.Fire(p, fires[i]);
      assert fires[i..][1..] == fires[i + 1..];
      if made { created := created + [fires[i].now]; }
    }
  }

  // ---- Bookkeeping: which window each FlowRun belongs to ----

  /** opens[e] is when window e was opened; `opener` marks the firing that opened its
      window. */
  datatype Entry = Entry(time: Time, window: nat, opener: bool)

  /** `log` lists the FlowRuns created, `tries` every firing counted against a window. */
  datatype Book = Book(
    status: TriggerStatus,
    names: set<Time>,
    opens: seq<Time>,
    log: seq<Entry>,
    tries: seq<Entry>)

  /** Nothing has fired yet; FlowRuns of that name may be left from before. */
  function Opened(names: set<Time>): Book {
    Book(FRESH, names, [], [], [])
  }

  predicate OpensWindow(p: Policy, st: TriggerStatus, f: Firing) {
    !InWindow(p, st, f.now) && f.countPatch
  }

  predicate Counts(p: Policy, st: TriggerStatus, f: Firing) {
    !Limited(p, st, f.now) && f.countPatch
  }

  function Recorded(p: Policy, b: Book, f: Firing): Book {
    var e := Fired(p, b.status, b.names, f);
    var opening := OpensWindow(p, b.status, f);
    var opens := if opening then b.opens + [f.now] else b.opens;
    var entry := Entry(f.now, if opens == [] then 0 else |opens| - 1, opening);
    Book(e.status, Named(b.names, f, e.created), opens,
         if e.created then b.log + [entry] else b.log,
         if Counts(p, b.status, f) then b.tries + [entry] else b.tries)
  }

  function Made(log: seq<Entry>, w: nat): nat {
    if log == [] then 0 else Made(log[..|log| - 1], w) + (if log[|log| - 1].window == w then 1 else 0)
  }

  function Followers(log: seq<Entry>, w: nat): nat {
    if log == [] then 0
    else Followers(log[..|log| - 1], w) + (if log[|log| - 1].window == w && !log[|log| - 1].opener then 1 else 0)
  }

  lemma {:induction false} CountsAppend(log: seq<Entry>, e: Entry, w: nat)
    ensures Made(log + [e], w) == Made(log, w) + (if e.window == w then 1 else 0)
    ensures Followers(log + [e], w) == Followers(log, w) + (if e.window == w && !e.opener then 1 else 0)
  {
    assert (log + [e])[..|log|] == log;
  }

  predicate EntryOk(p: Policy, opens: seq<Time>, e: Entry) {
    && e.window < |opens| && opens[e.window] <= e.time
    && (if e.opener then e.time == opens[e.window] else e.time < Persisted(opens[e.window]) + p.window)
  }

  predicate Spaced(p: Policy, opens: seq<Time>) {
    forall w | 0 < w < |opens| :: opens[w] >= Persisted(opens[w - 1]) + p.window
  }

  /** Window w has produced at most `used` FlowRuns, and one less without its opener. */
  predicate Within(log: seq<Entry>, w: nat, used: int) {
    Made(log, w) <= used && Followers(log, w) <= used - 1
  }

  /** The current window is within its count, earlier ones within the budget. */
  predicate WindowOk(p: Policy, b: Book, w: nat) {
    Within(b.log, w, if w + 1 == |b.opens| then b.status.count else p.max)
  }

  ghost predicate BookOk(p: Policy, b: Book, now: Time) {
    && p.max > 0
    && (b.status.last.None? <==> b.opens == [])
    && (b.opens != [] ==> b.status.last == Some(Persisted(b.opens[|b.opens| - 1])) && 1 <= b.status.count <= p.max)
    && (forall w | 0 <= w < |b.opens| :: b.opens[w] <= now)
    && Spaced(p, b.opens)
    && (forall i | 0 <= i < |b.log| :: EntryOk(p, b.opens, b.log[i]))
    && (forall w: nat | w < |b.opens| :: WindowOk(p, b, w))
    && (forall w: nat | w >= |b.opens| :: Made(b.log, w) == 0 && Followers(b.log, w) == 0)
  }

  /** Another FlowRun is counted in the open window. */
  lemma {:induction false} CountedInWindow(p: Policy, b: Book, f: Firing)
    requires BookOk(p, b, f.now) && InWindow(p, b.status, f.now) && b.status.count < p.max
    ensures var w := |b.opens| - 1;
      var e := Entry(f.now, w, false);
      && b.opens != []
      && BookOk(p, b.(status := Counted(p, b.status, f.now)), f.now)
      && EntryOk(p, b.opens, e)
      && Within(b.log + [e], w, b.status.count + 1)
  {
    hide Made, Followers, Spaced;
    var w := |b.opens| - 1;
    CountsAppend(b.log, Entry(f.now, w, false), w);
    assert WindowOk(p, b, w);
    var next := b.(status := Counted(p, b.status, f.now));
    forall v: nat | v < |b.opens| ensures WindowOk(p, next, v) {
      assert WindowOk(p, b, v);
    }
  }

  /** The first FlowRun is counted in a window that opens. */
  lemma {:induction false} CountedOpening(p: Policy, b: Book, f: Firing)
    requires BookOk(p, b, f.now) && !InWindow(p, b.status, f.now)
    ensures var opens := b.opens + [f.now];
      var e := Entry(f.now, |b.opens|, true);
      && BookOk(p, b.(status := Counted(p, b.status, f.now), opens := opens), f.now)
      && EntryOk(p, opens, e)
      && Within(b.log + [e], |b.opens|, 1)
  {
    hide Made, Followers;
    var opens := b.opens + [f.now];
    CountsAppend(b.log, Entry(f.now, |b.opens|, true), |b.opens|);
    forall i | 0 <= i < |b.log| ensures EntryOk(p, opens, b.log[i]) {
      assert EntryOk(p, b.opens, b.log[i]);
    }
    var next := b.(status := Counted(p, b.status, f.now), opens := opens);
    forall v: nat | v < |opens| ensures WindowOk(p, next, v) {
      assert v < |b.opens| ==> WindowOk(p, b, v);
    }
  }

  lemma {:induction false} AppendOk(p: Policy, b: Book, e: Entry, now: Time)
    requires BookOk(p, b, now) && EntryOk(p, b.opens, e) && e.window + 1 == |b.opens|
    requires Within(b.log + [e], e.window, b.status.count)
    ensures BookOk(p, b.(log := b.log + [e]), now)
  {
    hide Made, Followers;
    var log := b.log + [e];
    forall w: nat ensures w != e.window ==> Made(log, w) == Made(b.log, w) && Followers(log, w) == Followers(b.log, w) {
      CountsAppend(b.log, e, w);
    }
    forall w: nat | w < |b.opens| ensures WindowOk(p, b.(log := log), w) {
      assert WindowOk(p, b, w);
    }
    forall w: nat | w >= |b.opens| ensures Made(log, w) == 0 && Followers(log, w) == 0 {
      assert Made(b.log, w) == 0;
    }
  }

  lemma {:induction false} ResultIrrelevant(p: Policy, b: Book, result: string, now: Time)
    requires BookOk(p, b, now)
    ensures BookOk(p, b.(status := b.status.(result := result)), now)
  {
    hide Made, Followers, EntryOk, Spaced;
    var c := b.(status := b.status.(result := result));
    forall w: nat | w < |b.opens| ensures WindowOk(p, c, w) {
      assert WindowOk(p, b, w);
    }
  }

  lemma {:induction false} NamesIrrelevant(p: Policy, b: Book, names: set<Time>, tries: seq<Entry>, now: Time)
    requires BookOk(p, b, now)
    ensures BookOk(p, b.(names := names, tries := tries), now)
  {
    hide Made, Followers, EntryOk, Spaced;
    var c := b.(names := names, tries := tries);
    forall w: nat | w < |b.opens| ensures WindowOk(p, c, w) {
      assert WindowOk(p, b, w);
    }
  }

  lemma {:induction false} RecordedOk(p: Policy, b: Book, f: Firing)
    requires BookOk(p, b, f.now)
    ensures BookOk(p, Recorded(p, b, f), f.now)
  {
    hide Made, Followers, WindowOk, EntryOk, Spaced, Within;
    var next := Recorded(p, b, f);
    if Counts(p, b.status, f) {
      if InWindow(p, b.status, f.now) { CountedInWindow(p, b, f); } else { CountedOpening(p, b, f); }
      var mid := b.(status := Counted(p, b.status, f.now), opens := next.opens);
      var made := mid.(log := next.log);
      if Creates(b.names, f) {
        AppendOk(p, mid, Entry(f.now, |next.opens| - 1, OpensWindow(p, b.status, f)), f.now);
      }
      NamesIrrelevant(p, made, next.names, next.tries, f.now);
      ResultIrrelevant(p, made.(names := next.names, tries := next.tries), next.status.result, f.now);
    } else {
      ResultIrrelevant(p, b, next.status.result, f.now);
    }
  }

  function Times(log: seq<Entry>): seq<Time> {
    seq(|log|, i requires 0 <= i < |log| => log[i].time)
  }

  lemma {:induction false} Later(p: Policy, b: Book, now: Time, later: Time)
    requires BookOk(p, b, now) && now <= later
    ensures BookOk(p, b, later)
  {
    hide Made, Followers, WindowOk, EntryOk, Spaced;
  }

  function AllRecorded(p: Policy, b: Book, fires: seq<Firing>): Book
    decreases |fires|
  {
    if fires == [] then b else AllRecorded(p, Recorded(p, b, fires[0]), fires[1..])
  }

  lemma {:induction false} AllRecordedOk(p: Policy, b: Book, fires: seq<Firing>, now: Time)
    requires BookOk(p, b, now) && InOrder(fires) && (fires != [] ==> now <= fires[0].now)
    ensures exists end: Time :: BookOk(p, AllRecorded(p, b, fires), end)
    decreases |fires|
  {
    hide BookOk, Recorded;
    if fires == [] {
      assert BookOk(p, AllRecorded(p, b, fires), now);
    } else {
      Later(p, b, now, fires[0].now);
      RecordedOk(p, b, fires[0]);
      var next := Recorded(p, b, fires[0]);
      AllRecordedOk(p, next, fires[1..], fires[0].now);
      var end :| BookOk(p, AllRecorded(p, next, fires[1..]), end);
      assert AllRecorded(p, b, fires) == AllRecorded(p, next, fires[1..]);
    }
  }

  /** No two FlowRuns were created in one second, and their names are taken. */
  predicate OnePerSecond(b: Book) {
    && (forall i | 0 <= i < |b.log| :: Persisted(b.log[i].time) in b.names)
    && (forall i, j | 0 <= i < j < |b.log| :: Persisted(b.log[i].time) != Persisted(b.log[j].time))
  }

  /** The book's FlowRuns are the run's FlowRuns, one per second. */
  lemma {:induction false} AllRecordedTimes(p: Policy, b: Book, fires: seq<Firing>)
    requires OnePerSecond(b)
    ensures Times(AllRecorded(p, b, fires).log) == Times(b.log) + Creations(p, b.status, b.names, fires)
    ensures OnePerSecond(AllRecorded(p, b, fires))
    decreases |fires|
  {
    hide Fired, OnePerSecond, Recorded, Times, Named;
    if fires != [] {
      var f, rest := fires[0], fires[1..];
      var next, e := Recorded(p, b, f), Fired(p, b.status, b.names, f);
      RecordedOnePerSecond(p, b, f);
      AllRecordedTimes(p, next, rest);
      RecordedTimes(p, b, f);
      var now := if e.created then [f.now] else [];
      assert (Times(b.log) + now) + Creations(p, next.status, next.names, rest)
          == Times(b.log) + (now + Creations(p, next.status, next.names, rest));
    }
  }

  lemma {:induction false} RecordedTimes(p: Policy, b: Book, f: Firing)
    ensures var e := Fired(p, b.status, b.names, f);
      var next := Recorded(p, b, f);
      && next.status == e.status && next.names == Named(b.names, f, e.created)
      && Times(next.log) == Times(b.log) + (if e.created then [f.now] else [])
  {
    hide Fired, OpensWindow, Counts;
  }

  lemma {:induction false} CreatedOnlyIfFree(p: Policy, st: TriggerStatus, names: set<Time>, f: Firing)
    ensures Fired(p, st, names, f).created ==> Creates(names, f)
  {}

  lemma {:induction false} RecordedOnePerSecond(p: Policy, b: Book, f: Firing)
    requires OnePerSecond(b)
    ensures OnePerSecond(Recorded(p, b, f))
  {
    hide Fired, OpensWindow;
    CreatedOnlyIfFree(p, b.status, b.names, f);
  }

  // ---- Counting entries ----

  function Tally(log: seq<Entry>, picks: Entry -> bool): nat {
    if log == [] then 0 else Tally(log[..|log| - 1], picks) + (if picks(log[|log| - 1]) then 1 else 0)
  }

  lemma {:induction false} CountAppend(ts: seq<Time>, t: Time, from: Time, to: Time)
    ensures CountIn(ts + [t], from, to) == CountIn(ts, from, to) + (if from <= t < to then 1 else 0)
  {
    if ts == [] {
      assert ([] + [t]) == [t] && [t][1..] == [];
    } else {
      assert (ts + [t])[1..] == ts[1..] + [t];
      CountAppend(ts[1..], t, from, to);
    }
  }

  predicate Hit(e: Entry, from: Time, to: Time) {
    from <= e.time < to
  }

  lemma {:induction false} CountIsTally(log: seq<Entry>, from: Time, to: Time, picks: Entry -> bool)
    requires forall e :: picks(e) == Hit(e, from, to)
    ensures CountIn(Times(log), from, to) == Tally(log, picks)
  {
    if log != [] {
      var front := log[..|log| - 1];
      assert Times(log) == Times(front) + [log[|log| - 1].time];
      CountAppend(Times(front), log[|log| - 1].time, from, to);
      CountIsTally(front, from, to, picks);
    }
  }

  lemma {:induction false} TallyCovered(log: seq<Entry>, picks: Entry -> bool, a: Entry -> bool, b: Entry -> bool)
    requires forall i | 0 <= i < |log| && picks(log[i]) :: a(log[i]) || b(log[i])
    ensures Tally(log, picks) <= Tally(log, a) + Tally(log, b)
  {
    if log != [] {
      var front := log[..|log| - 1];
      assert forall i | 0 <= i < |front| :: front[i] == log[i];
      TallyCovered(front, picks, a, b);
      assert picks(log[|log| - 1]) ==> a(log[|log| - 1]) || b(log[|log| - 1]);
    }
  }

  lemma {:induction false} TallyWindow(log: seq<Entry>, picks: Entry -> bool, w: nat)
    requires forall i | 0 <= i < |log| && picks(log[i]) :: log[i].window == w
    ensures Tally(log, picks) <= Made(log, w)
    ensures (forall i | 0 <= i < |log| && picks(log[i]) :: !log[i].opener) ==> Tally(log, picks) <= Followers(log, w)
  {
    if log != [] {
      var front := log[..|log| - 1];
      assert forall i | 0 <= i < |front| :: front[i] == log[i];
      TallyWindow(front, picks, w);
      assert picks(log[|log| - 1]) ==> log[|log| - 1].window == w;
    }
  }

  lemma {:induction false} TallyNone(log: seq<Entry>, picks: Entry -> bool)
    requires forall i | 0 <= i < |log| :: !picks(log[i])
    ensures Tally(log, picks) == 0
  {
    if log != [] {
      var front := log[..|log| - 1];
      assert forall i | 0 <= i < |front| :: front[i] == log[i];
      TallyNone(front, picks);
      assert !picks(log[|log| - 1]);
    }
  }

  /** Picked entries of one second are at most one. */
  lemma {:induction false} TallySecond(log: seq<Entry>, picks: Entry -> bool, second: Time)
    requires forall i, j | 0 <= i < j < |log| :: Persisted(log[i].time) != Persisted(log[j].time)
    requires forall i | 0 <= i < |log| && picks(log[i]) :: Persisted(log[i].time) == second
    ensures Tally(log, picks) <= 1
  {
    if log != [] {
      var front, last := log[..|log| - 1], log[|log| - 1];
      assert forall i | 0 <= i < |front| :: front[i] == log[i];
      if picks(last) {
        forall i | 0 <= i < |front| ensures !picks(front[i]) {
          assert Persisted(log[i].time) != Persisted(last.time);
        }
        TallyNone(front, picks);
      } else {
        TallySecond(front, picks, second);
      }
    }
  }

  /** Picked entries of n consecutive seconds are at most n. */
  lemma {:induction false} TallySeconds(log: seq<Entry>, picks: Entry -> bool, first: Time, n: nat)
    requires forall i, j | 0 <= i < j < |log| :: Persisted(log[i].time) != Persisted(log[j].time)
    requires first % SECOND == 0
    requires forall i | 0 <= i < |log| && picks(log[i]) :: first <= log[i].time < first + n * SECOND
    ensures Tally(log, picks) <= n
    decreases n
  {
    if n == 0 {
      TallyNone(log, picks);
    } else {
      var now := (e: Entry) => picks(e) && e.time < first + SECOND;
      var later := (e: Entry) => picks(e) && e.time >= first + SECOND;
      TallyCovered(log, picks, now, later);
      forall i | 0 <= i < |log| && now(log[i]) ensures Persisted(log[i].time) == first { SecondOf(log[i].time, first); }
      TallySecond(log, now, first);
      TallySeconds(log, later, first + SECOND, n - 1);
    }
  }

  lemma {:induction false} SecondOf(t: Time, second: Time)
    requires second % SECOND == 0 && second <= t < second + SECOND
    ensures Persisted(t) == second
  {}

  // ---- How windows lie ----

  lemma {:induction false} PersistedSum(t: Time, d: int)
    requires t % SECOND == 0
    ensures Persisted(t + d) == t + Persisted(d)
  {}

  lemma {:induction false} PersistedMonotone(t: Time, u: Time)
    requires t <= u
    ensures Persisted(t) <= Persisted(u)
  {}

  /** An opening that is a later window's, one that skips a window, one that skips two. */
  lemma {:induction false} OpensApart(p: Policy, opens: seq<Time>, v: nat, w: nat)
    requires Spaced(p, opens) && p.window >= 0 && v < w < |opens|
    ensures opens[w] >= Persisted(opens[v]) + p.window
    ensures w >= v + 2 ==> opens[w] >= Persisted(opens[v]) + Persisted(p.window) + p.window
    ensures w >= v + 3 ==> opens[w] >= Persisted(opens[v]) + 2 * Persisted(p.window) + p.window
    decreases w - v
  {
    hide Persisted;
    assert opens[w] >= Persisted(opens[w - 1]) + p.window;
    if w > v + 1 {
      OpensApart(p, opens, v, w - 1);
      var start, whole := Persisted(opens[v]), Persisted(p.window);
      PersistedMonotone(start + p.window, opens[w - 1]);
      PersistedSum(start, p.window);
      if w > v + 2 {
        WholeSum(start, whole);
        PersistedMonotone(start + whole + p.window, opens[w - 1]);
        PersistedSum(start + whole, p.window);
      }
    }
  }

  lemma {:induction false} WholeSum(t: Time, d: int)
    requires t % SECOND == 0 && d % SECOND == 0
    ensures (t + d) % SECOND == 0
  {}

  // ---- How many FlowRuns fit in one window length ----

  /** A hit of the earliest window hit. */
  lemma {:induction false} EarliestHit(log: seq<Entry>, from: Time, to: Time) returns (k: nat)
    requires exists i | 0 <= i < |log| :: Hit(log[i], from, to)
    ensures k < |log| && Hit(log[k], from, to)
    ensures forall i | 0 <= i < |log| && Hit(log[i], from, to) :: log[k].window <= log[i].window
  {
    var front := log[..|log| - 1];
    assert forall i | 0 <= i < |front| :: front[i] == log[i];
    if exists i | 0 <= i < |front| :: Hit(front[i], from, to) {
      k := EarliestHit(front, from, to);
      if Hit(log[|log| - 1], from, to) && log[|log| - 1].window < log[k].window { k := |log| - 1; }
      forall i | 0 <= i < |log| && Hit(log[i], from, to) ensures log[k].window <= log[i].window {
        if i < |front| { assert Hit(front[i], from, to); }
      }
    } else {
      k := |log| - 1;
      forall i | 0 <= i < |front| ensures !Hit(log[i], from, to) { assert !Hit(front[i], from, to); }
    }
  }

  /** What two hits of one interval say about each other: a hit opener is followed by
      hits of the next window only, within a second of its end; a hit two windows on
      squeezes the earlier one into the last second of its window. */
  lemma {:induction false} HitPair(p: Policy, opens: seq<Time>, x: Entry, y: Entry)
    requires Spaced(p, opens) && p.window >= SECOND && EntryOk(p, opens, x) && EntryOk(p, opens, y)
    requires x.window < y.window && y.time < x.time + p.window
    ensures var end := Persisted(opens[x.window]) + p.window;
      && y.time >= end
      && y.window <= x.window + 2
      && (x.opener ==> y.window == x.window + 1 && y.time < end + SECOND - 1)
      && (y.window == x.window + 2 ==> Persisted(x.time) == Persisted(end) && y.time >= end + Persisted(p.window))
  {
    var w, n := x.window, y.window - x.window;
    var end := Persisted(opens[w]) + p.window;
    OpensApart(p, opens, w, y.window);
    assert Persisted(p.window) >= SECOND;
    if n == 2 {
      PersistedSum(Persisted(opens[w]), p.window);
      SecondOf(x.time, Persisted(end));
    }
  }

  /** The number of FlowRuns within one window length from `from`. */
  function Yield(p: Policy, names: set<Time>, fires: seq<Firing>, from: Time): nat {
    CountIn(Creations(p, FRESH, names, fires), from, from + p.window)
  }

  /** The policies whose budget is never quite doubled. */
  predicate Tight(p: Policy) {
    || p.window <= 1
    || p.max >= 3
    || (p.max == 2 && (p.window <= 2 * SECOND || p.window % SECOND <= 1))
  }

  predicate Apart(log: seq<Entry>) {
    forall i, j | 0 <= i < j < |log| :: Persisted(log[i].time) != Persisted(log[j].time)
  }

  /** No window made more than the budget, or all of it without its opener. */
  predicate InBudget(p: Policy, log: seq<Entry>, w: nat) {
    Made(log, w) <= p.max && Followers(log, w) <= p.max - 1
  }

  /** What the interval bounds need of a book. */
  ghost predicate LogOk(p: Policy, opens: seq<Time>, log: seq<Entry>) {
    && Apart(log) && Spaced(p, opens)
    && (forall i | 0 <= i < |log| :: EntryOk(p, opens, log[i]))
    && (forall w: nat :: InBudget(p, log, w))
  }

  lemma {:induction false} BookGivesLog(p: Policy, b: Book, now: Time)
    requires BookOk(p, b, now) && OnePerSecond(b)
    ensures LogOk(p, b.opens, b.log)
  {
    hide Made, Followers, EntryOk, Spaced;
    forall w: nat ensures InBudget(p, b.log, w) {
      if w < |b.opens| { assert WindowOk(p, b, w); }
    }
  }

  /** The hits of one window. */
  function HitsOf(from: Time, to: Time, w: nat): Entry -> bool {
    (e: Entry) => Hit(e, from, to) && e.window == w
  }

  /** At most n seconds touched: at most n FlowRuns. */
  lemma {:induction false} FewSeconds(log: seq<Entry>, from: Time, to: Time, n: nat)
    requires Apart(log) && to <= Persisted(from) + n * SECOND
    ensures CountIn(Times(log), from, to) <= n
  {
    hide CountIn, Tally;
    var hits := (e: Entry) => Hit(e, from, to);
    CountIsTally(log, from, to, hits);
    TallySeconds(log, hits, Persisted(from), n);
  }

  /** `first` is the earliest window hit. */
  predicate Earliest(log: seq<Entry>, from: Time, to: Time, first: nat) {
    forall i | 0 <= i < |log| && Hit(log[i], from, to) :: first <= log[i].window
  }

  lemma {:induction false} AfterOpener(p: Policy, opens: seq<Time>, x: Entry, y: Entry, from: Time)
    requires Spaced(p, opens) && p.window >= SECOND && EntryOk(p, opens, x) && EntryOk(p, opens, y)
    requires x.opener && Hit(x, from, from + p.window) && Hit(y, from, from + p.window) && x.window < y.window
    ensures var end := Persisted(opens[x.window]) + p.window;
      && y.window == x.window + 1
      && Persisted(end) <= y.time < Persisted(end) + (if p.window % SECOND <= 1 then 1 else 2) * SECOND
  {
    HitPair(p, opens, x, y);
    PersistedSum(Persisted(opens[x.window]), p.window);
  }

  /** The opener of the earliest window is hit: that window and a second or two. */
  lemma {:induction false} OpenerHit(p: Policy, opens: seq<Time>, log: seq<Entry>, from: Time, k: nat)
    requires LogOk(p, opens, log) && p.window >= SECOND
    requires k < |log| && log[k].opener && Hit(log[k], from, from + p.window)
    requires Earliest(log, from, from + p.window, log[k].window)
    ensures CountIn(Times(log), from, from + p.window) <= p.max + (if p.window % SECOND <= 1 then 1 else 2)
    ensures CountIn(Times(log), from, from + p.window) <= 2 * p.max
  {
    hide Made, Followers, Tally, CountIn, Spaced, EntryOk;
    var to, x := from + p.window, log[k];
    var w := x.window;
    var hits := (e: Entry) => Hit(e, from, to);
    var mine, next := HitsOf(from, to, w), HitsOf(from, to, w + 1);
    assert EntryOk(p, opens, x);
    assert w < |opens| by { EntryWindow(p, opens, x); }
    var end := Persisted(Persisted(opens[w]) + p.window);
    var n := if p.window % SECOND <= 1 then 1 else 2;
    forall i | 0 <= i < |log| && hits(log[i])
      ensures mine(log[i]) || next(log[i])
      ensures next(log[i]) ==> end <= log[i].time < end + n * SECOND
    {
      assert EntryOk(p, opens, log[i]);
      if log[i].window > w { AfterOpener(p, opens, x, log[i], from); }
    }
    CountIsTally(log, from, to, hits);
    TallyCovered(log, hits, mine, next);
    TallyWindow(log, mine, w);
    TallyWindow(log, next, w + 1);
    assert InBudget(p, log, w) && InBudget(p, log, w + 1);
    TallySeconds(log, next, end, n);
  }

  lemma {:induction false} EntryWindow(p: Policy, opens: seq<Time>, e: Entry)
    requires EntryOk(p, opens, e)
    ensures e.window < |opens|
  {}

  /** Only two windows are hit, the earlier one without its opener. */
  lemma {:induction false} TwoWindows(p: Policy, log: seq<Entry>, from: Time, to: Time, w: nat)
    requires InBudget(p, log, w) && InBudget(p, log, w + 1)
    requires forall i | 0 <= i < |log| && Hit(log[i], from, to) ::
      (log[i].window == w && !log[i].opener) || log[i].window == w + 1
    ensures CountIn(Times(log), from, to) <= 2 * p.max - 1
  {
    hide Made, Followers, Tally, CountIn;
    var hits := (e: Entry) => Hit(e, from, to);
    var mine, next := HitsOf(from, to, w), HitsOf(from, to, w + 1);
    CountIsTally(log, from, to, hits);
    TallyCovered(log, hits, mine, next);
    TallyWindow(log, mine, w);
    TallyWindow(log, next, w + 1);
  }

  /** A hit two windows on leaves the first window its last second, the second window no
      opener, and the third window two seconds. */
  lemma {:induction false} Squeezed(p: Policy, opens: seq<Time>, x: Entry, y: Entry, e: Entry, from: Time)
    requires Spaced(p, opens) && p.window >= SECOND
    requires EntryOk(p, opens, x) && EntryOk(p, opens, y) && EntryOk(p, opens, e)
    requires Hit(x, from, from + p.window) && Hit(y, from, from + p.window) && Hit(e, from, from + p.window)
    requires y.window == x.window + 2 && x.window <= e.window
    ensures p.window % SECOND >= 2
    ensures var end := Persisted(opens[x.window]) + p.window;
      var last := Persisted(end);
      && Persisted(x.time) == last
      && e.window <= x.window + 2
      && (e.window == x.window ==> Persisted(e.time) == last)
      && (e.window == x.window + 1 && e.opener ==> Persisted(e.time) == last)
      && (e.window == x.window + 2 ==>
            last + Persisted(p.window) <= e.time < last + Persisted(p.window) + 2 * SECOND)
  {
    var end := Persisted(opens[x.window]) + p.window;
    HitPair(p, opens, x, y);
    PersistedSum(Persisted(opens[x.window]), p.window);
    if e.window == x.window {
      HitPair(p, opens, e, y);
    } else {
      HitPair(p, opens, x, e);
      if e.window == x.window + 1 && e.opener {
        assert y.time >= Persisted(e.time) + p.window;
        SecondOf(e.time, Persisted(end));
      }
    }
  }

  lemma {:induction false} ApartAt(log: seq<Entry>, i: nat, k: nat)
    requires Apart(log) && i < |log| && k < |log| && i != k
    ensures Persisted(log[i].time) != Persisted(log[k].time)
  {}

  lemma {:induction false} SomeFollower(log: seq<Entry>, k: nat)
    requires k < |log| && !log[k].opener
    ensures Followers(log, log[k].window) >= 1
  {
    if k < |log| - 1 { SomeFollower(log[..|log| - 1], k); }
  }

  /** Where a hit can lie when three windows are hit. */
  predicate Placed(e: Entry, w: nat, last: Time, far: Time) {
    || (e.window == w && Persisted(e.time) == last)
    || (e.window == w + 1 && !e.opener)
    || (e.window == w + 2 && far <= e.time < far + 2 * SECOND)
  }

  lemma {:induction false} PlacedCount(log: seq<Entry>, from: Time, to: Time, w: nat, last: Time, far: Time)
    requires Apart(log) && far % SECOND == 0
    requires forall i | 0 <= i < |log| && Hit(log[i], from, to) :: Placed(log[i], w, last, far)
    ensures CountIn(Times(log), from, to) <= Followers(log, w + 1) + 3
  {
    hide Made, Followers, Tally, CountIn;
    var hits := (e: Entry) => Hit(e, from, to);
    var mine, rest := HitsOf(from, to, w), (e: Entry) => Hit(e, from, to) && e.window != w;
    var next, third := HitsOf(from, to, w + 1), HitsOf(from, to, w + 2);
    CountIsTally(log, from, to, hits);
    TallyCovered(log, hits, mine, rest);
    TallyCovered(log, rest, next, third);
    TallySecond(log, mine, last);
    TallyWindow(log, next, w + 1);
    TallySeconds(log, third, far, 2);
  }

  /** Three windows are hit. */
  lemma {:induction false} ThreeWindows(p: Policy, opens: seq<Time>, log: seq<Entry>, from: Time, k: nat, l: nat)
    requires LogOk(p, opens, log) && p.window >= SECOND && k < |log| && l < |log|
    requires Hit(log[k], from, from + p.window) && Hit(log[l], from, from + p.window)
    requires Earliest(log, from, from + p.window, log[k].window) && log[l].window == log[k].window + 2
    ensures p.window % SECOND >= 2 && p.max >= 2
    ensures CountIn(Times(log), from, from + p.window) <= p.max + 2
  {
    hide Made, Followers, CountIn, Spaced, EntryOk;
    var to, x, y := from + p.window, log[k], log[l];
    var w := x.window;
    assert EntryOk(p, opens, x) && EntryOk(p, opens, y);
    assert w < |opens| by { EntryWindow(p, opens, x); }
    var last := Persisted(Persisted(opens[w]) + p.window);
    var far := last + Persisted(p.window);
    Squeezed(p, opens, x, y, x, from);
    forall i | 0 <= i < |log| && Hit(log[i], from, to) ensures Placed(log[i], w, last, far) {
      assert EntryOk(p, opens, log[i]);
      Squeezed(p, opens, x, y, log[i], from);
      if i != k { ApartAt(log, i, k); }
    }
    WholeSum(last, Persisted(p.window));
    PlacedCount(log, from, to, w, last, far);
    assert InBudget(p, log, w + 1) && InBudget(p, log, w);
    assert !x.opener by { HitPair(p, opens, x, y); }
    SomeFollower(log, k);
  }

  lemma {:induction false} WindowsHit(p: Policy, opens: seq<Time>, log: seq<Entry>, from: Time, k: nat, i: nat)
    requires LogOk(p, opens, log) && p.window >= SECOND && k < |log| && i < |log|
    requires Hit(log[k], from, from + p.window) && Hit(log[i], from, from + p.window)
    requires log[k].window <= log[i].window
    ensures log[i].window <= log[k].window + 2
  {
    hide Made, Followers, Spaced, EntryOk;
    assert EntryOk(p, opens, log[i]) && EntryOk(p, opens, log[k]);
    if log[i].window > log[k].window { HitPair(p, opens, log[k], log[i]); }
  }

  lemma {:induction false} LongWindow(p: Policy, opens: seq<Time>, log: seq<Entry>, from: Time)
    requires p.max > 0 && LogOk(p, opens, log) && p.window >= SECOND
    ensures CountIn(Times(log), from, from + p.window) <= 2 * p.max
    ensures p.max >= 3 || (p.max == 2 && p.window % SECOND <= 1) ==>
      CountIn(Times(log), from, from + p.window) <= 2 * p.max - 1
  {
    hide InBudget, CountIn, Spaced, EntryOk, Apart, Times;
    var to := from + p.window;
    if exists i | 0 <= i < |log| :: Hit(log[i], from, to) {
      var k := EarliestHit(log, from, to);
      var w := log[k].window;
      if o :| 0 <= o < |log| && Hit(log[o], from, to) && log[o].window == w && log[o].opener {
        OpenerHit(p, opens, log, from, o);
      } else if l :| 0 <= l < |log| && Hit(log[l], from, to) && log[l].window == w + 2 {
        ThreeWindows(p, opens, log, from, k, l);
      } else {
        forall i | 0 <= i < |log| && Hit(log[i], from, to)
          ensures (log[i].window == w && !log[i].opener) || log[i].window == w + 1
        {
          WindowsHit(p, opens, log, from, k, i);
        }
        assert InBudget(p, log, w) && InBudget(p, log, w + 1);
        TwoWindows(p, log, from, to, w);
      }
    } else {
      var none := (e: Entry) => Hit(e, from, to);
      CountIsTally(log, from, to, none);
      TallyNone(log, none);
    }
  }

  lemma {:induction false} IntervalBound(p: Policy, opens: seq<Time>, log: seq<Entry>, from: Time)
    requires p.max > 0 && LogOk(p, opens, log)
    ensures CountIn(Times(log), from, from + p.window) <= 2 * p.max
    ensures Tight(p) ==> CountIn(Times(log), from, from + p.window) <= 2 * p.max - 1
  {
    hide Made, Followers, CountIn, Spaced, EntryOk;
    if p.window <= 1 {
      FewSeconds(log, from, from + p.window, 1);
    } else if p.window < SECOND {
      FewSeconds(log, from, from + p.window, 2);
    } else {
      LongWindow(p, opens, log, from);
      if p.max == 2 && p.window <= 2 * SECOND { FewSeconds(log, from, from + p.window, 3); }
    }
  }

  // ---- Theorems ----

  lemma {:induction false} EmptyBookOk(p: Policy, names: set<Time>, now: Time)
    requires p.max > 0
    ensures BookOk(p, Opened(names), now) && OnePerSecond(Opened(names))
  {}

  lemma {:induction false} FullBook(p: Policy, names: set<Time>, fires: seq<Firing>) returns (end: Time)
    requires p.max > 0 && InOrder(fires)
    ensures var book := AllRecorded(p, Opened(names), fires);
      && BookOk(p, book, end) && OnePerSecond(book)
      && Times(book.log) == Creations(p, FRESH, names, fires)
  {
    hide BookOk, OnePerSecond, AllRecorded, Creations;
    var start := if fires == [] then 0 else fires[0].now;
    EmptyBookOk(p, names, start);
    AllRecordedOk(p, Opened(names), fires, start);
    AllRecordedTimes(p, Opened(names), fires);
    end :| BookOk(p, AllRecorded(p, Opened(names), fires), end);
    assert Times([]) + Creations(p, FRESH, names, fires) == Creations(p, FRESH, names, fires);
  }

  /** Every stored window yields at most MaxInvocations FlowRuns, even when creations
      or final patches fail. */
  lemma {:induction false} WindowBudget(p: Policy, names: set<Time>, fires: seq<Firing>, w: nat)
    requires p.max > 0 && InOrder(fires)
    ensures var book := AllRecorded(p, Opened(names), fires);
      Times(book.log) == Creations(p, FRESH, names, fires) && Made(book.log, w) <= p.max
  {
    hide Made, Followers, AllRecorded;
    var book := AllRecorded(p, Opened(names), fires);
    var end := FullBook(p, names, fires);
    if w < |book.opens| { assert WindowOk(p, book, w); }
  }

  /** Whatever the window and the firings, one window length holds at most twice the
      budget, and under a tight policy at most one less. */
  lemma {:induction false} IntervalBudget(p: Policy, names: set<Time>, fires: seq<Firing>, from: Time)
    requires p.max > 0 && InOrder(fires)
    ensures Yield(p, names, fires, from) <= 2 * p.max
    ensures Tight(p) ==> Yield(p, names, fires, from) <= 2 * p.max - 1
  {
    hide Tight, CountIn, Creations, AllRecorded, BookOk, OnePerSecond, LogOk;
    var book := AllRecorded(p, Opened(names), fires);
    var end := FullBook(p, names, fires);
    BookGivesLog(p, book, end);
    IntervalBound(p, book.opens, book.log, from);
  }

  /** A firing all of whose API calls are accepted. */
  function Good(now: Time): Firing {
    Firing(now, true, true, true)
  }

  /** A budget of one is doubled by a firing at the end of a second, whose window is
      stored as if it had opened at the start of that second. */
  lemma {:induction false} OneIsDoubled(p: Policy)
    requires p.max == 1 && p.window >= 2
    ensures exists fires: seq<Firing>, from: Time :: InOrder(fires) && Yield(p, {}, fires, from) == 2
  {
    hide Fired, CountIn;
    var late := SECOND - 1;
    var next := if p.window >= SECOND then p.window else SECOND;
    var fires := [Good(late), Good(next)];
    var st := TriggerStatus(Some(0), 1, "Success");
    assert Persisted(late) == 0 && Persisted(next) >= SECOND;
    assert Fired(p, FRESH, {}, Good(late)) == Effect(st, true) by { FirstFires(p, late); }
    assert Named({}, Good(late), true) == {0};
    assert Fired(p, st, {0}, Good(next)).created by { NextFires(p, st, next); }
    CreatedThen(p, FRESH, {}, Good(late), [Good(next)]);
    CreatedThen(p, st, {0}, Good(next), []);
    assert [Good(late)] + [Good(next)] == fires && [Good(next)] + [] == [Good(next)];
    CountThen(late, [next], late, late + p.window);
    CountThen(next, [], late, late + p.window);
    assert [late] + [next] == [late, next] && [next] + [] == [next];
    assert InOrder(fires) && Yield(p, {}, fires, late) == 2;
  }

  lemma {:induction false} FirstFires(p: Policy, now: Time)
    requires p.max > 0
    ensures Fired(p, FRESH, {}, Good(now)) == Effect(TriggerStatus(Some(Persisted(now)), 1, "Success"), true)
  {}

  lemma {:induction false} NextFires(p: Policy, st: TriggerStatus, now: Time)
    requires p.max > 0 && st.last == Some(0) && now >= p.window && Persisted(now) != 0
    ensures Fired(p, st, {0}, Good(now)).created
  {}

  lemma {:induction false} CountThen(t: Time, rest: seq<Time>, from: Time, to: Time)
    requires from <= t < to
    ensures CountIn([t] + rest, from, to) == 1 + CountIn(rest, from, to)
    ensures CountIn([], from, to) == 0
  {
    assert ([t] + rest)[1..] == rest;
  }

  /** A budget of two is doubled when the window overlaps one second more. */
  lemma {:induction false} TwoIsDoubled(p: Policy)
    requires p.max == 2 && p.window > 2 * SECOND && p.window % SECOND >= 2
    ensures exists fires: seq<Firing>, from: Time :: InOrder(fires) && Yield(p, {}, fires, from) == 4
  {
    hide Fired, CountIn;
    var a, b, c := SECOND - 1, SECOND, p.window;
    var d := Persisted(p.window) + SECOND;
    var fires := [Good(a), Good(b), Good(c), Good(d)];
    assert InOrder(fires);
    assert Creations(p, FRESH, {}, fires) == [a, b, c, d] by { FourCreated(p, a, b, c, d); }
    FourInside(a, b, c, d, a, a + p.window);
    assert InOrder(fires) && Yield(p, {}, fires, a) == 4;
  }

  lemma {:induction false} FourCreated(p: Policy, a: Time, b: Time, c: Time, d: Time)
    requires p.max == 2 && p.window > 2 * SECOND && p.window % SECOND >= 2
    requires a == SECOND - 1 && b == SECOND && c == p.window && d == Persisted(p.window) + SECOND
    ensures Creations(p, FRESH, {}, [Good(a), Good(b), Good(c), Good(d)]) == [a, b, c, d]
  {
    assert Persisted(a) == 0 && Persisted(b) == SECOND && Persisted(c) >= 2 * SECOND && Persisted(d) == d;
    var s1 := TriggerStatus(Some(0), 1, "Success");
    var s2 := TriggerStatus(Some(0), 2, "Success");
    var s3 := TriggerStatus(Some(Persisted(c)), 1, "Success");
    var s4 := TriggerStatus(Some(Persisted(c)), 2, "Success");
    var n1, n2 := {0}, {0, SECOND};
    var n3 := n2 + {Persisted(c)};
    assert Fired(p, FRESH, {}, Good(a)) == Effect(s1, true) && Named({}, Good(a), true) == n1;
    assert Fired(p, s1, n1, Good(b)) == Effect(s2, true) && Named(n1, Good(b), true) == n2;
    assert Fired(p, s2, n2, Good(c)) == Effect(s3, true) && Named(n2, Good(c), true) == n3;
    assert Fired(p, s3, n3, Good(d)) == Effect(s4, true);
    CreatedThen(p, s3, n3, Good(d), []);
    CreatedThen(p, s2, n2, Good(c), [Good(d)]);
    CreatedThen(p, s1, n1, Good(b), [Good(c), Good(d)]);
    CreatedThen(p, FRESH, {}, Good(a), [Good(b), Good(c), Good(d)]);
    assert [Good(a)] + [Good(b), Good(c), Good(d)] == [Good(a), Good(b), Good(c), Good(d)];
    assert [Good(b)] + [Good(c), Good(d)] == [Good(b), Good(c), Good(d)];
    assert [Good(c)] + [Good(d)] == [Good(c), Good(d)] && [Good(d)] + [] == [Good(d)];
  }

  lemma {:induction false} CreatedThen(p: Policy, st: TriggerStatus, names: set<Time>, f: Firing, rest: seq<Firing>)
    requires Fired(p, st, names, f).created
    ensures Creations(p, st, names, [f] + rest)
         == [f.now] + Creations(p, Fired(p, st, names, f).status, Named(names, f, true), rest)
  {
    hide Fired;
    assert ([f] + rest)[1..] == rest;
  }

  lemma {:induction false} FourInside(a: Time, b: Time, c: Time, d: Time, from: Time, to: Time)
    requires from <= a < to && from <= b < to && from <= c < to && from <= d < to
    ensures CountIn([a, b, c, d], from, to) == 4
  {
    hide CountIn;
    CountThen(d, [], from, to);
    CountThen(c, [d], from, to);
    CountThen(b, [c, d], from, to);
    CountThen(a, [b, c, d], from, to);
    assert [d] + [] == [d] && [c] + [d] == [c, d] && [b] + [c, d] == [b, c, d] && [a] + [b, c, d] == [a, b, c, d];
  }

  /** No run ever doubles the budget within one window length, if and only if the policy
      is tight. */
  lemma {:induction false} NeverDoubledIffTight(p: Policy)
    requires p.max > 0
    ensures Tight(p) <==> forall names: set<Time>, fires: seq<Firing>, from: Time | InOrder(fires) ::
      Yield(p, names, fires, from) <= 2 * p.max - 1
  {
    hide Yield;
    if Tight(p) {
      forall names: set<Time>, fires: seq<Firing>, from: Time | InOrder(fires)
        ensures Yield(p, names, fires, from) <= 2 * p.max - 1
      {
        IntervalBudget(p, names, fires, from);
      }
    } else if p.max == 1 {
      OneIsDoubled(p);
    } else {
      TwoIsDoubled(p);
    }
  }

  // ---- Nothing is refused early ----

  /** The stored count is the number of firings counted in the current window. */
  predicate ExactCount(b: Book) {
    && (b.opens != [] ==> Made(b.tries, |b.opens| - 1) == b.status.count)
    && forall i | 0 <= i < |b.tries| :: b.tries[i].window < |b.opens|
  }

  lemma {:induction false} NoneYet(log: seq<Entry>, w: nat)
    requires forall i | 0 <= i < |log| :: log[i].window != w
    ensures Made(log, w) == 0
  {
    if log != [] {
      var front := log[..|log| - 1];
      assert forall i | 0 <= i < |front| :: front[i] == log[i];
      NoneYet(front, w);
      assert log[|log| - 1].window != w;
    }
  }

  /** What a counted firing does to the count. */
  lemma {:induction false} CountedIs(p: Policy, b: Book, f: Firing)
    requires BookOk(p, b, f.now) && Counts(p, b.status, f)
    ensures var next := Recorded(p, b, f);
      && next.opens != []
      && next.tries == b.tries + [Entry(f.now, |next.opens| - 1, OpensWindow(p, b.status, f))]
      && (if OpensWindow(p, b.status, f) then |next.opens| == |b.opens| + 1 && next.status.count == 1
          else next.opens == b.opens && next.status.count == b.status.count + 1)
  {
    hide Made, Followers, EntryOk, WindowOk, Spaced, Persisted;
  }

  lemma {:induction false} RecordedExact(p: Policy, b: Book, f: Firing)
    requires BookOk(p, b, f.now) && ExactCount(b)
    ensures ExactCount(Recorded(p, b, f))
  {
    hide Made, BookOk, Persisted;
    var next := Recorded(p, b, f);
    if Counts(p, b.status, f) {
      CountedIs(p, b, f);
      hide Recorded, OpensWindow;
      var w := |next.opens| - 1;
      CountsAppend(b.tries, Entry(f.now, w, OpensWindow(p, b.status, f)), w);
      if OpensWindow(p, b.status, f) { NoneYet(b.tries, w); }
    } else {
      assert next.tries == b.tries && next.opens == b.opens && next.status.count == b.status.count by {
        RefusedKeeps(p, b, f);
      }
    }
  }

  lemma {:induction false} RefusedKeeps(p: Policy, b: Book, f: Firing)
    requires BookOk(p, b, f.now) && !Counts(p, b.status, f)
    ensures var next := Recorded(p, b, f);
      next.tries == b.tries && next.opens == b.opens && next.status.count == b.status.count
  {
    hide Made, Followers, EntryOk, WindowOk, Spaced, Persisted;
  }

  lemma {:induction false} AllRecordedExact(p: Policy, b: Book, fires: seq<Firing>, now: Time)
    requires BookOk(p, b, now) && InOrder(fires) && (fires != [] ==> now <= fires[0].now)
    requires ExactCount(b)
    ensures ExactCount(AllRecorded(p, b, fires))
    decreases |fires|
  {
    hide BookOk, Recorded, ExactCount;
    if fires != [] {
      Later(p, b, now, fires[0].now);
      RecordedOk(p, b, fires[0]);
      RecordedExact(p, b, fires[0]);
      AllRecordedExact(p, Recorded(p, b, fires[0]), fires[1..], fires[0].now);
    }
  }

  /** Every create request is accepted and finds its name free. */
  predicate AllCreate(p: Policy, b: Book, fires: seq<Firing>)
    decreases |fires|
  {
    fires == [] || (Creates(b.names, fires[0]) && AllCreate(p, Recorded(p, b, fires[0]), fires[1..]))
  }

  lemma {:induction false} TriesAreRuns(p: Policy, b: Book, fires: seq<Firing>)
    requires p.max > 0 && b.log == b.tries && AllCreate(p, b, fires)
    ensures AllRecorded(p, b, fires).log == AllRecorded(p, b, fires).tries
    decreases |fires|
  {
    if fires != [] { TriesAreRuns(p, Recorded(p, b, fires[0]), fires[1..]); }
  }

  /** What a firing does after any run: without a policy it creates a FlowRun unless the
      server refuses or its name is taken; with one it must also fall outside the stored
      window or find budget in it, and have its count stored. */
  lemma {:induction false} CreatedIff(p: Policy, names: set<Time>, fires: seq<Firing>, f: Firing)
    requires InOrder(fires)
    ensures var book := AllRecorded(p, Opened(names), fires);
      var e := Fired(p, book.status, book.names, f);
      && (p.max <= 0 ==> (e.created <==> f.create && Persisted(f.now) !in book.names))
      && (p.max > 0 ==>
            (e.created <==>
               && f.create && Persisted(f.now) !in book.names && f.countPatch
               && !(&& book.opens != [] && f.now < Persisted(book.opens[|book.opens| - 1]) + p.window
                    && Made(book.tries, |book.opens| - 1) == p.max)))
      && (e.created && f.finalPatch ==> e.status.result == "Success")
      && (p.max <= 0 && e.created && f.finalPatch ==> e.status.last == Some(Persisted(f.now)))
  {
    hide Made, Followers, AllRecorded, Persisted;
    if p.max > 0 {
      hide Fired;
      LimitedIffSpent(p, names, fires, f.now);
      FiredIff(p, AllRecorded(p, Opened(names), fires).status, AllRecorded(p, Opened(names), fires).names, f);
    }
  }

  lemma {:induction false} FiredIff(p: Policy, st: TriggerStatus, names: set<Time>, f: Firing)
    requires p.max > 0
    ensures var e := Fired(p, st, names, f);
      && (e.created <==> !Limited(p, st, f.now) && f.countPatch && Creates(names, f))
      && (e.created && f.finalPatch ==> e.status.result == "Success")
      && (Limited(p, st, f.now) && f.countPatch ==> e.status == st.(result := "RateLimited"))
  {}

  /** A firing is rate limited exactly when it falls inside a stored window in which
      MaxInvocations firings have been counted; when no creation failed, these are as
      many FlowRuns. */
  lemma {:induction false} LimitedIffSpent(p: Policy, names: set<Time>, fires: seq<Firing>, now: Time)
    requires p.max > 0 && InOrder(fires)
    ensures var book := AllRecorded(p, Opened(names), fires);
      var w := |book.opens| - 1;
      && (Limited(p, book.status, now) <==>
            book.opens != [] && now < Persisted(book.opens[w]) + p.window && Made(book.tries, w) == p.max)
      && (AllCreate(p, Opened(names), fires) ==> book.log == book.tries)
  {
    hide Made, Followers, AllRecorded, AllCreate;
    var end := FullBook(p, names, fires);
    var start := if fires == [] then 0 else fires[0].now;
    EmptyBookOk(p, names, start);
    AllRecordedExact(p, Opened(names), fires, start);
    if AllCreate(p, Opened(names), fires) { TriesAreRuns(p, Opened(names), fires); }
  }
}
