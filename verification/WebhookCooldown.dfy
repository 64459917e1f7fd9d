/** The webhook gateway's sliding-window cooldown: per path, the times of recent
    allowed requests, pruned in place on every call. */
module WebhookCooldown {
  import opened Common

  /** The times after the cutoff, in order. */
  function Kept(ts: seq<Time>, cutoff: Time): seq<Time> {
    if ts == [] then []
    else
      var rest := Kept(ts[..|ts| - 1], cutoff);
      if ts[|ts| - 1] > cutoff then rest + [ts[|ts| - 1]] else rest
  }

  lemma {:induction false} KeptLength(ts: seq<Time>, cutoff: Time)
    ensures |Kept(ts, cutoff)| <= |ts|
  {
    if ts != [] { KeptLength(ts[..|ts| - 1], cutoff); }
  }

  lemma {:induction false} KeptAppend(ts: seq<Time>, t: Time, cutoff: Time)
    ensures Kept(ts + [t], cutoff) == if t > cutoff then Kept(ts, cutoff) + [t] else Kept(ts, cutoff)
  {
    assert (ts + [t])[..|ts|] == ts;
  }

  /** Pruning twice, to a later cutoff, is pruning once. */
  lemma {:induction false} KeptAgain(ts: seq<Time>, early: Time, late: Time)
    requires early <= late
    ensures Kept(Kept(ts, early), late) == Kept(ts, late)
  {
    if ts != [] {
      var front, t := ts[..|ts| - 1], ts[|ts| - 1];
      KeptAgain(front, early, late);
      if t > early { KeptAppend(Kept(front, early), t, late); }
    }
  }

  function Stored(m: map<string, seq<Time>>, path: string): seq<Time> {
    if path in m then m[path] else []
  }

  class Tracker {
    var invocations: map<string, seq<Time>>

    constructor ()
      ensures invocations == map[]
    {
      invocations := map[];
    }

    /** Filters the slice onto its own front while reading it, then decides. */
    method Allow(path: string, maxInvocations: int, window: int, now: Time) returns (ok: bool)
      modifies this
      ensures maxInvocations <= 0 ==> ok && invocations == old(invocations)
      ensures maxInvocations > 0 ==>
        var pruned := Kept(Stored(old(invocations), path), now - window);
        && ok == (|pruned| < maxInvocations)
        && invocations == old(invocations)[path := if ok then pruned + [now] else pruned]
    {
      if maxInvocations <= 0 { return true; }
      var cutoff := now - window;
      ghost var before := Stored(invocations, path);
      var timestamps := if path in invocations then invocations[path] else [];
      var n, kept := |timestamps|, 0;
      for r := 0 to n
        invariant |timestamps| == |before| == n && 0 <= kept <= r
        invariant timestamps[..kept] == Kept(before[..r], cutoff)
        invariant timestamps[r..] == before[r..]
      {
        var ts := timestamps[r];
        assert ts == timestamps[r..][0] == before[r..][0] == before[r];
        assert before[..r + 1][..r] == before[..r];
        ghost var was := timestamps;
        if ts > cutoff {
          timestamps := timestamps[kept := ts];
          kept := kept + 1;
          assert timestamps[..kept] == was[..kept - 1] + [ts];
        }
        assert timestamps[r + 1..] == was[r..][1..] == before[r..][1..] == before[r + 1..];
      }
      assert before[..|before|] == before;
      var pruned := timestamps[..kept];
      if |pruned| >= maxInvocations {
        invocations := invocations[path := pruned];
        return false;
      }
      invocations := invocations[path := pruned + [now]];
      return true;
    }
  }

  // ---- The full history as reference ----

  datatype Request = Request(path: string, now: Time)

  /** Budget and window are fixed per path. */
  datatype Policy = Policy(max: string -> int, window: string -> int)

  /** Times in the half-open interval (from, to]. */
  function CountIn(ts: seq<Time>, from: Time, to: Time): nat {
    if ts == [] then 0
    else CountIn(ts[..|ts| - 1], from, to) + (if from < ts[|ts| - 1] <= to then 1 else 0)
  }

  /** The reference decision: fewer than the budget allowed in the last window. */
  predicate Admits(p: Policy, log: seq<Time>, r: Request) {
    p.max(r.path) <= 0 || CountIn(log, r.now - p.window(r.path), r.now) < p.max(r.path)
  }

  /** Every time at which a request to the path has been allowed, never pruned. */
  function AllowedLog(p: Policy, requests: seq<Request>, path: string): seq<Time> {
    if requests == [] then []
    else
      var front, last := requests[..|requests| - 1], requests[|requests| - 1];
      var log := AllowedLog(p, front, path);
      if last.path == path && Admits(p, log, last) then log + [last.now] else log
  }

  predicate Ordered(requests: seq<Request>) {
    forall i, j | 0 <= i <= j < |requests| :: requests[i].now <= requests[j].now
  }

  predicate AtMost(ts: seq<Time>, to: Time) {
    forall i | 0 <= i < |ts| :: ts[i] <= to
  }

  lemma {:induction false} CountIsKept(ts: seq<Time>, from: Time, to: Time)
    requires AtMost(ts, to)
    ensures CountIn(ts, from, to) == |Kept(ts, from)|
  {
    if ts != [] { CountIsKept(ts[..|ts| - 1], from, to); }
  }

  predicate Before(requests: seq<Request>, now: Time) {
    forall i | 0 <= i < |requests| :: requests[i].now <= now
  }

  lemma {:induction false} LogInPast(p: Policy, requests: seq<Request>, path: string, now: Time)
    requires Before(requests, now)
    ensures AtMost(AllowedLog(p, requests, path), now)
  {
    if requests != [] { LogInPast(p, requests[..|requests| - 1], path, now); }
  }

  /** From now on the stored slice is as good as the full log. */
  ghost predicate Represents(p: Policy, stored: seq<Time>, log: seq<Time>, path: string, now: Time) {
    forall cutoff: Time | cutoff >= now - p.window(path) :: Kept(stored, cutoff) == Kept(log, cutoff)
  }

  lemma {:induction false} PrunedRepresents(p: Policy, stored: seq<Time>, log: seq<Time>, path: string, now: Time,
                                            ok: bool)
    requires Represents(p, stored, log, path, now)
    ensures var pruned := Kept(stored, now - p.window(path));
      Represents(p, if ok then pruned + [now] else pruned, if ok then log + [now] else log, path, now)
  {
    var late := now - p.window(path);
    var pruned := Kept(stored, late);
    var stored' := if ok then pruned + [now] else pruned;
    var log' := if ok then log + [now] else log;
    forall cutoff: Time | cutoff >= late ensures Kept(stored', cutoff) == Kept(log', cutoff) {
      KeptAgain(stored, late, cutoff);
      KeptAppend(pruned, now, cutoff);
      KeptAppend(log, now, cutoff);
    }
  }

  /** The decision on the pruned slice is the decision on the full log. */
  lemma {:induction false} DecisionAgrees(p: Policy, stored: seq<Time>, requests: seq<Request>, r: Request)
    requires Represents(p, stored, AllowedLog(p, requests, r.path), r.path, r.now)
    requires Before(requests, r.now)
    ensures |Kept(stored, r.now - p.window(r.path))| < p.max(r.path) <==>
      CountIn(AllowedLog(p, requests, r.path), r.now - p.window(r.path), r.now) < p.max(r.path)
  {
    LogInPast(p, requests, r.path, r.now);
    CountIsKept(AllowedLog(p, requests, r.path), r.now - p.window(r.path), r.now);
  }

  lemma {:induction false} CountAppend(ts: seq<Time>, t: Time, from: Time, to: Time)
    ensures CountIn(ts + [t], from, to) == CountIn(ts, from, to) + (if from < t <= to then 1 else 0)
  {
    assert (ts + [t])[..|ts|] == ts;
  }

  lemma {:induction false} CountNarrows(ts: seq<Time>, from: Time, to: Time, from': Time, to': Time)
    requires from <= from' && AtMost(ts, to)
    ensures CountIn(ts, from', to') <= CountIn(ts, from, to)
  {
    if ts != [] { CountNarrows(ts[..|ts| - 1], from, to, from', to'); }
  }

  /** On every sequence of requests in time order, no half-open window of the path's length
      ever holds more allowed requests than its budget. */
  lemma {:induction false} NeverOverBudget(p: Policy, requests: seq<Request>, path: string, to: Time)
    requires Ordered(requests) && p.max(path) > 0
    ensures CountIn(AllowedLog(p, requests, path), to - p.window(path), to) <= p.max(path)
  {
    if requests != [] {
      var front, last := requests[..|requests| - 1], requests[|requests| - 1];
      var log := AllowedLog(p, front, path);
      NeverOverBudget(p, front, path, to);
      if last.path == path && Admits(p, log, last) && to - p.window(path) < last.now <= to {
        CountAppend(log, last.now, to - p.window(path), to);
        assert Before(front, last.now);
        LogInPast(p, front, path, last.now);
        CountNarrows(log, last.now - p.window(path), last.now, to - p.window(path), to);
      } else if last.path == path && Admits(p, log, last) {
        CountAppend(log, last.now, to - p.window(path), to);
      }
    }
  }

  lemma {:induction false} LogStep(p: Policy, requests: seq<Request>, r: Request, path: string)
    ensures var log := AllowedLog(p, requests, path);
      AllowedLog(p, requests + [r], path) == if r.path == path && Admits(p, log, r) then log + [r.now] else log
  {
    var all := requests + [r];
    assert all[..|all| - 1] == requests;
  }

  ghost predicate AllRepresented(p: Policy, m: map<string, seq<Time>>, requests: seq<Request>, now: Time) {
    forall path: string | p.max(path) > 0 :: Represents(p, Stored(m, path), AllowedLog(p, requests, path), path, now)
  }

  lemma {:induction false} TrackerStep(p: Policy, m: map<string, seq<Time>>, m': map<string, seq<Time>>,
                                       requests: seq<Request>, r: Request, ok: bool)
    requires AllRepresented(p, m, requests, r.now) && Before(requests, r.now)
    requires p.max(r.path) <= 0 ==> ok && m' == m
    requires p.max(r.path) > 0 ==>
      var pruned := Kept(Stored(m, r.path), r.now - p.window(r.path));
      ok == (|pruned| < p.max(r.path)) && m' == m[r.path := if ok then pruned + [r.now] else pruned]
    ensures ok == Admits(p, AllowedLog(p, requests, r.path), r)
    ensures AllRepresented(p, m', requests + [r], r.now)
  {
    hide Kept, AllowedLog, Represents, CountIn;
    if p.max(r.path) > 0 { DecisionAgrees(p, Stored(m, r.path), requests, r); }
    forall path: string | p.max(path) > 0
      ensures Represents(p, Stored(m', path), AllowedLog(p, requests + [r], path), path, r.now)
    {
      LogStep(p, requests, r, path);
      if path == r.path {
        PrunedRepresents(p, Stored(m, path), AllowedLog(p, requests, path), path, r.now, ok);
      }
    }
  }

  lemma {:induction false} LaterRepresented(p: Policy, m: map<string, seq<Time>>, requests: seq<Request>, now: Time,
                                            later: Time)
    requires AllRepresented(p, m, requests, now) && now <= later
    ensures AllRepresented(p, m, requests, later)
  {
    forall path: string | p.max(path) > 0
      ensures Represents(p, Stored(m, path), AllowedLog(p, requests, path), path, later)
    {
      assert Represents(p, Stored(m, path), AllowedLog(p, requests, path), path, now);
    }
  }

  lemma {:induction false} NothingYet(p: Policy, now: Time)
    ensures AllRepresented(p, map[], [], now)
  {}

  /** Refinement: on every sequence of requests in time order, the pruning tracker
      allows exactly those the full history would: fewer than the budget allowed on
      that path in the half-open window ending now. */
  method Serve(p: Policy, requests: seq<Request>) returns (decisions: seq<bool>)
    requires Ordered(requests)
    ensures |decisions| == |requests|
    ensures forall i | 0 <= i < |requests| ::
      decisions[i] == Admits(p, AllowedLog(p, requests[..i], requests[i].path), requests[i])
  {
    hide Kept, AllowedLog, Admits, AllRepresented;
    var tracker := new Tracker();
    NothingYet(p, if requests == [] then 0 else requests[0].now);
    assert requests[..0] == [];
    decisions := [];
    ghost var clock := if requests == [] then 0 else requests[0].now;
    for i := 0 to |requests|
      invariant |decisions| == i
      invariant forall j | 0 <= j < i ::
        decisions[j] == Admits(p, AllowedLog(p, requests[..j], requests[j].path), requests[j])
      invariant i < |requests| ==> clock <= requests[i].now
      invariant AllRepresented(p, tracker.invocations, requests[..i], clock)
    {
      var r := requests[i];
      LaterRepresented(p, tracker.invocations, requests[..i], clock, r.now);
      ghost var before := tracker.invocations;
      var ok := tracker.Allow(r.path, p.max(r.path), p.window(r.path), r.now);
      TrackerStep(p, before, tracker.invocations, requests[..i], r, ok);
      assert requests[..i + 1] == requests[..i] + [r];
      clock := r.now;
      decisions := decisions + [ok];
    }
  }
}
