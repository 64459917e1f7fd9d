/** Count-based garbage collection of finished FlowRuns. */
module Gc {
  import opened Common
  import opened Flows
  import opened Engine
  import Cluster

  datatype Item = Item(id: nat, status: RunPhase, retained: bool, completion: Option<Time>)

  /** Older first, as the comparator is written. */
  predicate Less(a: Item, b: Item) {
    if a.completion.None? then true
    else if b.completion.None? then false
    else a.completion.value < b.completion.value
  }

  predicate AllCompleted(items: seq<Item>) {
    forall i | 0 <= i < |items| :: items[i].completion.Some?
  }

  predicate Sorted(items: seq<Item>) {
    forall i, j | 0 <= i < j < |items| :: !Less(items[j], items[i])
  }

  /** The order laws sort.Slice asks of its comparator, on the items it is given. */
  predicate StrictWeakOrder(items: seq<Item>) {
    && (forall a | a in items :: !Less(a, a))
    && (forall a, b, c | a in items && b in items && c in items :: Less(a, b) && Less(b, c) ==> Less(a, c))
    && (forall a, b, c | a in items && b in items && c in items ::
          !Less(a, b) && !Less(b, a) && !Less(b, c) && !Less(c, b) ==> !Less(a, c) && !Less(c, a))
  }

  /** The comparator is a strict weak order exactly on lists whose items all carry a
      completion time. */
  lemma {:induction false} ComparatorIffCompleted(items: seq<Item>)
    ensures StrictWeakOrder(items) <==> AllCompleted(items)
  {
    if StrictWeakOrder(items) {
      forall i | 0 <= i < |items| ensures items[i].completion.Some? {
        assert items[i] in items;
        assert !Less(items[i], items[i]);
      }
    }
    if AllCompleted(items) {
      forall a | a in items ensures a.completion.Some? {
        var i :| 0 <= i < |items| && items[i] == a;
      }
    }
  }

  /** The items counted against the cap: of that phase and not retained. */
  function Matching(items: seq<Item>, phase: RunPhase): seq<Item> {
    if items == [] then []
    else
      var rest := Matching(items[..|items| - 1], phase);
      var last := items[|items| - 1];
      if last.status == phase && !last.retained then rest + [last] else rest
  }

  lemma {:induction false} MatchingOnly(items: seq<Item>, phase: RunPhase)
    ensures forall m | m in Matching(items, phase) :: m.status == phase && !m.retained && m in items
    ensures forall m | m in items && m.status == phase && !m.retained :: m in Matching(items, phase)
  {
    if items != [] {
      var front, last := items[..|items| - 1], items[|items| - 1];
      MatchingOnly(front, phase);
      assert items == front + [last];
    }
  }

  predicate InOrder(items: seq<Item>) {
    forall i, j | 0 <= i < j < |items| ::
      items[i].completion.Some? && items[j].completion.Some? && items[i].completion.value <= items[j].completion.value
  }

  lemma {:induction false} SortedInOrder(items: seq<Item>)
    requires AllCompleted(items)
    ensures Sorted(items) <==> InOrder(items)
  {
    if Sorted(items) {
      forall i, j | 0 <= i < j < |items| ensures items[i].completion.value <= items[j].completion.value {
        assert !Less(items[j], items[i]);
      }
    }
  }

  function InsertedAt(items: seq<Item>, k: nat, x: Item): seq<Item>
    requires k <= |items|
  {
    items[..k] + [x] + items[k..]
  }

  lemma {:induction false} InsertedInOrder(items: seq<Item>, k: nat, x: Item)
    requires k <= |items| && AllCompleted(items) && x.completion.Some? && InOrder(items)
    requires forall j | k <= j < |items| :: x.completion.value < items[j].completion.value
    requires forall j | 0 <= j < k :: items[j].completion.value <= x.completion.value
    ensures AllCompleted(InsertedAt(items, k, x)) && InOrder(InsertedAt(items, k, x))
  {
    var r := InsertedAt(items, k, x);
    forall i | 0 <= i < |r| ensures r[i] == if i < k then items[i] else if i == k then x else items[i - 1] {}
  }

  /** Inserts after the last item that is not younger. */
  method Insert(items: seq<Item>, x: Item) returns (r: seq<Item>)
    ensures multiset(r) == multiset(items) + multiset{x}
    ensures AllCompleted(items) && x.completion.Some? && Sorted(items) ==> AllCompleted(r) && Sorted(r)
  {
    var k := |items|;
    while k > 0 && Less(x, items[k - 1])
      invariant 0 <= k <= |items|
      invariant forall j | k <= j < |items| :: Less(x, items[j])
    {
      k := k - 1;
    }
    r := InsertedAt(items, k, x);
    assert items == items[..k] + items[k..];
    if AllCompleted(items) && x.completion.Some? && Sorted(items) {
      SortedInOrder(items);
      InsertedInOrder(items, k, x);
      SortedInOrder(r);
    }
  }

  /** Stands for sort.Slice: a permutation, ordered if the comparator is an order. */
  method SortByCompletion(items: seq<Item>) returns (r: seq<Item>)
    ensures multiset(r) == multiset(items) && |r| == |items|
    ensures AllCompleted(items) ==> Sorted(r) && AllCompleted(r)
  {
    r := [];
    for i := 0 to |items|
      invariant multiset(r) == multiset(items[..i])
      invariant AllCompleted(items) ==> Sorted(r) && AllCompleted(r)
    {
      assert items[..i + 1] == items[..i] + [items[i]];
      r := Insert(r, items[i]);
    }
    assert items[..|items|] == items;
    assert |multiset(r)| == |r| && |multiset(items)| == |items|;
  }

  predicate NoLaterThan(deleted: seq<Item>, kept: seq<Item>) {
    forall i, j | 0 <= i < |deleted| && 0 <= j < |kept| ::
      && deleted[i].completion.Some? && kept[j].completion.Some?
      && deleted[i].completion.value <= kept[j].completion.value
  }

  lemma {:induction false} NothingDeleted(kept: seq<Item>)
    ensures NoLaterThan([], kept)
  {}

  lemma {:induction false} SplitOf(sorted: seq<Item>, k: nat, matching: seq<Item>)
    requires k <= |sorted| && multiset(sorted) == multiset(matching)
    requires AllCompleted(matching) ==> Sorted(sorted) && AllCompleted(sorted)
    ensures multiset(sorted[..k]) + multiset(sorted[k..]) == multiset(matching)
    ensures forall d | d in sorted[..k] :: d in matching
    ensures AllCompleted(matching) ==> NoLaterThan(sorted[..k], sorted[k..])
  {
    assert sorted == sorted[..k] + sorted[k..];
    forall d | d in sorted[..k] ensures d in matching {
      assert d in sorted;
      assert d in multiset(sorted);
    }
    if AllCompleted(matching) {
      forall i, j | 0 <= i < k && 0 <= j < |sorted| - k
        ensures sorted[..k][i].completion.value <= sorted[k..][j].completion.value
      {
        assert !Less(sorted[k + j], sorted[i]);
      }
    }
  }

  method Candidates(items: seq<Item>, phase: RunPhase) returns (matching: seq<Item>)
    ensures matching == Matching(items, phase)
  {
    matching := [];
    for i := 0 to |items|
      invariant matching == Matching(items[..i], phase)
    {
      assert items[..i + 1][..i] == items[..i];
      if items[i].status == phase && !items[i].retained { matching := matching + [items[i]]; }
    }
    assert items[..|items|] == items;
  }

  // ---- Items taken from runs ----

  /** A version some run of some Flow has stored. */
  ghost predicate Stored(flow: Flow, c: Cluster.State, events: seq<Cluster.Event>, v: nat, status: RunStatus) {
    && UniqueNames(flow) && Cluster.Initial(c)
    && v < |Cluster.Run(flow, c, events).history|
    && Cluster.Run(flow, c, events).history[v].status == status
  }

  ghost predicate Reached(item: Item) {
    exists flow: Flow, c: Cluster.State, events: seq<Cluster.Event>, v: nat, status: RunStatus ::
      Stored(flow, c, events, v, status) && item.status == status.phase && item.completion == status.completionTime
  }

  ghost predicate AllReached(items: seq<Item>) {
    forall i | 0 <= i < |items| :: Reached(items[i])
  }

  lemma {:induction false} ReachedCompleted(item: Item)
    requires Reached(item) && Terminal(item.status)
    ensures item.completion.Some?
  {
    hide Cluster.Run;
    var flow: Flow, c: Cluster.State, events: seq<Cluster.Event>, v: nat, status: RunStatus :|
      Stored(flow, c, events, v, status) && item.status == status.phase && item.completion == status.completionTime;
    Cluster.HistorySafe(flow, c, events, v, v, "");
  }

  /** Finished runs carry completion times, so on them the comparator is an order. */
  lemma {:induction false} FinishedAreOrdered(items: seq<Item>, phase: RunPhase)
    requires AllReached(items) && Terminal(phase)
    ensures AllCompleted(Matching(items, phase)) && StrictWeakOrder(Matching(items, phase))
  {
    hide Matching, Reached;
    MatchingOnly(items, phase);
    var matching := Matching(items, phase);
    forall i | 0 <= i < |matching| ensures matching[i].completion.Some? {
      assert matching[i] in matching;
      var j :| 0 <= j < |items| && items[j] == matching[i];
      ReachedCompleted(items[j]);
    }
    ComparatorIffCompleted(matching);
  }

  /** Deletes the oldest items beyond the cap, stopping at a delete that fails. */
  method DeleteOldest(matching: seq<Item>, max: nat, deletes: Item -> bool)
    returns (deleted: seq<Item>, ghost kept: seq<Item>, ok: bool)
    requires |matching| > max
    ensures multiset(deleted) + multiset(kept) == multiset(matching)
    ensures forall d | d in deleted :: d in matching && deletes(d)
    ensures AllCompleted(matching) ==> NoLaterThan(deleted, kept)
    ensures ok ==> |kept| == max
    ensures |kept| >= max
    ensures !ok ==> exists d | d in kept :: !deletes(d)
  {
    hide Sorted, AllCompleted, NoLaterThan;
    var sorted := SortByCompletion(matching);
    deleted, kept, ok := [], sorted, true;
    var toDelete := |matching| - max;
    for i := 0 to toDelete
      invariant deleted == sorted[..i] && kept == sorted[i..]
      invariant forall d | d in deleted :: deletes(d)
    {
      assert sorted[i..][0] == sorted[i];
      if !deletes(sorted[i]) {
        ok := false;
        assert sorted[i] in kept;
        SplitOf(sorted, i, matching);
        return;
      }
      deleted, kept := deleted + [sorted[i]], sorted[i + 1..];
    }
    SplitOf(sorted, toDelete, matching);
  }

  /** Retained items and other phases are never touched; what is deleted completed no
      later than what is kept; with no failing delete exactly the excess goes. */
  method EnforceMax(items: seq<Item>, phase: RunPhase, max: nat, deletes: Item -> bool)
    returns (deleted: seq<Item>, ghost kept: seq<Item>, ok: bool)
    ensures multiset(deleted) + multiset(kept) == multiset(Matching(items, phase))
    ensures forall d | d in deleted :: d in items && d.status == phase && !d.retained && deletes(d)
    ensures AllReached(items) && Terminal(phase) ==> NoLaterThan(deleted, kept)
    ensures AllCompleted(Matching(items, phase)) ==> NoLaterThan(deleted, kept)
    ensures ok ==> |kept| == if |Matching(items, phase)| <= max then |Matching(items, phase)| else max
    ensures |deleted| == 0 || |kept| >= max
    ensures !ok ==> exists d | d in kept :: !deletes(d)
  {
    hide AllReached, NoLaterThan, AllCompleted, StrictWeakOrder;
    var matching := Candidates(items, phase);
    MatchingOnly(items, phase);
    if AllReached(items) && Terminal(phase) { FinishedAreOrdered(items, phase); }
    if |matching| <= max {
      deleted, kept, ok := [], matching, true;
      NothingDeleted(kept);
    } else {
      deleted, kept, ok := DeleteOldest(matching, max, deletes);
    }
  }
}
