/** The reverse index from a Secret (or Integration) to the objects that depend
    on it, kept as two nested maps. */
module SecretIndex {

  datatype Key = Key(namespace: string, name: string)

  type Links = map<Key, set<Key>>

  predicate Linked(m: Links, a: Key, b: Key) {
    a in m && b in m[a]
  }

  predicate NoEmptyBuckets(m: Links) {
    forall k | k in m :: m[k] != {}
  }

  /** b is linked to a in one map exactly when a is linked to b in the other. */
  ghost predicate Inverse(m: Links, n: Links) {
    forall a: Key, b: Key :: Linked(m, a, b) <==> Linked(n, b, a)
  }

  function SetOf(keys: seq<Key>): set<Key> {
    set k | k in keys
  }

  /** The dependency map after Update(owner, secrets). */
  function Updated(m: Links, owner: Key, secrets: seq<Key>): Links {
    if secrets == [] then m - {owner} else m[owner := SetOf(secrets)]
  }

  function Unlinked(m: Links, a: Key, b: Key): (r: Links)
    ensures forall x: Key, y: Key :: Linked(r, x, y) <==> Linked(m, x, y) && !(x == a && y == b)
    ensures NoEmptyBuckets(m) ==> NoEmptyBuckets(r)
  {
    if a !in m then m
    else if m[a] - {b} == {} then
      assert forall y | y in m[a] :: y in m[a] - {b} || y == b;
      m - {a}
    else m[a := m[a] - {b}]
  }

  function WithLink(m: Links, a: Key, b: Key): (r: Links)
    ensures forall x: Key, y: Key :: Linked(r, x, y) <==> Linked(m, x, y) || (x == a && y == b)
    ensures NoEmptyBuckets(m) ==> NoEmptyBuckets(r)
  {
    m[a := (if a in m then m[a] else {}) + {b}]
  }

  class Index {
    var bySecret: Links
    var byObject: Links

    ghost predicate Valid()
      reads this
    {
      NoEmptyBuckets(bySecret) && NoEmptyBuckets(byObject) && Inverse(byObject, bySecret)
    }

    constructor ()
      ensures Valid() && byObject == map[]
    {
      bySecret, byObject := map[], map[];
    }

    method Update(owner: Key, secrets: seq<Key>)
      requires Valid()
      modifies this
      ensures Valid()
      ensures byObject == Updated(old(byObject), owner, secrets)
    {
      var todo := if owner in byObject then byObject[owner] else {};
      while todo != {}
        invariant byObject == old(byObject) && NoEmptyBuckets(bySecret)
        invariant owner in byObject ==> todo <= byObject[owner]
        invariant owner !in byObject ==> todo == {}
        invariant forall o: Key, s: Key ::
          Linked(bySecret, s, o) <==> Linked(byObject, o, s) && !(o == owner && s !in todo)
        decreases |todo|
      {
        var s :| s in todo;
        bySecret := Unlinked(bySecret, s, owner);
        todo := todo - {s};
      }
      byObject := byObject - {owner};
      assert Inverse(byObject, bySecret);
      if secrets == [] { return; }

      ghost var rest := byObject;
      var added: set<Key> := {};
      for i := 0 to |secrets|
        invariant byObject == rest && owner !in rest && NoEmptyBuckets(bySecret)
        invariant added == SetOf(secrets[..i])
        invariant forall o: Key, s: Key ::
          Linked(bySecret, s, o) <==> Linked(rest, o, s) || (o == owner && s in added)
      {
        assert SetOf(secrets[..i + 1]) == SetOf(secrets[..i]) + {secrets[i]};
        added := added + {secrets[i]};
        bySecret := WithLink(bySecret, secrets[i], owner);
      }
      assert secrets[..|secrets|] == secrets;
      assert secrets[0] in added;
      byObject := byObject[owner := added];
    }

    method Remove(owner: Key)
      requires Valid()
      modifies this
      ensures Valid()
      ensures byObject == old(byObject) - {owner}
    {
      Update(owner, []);
    }

    /** Each dependent owner once, in no particular order. */
    method ObjectsFor(secret: Key) returns (objects: seq<Key>)
      requires Valid()
      ensures forall o: Key :: o in objects <==> Linked(byObject, o, secret)
      ensures forall i, j | 0 <= i < j < |objects| :: objects[i] != objects[j]
    {
      objects := [];
      var todo := if secret in bySecret then bySecret[secret] else {};
      while todo != {}
        invariant forall o: Key :: o in objects || o in todo <==> Linked(bySecret, secret, o)
        invariant forall o: Key :: !(o in objects && o in todo)
        invariant forall i, j | 0 <= i < j < |objects| :: objects[i] != objects[j]
        decreases |todo|
      {
        var o :| o in todo;
        objects := objects + [o];
        todo := todo - {o};
      }
      assert Inverse(byObject, bySecret);
    }
  }

  // ---- Any sequence of calls ----

  /** Remove is an Update with no secrets. */
  datatype Call = Call(owner: Key, secrets: seq<Key>)

  /** The secrets the owner's latest call listed. */
  function LatestListed(calls: seq<Call>, owner: Key): set<Key> {
    if calls == [] then {}
    else
      var last := calls[|calls| - 1];
      if last.owner == owner then SetOf(last.secrets) else LatestListed(calls[..|calls| - 1], owner)
  }

  function After(calls: seq<Call>): Links {
    if calls == [] then map[]
    else
      var last := calls[|calls| - 1];
      Updated(After(calls[..|calls| - 1]), last.owner, last.secrets)
  }

  lemma {:induction false} AfterIsLatest(calls: seq<Call>, owner: Key, secret: Key)
    ensures Linked(After(calls), owner, secret) <==> secret in LatestListed(calls, owner)
  {
    if calls != [] { AfterIsLatest(calls[..|calls| - 1], owner, secret); }
  }

  /** After any sequence of calls, the objects reported for a secret are exactly
      those whose latest call listed it. */
  method Replay(calls: seq<Call>, secret: Key) returns (objects: seq<Key>)
    ensures forall o: Key :: o in objects <==> secret in LatestListed(calls, o)
    ensures forall i, j | 0 <= i < j < |objects| :: objects[i] != objects[j]
  {
    var index := new Index();
    for i := 0 to |calls|
      invariant index.Valid() && index.byObject == After(calls[..i])
    {
      assert calls[..i + 1][..i] == calls[..i];
      index.Update(calls[i].owner, calls[i].secrets);
    }
    assert calls[..|calls|] == calls;
    objects := index.ObjectsFor(secret);
    forall o: Key ensures Linked(index.byObject, o, secret) <==> secret in LatestListed(calls, o) {
      AfterIsLatest(calls, o, secret);
    }
  }
}
