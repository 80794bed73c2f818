/** The logical store behind a coordinator: the store users see, with the values
    inline. It is the only store related to the coordinator, and new blobs never change it. */
module Abstraction {
  import opened Wrappers
  import opened ByteStrings
  import opened Keys
  import opened Routing
  import opened Mvcc
  import opened Codec
  import opened Simulation

  function AbsRecord(env: Env, r: Record): Record
  {
    match Resolve(env, r.value)
    case Some(v) => r.(value := v)
    case None => r.(value := [])
  }

  ghost function UserKeys(c: Snapshot): set<Bytes>
  {
    set k | k in c && IsMetaKey(k) :: UserKey(k)
  }

  ghost function AbsSnap(env: Env, c: Snapshot): Snapshot
  {
    map u | u in UserKeys(c) :: if MetaKey(u) in c then AbsRecord(env, c[MetaKey(u)]) else NO_RECORD
  }

  ghost function AbsStore(env: Env, c: Store): Store
  {
    c.(hist := seq(|c.hist|, i requires 0 <= i < |c.hist| => AbsSnap(env, c.hist[i])))
  }

  ghost predicate Resolvable(env: Env, c: Snapshot)
  {
    forall k :: k in c && IsMetaKey(k) ==> Resolve(env, c[k].value).Some?
  }

  lemma AbsSnapRelated(env: Env, c: Snapshot)
    requires Resolvable(env, c)
    ensures RelSnap(env, c, AbsSnap(env, c))
  {
    var l := AbsSnap(env, c);
    forall u | u in l ensures MetaKey(u) in c && RelRecord(env, c[MetaKey(u)], l[u]) {
      var k :| k in c && IsMetaKey(k) && UserKey(k) == u;
      UserKeyRoundTrip(k);
    }
  }

  lemma AbsRelated(env: Env, c: Store)
    requires c.Valid() && forall i :: 0 <= i < |c.hist| ==> Resolvable(env, c.hist[i])
    ensures RelStore(env, c, AbsStore(env, c))
  {
    forall i | 0 <= i < |c.hist| ensures RelSnap(env, c.hist[i], AbsStore(env, c).hist[i]) {
      AbsSnapRelated(env, c.hist[i]);
    }
  }

  lemma RelSnapFunctional(env: Env, c: Snapshot, l: Snapshot, m: Snapshot)
    requires RelSnap(env, c, l) && RelSnap(env, c, m)
    ensures l == m
  {
    forall u ensures u in l <==> u in m {
      RelMember(env, c, l, u);
      RelMember(env, c, m, u);
    }
  }

  lemma RelStoreFunctional(env: Env, c: Store, l: Store, m: Store)
    requires RelStore(env, c, l) && RelStore(env, c, m)
    ensures l == m
  {
    forall i | 0 <= i < |l.hist| ensures l.hist[i] == m.hist[i] {
      RelSnapFunctional(env, c.hist[i], l.hist[i], m.hist[i]);
    }
    assert l.hist == m.hist;
  }

  // ---- Blobs are only ever added ----

  predicate Extends(a: map<Bytes, map<Bytes, Bytes>>, b: map<Bytes, map<Bytes, Bytes>>)
  {
    forall e :: e in a ==> e in b && forall k :: k in a[e] ==> k in b[e] && b[e][k] == a[e][k]
  }

  lemma ResolveStable(env: Env, env': Env, v: Bytes)
    requires env.routes == env'.routes && Extends(env.data, env'.data) && Resolve(env, v).Some?
    ensures Resolve(env', v) == Resolve(env, v)
  {}

  lemma AbsStable(env: Env, env': Env, c: Store)
    requires c.Valid() && env.routes == env'.routes && Extends(env.data, env'.data)
    requires forall i :: 0 <= i < |c.hist| ==> Resolvable(env, c.hist[i])
    ensures AbsStore(env', c) == AbsStore(env, c)
  {
    forall i | 0 <= i < |c.hist| ensures AbsSnap(env', c.hist[i]) == AbsSnap(env, c.hist[i]) {
      AbsSnapStable(env, env', c.hist[i]);
    }
    assert AbsStore(env', c).hist == AbsStore(env, c).hist;
  }

  lemma AbsSnapStable(env: Env, env': Env, c: Snapshot)
    requires env.routes == env'.routes && Extends(env.data, env'.data) && Resolvable(env, c)
    ensures AbsSnap(env', c) == AbsSnap(env, c)
  {
    forall u | u in UserKeys(c) && MetaKey(u) in c
      ensures AbsRecord(env', c[MetaKey(u)]) == AbsRecord(env, c[MetaKey(u)])
    {
      MetaKeyRoundTrip(u);
      ResolveStable(env, env', c[MetaKey(u)].value);
    }
  }

  // ---- Values cannot take part in comparisons or sorting ----

  /** The coordinator alone cannot decide a value comparison: one coordinator
      snapshot can stand for two logical ones that answer it differently. */
  lemma ValueComparisonNeedsBlobs() returns (c: Snapshot, env1: Env, env2: Env, o: Compare)
    ensures o.target == ValueOf && o.key != []
    ensures Resolvable(env1, c) && Resolvable(env2, c) && env1.routes == env2.routes
    ensures CompareHolds(AbsSnap(env1, c), o) && !CompareHolds(AbsSnap(env2, c), o)
  {
    var u: Bytes, e: Bytes := [97], [101];
    var ref := EncodeRef(0, BLOB_PREFIX);
    RefRoundTrip(0, BLOB_PREFIX);
    MetaKeyRoundTrip(u);
    c := map[MetaKey(u) := Record(ref, 2, 2, 1, 0)];
    env1 := Env([Route([], [], e)], map[e := map[BLOB_PREFIX := [1]]]);
    env2 := Env([Route([], [], e)], map[e := map[BLOB_PREFIX := [2]]]);
    o := Compare(u, [], ValueOf, Equal, 0, [1]);
    assert Resolve(env1, ref) == Some([1]) && Resolve(env2, ref) == Some([2]);
    AbsSnapRelated(env1, c);
    AbsSnapRelated(env2, c);
    RelMember(env1, c, AbsSnap(env1, c), u);
    RelMember(env2, c, AbsSnap(env2, c), u);
    assert u in KeysIn(AbsSnap(env1, c), o.key, o.end);
    assert u in KeysIn(AbsSnap(env2, c), o.key, o.end);
  }

  // ---- Watch events and leases ----

  /** What the watch stream does to one event. */
  function DecodeEvent(env: Env, e: Event): Result<Event, Status>
  {
    match DecodeKV(env, e.kv, e.delete)
    case Err(s) => Err(s)
    case Ok(kv) =>
      match e.prev
      case None => Ok(e.(kv := kv))
      case Some(p) =>
        match DecodeKV(env, p, false)
        case Err(s) => Err(s)
        case Ok(q) => Ok(e.(kv := kv, prev := Some(q)))
  }

  /** The coordinator's event for a metadata key decodes to the logical store's
      event for the user key, at the same revision, and neither has one without the other. */
  lemma EventDecodes(env: Env, c: Store, l: Store, r: int, u: Bytes)
    requires RelStore(env, c, l) && 0 < r < |c.hist|
    ensures EventAt(c, r, MetaKey(u)).Some? <==> EventAt(l, r, u).Some?
    ensures EventAt(c, r, MetaKey(u)).Some? ==>
              DecodeEvent(env, EventAt(c, r, MetaKey(u)).value) == Ok(EventAt(l, r, u).value)
  {
    RelMember(env, c.hist[r], l.hist[r], u);
    RelMember(env, c.hist[r - 1], l.hist[r - 1], u);
    MetaKeyRoundTrip(u);
    if u in l.hist[r] { RelKvDecodes(env, false, ToKv(MetaKey(u), c.hist[r][MetaKey(u)]), ToKv(u, l.hist[r][u])); }
    if u in l.hist[r - 1] {
      RelKvDecodes(env, false, ToKv(MetaKey(u), c.hist[r - 1][MetaKey(u)]), ToKv(u, l.hist[r - 1][u]));
    }
  }

  /** The keys a lease holds at the coordinator are the prefixed keys it holds logically. */
  lemma RelAttached(env: Env, c: Snapshot, l: Snapshot, id: int)
    requires RelSnap(env, c, l) && forall k :: k in Attached(c, id) ==> IsMetaKey(k)
    ensures forall u :: u in Attached(l, id) <==> MetaKey(u) in Attached(c, id)
    ensures forall k :: k in Attached(c, id) ==> IsMetaKey(k) && UserKey(k) in Attached(l, id)
    ensures Attached(c, id) == {} <==> Attached(l, id) == {}
  {
    var cs, ls := Attached(c, id), Attached(l, id);
    forall u ensures u in ls <==> MetaKey(u) in cs {
      RelMember(env, c, l, u);
    }
    forall k | k in cs ensures UserKey(k) in ls {
      UserKeyRoundTrip(k);
    }
  }

  lemma RelDetach(env: Env, c: Snapshot, l: Snapshot, id: int)
    requires RelSnap(env, c, l) && forall k :: k in Attached(c, id) ==> IsMetaKey(k)
    ensures RelSnap(env, c - Attached(c, id), l - Attached(l, id))
  {
    RelAttached(env, c, l, id);
    var c', l' := c - Attached(c, id), l - Attached(l, id);
    forall v | v in l' ensures MetaKey(v) in c' && RelRecord(env, c'[MetaKey(v)], l'[v]) {
      assert v in l;
    }
    forall k | k in c' && IsMetaKey(k) ensures UserKey(k) in l' {
      UserKeyRoundTrip(k);
    }
  }

  lemma RelRevoke(env: Env, c: Store, l: Store, id: int)
    requires RelStore(env, c, l)
    requires forall k :: k in Attached(c.Head(), id) ==> IsMetaKey(k)
    ensures RelStore(env, Revoke(c, id), Revoke(l, id))
  {
    if id in c.leases {
      RelAttached(env, c.Head(), l.Head(), id);
      RelDetach(env, c.Head(), l.Head(), id);
      var gc, gl := Attached(c.Head(), id), Attached(l.Head(), id);
      RelPublish(env, c.(leases := c.leases - {id}), l.(leases := l.leases - {id}),
                 Work(c.Head() - gc, gc != {}), Work(l.Head() - gl, gl != {}));
    }
  }
}
