/** Every step of the protocol keeps its invariant and is, on the logical store,
    one atomic etcd operation or nothing. */
module Refinement {
  import opened Wrappers
  import opened ByteStrings
  import opened Keys
  import opened Routing
  import opened Mvcc
  import opened MvccFacts
  import opened Codec
  import opened Simulation
  import opened Abstraction
  import opened Protocol

  // ---- Consequences of the invariant ----

  lemma HomedResolves(env: Env, u: Bytes, v: Bytes)
    requires Homed(env, u, v)
    ensures Resolve(env, v).Some?
  {}

  lemma SoundResolvable(env: Env, c: Snapshot)
    requires SoundSnap(env, c)
    ensures Resolvable(env, c)
  {
    ConfigKeyIsNotMeta();
    forall k | k in c && IsMetaKey(k) ensures Resolve(env, c[k].value).Some? {
      assert SoundRecord(env, k, c[k]);
      HomedResolves(env, UserKey(k), c[k].value);
    }
  }

  lemma SoundRelated(env: Env, c: Store)
    requires SoundStore(env, c)
    ensures RelStore(env, c, AbsStore(env, c))
  {
    forall i | 0 <= i < |c.hist| ensures Resolvable(env, c.hist[i]) {
      SoundResolvable(env, c.hist[i]);
    }
    AbsRelated(env, c);
  }

  /** Related to the same coordinator, hence the abstraction itself. */
  lemma RelatedIsAbs(env: Env, c: Store, l: Store)
    requires SoundStore(env, c) && RelStore(env, c, l)
    ensures l == AbsStore(env, c)
  {
    SoundRelated(env, c);
    RelStoreFunctional(env, c, l, AbsStore(env, c));
  }

  // ---- New blobs ----

  lemma SoundStable(env: Env, env': Env, c: Store)
    requires env.routes == env'.routes && Extends(env.data, env'.data) && SoundStore(env, c)
    ensures SoundStore(env', c) && AbsStore(env', c) == AbsStore(env, c)
  {
    forall i | 0 <= i < |c.hist| ensures SoundSnap(env', c.hist[i]) && Resolvable(env, c.hist[i]) {
      SoundResolvable(env, c.hist[i]);
      forall k | k in c.hist[i] ensures SoundRecord(env', k, c.hist[i][k]) {
        assert SoundRecord(env, k, c.hist[i][k]);
      }
    }
    AbsStable(env, env', c);
  }

  lemma PartlyDecodedStable(env: Env, env': Env, ko: bool, c: OpResponse, l: OpResponse, n: int)
    requires env.routes == env'.routes && Extends(env.data, env'.data) && PartlyDecoded(env, ko, c, l, n)
    ensures PartlyDecoded(env', ko, c, l, n)
  {
    forall q | 0 <= q < |c.kvs| && q >= n && !ko ensures RelKv(env', ko, c.kvs[q], l.kvs[q]) {
      ResolveStable(env, env', c.kvs[q].value);
    }
  }

  lemma StagedStable(env: Env, env': Env, o: Op, t: Op)
    requires env.routes == env'.routes && Extends(env.data, env'.data) && StagedOp(env, o, t)
    ensures StagedOp(env', o, t)
  {
    if NeedsBlob(o) { ResolveStable(env, env', t.put.value); }
  }

  lemma PendingStable(env: Env, env': Env, p: Pending)
    requires env.routes == env'.routes && Extends(env.data, env'.data) && PendingSound(env, p)
    ensures PendingSound(env', p)
  {
    match p
    case Staging(_, t, done) =>
      forall i | 0 <= i < |done| ensures StagedOp(env', All(t)[i], done[i]) {
        StagedStable(env, env', All(t)[i], done[i]);
      }
    case Decoding(_, _, result, i, j, answer) =>
      if result.Committed? {
        var ops := AnswerBranch(p);
        forall a | 0 <= a < |ops|
          ensures PartlyDecoded(env', KeysOnly(ops[a]), result.responses[a], answer.responses[a],
                                DecodedUpTo(answer.responses[a], a, i, j))
        {
          PartlyDecodedStable(env, env', KeysOnly(ops[a]), result.responses[a], answer.responses[a],
                              DecodedUpTo(answer.responses[a], a, i, j));
        }
      }
  }

  lemma BlobNameInjective(a: Bytes, b: Bytes)
    ensures BLOB_PREFIX + a == BLOB_PREFIX + b ==> a == b
  {
    assert (BLOB_PREFIX + a)[|BLOB_PREFIX|..] == a;
    assert (BLOB_PREFIX + b)[|BLOB_PREFIX|..] == b;
  }

  /** A blob written under a fresh token overwrites nothing. */
  lemma FreshBlobExtends(s: State, endpoint: Bytes, token: Bytes, value: Bytes)
    requires BlobsNamed(s) && token !in s.tokens
    ensures Extends(s.data, StoreBlob(s.data, endpoint, BLOB_PREFIX + token, value))
  {
    if endpoint in s.data && BLOB_PREFIX + token in s.data[endpoint] {
      var t :| t in s.tokens && BLOB_PREFIX + token == BLOB_PREFIX + t;
      BlobNameInjective(token, t);
    }
  }

  lemma BlobsStayNamed(s: State, endpoint: Bytes, token: Bytes, value: Bytes)
    requires BlobsNamed(s)
    ensures BlobsNamed(s.(tokens := s.tokens + {token},
                          data := StoreBlob(s.data, endpoint, BLOB_PREFIX + token, value)))
    ensures BlobsNamed(s.(tokens := s.tokens + {token}))
  {
    var t := s.(tokens := s.tokens + {token}, data := StoreBlob(s.data, endpoint, BLOB_PREFIX + token, value));
    forall e, b | e in t.data && b in t.data[e] ensures exists x :: x in t.tokens && b == BLOB_PREFIX + x {
      if e == endpoint && b == BLOB_PREFIX + token {
        assert token in t.tokens;
      } else {
        assert e in s.data && b in s.data[e];
        var x :| x in s.tokens && b == BLOB_PREFIX + x;
        assert x in t.tokens;
      }
    }
    forall e, b | e in s.data && b in s.data[e] ensures exists x :: x in s.tokens + {token} && b == BLOB_PREFIX + x {
      var x :| x in s.tokens && b == BLOB_PREFIX + x;
      assert x in s.tokens + {token};
    }
  }

  // ---- The coordinator keeps sound records ----

  predicate SameConfig(a: Snapshot, b: Snapshot)
  {
    (CONFIG_KEY in a <==> CONFIG_KEY in b) && (CONFIG_KEY in a ==> a[CONFIG_KEY] == b[CONFIG_KEY])
  }

  lemma SoundApplyOp(env: Env, c: Store, w: Work, o: Op, t: Op)
    requires SoundSnap(env, w.snap) && Translatable(o) && StagedOp(env, o, t)
    requires t.OpPut? && t.put.ignoreValue ==> t.put.key in w.snap
    ensures SoundSnap(env, ApplyOp(c, w, t).0.snap) && SameConfig(w.snap, ApplyOp(c, w, t).0.snap)
  {
    ConfigKeyIsNotMeta();
    match o
    case OpRange(_) =>
    case OpPut(p) =>
      MetaKeyRoundTrip(p.key);
      var r := PutRecord(c, w, t.put);
      assert MetaKey(p.key) in w.snap ==> SoundRecord(env, MetaKey(p.key), w.snap[MetaKey(p.key)]);
      assert SoundRecord(env, MetaKey(p.key), r);
    case OpDelete(d) =>
      ConfigKeyUnreachable(d.key, d.end);
  }

  lemma {:induction false} SoundApplyOps(env: Env, c: Store, w: Work, o: seq<Op>, t: seq<Op>)
    requires SoundSnap(env, w.snap) && |o| == |t|
    requires forall i :: 0 <= i < |o| ==> Translatable(o[i]) && StagedOp(env, o[i], t[i])
    requires !HasDuplicates(t) && KeptValuesPresent(w.snap, t)
    ensures SoundSnap(env, ApplyOps(c, w, t).0.snap) && SameConfig(w.snap, ApplyOps(c, w, t).0.snap)
    decreases o
  {
    if o != [] {
      SoundApplyOp(env, c, w, o[0], t[0]);
      RestValuesPresent(c, w, t);
      SoundApplyOps(env, c, ApplyOp(c, w, t[0]).0, o[1..], t[1..]);
    }
  }

  ghost predicate StagedTxn(env: Env, o: Txn, t: Txn)
  {
    && TranslatedTxn(env, o, t)
    && (forall i :: 0 <= i < |o.success| ==> StagedOp(env, o.success[i], t.success[i]))
    && (forall i :: 0 <= i < |o.failure| ==> StagedOp(env, o.failure[i], t.failure[i]))
  }

  lemma SoundExecute(env: Env, c: Store, o: Txn, t: Txn)
    requires SoundStore(env, c) && StagedTxn(env, o, t)
    ensures SoundStore(env, Execute(c, t).0) && SameConfig(c.Head(), Execute(c, t).0.Head())
  {
    var oc := Branch(c, t);
    var ol := if ComparesHold(c.Head(), t.compares) then o.success else o.failure;
    if !HasDuplicates(t.success) && !HasDuplicates(t.failure) && CheckOps(c, oc).None? {
      CheckedValuesPresent(c, oc);
      SoundApplyOps(env, c, Work(c.Head(), false), ol, oc);
    }
  }

  /** An accepted request, fully staged, is a translation of itself. */
  lemma AssembledIsStaged(env: Env, t: Txn, done: seq<Op>)
    requires AcceptedTxn(env.routes, t) && |done| == |All(t)|
    requires forall i :: 0 <= i < |done| ==> StagedOp(env, All(t)[i], done[i])
    ensures StagedTxn(env, t, Assembled(t, done))
  {
    var q := Assembled(t, done);
    forall i | 0 <= i < |t.success| ensures Translatable(t.success[i]) && StagedOp(env, t.success[i], q.success[i]) {
      assert All(t)[i] == t.success[i];
      assert AcceptedOp(All(t)[i]);
    }
    forall i | 0 <= i < |t.failure| ensures Translatable(t.failure[i]) && StagedOp(env, t.failure[i], q.failure[i]) {
      assert All(t)[|t.success| + i] == t.failure[i];
      assert AcceptedOp(All(t)[|t.success| + i]);
    }
  }

  // ---- The logical effect of each step ----

  /** A revision at which no user key changes: the routing record is written. */
  function Reserve(l: Store): Store
    requires l.Valid()
  {
    l.(hist := l.hist + [l.Head()])
  }

  /** An operation on the logical store, as its users see it. */
  datatype Operation =
    | Nothing | ReserveRevision | Run(txn: Txn) | GrantOp(lease: int) | RevokeOp(lease: int) | CompactOp(revision: int)

  ghost function Perform(l: Store, o: Operation): Store
    requires l.Valid()
  {
    match o
    case Nothing => l
    case ReserveRevision => Reserve(l)
    case Run(t) => Execute(l, t).0
    case GrantOp(i) => Grant(l, i)
    case RevokeOp(i) => Revoke(l, i)
    case CompactOp(r) => Compact(l, r)
  }

  /** What a step is to the users: a mutation takes effect exactly at its
      coordinator commit, and translating, staging, decoding, delivering, failing
      and crashing are nothing. */
  function Observed(s: State, a: Label): Operation
    requires a.Commit? ==> a.id in s.pending
  {
    match a
    case Build(_, _, _) => if s.adopted.None? then ReserveRevision else Nothing
    case Commit(id, _) => Run(s.pending[id].txn)
    case GrantLease(i) => GrantOp(i)
    case EndLease(i) => RevokeOp(i)
    case CompactTo(r) => CompactOp(r)
    case _ => Nothing
  }

  ghost function Effect(s: State, a: Label): Store
    requires Enabled(s, a) && s.coord.Valid()
  {
    Perform(ValidLogical(s), Observed(s, a))
  }

  /** A transaction whose branch is one unobjectionable operation. */
  lemma ExecuteSingle(c: Store, t: Txn, op: Op)
    requires c.Valid() && !HasDuplicates(t.success) && !HasDuplicates(t.failure) && Branch(c, t) == [op]
    requires PutError(c, op).None? && RangeError(c, op).None?
    ensures var (w, r) := ApplyOp(c, Work(c.Head(), false), op);
            Execute(c, t) == (Publish(c, w), Committed(ComparesHold(c.Head(), t.compares),
                                                       c.Rev() + (if w.dirty then 1 else 0), [r]))
  {
    SingleUnchecked(c, op);
    SingleApplied(c, Work(c.Head(), false), op);
  }

  lemma SingleUnchecked(c: Store, op: Op)
    requires c.Valid() && PutError(c, op).None? && RangeError(c, op).None?
    ensures CheckOps(c, [op]).None?
  {
    var ops := [op];
    assert ops[1..] == [];
    assert FirstPutError(c, ops[1..]).None? && FirstRangeError(c, ops[1..]).None?;
  }

  lemma SingleApplied(c: Store, w: Work, op: Op)
    ensures ApplyOps(c, w, [op]).0 == ApplyOp(c, w, op).0 && ApplyOps(c, w, [op]).1 == [ApplyOp(c, w, op).1]
  {
    var ops := [op];
    assert ops[0] == op && ops[1..] == [];
    assert ApplyOps(c, ApplyOp(c, w, op).0, ops[1..]).1 == [];
  }

  lemma ConfigCompare(m: Snapshot, fp: Bytes)
    requires CONFIG_KEY in m ==> m[CONFIG_KEY].version > 0
    ensures ComparesHold(m, ConfigTxn(fp).compares) <==> CONFIG_KEY !in m
  {
    var t := ConfigTxn(fp);
    var ks := KeysIn(m, CONFIG_KEY, []);
    assert ks == if CONFIG_KEY in m then {CONFIG_KEY} else {};
    assert CompareHolds(m, t.compares[0]) <==> CONFIG_KEY !in m;
  }

  /** What the constructor's transaction does. */
  lemma ConfigOutcome(c: Store, fp: Bytes)
    requires c.Valid() && (CONFIG_KEY in c.Head() ==> c.Head()[CONFIG_KEY].version > 0)
    ensures var (c', r) := Execute(c, ConfigTxn(fp));
            && r.Committed?
            && (if CONFIG_KEY !in c.Head() then
                  && r.succeeded
                  && c' == c.(hist := c.hist + [c.Head()[CONFIG_KEY := Record(fp, |c.hist|, |c.hist|, 1, 0)]])
                else
                  && !r.succeeded && c' == c && |r.responses| == 1
                  && r.responses[0].kvs == [ToKv(CONFIG_KEY, c.Head()[CONFIG_KEY])])
  {
    var t := ConfigTxn(fp);
    ConfigCompare(c.Head(), fp);
    ExecuteSingle(c, t, Branch(c, t)[0]);
    if CONFIG_KEY in c.Head() { ReadOne(c, t.failure[0].range); }
  }

  /** A read of one present key, with no option set. */
  lemma ReadOne(c: Store, r: RangeRequest)
    requires c.Valid() && r.key in c.Head() && r.end == [] && r.revision == 0 && Plain(r)
    ensures ApplyOp(c, Work(c.Head(), false), OpRange(r)).0 == Work(c.Head(), false)
    ensures ApplyOp(c, Work(c.Head(), false), OpRange(r)).1.kvs == [ToKv(r.key, c.Head()[r.key])]
  {
    SelectOne(c.Head(), r.key);
    PlainPage(r, [ToKv(r.key, c.Head()[r.key])]);
  }

  predicate Plain(r: RangeRequest)
  {
    r.limit == 0 && r.order == NoOrder && r.target == ByKey && !r.keysOnly && !r.countOnly && !Filtered(r)
  }

  lemma PlainPage(r: RangeRequest, kvs: seq<KeyValue>)
    requires Plain(r)
    ensures Page(r, kvs) == (false, kvs)
  {
    PruneNothing(r, kvs);
  }

  lemma SelectOne(m: Snapshot, k: Bytes)
    requires k in m
    ensures Select(m, k, []) == [ToKv(k, m[k])]
  {
    assert KeysIn(m, k, []) == {k};
    AscendingUnique(Sorted(KeysIn(m, k, [])), [k]);
  }

  /** The first build writes the routing record; a later one changes nothing, and
      starts a proxy only with the same routes. */
  lemma BuildIs(s: State, p: int, rs: seq<Route>, lost: bool)
    requires Inv(s) && Enabled(s, Build(p, rs, lost))
    ensures var t := BuildStep(s, p, rs, lost);
            if s.adopted.None? then
              && t == s.(coord := t.coord, proxies := t.proxies, adopted := Some(rs))
              && t.coord == s.coord.(hist := s.coord.hist + [s.coord.Head()[CONFIG_KEY := ConfigRecord(s.coord, rs)]])
              && (t.proxies == s.proxies || t.proxies == s.proxies[p := rs])
            else t == s || (rs == s.adopted.value && t == s.(proxies := s.proxies[p := rs]))
    ensures p in BuildStep(s, p, rs, lost).proxies <==> !lost && (s.adopted.None? || s.adopted.value == rs)
  {
    var c, fp := s.coord, Fingerprint(rs);
    assert CONFIG_KEY in c.Head() ==> SoundRecord(s.View(), CONFIG_KEY, c.Head()[CONFIG_KEY]);
    ConfigOutcome(c, fp);
    if s.adopted.Some? { FingerprintTells(s.adopted.value, rs); }
  }

  function ConfigRecord(c: Store, rs: seq<Route>): Record
  {
    Record(Fingerprint(rs), |c.hist|, |c.hist|, 1, 0)
  }

  lemma BuildRefines(s: State, p: int, rs: seq<Route>, lost: bool)
    requires Inv(s) && Enabled(s, Build(p, rs, lost))
    ensures var t := BuildStep(s, p, rs, lost);
            Inv(t) && t.Logical() == if s.adopted.None? then Reserve(ValidLogical(s)) else s.Logical()
  {
    BuildIs(s, p, rs, lost);
    var t := BuildStep(s, p, rs, lost);
    if s.adopted.None? {
      FirstBuild(s, rs, t.coord);
      NoPendingYet(s);
      FirstBuildInv(s, t, rs);
    } else {
      if rs == s.adopted.value { AddProxy(s, p, rs); }
    }
  }

  lemma AddProxy(s: State, p: int, rs: seq<Route>)
    requires Inv(s) && s.adopted == Some(rs)
    ensures Inv(s.(proxies := s.proxies[p := rs])) && s.(proxies := s.proxies[p := rs]).Logical() == s.Logical()
  {}

  lemma FirstBuildInv(s: State, t: State, rs: seq<Route>)
    requires Inv(s) && s.adopted.None? && s.pending == map[] && Covering(rs)
    requires t == s.(coord := t.coord, proxies := t.proxies, adopted := Some(rs))
    requires forall q :: q in t.proxies ==> t.proxies[q] == rs
    requires SoundStore(t.View(), t.coord) && CONFIG_KEY in t.coord.Head()
    requires t.coord.Head()[CONFIG_KEY].value == Fingerprint(rs)
    ensures Inv(t)
  {}

  lemma NoPendingYet(s: State)
    requires Inv(s) && s.adopted.None?
    ensures s.pending == map[]
  {
    assert forall id :: id in s.pending ==> s.pending[id].proxy in s.proxies;
    assert s.pending.Keys == {};
  }

  lemma FingerprintTells(rs: seq<Route>, qs: seq<Route>)
    ensures Fingerprint(rs) == Fingerprint(qs) ==> rs == qs
  {
    if Fingerprint(rs) == Fingerprint(qs) { FingerprintInjective(rs, qs); }
  }

  /** Before the first build the coordinator holds no metadata, so adopting the
      routes only reserves a revision. */
  lemma FirstBuild(s: State, rs: seq<Route>, c': Store)
    requires Inv(s) && s.adopted.None? && Covering(rs)
    requires c' == s.coord.(hist := s.coord.hist + [s.coord.Head()[CONFIG_KEY := ConfigRecord(s.coord, rs)]])
    ensures SoundStore(Env(rs, s.data), c') && AbsStore(Env(rs, s.data), c') == Reserve(ValidLogical(s))
  {
    ConfigKeyIsNotMeta();
    var env := Env(rs, s.data);
    forall i | 0 <= i < |s.coord.hist|
      ensures forall k :: k in s.coord.hist[i] ==> k == CONFIG_KEY
      ensures SoundSnap(env, s.coord.hist[i])
    {
      forall k | k in s.coord.hist[i] ensures k == CONFIG_KEY && SoundRecord(env, k, s.coord.hist[i][k]) {
        assert SoundRecord(s.View(), k, s.coord.hist[i][k]);
      }
    }
    forall i | 0 <= i < |c'.hist|
      ensures SoundSnap(env, c'.hist[i]) && AbsSnap(env, c'.hist[i]) == map[]
      ensures i < |s.coord.hist| ==> AbsSnap(s.View(), s.coord.hist[i]) == map[]
    {
      assert UserKeys(c'.hist[i]) == {};
    }
    assert AbsStore(env, c').hist == Reserve(ValidLogical(s)).hist;
  }

  /** A coordinator change that keeps records sound and the routing record as it is. */
  lemma SwapCoord(s: State, c: Store)
    requires Inv(s) && SoundStore(s.View(), c) && SameConfig(s.coord.Head(), c.Head())
    ensures Inv(s.(coord := c)) && s.(coord := c).Logical() == AbsStore(s.View(), c)
  {}

  lemma UpdatePending(s: State, id: int, q: Pending)
    requires Inv(s) && q.proxy in s.proxies && PendingSound(s.View(), q)
    ensures Inv(s.(pending := s.pending[id := q])) && s.(pending := s.pending[id := q]).Logical() == s.Logical()
  {}

  lemma ForgetPending(s: State, id: int)
    requires Inv(s)
    ensures Inv(Forget(s, id)) && Forget(s, id).Logical() == s.Logical()
  {}

  lemma StageRefines(s: State, id: int, token: Bytes, fate: Fate)
    requires Inv(s) && Enabled(s, Stage(id, token, fate))
    ensures var t := StageStep(s, id, token, fate); Inv(t) && t.Logical() == s.Logical()
  {
    var p := s.pending[id];
    var rs := s.proxies[p.proxy];
    var op := All(p.txn)[|p.done|];
    var endpoint := rs[Shard(rs, op.put.key)].endpoint;
    var t := s.(tokens := s.tokens + {token},
                data := if fate.NotStored? then s.data
                        else StoreBlob(s.data, endpoint, BLOB_PREFIX + token, op.put.value));
    BlobsStayNamed(s, endpoint, token, op.put.value);
    FreshBlobExtends(s, endpoint, token, op.put.value);
    GrowData(s, t);
    ForgetPending(t, id);
    if fate.Stored? {
      var staged := TranslateOp(op, Reference(rs, op, token));
      StagedReference(t.View(), op, token);
      NextStaged(t.View(), p, staged);
      UpdatePending(t, id, p.(done := p.done + [staged]));
    }
  }

  /** More blobs and more drawn tokens change nothing else. */
  lemma GrowData(s: State, t: State)
    requires Inv(s) && t == s.(tokens := t.tokens, data := t.data) && Extends(s.data, t.data) && BlobsNamed(t)
    ensures Inv(t) && t.Logical() == s.Logical()
  {
    SoundStable(s.View(), t.View(), s.coord);
    forall i | i in t.pending ensures t.pending[i].proxy in t.proxies && PendingSound(t.View(), t.pending[i]) {
      PendingStable(s.View(), t.View(), s.pending[i]);
    }
  }

  lemma StagedReference(env: Env, op: Op, token: Bytes)
    requires Covering(env.routes) && NeedsBlob(op)
    requires var e := env.routes[Shard(env.routes, op.put.key)].endpoint;
             HasBlob(env.data, e, BLOB_PREFIX + token) && env.data[e][BLOB_PREFIX + token] == op.put.value
    ensures StagedOp(env, op, TranslateOp(op, Reference(env.routes, op, token)))
  {
    RefRoundTrip(Shard(env.routes, op.put.key), BLOB_PREFIX + token);
    assert (BLOB_PREFIX + token)[..|BLOB_PREFIX|] == BLOB_PREFIX;
  }

  lemma NextStaged(env: Env, p: Pending, t: Op)
    requires p.Staging? && PendingSound(env, p) && |p.done| < |All(p.txn)|
    requires StagedOp(env, All(p.txn)[|p.done|], t)
    ensures PendingSound(env, p.(done := p.done + [t]))
  {}

  lemma RewriteRefines(s: State, id: int)
    requires Inv(s) && Enabled(s, Rewrite(id))
    ensures var t := Apply(s, Rewrite(id)); Inv(t) && t.Logical() == s.Logical()
  {
    var p := s.pending[id];
    var op := All(p.txn)[|p.done|];
    NextStaged(s.View(), p, TranslateOp(op, []));
    UpdatePending(s, id, p.(done := p.done + [TranslateOp(op, [])]));
  }

  lemma CommitRefines(s: State, id: int, lost: bool)
    requires Inv(s) && Enabled(s, Commit(id, lost))
    ensures var t := CommitStep(s, id, lost);
            Inv(t) && t.Logical() == Execute(ValidLogical(s), s.pending[id].txn).0
  {
    var env, p := s.View(), s.pending[id];
    var l, q := ValidLogical(s), Assembled(p.txn, p.done);
    var c, r := Execute(s.coord, q).0, Execute(s.coord, q).1;
    CommitRelates(s, id, lost);
    SwapCoord(s, c);
    var t := s.(coord := c);
    ForgetPending(t, id);
    var d := Decoding(p.proxy, p.txn, r, 0, 0, Execute(l, p.txn).1);
    ResultTracked(env, d, Branch(l, p.txn));
    UpdatePending(t, id, d);
  }

  lemma CommitRelates(s: State, id: int, lost: bool)
    requires Inv(s) && Enabled(s, Commit(id, lost))
    ensures var p, l := s.pending[id], ValidLogical(s);
            var (c, r) := Execute(s.coord, Assembled(p.txn, p.done));
            && SoundStore(s.View(), c) && SameConfig(s.coord.Head(), c.Head())
            && AbsStore(s.View(), c) == Execute(l, p.txn).0
            && RelResult(s.View(), Branch(l, p.txn), r, Execute(l, p.txn).1)
  {
    var env, p := s.View(), s.pending[id];
    var l, q := ValidLogical(s), Assembled(p.txn, p.done);
    assert PendingSound(env, p);
    AssembledIsStaged(env, p.txn, p.done);
    SoundExecute(env, s.coord, p.txn, q);
    SoundRelated(env, s.coord);
    RelExecute(env, s.coord, l, p.txn, q);
    RelatedIsAbs(env, Execute(s.coord, q).0, Execute(l, p.txn).0);
  }

  lemma ResultTracked(env: Env, p: Pending, ops: seq<Op>)
    requires p.Decoding? && p.i == 0 && p.j == 0 && RelResult(env, ops, p.result, p.answer)
    requires p.result.Committed? ==> ops == AnswerBranch(p)
    ensures PendingSound(env, p)
  {
    if p.result.Committed? {
      forall a | 0 <= a < |ops|
        ensures PartlyDecoded(env, KeysOnly(ops[a]), p.result.responses[a], p.answer.responses[a],
                              DecodedUpTo(p.answer.responses[a], a, p.i, p.j))
      {
        assert RelResponse(env, KeysOnly(ops[a]), p.result.responses[a], p.answer.responses[a]);
      }
    }
  }

  function Advanced(p: Pending): Pending
    requires p.Decoding? && p.result.Committed? && p.answer.Committed?
    requires p.i < |p.result.responses| == |p.answer.responses|
    requires |p.result.responses[p.i].kvs| == |p.answer.responses[p.i].kvs|
  {
    if p.j >= |p.result.responses[p.i].kvs| then p.(i := p.i + 1, j := 0)
    else p.(result := Replaced(p.result, p.i, p.j, p.answer.responses[p.i].kvs[p.j]), j := p.j + 1)
  }

  predicate AtPair(env: Env, p: Pending)
  {
    && p.Decoding? && p.result.Committed? && p.answer.Committed?
    && p.i < |p.result.responses| == |p.answer.responses| == |AnswerBranch(p)|
    && PartlyDecoded(env, KeysOnly(AnswerBranch(p)[p.i]), p.result.responses[p.i], p.answer.responses[p.i], p.j)
  }

  /** An available pair decodes, and to the logical answer's pair. */
  lemma DecodeNextIs(s: State, id: int, available: bool)
    requires Enabled(s, Decode(id, available)) && AtPair(Env(s.proxies[s.pending[id].proxy], s.data), s.pending[id])
    ensures DecodeStep(s, id, available) == s.(pending := s.pending[id := Advanced(s.pending[id])])
         || (!available && DecodeStep(s, id, available) == Forget(s, id))
  {
    var p := s.pending[id];
    var ko := KeysOnly(AnswerBranch(p)[p.i]);
    if p.j < |p.result.responses[p.i].kvs| {
      RelKvDecodes(Env(s.proxies[p.proxy], s.data), ko,
                   p.result.responses[p.i].kvs[p.j], p.answer.responses[p.i].kvs[p.j]);
    }
  }

  lemma DecodeRefines(s: State, id: int, available: bool)
    requires Inv(s) && Enabled(s, Decode(id, available))
    ensures var t := DecodeStep(s, id, available); Inv(t) && t.Logical() == s.Logical()
    ensures available ==> id in DecodeStep(s, id, available).pending
  {
    var p := s.pending[id];
    assert s.View() == Env(s.proxies[p.proxy], s.data);
    TrackedAtPair(s.View(), p);
    DecodeNextIs(s, id, available);
    ForgetPending(s, id);
    CursorAdvances(s.View(), p);
    UpdatePending(s, id, Advanced(p));
  }

  lemma TrackedAtPair(env: Env, p: Pending)
    requires PendingSound(env, p) && p.Decoding? && !FullyDecoded(p)
    ensures AtPair(env, p)
  {
    var ops := AnswerBranch(p);
    assert PartlyDecoded(env, KeysOnly(ops[p.i]), p.result.responses[p.i], p.answer.responses[p.i],
                         DecodedUpTo(p.answer.responses[p.i], p.i, p.i, p.j));
  }

  /** Moving the cursor over one decoded pair, or on to the next response, keeps the
      answer tracked. */
  lemma CursorAdvances(env: Env, p: Pending)
    requires p.Decoding? && PendingSound(env, p) && AtPair(env, p)
    ensures PendingSound(env, Advanced(p))
  {
    var q := Advanced(p);
    var ops := AnswerBranch(p);
    forall a | 0 <= a < |ops|
      ensures PartlyDecoded(env, KeysOnly(ops[a]), q.result.responses[a], q.answer.responses[a],
                            DecodedUpTo(q.answer.responses[a], a, q.i, q.j))
    {
      assert PartlyDecoded(env, KeysOnly(ops[a]), p.result.responses[a], p.answer.responses[a],
                           DecodedUpTo(p.answer.responses[a], a, p.i, p.j));
    }
  }

  /** What is delivered is exactly what the logical store answered at the commit. */
  lemma DeliveredIsAnswer(s: State, id: int)
    requires Inv(s) && Enabled(s, Deliver(id))
    ensures s.pending[id].result == s.pending[id].answer
  {
    var p := s.pending[id];
    if p.result.Committed? {
      var ops, cs, ls := AnswerBranch(p), p.result.responses, p.answer.responses;
      forall a | 0 <= a < |cs| ensures cs[a] == ls[a] {
        assert PartlyDecoded(s.View(), KeysOnly(ops[a]), cs[a], ls[a], DecodedUpTo(ls[a], a, p.i, p.j));
        assert cs[a].kvs == ls[a].kvs;
      }
      assert cs == ls;
    }
  }

  lemma SoundRevoke(env: Env, c: Store, lease: int)
    requires SoundStore(env, c) && lease in c.leases
    ensures SoundStore(env, Revoke(c, lease)) && SameConfig(c.Head(), Revoke(c, lease).Head())
    ensures forall k :: k in Attached(c.Head(), lease) ==> IsMetaKey(k)
  {
    forall k | k in Attached(c.Head(), lease) ensures IsMetaKey(k) && k != CONFIG_KEY {
      assert SoundRecord(env, k, c.Head()[k]);
    }
    assert SoundSnap(env, c.Head() - Attached(c.Head(), lease));
  }

  lemma EndLeaseRefines(s: State, lease: int)
    requires Inv(s)
    ensures var t := s.(coord := Revoke(s.coord, lease)); Inv(t) && t.Logical() == Revoke(ValidLogical(s), lease)
  {
    var c, env, l := s.coord, s.View(), ValidLogical(s);
    if lease in c.leases {
      SoundRevoke(env, c, lease);
      SoundRelated(env, c);
      RelRevoke(env, c, l, lease);
      RelatedIsAbs(env, Revoke(c, lease), Revoke(l, lease));
      SwapCoord(s, Revoke(c, lease));
    }
  }

  lemma GrantRefines(s: State, lease: int)
    requires Inv(s)
    ensures var t := s.(coord := Grant(s.coord, lease)); Inv(t) && t.Logical() == Grant(s.Logical(), lease)
  {
    SwapCoord(s, Grant(s.coord, lease));
  }

  lemma CompactRefines(s: State, r: int)
    requires Inv(s)
    ensures var t := s.(coord := Compact(s.coord, r)); Inv(t) && t.Logical() == Compact(s.Logical(), r)
  {
    SwapCoord(s, Compact(s.coord, r));
  }

  /** The step keeps the invariant and does to the logical store what it should. */
  ghost predicate Simulated(s: State, a: Label)
    requires Inv(s) && Enabled(s, a)
  {
    Inv(Apply(s, a)) && Apply(s, a).Logical() == Effect(s, a)
  }

  lemma CrashRefines(s: State, p: int)
    requires Inv(s) && Enabled(s, Crash(p))
    ensures Simulated(s, Crash(p))
  {}

  /** A crash loses the proxy and its requests in flight, and nothing else: no revision, no
      blob, no other proxy's request. */
  lemma CrashLoses(s: State, p: int)
    requires s.coord.Valid() && Enabled(s, Crash(p))
    ensures var t := Apply(s, Crash(p));
            && t.coord == s.coord && t.data == s.data && t.tokens == s.tokens && t.adopted == s.adopted
            && (forall q :: q in t.proxies <==> q in s.proxies && q != p)
            && (forall id :: id in t.pending <==> id in s.pending && s.pending[id].proxy != p)
            && (forall id :: id in t.pending ==> t.pending[id] == s.pending[id])
  {}

  /** A delivered or abandoned request is gone, and nothing else is. */
  lemma EndForgets(s: State, a: Label)
    requires s.coord.Valid() && (a.Deliver? || a.Abandon?) && Enabled(s, a)
    ensures var t := Apply(s, a);
            && t.coord == s.coord && t.data == s.data && t.proxies == s.proxies
            && (forall id :: id in t.pending <==> id in s.pending && id != a.id)
            && (forall id :: id in t.pending ==> t.pending[id] == s.pending[id])
  {}

  lemma BeginRefines(s: State, a: Label)
    requires Inv(s) && a.Begin? && Enabled(s, a)
    ensures Simulated(s, a)
  {
    UpdatePending(s, a.id, Staging(a.proxy, a.txn, []));
  }

  lemma EndRefines(s: State, a: Label)
    requires Inv(s) && (a.Deliver? || a.Abandon?) && Enabled(s, a)
    ensures Simulated(s, a)
  {
    ForgetPending(s, a.id);
  }

  lemma QuietRefines(s: State, a: Label)
    requires Inv(s) && (a.Rewrite? || a.Stage? || a.Decode?) && Enabled(s, a)
    ensures Simulated(s, a)
  {
    match a
    case Rewrite(id) => RewriteRefines(s, id);
    case Stage(id, token, fate) => StageRefines(s, id, token, fate);
    case Decode(id, available) => DecodeRefines(s, id, available);
  }

  lemma ServiceRefines(s: State, a: Label)
    requires Inv(s) && (a.GrantLease? || a.EndLease? || a.CompactTo?)
    ensures Simulated(s, a)
  {
    match a
    case GrantLease(lease) => GrantRefines(s, lease);
    case EndLease(lease) => EndLeaseRefines(s, lease);
    case CompactTo(r) => CompactRefines(s, r);
  }

  lemma ConstructorRefines(s: State, a: Label)
    requires Inv(s) && a.Build? && Enabled(s, a)
    ensures Simulated(s, a)
  {
    BuildRefines(s, a.proxy, a.routes, a.lost);
  }

  lemma PublishRefines(s: State, a: Label)
    requires Inv(s) && a.Commit? && Enabled(s, a)
    ensures Simulated(s, a)
  {
    CommitRefines(s, a.id, a.lost);
  }

  /** Forward simulation: one step of any proxy, of the coordinator's clients or of
      a fault is one atomic operation of the logical store or leaves it alone. */
  lemma StepRefines(s: State, a: Label)
    requires Inv(s) && Enabled(s, a)
    ensures Inv(Apply(s, a)) && Apply(s, a).Logical() == Effect(s, a)
  {
    assert Simulated(s, a) by { StepSimulated(s, a); }
  }

  lemma StepSimulated(s: State, a: Label)
    requires Inv(s) && Enabled(s, a)
    ensures Simulated(s, a)
  {
    match a
    case Build(_, _, _) => ConstructorRefines(s, a);
    case Begin(_, _, _) => BeginRefines(s, a);
    case Commit(_, _) => PublishRefines(s, a);
    case Deliver(_) => EndRefines(s, a);
    case Abandon(_) => EndRefines(s, a);
    case Crash(p) => CrashRefines(s, p);
    case GrantLease(_) => ServiceRefines(s, a);
    case EndLease(_) => ServiceRefines(s, a);
    case CompactTo(_) => ServiceRefines(s, a);
    case Rewrite(_) => QuietRefines(s, a);
    case Stage(_, _, _) => QuietRefines(s, a);
    case Decode(_, _) => QuietRefines(s, a);
  }

  lemma BuildKeepsPast(s: State, p: int, rs: seq<Route>, lost: bool)
    requires Inv(s) && Enabled(s, Build(p, rs, lost))
    ensures var t := BuildStep(s, p, rs, lost);
            && t.adopted.Some? && t.data == s.data && s.coord.hist <= t.coord.hist
            && (s.adopted.Some? ==> t.adopted == s.adopted && t.coord == s.coord)
  {
    assert CONFIG_KEY in s.coord.Head() ==> SoundRecord(s.View(), CONFIG_KEY, s.coord.Head()[CONFIG_KEY]);
    ConfigOutcome(s.coord, Fingerprint(rs));
  }

  lemma ExecuteExtends(c: Store, t: Txn)
    requires c.Valid()
    ensures c.hist <= Execute(c, t).0.hist
  {}

  lemma CommitKeepsPast(s: State, id: int, lost: bool)
    requires Inv(s) && Enabled(s, Commit(id, lost))
    ensures var p := s.pending[id];
            var c := Execute(s.coord, Assembled(p.txn, p.done)).0;
            s.coord.hist <= c.hist && SameConfig(s.coord.Head(), c.Head())
  {
    var p := s.pending[id];
    ExecuteExtends(s.coord, Assembled(p.txn, p.done));
    assert PendingSound(s.View(), p);
    AssembledIsStaged(s.View(), p.txn, p.done);
    SoundExecute(s.View(), s.coord, p.txn, Assembled(p.txn, p.done));
  }

  ghost predicate KeepsPast(s: State, t: State)
    requires s.coord.Valid() && t.coord.Valid()
  {
    && Extends(s.data, t.data) && s.coord.hist <= t.coord.hist
    && (s.adopted.Some? ==> t.adopted == s.adopted && SameConfig(s.coord.Head(), t.coord.Head()))
  }

  /** Staging draws its token and touches nothing but the data shard: the blob is there
      unless the write did not take effect, also when its reply is lost, and the request
      goes on only with the reply. */
  lemma StageData(s: State, id: int, token: Bytes, fate: Fate)
    requires NextOp(s, id, true) && Covering(s.proxies[s.pending[id].proxy])
    ensures var p := s.pending[id];
            var rs, op := s.proxies[p.proxy], All(p.txn)[|p.done|];
            var t := StageStep(s, id, token, fate);
            var stored := StoreBlob(s.data, rs[Shard(rs, op.put.key)].endpoint, BLOB_PREFIX + token, op.put.value);
            && t.coord == s.coord && t.adopted == s.adopted && t.proxies == s.proxies && t.tokens == s.tokens + {token}
            && t.data == (if fate == NotStored then s.data else stored)
            && (id in t.pending <==> fate == Stored)
  {}

  lemma StageKeepsPast(s: State, id: int, token: Bytes, fate: Fate)
    requires BlobsNamed(s) && Enabled(s, Stage(id, token, fate))
    ensures Extends(s.data, StageStep(s, id, token, fate).data)
  {
    var p := s.pending[id];
    var rs, op := s.proxies[p.proxy], All(p.txn)[|p.done|];
    StageData(s, id, token, fate);
    FreshBlobExtends(s, rs[Shard(rs, op.put.key)].endpoint, token, op.put.value);
  }

  predicate Quiet(a: Label)
  {
    a.Begin? || a.Rewrite? || a.Decode? || a.Deliver? || a.Abandon? || a.Crash? || a.GrantLease? || a.CompactTo?
  }

  /** The step leaves what was there before as it was. */
  ghost predicate Preserves(s: State, a: Label)
    requires Inv(s) && Enabled(s, a)
  {
    Apply(s, a).coord.Valid() ==> KeepsPast(s, Apply(s, a))
  }

  ghost predicate SamePast(s: State, t: State)
  {
    t.data == s.data && t.coord.hist == s.coord.hist && t.adopted == s.adopted
  }

  lemma QuietSamePast(s: State, a: Label)
    requires s.coord.Valid() && Enabled(s, a) && Quiet(a)
    ensures SamePast(s, Apply(s, a))
  {}

  lemma SamePastKept(s: State, t: State)
    requires s.coord.Valid() && t.coord.Valid() && SamePast(s, t)
    ensures KeepsPast(s, t)
  {}

  lemma QuietPreserves(s: State, a: Label)
    requires Inv(s) && Enabled(s, a) && Quiet(a)
    ensures Preserves(s, a)
  {
    QuietSamePast(s, a);
    SamePastKept(s, Apply(s, a));
  }

  lemma ConstructorPreserves(s: State, a: Label)
    requires Inv(s) && a.Build? && Enabled(s, a)
    ensures Preserves(s, a)
  {
    BuildKeepsPast(s, a.proxy, a.routes, a.lost);
  }

  lemma StagePreserves(s: State, a: Label)
    requires Inv(s) && a.Stage? && Enabled(s, a)
    ensures Preserves(s, a)
  {
    StageData(s, a.id, a.token, a.fate);
    StageKeepsPast(s, a.id, a.token, a.fate);
  }

  lemma CommitPreserves(s: State, a: Label)
    requires Inv(s) && a.Commit? && Enabled(s, a)
    ensures Preserves(s, a)
  {
    CommitKeepsPast(s, a.id, a.lost);
  }

  lemma EndLeasePreserves(s: State, lease: int)
    requires Inv(s)
    ensures Preserves(s, EndLease(lease))
  {
    if lease in s.coord.leases { SoundRevoke(s.View(), s.coord, lease); }
  }

  lemma StepPreserves(s: State, a: Label)
    requires Inv(s) && Enabled(s, a)
    ensures Preserves(s, a)
  {
    if Quiet(a) {
      QuietPreserves(s, a);
    } else {
      match a
      case Build(_, _, _) => ConstructorPreserves(s, a);
      case Stage(_, _, _) => StagePreserves(s, a);
      case Commit(_, _) => CommitPreserves(s, a);
      case EndLease(lease) => EndLeasePreserves(s, lease);
    }
  }

  /** Once written, the routing record never changes, and neither do the blobs or
      the revisions already reached. */
  lemma StepKeepsPast(s: State, a: Label)
    requires Inv(s) && Enabled(s, a) && Apply(s, a).coord.Valid()
    ensures KeepsPast(s, Apply(s, a))
  {
    assert Preserves(s, a) by { StepPreserves(s, a); }
  }
}
