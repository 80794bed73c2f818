/** The coordinator with translated requests behaves like the logical store with
    the original ones: a relation between the two stores that every operation
    of a transaction keeps, and that makes decoded responses equal the logical ones. */
module Simulation {
  import opened Wrappers
  import opened ByteStrings
  import opened Keys
  import opened Routing
  import opened Mvcc
  import opened Codec

  /** The routing of a proxy and the blobs on the data shards, by endpoint. */
  datatype Env = Env(routes: seq<Route>, data: map<Bytes, map<Bytes, Bytes>>)

  predicate HasBlob(data: map<Bytes, map<Bytes, Bytes>>, endpoint: Bytes, key: Bytes)
  {
    endpoint in data && key in data[endpoint]
  }

  /** The bytes behind a metadata value: the checks and the blob read of `decodeKV`. */
  function Resolve(env: Env, v: Bytes): Option<Bytes>
  {
    match DecodeRef(v)
    case None => None
    case Some((i, key)) =>
      if i < |env.routes| && HasPrefix(key, BLOB_PREFIX) && HasBlob(env.data, env.routes[i].endpoint, key)
      then Some(env.data[env.routes[i].endpoint][key])
      else None
  }

  function DecodeKV(env: Env, kv: KeyValue, keysOnly: bool): Result<KeyValue, Status>
  {
    if !IsMetaKey(kv.key) then Err(DataLoss)
    else
      var named := kv.(key := UserKey(kv.key));
      if keysOnly then Ok(named)
      else if kv.value == [] then Err(DataLoss)
      else
        match Resolve(env, kv.value)
        case Some(v) => Ok(named.(value := v))
        case None => Err(DataLoss)
  }

  // ---- The relation ----

  predicate RelRecord(env: Env, c: Record, l: Record)
  {
    && Resolve(env, c.value) == Some(l.value)
    && c.create == l.create && c.mod == l.mod && c.version == l.version && c.lease == l.lease
  }

  ghost predicate RelSnap(env: Env, c: Snapshot, l: Snapshot)
  {
    && (forall u :: u in l ==> MetaKey(u) in c && RelRecord(env, c[MetaKey(u)], l[u]))
    && (forall k :: k in c && IsMetaKey(k) ==> UserKey(k) in l)
  }

  ghost predicate RelStore(env: Env, c: Store, l: Store)
  {
    && |c.hist| == |l.hist| > 0 && c.compacted == l.compacted && c.leases == l.leases
    && (forall i :: 0 <= i < |c.hist| ==> RelSnap(env, c.hist[i], l.hist[i]))
  }

  predicate RelKv(env: Env, keysOnly: bool, c: KeyValue, l: KeyValue)
  {
    && c.key == MetaKey(l.key)
    && c.create == l.create && c.mod == l.mod && c.version == l.version && c.lease == l.lease
    && (if keysOnly then c.value == l.value == [] else Resolve(env, c.value) == Some(l.value))
  }

  predicate RelKvs(env: Env, keysOnly: bool, c: seq<KeyValue>, l: seq<KeyValue>)
  {
    |c| == |l| && forall i :: 0 <= i < |c| ==> RelKv(env, keysOnly, c[i], l[i])
  }

  predicate RelResponse(env: Env, keysOnly: bool, c: OpResponse, l: OpResponse)
  {
    c.rev == l.rev && c.count == l.count && c.more == l.more && RelKvs(env, keysOnly, c.kvs, l.kvs)
  }

  predicate KeysOnly(op: Op)
  {
    op.OpRange? && op.range.keysOnly
  }

  predicate RelResult(env: Env, ops: seq<Op>, c: TxnResult, l: TxnResult)
  {
    match (c, l)
    case (Rejected(e), Rejected(f)) => e == f
    case (Committed(b, r, cs), Committed(b', r', ls)) =>
      && b == b' && r == r' && |cs| == |ls| == |ops|
      && forall i :: 0 <= i < |cs| ==> RelResponse(env, KeysOnly(ops[i]), cs[i], ls[i])
    case _ => false
  }

  /** Decoding a related pair gives exactly the logical pair. */
  lemma RelKvDecodes(env: Env, keysOnly: bool, c: KeyValue, l: KeyValue)
    requires RelKv(env, keysOnly, c, l)
    ensures DecodeKV(env, c, keysOnly) == Ok(l)
  {
    MetaKeyRoundTrip(l.key);
  }

  /** The value is a reference to a blob, under the blob prefix, on one of the shards. */
  predicate RefersTo(env: Env, v: Bytes, i: nat, key: Bytes)
  {
    && DecodeRef(v) == Some((i, key)) && i < |env.routes| && HasPrefix(key, BLOB_PREFIX)
    && HasBlob(env.data, env.routes[i].endpoint, key)
  }

  /** `decodeKV` succeeds exactly on a metadata key whose value, unless only keys are wanted,
      refers to a blob; it strips the prefix, puts in the blob's bytes and leaves the rest;
      and every failure is a loss of data. */
  lemma DecodeExact(env: Env, kv: KeyValue, keysOnly: bool)
    ensures DecodeKV(env, kv, keysOnly).Ok? <==>
              IsMetaKey(kv.key) && (keysOnly || exists i: nat, key :: RefersTo(env, kv.value, i, key))
    ensures DecodeKV(env, kv, keysOnly).Err? ==> DecodeKV(env, kv, keysOnly).error == DataLoss
    ensures DecodeKV(env, kv, keysOnly).Ok? ==>
              var d := DecodeKV(env, kv, keysOnly).value;
              && MetaKey(d.key) == kv.key
              && d.create == kv.create && d.mod == kv.mod && d.version == kv.version && d.lease == kv.lease
              && (keysOnly ==> d.value == kv.value)
    ensures forall i: nat, key :: DecodeKV(env, kv, keysOnly).Ok? && !keysOnly && RefersTo(env, kv.value, i, key) ==>
              DecodeKV(env, kv, keysOnly).value.value == env.data[env.routes[i].endpoint][key]
  {
    if IsMetaKey(kv.key) { UserKeyRoundTrip(kv.key); }
    var ref := DecodeRef(kv.value);
    if ref.Some? { assert Resolve(env, kv.value).Some? ==> RefersTo(env, kv.value, ref.value.0, ref.value.1); }
  }

  // ---- Translation ----

  /** A request the translation covers: a non-empty key and nothing ordered by value. */
  predicate Translatable(op: Op)
  {
    match op
    case OpRange(r) => r.key != [] && r.target != ByValue
    case OpPut(p) => p.key != [] && (p.ignoreValue ==> p.value == [])
    case OpDelete(d) => d.key != []
  }

  predicate TranslatableCompare(c: Compare)
  {
    c.key != [] && c.target != ValueOf
  }

  /** t is what the proxy sends to the coordinator for o: every key prefixed once,
      and a put value replaced by a reference that resolves to it. */
  predicate Translated(env: Env, o: Op, t: Op)
  {
    match (o, t)
    case (OpRange(r), OpRange(s)) => s == r.(key := MetaKey(r.key), end := MetaEnd(r.end))
    case (OpPut(p), OpPut(q)) =>
      && q == p.(key := MetaKey(p.key), value := q.value)
      && (if p.ignoreValue then q.value == p.value else Resolve(env, q.value) == Some(p.value))
    case (OpDelete(d), OpDelete(e)) => e == d.(key := MetaKey(d.key), end := MetaEnd(d.end))
    case _ => false
  }

  predicate TranslatedOps(env: Env, o: seq<Op>, t: seq<Op>)
  {
    |o| == |t| && forall i :: 0 <= i < |o| ==> Translatable(o[i]) && Translated(env, o[i], t[i])
  }

  function TranslateCompare(c: Compare): Compare
  {
    c.(key := MetaKey(c.key), end := MetaEnd(c.end))
  }

  predicate TranslatedTxn(env: Env, o: Txn, t: Txn)
  {
    && |o.compares| == |t.compares|
    && (forall i :: 0 <= i < |o.compares| ==>
          TranslatableCompare(o.compares[i]) && t.compares[i] == TranslateCompare(o.compares[i]))
    && TranslatedOps(env, o.success, t.success) && TranslatedOps(env, o.failure, t.failure)
  }

  // ---- Reading ----

  lemma RelKeysIn(env: Env, c: Snapshot, l: Snapshot, key: Bytes, end: Bytes)
    requires RelSnap(env, c, l) && key != []
    ensures forall u :: u in KeysIn(l, key, end) ==> MetaKey(u) in KeysIn(c, MetaKey(key), MetaEnd(end))
    ensures forall k :: k in KeysIn(c, MetaKey(key), MetaEnd(end)) ==>
              IsMetaKey(k) && UserKey(k) in KeysIn(l, key, end) && MetaKey(UserKey(k)) == k
  {
    forall u | u in KeysIn(l, key, end) ensures MetaKey(u) in KeysIn(c, MetaKey(key), MetaEnd(end)) {
      RangeEmbedding(key, end, u);
    }
    forall k | k in KeysIn(c, MetaKey(key), MetaEnd(end))
      ensures IsMetaKey(k) && UserKey(k) in KeysIn(l, key, end) && MetaKey(UserKey(k)) == k
    {
      RangeConfined(key, end, k);
    }
  }

  function Image(us: seq<Bytes>): (image: seq<Bytes>)
    ensures |image| == |us| && forall i :: 0 <= i < |us| ==> image[i] == MetaKey(us[i])
  {
    seq(|us|, i requires 0 <= i < |us| => MetaKey(us[i]))
  }

  lemma ImageMembers(us: seq<Bytes>, k: Bytes)
    ensures k in Image(us) <==> IsMetaKey(k) && UserKey(k) in us
  {
    if IsMetaKey(k) && UserKey(k) in us {
      var i :| 0 <= i < |us| && us[i] == UserKey(k);
      UserKeyRoundTrip(k);
      assert Image(us)[i] == k;
    }
    if k in Image(us) {
      var i :| 0 <= i < |us| && Image(us)[i] == k;
      MetaKeyRoundTrip(us[i]);
    }
  }

  lemma ImageAscends(us: seq<Bytes>)
    requires Ascending(us)
    ensures Ascending(Image(us))
  {
    forall i, j | 0 <= i < j < |us| ensures Less(Image(us)[i], Image(us)[j]) {
      MetaKeyOrder(us[i], us[j]);
    }
  }

  /** The keys of a translated range are the prefixed keys of the range, in the same order. */
  lemma RelSorted(env: Env, c: Snapshot, l: Snapshot, key: Bytes, end: Bytes)
    requires RelSnap(env, c, l) && key != []
    ensures Sorted(KeysIn(c, MetaKey(key), MetaEnd(end))) == Image(Sorted(KeysIn(l, key, end)))
  {
    RelKeysIn(env, c, l, key, end);
    var cs := Sorted(KeysIn(c, MetaKey(key), MetaEnd(end)));
    var ls := Sorted(KeysIn(l, key, end));
    ImageAscends(ls);
    forall k ensures k in Image(ls) <==> k in cs {
      ImageMembers(ls, k);
      if IsMetaKey(k) && UserKey(k) in ls { UserKeyRoundTrip(k); }
    }
    AscendingUnique(Image(ls), cs);
  }

  lemma RelSelect(env: Env, c: Snapshot, l: Snapshot, key: Bytes, end: Bytes)
    requires RelSnap(env, c, l) && key != []
    ensures RelKvs(env, false, Select(c, MetaKey(key), MetaEnd(end)), Select(l, key, end))
  {
    RelSorted(env, c, l, key, end);
    var ls := Sorted(KeysIn(l, key, end));
    assert forall i :: 0 <= i < |ls| ==> ls[i] in KeysIn(l, key, end);
  }

  lemma RelCons(env: Env, a: KeyValue, x: KeyValue, c: seq<KeyValue>, l: seq<KeyValue>)
    requires RelKv(env, false, a, x) && RelKvs(env, false, c, l)
    ensures RelKvs(env, false, [a] + c, [x] + l)
  {}

  lemma {:induction false} RelPrune(env: Env, r: RangeRequest, c: seq<KeyValue>, l: seq<KeyValue>)
    requires RelKvs(env, false, c, l)
    ensures RelKvs(env, false, Prune(r, c), Prune(r, l))
  {
    if c != [] {
      assert RelKv(env, false, c[0], l[0]);
      RelPrune(env, r, c[1..], l[1..]);
    }
  }

  lemma RelPrecedes(env: Env, target: SortTarget, descending: bool, a: KeyValue, b: KeyValue, x: KeyValue, y: KeyValue)
    requires target != ByValue && RelKv(env, false, a, x) && RelKv(env, false, b, y)
    ensures Precedes(target, descending, a, b) <==> Precedes(target, descending, x, y)
  {
    MetaKeyOrder(x.key, y.key);
    MetaKeyOrder(y.key, x.key);
  }

  lemma {:induction false} RelInsert(env: Env, target: SortTarget, descending: bool,
                                     a: KeyValue, x: KeyValue, c: seq<KeyValue>, l: seq<KeyValue>)
    requires target != ByValue && RelKv(env, false, a, x) && RelKvs(env, false, c, l)
    ensures RelKvs(env, false, Insert(target, descending, a, c), Insert(target, descending, x, l))
  {
    RelCons(env, a, x, c, l);
    if c != [] {
      assert RelKv(env, false, c[0], l[0]);
      RelPrecedes(env, target, descending, c[0], a, l[0], x);
      RelInsert(env, target, descending, a, x, c[1..], l[1..]);
      RelCons(env, c[0], l[0], Insert(target, descending, a, c[1..]), Insert(target, descending, x, l[1..]));
    }
  }

  lemma {:induction false} RelSort(env: Env, target: SortTarget, descending: bool, c: seq<KeyValue>, l: seq<KeyValue>)
    requires target != ByValue && RelKvs(env, false, c, l)
    ensures RelKvs(env, false, Sort(target, descending, c), Sort(target, descending, l))
  {
    if c != [] {
      RelSort(env, target, descending, c[1..], l[1..]);
      assert RelKv(env, false, c[0], l[0]);
      RelInsert(env, target, descending, c[0], l[0],
                Sort(target, descending, c[1..]), Sort(target, descending, l[1..]));
    }
  }

  lemma RelPage(env: Env, r: RangeRequest, s: RangeRequest, c: seq<KeyValue>, l: seq<KeyValue>)
    requires r.target != ByValue && RelKvs(env, false, c, l)
    requires s == r.(key := s.key, end := s.end)
    ensures Page(s, c).0 == Page(r, l).0 && RelKvs(env, r.keysOnly, Page(s, c).1, Page(r, l).1)
  {
    var fc, fl := Fetched(s, c), Fetched(r, l);
    assert RelKvs(env, false, fc, fl);
    PruneIgnoresKey(s, r, fc);
    RelPrune(env, r, fc, fl);
    RelSort(env, r.target, r.order == Descend, Prune(r, fc), Prune(r, fl));
  }

  lemma {:induction false} PruneIgnoresKey(s: RangeRequest, r: RangeRequest, kvs: seq<KeyValue>)
    requires s == r.(key := s.key, end := s.end)
    ensures Prune(s, kvs) == Prune(r, kvs)
  {
    if kvs != [] { PruneIgnoresKey(s, r, kvs[1..]); }
  }

  // ---- Comparisons and checks ----

  lemma RelCompare(env: Env, c: Snapshot, l: Snapshot, o: Compare)
    requires RelSnap(env, c, l) && TranslatableCompare(o)
    ensures CompareHolds(c, TranslateCompare(o)) <==> CompareHolds(l, o)
  {
    var t := TranslateCompare(o);
    RelKeysIn(env, c, l, o.key, o.end);
    var cs, ls := KeysIn(c, t.key, t.end), KeysIn(l, o.key, o.end);
    forall u | u in ls ensures MetaKey(u) in cs && CompareRecord(t, c[MetaKey(u)]) == CompareRecord(o, l[u]) {}
    forall k | k in cs ensures UserKey(k) in ls && CompareRecord(t, c[k]) == CompareRecord(o, l[UserKey(k)]) {}
  }

  lemma RelDuplicates(env: Env, o: seq<Op>, t: seq<Op>)
    requires TranslatedOps(env, o, t)
    ensures HasDuplicates(t) <==> HasDuplicates(o)
  {
    forall i, j | 0 <= i < |o| && 0 <= j < |o| ensures Clash(t[i], t[j]) <==> Clash(o[i], o[j]) {
      RelClash(env, o[i], t[i], o[j], t[j]);
    }
  }

  lemma RelClash(env: Env, a: Op, c: Op, b: Op, d: Op)
    requires Translatable(a) && Translatable(b) && Translated(env, a, c) && Translated(env, b, d)
    ensures Clash(c, d) <==> Clash(a, b)
  {
    if a.OpPut? && b.OpPut? { MetaKeyOrder(a.put.key, b.put.key); }
    if a.OpPut? && b.OpDelete? { RangeEmbedding(b.del.key, b.del.end, a.put.key); }
  }

  lemma RelMember(env: Env, c: Snapshot, l: Snapshot, u: Bytes)
    requires RelSnap(env, c, l)
    ensures MetaKey(u) in c <==> u in l
  {
    MetaKeyRoundTrip(u);
  }

  lemma {:induction false} RelChecks(env: Env, c: Store, l: Store, o: seq<Op>, t: seq<Op>)
    requires RelStore(env, c, l) && TranslatedOps(env, o, t)
    ensures FirstPutError(c, t) == FirstPutError(l, o) && FirstRangeError(c, t) == FirstRangeError(l, o)
  {
    if o != [] {
      assert Translatable(o[0]) && Translated(env, o[0], t[0]);
      if o[0].OpPut? { RelMember(env, c.Head(), l.Head(), o[0].put.key); }
      RelChecks(env, c, l, o[1..], t[1..]);
    }
  }

  // ---- Running a transaction ----

  ghost predicate RelWork(env: Env, c: Work, l: Work)
  {
    c.dirty == l.dirty && RelSnap(env, c.snap, l.snap)
  }

  lemma RelPut(env: Env, c: Snapshot, l: Snapshot, u: Bytes, rc: Record, rl: Record)
    requires RelSnap(env, c, l) && RelRecord(env, rc, rl)
    ensures RelSnap(env, c[MetaKey(u) := rc], l[u := rl])
  {
    var c', l' := c[MetaKey(u) := rc], l[u := rl];
    forall v | v in l' ensures MetaKey(v) in c' && RelRecord(env, c'[MetaKey(v)], l'[v]) {
      MetaKeyOrder(u, v);
    }
    forall k | k in c' && IsMetaKey(k) ensures UserKey(k) in l' {
      MetaKeyRoundTrip(u);
    }
  }

  lemma RelDelete(env: Env, c: Snapshot, l: Snapshot, key: Bytes, end: Bytes)
    requires RelSnap(env, c, l) && key != []
    ensures RelSnap(env, c - KeysIn(c, MetaKey(key), MetaEnd(end)), l - KeysIn(l, key, end))
  {
    RelKeysIn(env, c, l, key, end);
    var c', l' := c - KeysIn(c, MetaKey(key), MetaEnd(end)), l - KeysIn(l, key, end);
    forall v | v in l' ensures MetaKey(v) in c' && RelRecord(env, c'[MetaKey(v)], l'[v]) {
      MetaKeyRoundTrip(v);
    }
    forall k | k in c' && IsMetaKey(k) ensures UserKey(k) in l' {
      UserKeyRoundTrip(k);
    }
  }

  lemma RelApplyRange(env: Env, c: Store, l: Store, wc: Work, wl: Work, r: RangeRequest, s: RangeRequest)
    requires RelStore(env, c, l) && RelWork(env, wc, wl) && Translatable(OpRange(r))
    requires s == r.(key := MetaKey(r.key), end := MetaEnd(r.end))
    ensures ApplyOp(c, wc, OpRange(s)).0 == wc && ApplyOp(l, wl, OpRange(r)).0 == wl
    ensures RelResponse(env, r.keysOnly, ApplyOp(c, wc, OpRange(s)).1, ApplyOp(l, wl, OpRange(r)).1)
  {
    var mc, ml := ReadAt(c, wc, r.revision), ReadAt(l, wl, r.revision);
    RelSelect(env, mc, ml, r.key, r.end);
    RelPage(env, r, s, Select(mc, s.key, s.end), Select(ml, r.key, r.end));
  }

  /** One operation keeps the relation and gives related responses. */
  lemma RelApplyOp(env: Env, c: Store, l: Store, wc: Work, wl: Work, o: Op, t: Op)
    requires RelStore(env, c, l) && RelWork(env, wc, wl) && Translatable(o) && Translated(env, o, t)
    requires o.OpPut? && o.put.ignoreValue ==> o.put.key in wl.snap
    ensures RelWork(env, ApplyOp(c, wc, t).0, ApplyOp(l, wl, o).0)
    ensures RelResponse(env, KeysOnly(o), ApplyOp(c, wc, t).1, ApplyOp(l, wl, o).1)
  {
    match o
    case OpRange(r) => RelApplyRange(env, c, l, wc, wl, r, t.range);
    case OpPut(p) =>
      RelMember(env, wc.snap, wl.snap, p.key);
      RelPut(env, wc.snap, wl.snap, p.key, PutRecord(c, wc, t.put), PutRecord(l, wl, p));
    case OpDelete(d) =>
      RelSelect(env, wc.snap, wl.snap, d.key, d.end);
      RelDelete(env, wc.snap, wl.snap, d.key, d.end);
  }

  /** The puts that keep a stored value find it. */
  predicate KeptValuesPresent(m: Snapshot, ops: seq<Op>)
  {
    forall i :: 0 <= i < |ops| && ops[i].OpPut? && ops[i].put.ignoreValue ==> ops[i].put.key in m
  }

  lemma {:induction false} CheckedValuesPresent(s: Store, ops: seq<Op>)
    requires s.Valid() && FirstPutError(s, ops).None?
    ensures KeptValuesPresent(s.Head(), ops)
  {
    if ops != [] {
      CheckedValuesPresent(s, ops[1..]);
      forall i | 0 <= i < |ops| && ops[i].OpPut? && ops[i].put.ignoreValue ensures ops[i].put.key in s.Head() {
        if i > 0 { assert ops[i] == ops[1..][i - 1]; }
      }
    }
  }

  lemma RestValuesPresent(s: Store, w: Work, ops: seq<Op>)
    requires ops != [] && !HasDuplicates(ops) && KeptValuesPresent(w.snap, ops)
    ensures KeptValuesPresent(ApplyOp(s, w, ops[0]).0.snap, ops[1..]) && !HasDuplicates(ops[1..])
  {
    var m := ApplyOp(s, w, ops[0]).0.snap;
    var rest := ops[1..];
    forall i | 0 <= i < |rest| && rest[i].OpPut? && rest[i].put.ignoreValue ensures rest[i].put.key in m {
      assert rest[i] == ops[i + 1];
      assert !Clash(ops[i + 1], ops[0]);
    }
    forall i, j | 0 <= i < |rest| && 0 <= j < |rest| && i != j ensures !Clash(rest[i], rest[j]) {
      assert !Clash(ops[i + 1], ops[j + 1]);
    }
  }

  lemma {:induction false} RelApplyOps(env: Env, c: Store, l: Store, wc: Work, wl: Work, o: seq<Op>, t: seq<Op>)
    requires RelStore(env, c, l) && RelWork(env, wc, wl) && TranslatedOps(env, o, t)
    requires !HasDuplicates(o) && KeptValuesPresent(wl.snap, o)
    ensures RelWork(env, ApplyOps(c, wc, t).0, ApplyOps(l, wl, o).0)
    ensures var rc, rl := ApplyOps(c, wc, t).1, ApplyOps(l, wl, o).1;
            |rc| == |rl| == |o| && forall i :: 0 <= i < |o| ==> RelResponse(env, KeysOnly(o[i]), rc[i], rl[i])
    decreases o
  {
    if o != [] {
      assert Translatable(o[0]) && Translated(env, o[0], t[0]);
      RelApplyOp(env, c, l, wc, wl, o[0], t[0]);
      RestValuesPresent(l, wl, o);
      RelApplyOps(env, c, l, ApplyOp(c, wc, t[0]).0, ApplyOp(l, wl, o[0]).0, o[1..], t[1..]);
    }
  }

  lemma RelPublish(env: Env, c: Store, l: Store, wc: Work, wl: Work)
    requires RelStore(env, c, l) && RelWork(env, wc, wl)
    ensures RelStore(env, Publish(c, wc), Publish(l, wl))
  {}

  /** Translation preserves meaning: on related stores the translated transaction
      takes the same branch, fails the same way or gives related responses, and
      leaves related stores. */
  lemma RelExecute(env: Env, c: Store, l: Store, o: Txn, t: Txn)
    requires RelStore(env, c, l) && TranslatedTxn(env, o, t)
    ensures RelStore(env, Execute(c, t).0, Execute(l, o).0)
    ensures RelResult(env, Branch(l, o), Execute(c, t).1, Execute(l, o).1)
  {
    RelDuplicates(env, o.success, t.success);
    RelDuplicates(env, o.failure, t.failure);
    forall i | 0 <= i < |o.compares|
      ensures CompareHolds(c.Head(), t.compares[i]) <==> CompareHolds(l.Head(), o.compares[i])
    {
      RelCompare(env, c.Head(), l.Head(), o.compares[i]);
    }
    var oc, ol := Branch(c, t), Branch(l, o);
    RelChecks(env, c, l, ol, oc);
    if !HasDuplicates(o.success) && !HasDuplicates(o.failure) && CheckOps(l, ol).None? {
      CheckedValuesPresent(l, ol);
      RelApplyOps(env, c, l, Work(c.Head(), false), Work(l.Head(), false), ol, oc);
      RelPublish(env, c, l, ApplyOps(c, Work(c.Head(), false), oc).0, ApplyOps(l, Work(l.Head(), false), ol).0);
    }
  }
}
