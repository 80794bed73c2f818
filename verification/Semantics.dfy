/** What one etcd promises its clients, stated without the operations of the store model:
    which pairs a range holds, what a put and a delete leave behind, when a comparison
    holds, when a transaction is refused, what happens when a lease ends. The store model
    is proved to keep these promises. */
module Semantics {
  import opened Wrappers
  import opened ByteStrings
  import opened Mvcc
  import opened MvccFacts

  // ---- Ranges ----

  predicate PairOf(k: Bytes, rec: Record, kv: KeyValue)
  {
    && kv.key == k && kv.value == rec.value && kv.create == rec.create && kv.mod == rec.mod
    && kv.version == rec.version && kv.lease == rec.lease
  }

  predicate ByKeys(kvs: seq<KeyValue>)
  {
    forall i, j :: 0 <= i < j < |kvs| ==> Less(kvs[i].key, kvs[j].key)
  }

  /** The pairs are those of every stored key of the range, each once and in key order,
      and nothing else. */
  ghost predicate ListsRange(m: Snapshot, key: Bytes, end: Bytes, all: seq<KeyValue>)
  {
    && ByKeys(all)
    && (forall i :: 0 <= i < |all| ==>
          && all[i].key in m && InRange(key, end, all[i].key) && PairOf(all[i].key, m[all[i].key], all[i]))
    && (forall k :: k in m && InRange(key, end, k) ==> exists i :: 0 <= i < |all| && all[i].key == k)
  }

  lemma SelectLists(m: Snapshot, key: Bytes, end: Bytes)
    ensures ListsRange(m, key, end, Select(m, key, end))
  {
    var ks, all := Sorted(KeysIn(m, key, end)), Select(m, key, end);
    forall i | 0 <= i < |all| ensures all[i].key in m && InRange(key, end, all[i].key) {
      assert ks[i] in KeysIn(m, key, end);
    }
    forall k | k in m && InRange(key, end, k) ensures exists i :: 0 <= i < |all| && all[i].key == k {
      assert k in ks;
      var i :| 0 <= i < |ks| && ks[i] == k;
      assert all[i].key == k;
    }
  }

  /** The pair as a client gets it, with or without its value. */
  predicate Shows(keysOnly: bool, kv: KeyValue, shown: KeyValue)
  {
    shown == KeyValue(kv.key, if keysOnly then [] else kv.value, kv.create, kv.mod, kv.version, kv.lease)
  }

  predicate ShowsAll(keysOnly: bool, kvs: seq<KeyValue>, shown: seq<KeyValue>)
  {
    |shown| == |kvs| && forall i :: 0 <= i < |kvs| ==> Shows(keysOnly, kvs[i], shown[i])
  }

  lemma PresentedShows(keysOnly: bool, kvs: seq<KeyValue>)
    ensures ShowsAll(keysOnly, kvs, if keysOnly then Strip(kvs) else kvs)
  {}

  predicate WithinBounds(r: RangeRequest, kv: KeyValue)
  {
    && (r.minMod == 0 || r.minMod <= kv.mod) && (r.maxMod == 0 || kv.mod <= r.maxMod)
    && (r.minCreate == 0 || r.minCreate <= kv.create) && (r.maxCreate == 0 || kv.create <= r.maxCreate)
  }

  /** The order asked for allows a before b. */
  predicate MayPrecede(r: RangeRequest, a: KeyValue, b: KeyValue)
  {
    var (x, y) := if r.order == Descend then (b, a) else (a, b);
    match r.target
    case ByKey => !Less(y.key, x.key)
    case ByVersion => x.version <= y.version
    case ByCreate => x.create <= y.create
    case ByMod => x.mod <= y.mod
    case ByValue => !Less(y.value, x.value)
  }

  /** The request is sorted otherwise than by key but without an order, and limited and not
      filtered: etcd then fetches only one pair beyond the limit, in key order, and sorts
      what it has fetched. */
  predicate Shortcut(r: RangeRequest)
  {
    && r.limit > 0 && r.order == NoOrder && r.target != ByKey
    && r.minMod == 0 && r.maxMod == 0 && r.minCreate == 0 && r.maxCreate == 0
  }

  function Candidates(r: RangeRequest, all: seq<KeyValue>): seq<KeyValue>
  {
    if Shortcut(r) && |all| > r.limit + 1 then all[..r.limit + 1] else all
  }

  /** The kept ones of these pairs, each as often as it occurs. */
  ghost predicate KeepsExactly(r: RangeRequest, candidates: seq<KeyValue>, full: seq<KeyValue>)
  {
    forall kv :: multiset(full)[kv] == if WithinBounds(r, kv) then multiset(candidates)[kv] else 0
  }

  predicate Arranges(r: RangeRequest, full: seq<KeyValue>)
  {
    forall i, j :: 0 <= i < j < |full| ==> MayPrecede(r, full[i], full[j])
  }

  /** The first of these pairs, as many as the limit allows. */
  predicate CutTo(r: RangeRequest, full: seq<KeyValue>, more: bool, kvs: seq<KeyValue>)
  {
    && (more <==> 0 < r.limit < |full|)
    && ShowsAll(r.keysOnly, if 0 < r.limit < |full| then full[..r.limit] else full, kvs)
  }

  /** The answer to a range, read from snapshot m: `all` are the pairs of the range, `full`
      an arrangement, in the order asked for, of exactly those within the revision bounds,
      and the client gets the first of these, up to the limit. */
  ghost predicate RangeMeans(m: Snapshot, r: RangeRequest, page: OpResponse, all: seq<KeyValue>, full: seq<KeyValue>)
  {
    && ListsRange(m, r.key, r.end, all) && page.count == |all|
    && (r.countOnly ==> !page.more && page.kvs == [])
    && (!r.countOnly ==>
          Arranges(r, full) && KeepsExactly(r, Candidates(r, all), full) && CutTo(r, full, page.more, page.kvs))
  }

  ghost predicate RangeDoes(m: Snapshot, r: RangeRequest, page: OpResponse)
  {
    exists all, full :: RangeMeans(m, r, page, all, full)
  }

  lemma PruneKeeps(r: RangeRequest, s: seq<KeyValue>)
    ensures KeepsExactly(r, s, Prune(r, s))
  {
    forall kv ensures multiset(Prune(r, s))[kv] == if WithinBounds(r, kv) then multiset(s)[kv] else 0 {
      PruneExact(r, s, kv);
    }
  }

  lemma OrderedArranges(r: RangeRequest, s: seq<KeyValue>)
    requires Ordered(r.target, r.order == Descend, s)
    ensures Arranges(r, s)
  {
    forall i, j | 0 <= i < j < |s| ensures MayPrecede(r, s[i], s[j]) {
      assert !Precedes(r.target, r.order == Descend, s[j], s[i]);
    }
  }

  lemma KeyPageCut(r: RangeRequest, all: seq<KeyValue>)
    requires !r.countOnly && r.order == NoOrder && r.target == ByKey
    ensures CutTo(r, Prune(r, all), Page(r, all).0, Page(r, all).1)
  {
    var full := Prune(r, all);
    if !Filtered(r) {
      PruneNothing(r, all);
      PruneNothing(r, Fetched(r, all));
      if 0 < r.limit < |all| { assert Fetched(r, all)[..r.limit] == all[..r.limit]; }
    }
    PresentedShows(r.keysOnly, if 0 < r.limit < |full| then full[..r.limit] else full);
  }

  lemma KeyPageMeans(r: RangeRequest, m: Snapshot) returns (full: seq<KeyValue>)
    requires !r.countOnly && r.order == NoOrder && r.target == ByKey
    ensures var all := Select(m, r.key, r.end);
            && Arranges(r, full) && KeepsExactly(r, Candidates(r, all), full)
            && CutTo(r, full, Page(r, all).0, Page(r, all).1)
  {
    var all := Select(m, r.key, r.end);
    full := Prune(r, all);
    SelectOrdered(m, r.key, r.end);
    PruneOrdered(ByKey, false, r, all);
    OrderedArranges(r, full);
    PruneKeeps(r, all);
    KeyPageCut(r, all);
  }

  lemma PermutationKeeps(r: RangeRequest, candidates: seq<KeyValue>, a: seq<KeyValue>, b: seq<KeyValue>)
    requires KeepsExactly(r, candidates, a) && multiset(a) == multiset(b)
    ensures KeepsExactly(r, candidates, b)
  {}

  lemma SortedPageCut(r: RangeRequest, all: seq<KeyValue>)
    requires !r.countOnly && !(r.order == NoOrder && r.target == ByKey)
    ensures CutTo(r, Sort(r.target, r.order == Descend, Prune(r, Candidates(r, all))), Page(r, all).0, Page(r, all).1)
  {
    assert Fetched(r, all) == Candidates(r, all);
    var full := Sort(r.target, r.order == Descend, Prune(r, Candidates(r, all)));
    PresentedShows(r.keysOnly, if 0 < r.limit < |full| then full[..r.limit] else full);
  }

  lemma SortedPageMeans(r: RangeRequest, all: seq<KeyValue>) returns (full: seq<KeyValue>)
    requires !r.countOnly && !(r.order == NoOrder && r.target == ByKey)
    ensures Arranges(r, full) && KeepsExactly(r, Candidates(r, all), full)
    ensures CutTo(r, full, Page(r, all).0, Page(r, all).1)
  {
    var pruned := Prune(r, Candidates(r, all));
    full := Sort(r.target, r.order == Descend, pruned);
    SortArranges(r.target, r.order == Descend, pruned);
    OrderedArranges(r, full);
    PruneKeeps(r, Candidates(r, all));
    PermutationKeeps(r, Candidates(r, all), pruned, full);
    SortedPageCut(r, all);
  }

  /** The snapshot a range reads: that of the revision asked for, or what the transaction
      sees by now. */
  function Seen(l: Store, m: Snapshot, revision: int): Snapshot
  {
    if 0 < revision <= |l.hist| - 1 then l.hist[revision] else m
  }

  lemma RangeKept(l: Store, w: Work, r: RangeRequest) returns (all: seq<KeyValue>, full: seq<KeyValue>)
    ensures var (w', page) := ApplyOp(l, w, OpRange(r));
            w' == w && RangeMeans(Seen(l, w.snap, r.revision), r, page, all, full)
  {
    var m := Seen(l, w.snap, r.revision);
    all, full := Select(m, r.key, r.end), [];
    SelectLists(m, r.key, r.end);
    if !r.countOnly {
      if r.order == NoOrder && r.target == ByKey { full := KeyPageMeans(r, m); }
      else { full := SortedPageMeans(r, all); }
    }
  }

  // ---- Puts and deletes ----

  /** A put at the next revision turns m into m'. */
  ghost predicate PutDoes(l: Store, m: Snapshot, m': Snapshot, q: PutRequest, r: OpResponse)
  {
    var had := q.key in m;
    && (forall k :: k != q.key ==> SameAt(m, m', k))
    && q.key in m'
    && var now := m'[q.key];
    && now.value == (if q.ignoreValue && had then m[q.key].value else q.value)
    && now.lease == (if q.ignoreLease && had then m[q.key].lease else q.lease)
    && now.mod == |l.hist| && now.create == (if had then m[q.key].create else |l.hist|)
    && now.version == (if had then m[q.key].version + 1 else 1)
    && (if q.prevKv && had then |r.kvs| == 1 && PairOf(q.key, m[q.key], r.kvs[0]) else r.kvs == [])
  }

  /** A delete turns m into m': `gone` are the pairs deleted. */
  ghost predicate DeleteMeans(m: Snapshot, m': Snapshot, q: DeleteRequest, r: OpResponse, gone: seq<KeyValue>)
  {
    && (forall k :: k in m' <==> k in m && !InRange(q.key, q.end, k))
    && (forall k :: k in m' ==> m'[k] == m[k])
    && ListsRange(m, q.key, q.end, gone) && r.count == |gone| && r.kvs == (if q.prevKv then gone else [])
  }

  ghost predicate DeleteDoes(m: Snapshot, m': Snapshot, q: DeleteRequest, r: OpResponse)
  {
    exists gone :: DeleteMeans(m, m', q, r, gone)
  }

  lemma PutKept(l: Store, w: Work, q: PutRequest)
    ensures var (w', r) := ApplyOp(l, w, OpPut(q)); w'.dirty && PutDoes(l, w.snap, w'.snap, q, r)
  {}

  lemma DeleteKept(l: Store, w: Work, q: DeleteRequest) returns (gone: seq<KeyValue>)
    ensures var (w', r) := ApplyOp(l, w, OpDelete(q));
            DeleteMeans(w.snap, w'.snap, q, r, gone) && (w'.dirty <==> w.dirty || gone != [])
  {
    gone := Select(w.snap, q.key, q.end);
    SelectLists(w.snap, q.key, q.end);
  }

  /** One operation of a transaction, from what it sees to what it leaves. */
  ghost predicate OpDoes(l: Store, w: Work, w': Work, op: Op, r: OpResponse)
  {
    && r.rev == (if w'.dirty then |l.hist| else |l.hist| - 1)
    && match op
       case OpRange(q) => w' == w && RangeDoes(Seen(l, w.snap, q.revision), q, r)
       case OpPut(q) => w'.dirty && PutDoes(l, w.snap, w'.snap, q, r)
       case OpDelete(q) => DeleteDoes(w.snap, w'.snap, q, r) && (w'.dirty <==> w.dirty || r.count > 0)
  }

  lemma OpKept(l: Store, w: Work, op: Op)
    ensures OpDoes(l, w, ApplyOp(l, w, op).0, op, ApplyOp(l, w, op).1)
  {
    match op
    case OpRange(q) => var all, full := RangeKept(l, w, q);
    case OpPut(q) => PutKept(l, w, q);
    case OpDelete(q) => var gone := DeleteKept(l, w, q);
  }

  // ---- Comparisons ----

  predicate NumberPasses(result: CompareResult, actual: int, operand: int)
  {
    var difference := actual - operand;
    match result
    case Equal => difference == 0
    case NotEqual => difference != 0
    case Greater => difference > 0
    case Lesser => difference < 0
  }

  predicate ValuePasses(result: CompareResult, actual: Bytes, operand: Bytes)
  {
    match result
    case Equal => actual == operand
    case NotEqual => actual != operand
    case Greater => actual != operand && !Less(actual, operand)
    case Lesser => actual != operand && !Less(operand, actual)
  }

  predicate RecordPasses(c: Compare, rec: Record)
  {
    match c.target
    case VersionOf => NumberPasses(c.result, rec.version, c.number)
    case CreateOf => NumberPasses(c.result, rec.create, c.number)
    case ModOf => NumberPasses(c.result, rec.mod, c.number)
    case LeaseOf => NumberPasses(c.result, rec.lease, c.number)
    case ValueOf => ValuePasses(c.result, rec.value, c.value)
  }

  /** A comparison holds of every stored key of its range; without any it compares zero, and
      a value comparison fails. */
  ghost predicate GuardHolds(m: Snapshot, c: Compare)
  {
    if exists k :: k in m && InRange(c.key, c.end, k)
    then forall k :: k in m && InRange(c.key, c.end, k) ==> RecordPasses(c, m[k])
    else c.target != ValueOf && NumberPasses(c.result, 0, c.number)
  }

  lemma RecordTested(c: Compare, rec: Record)
    ensures CompareRecord(c, rec) <==> RecordPasses(c, rec)
  {
    if c.target == ValueOf {
      LessTotal(rec.value, c.value);
      LessIrreflexive(c.value);
      if Less(rec.value, c.value) { LessAsymmetric(rec.value, c.value); }
      if Less(c.value, rec.value) { LessAsymmetric(c.value, rec.value); }
    }
  }

  lemma GuardKept(m: Snapshot, c: Compare)
    ensures CompareHolds(m, c) <==> GuardHolds(m, c)
  {
    forall rec ensures CompareRecord(c, rec) <==> RecordPasses(c, rec) {
      RecordTested(c, rec);
    }
    if k :| k in m && InRange(c.key, c.end, k) { assert k in KeysIn(m, c.key, c.end); }
    else { assert KeysIn(m, c.key, c.end) == {}; }
  }

  // ---- Transactions ----

  ghost predicate GuardsHold(m: Snapshot, cs: seq<Compare>)
  {
    forall i :: 0 <= i < |cs| ==> GuardHolds(m, cs[i])
  }

  /** The operations run one after the other, each on what the one before left. */
  ghost predicate RunsThrough(l: Store, works: seq<Work>, ops: seq<Op>, rs: seq<OpResponse>)
  {
    && |works| == |ops| + 1 && |rs| == |ops|
    && forall i :: 0 <= i < |ops| ==> OpDoes(l, works[i], works[i + 1], ops[i], rs[i])
  }

  /** A transaction takes the branch its comparisons choose and runs it on the newest
      keyspace; all its writes become one new revision, if there are any. */
  ghost predicate TxnMeans(l: Store, l': Store, t: Txn, r: TxnResult, works: seq<Work>)
    requires l.Valid() && r.Committed?
  {
    && (r.succeeded <==> GuardsHold(l.Head(), t.compares))
    && RunsThrough(l, works, if r.succeeded then t.success else t.failure, r.responses)
    && works[0] == Work(l.Head(), false)
    && var last := works[|works| - 1];
    && l'.hist == (if last.dirty then l.hist + [last.snap] else l.hist)
    && l'.compacted == l.compacted && l'.leases == l.leases && r.rev == |l'.hist| - 1
  }

  lemma {:induction false} OpsKept(l: Store, w: Work, ops: seq<Op>) returns (works: seq<Work>)
    ensures RunsThrough(l, works, ops, ApplyOps(l, w, ops).1)
    ensures works[0] == w && works[|ops|] == ApplyOps(l, w, ops).0
    decreases ops
  {
    if ops == [] {
      works := [w];
    } else {
      OpKept(l, w, ops[0]);
      var w' := ApplyOp(l, w, ops[0]).0;
      var rest := OpsKept(l, w', ops[1..]);
      works := [w] + rest;
      RunsThroughCons(l, w, rest, ops, ApplyOps(l, w, ops).1);
    }
  }

  lemma RunsThroughCons(l: Store, w: Work, rest: seq<Work>, ops: seq<Op>, rs: seq<OpResponse>)
    requires ops != [] && rs != [] && RunsThrough(l, rest, ops[1..], rs[1..])
    requires OpDoes(l, w, rest[0], ops[0], rs[0])
    ensures RunsThrough(l, [w] + rest, ops, rs)
  {
    var works := [w] + rest;
    forall i | 0 <= i < |ops| ensures OpDoes(l, works[i], works[i + 1], ops[i], rs[i]) {
      if i > 0 { assert OpDoes(l, rest[i - 1], rest[i], ops[1..][i - 1], rs[1..][i - 1]); }
    }
  }

  lemma GuardsKept(m: Snapshot, cs: seq<Compare>)
    ensures ComparesHold(m, cs) <==> GuardsHold(m, cs)
  {
    forall i | 0 <= i < |cs| ensures CompareHolds(m, cs[i]) <==> GuardHolds(m, cs[i]) {
      GuardKept(m, cs[i]);
    }
  }

  lemma TxnKept(l: Store, t: Txn) returns (works: seq<Work>)
    requires l.Valid() && Execute(l, t).1.Committed?
    ensures TxnMeans(l, Execute(l, t).0, t, Execute(l, t).1, works)
  {
    GuardsKept(l.Head(), t.compares);
    works := OpsKept(l, Work(l.Head(), false), Branch(l, t));
  }

  // ---- Refusals ----

  /** Two operations of one branch write key k. */
  predicate WritesTwice(ops: seq<Op>, i: int, j: int)
    requires 0 <= i < |ops| && 0 <= j < |ops|
  {
    && i != j && ops[i].OpPut?
    && var k := ops[i].put.key;
    || (ops[j].OpPut? && ops[j].put.key == k)
    || (ops[j].OpDelete? && InRange(ops[j].del.key, ops[j].del.end, k))
  }

  ghost predicate WritesSomethingTwice(ops: seq<Op>)
  {
    exists i, j :: 0 <= i < |ops| && 0 <= j < |ops| && WritesTwice(ops, i, j)
  }

  /** What etcd may object to in one operation. */
  predicate Objects(l: Store, op: Op, e: StoreError)
    requires l.Valid()
  {
    match e
    case DuplicateKey => false
    case KeyNotFound => op.OpPut? && (op.put.ignoreValue || op.put.ignoreLease) && op.put.key !in l.Head()
    case LeaseNotFound => op.OpPut? && op.put.lease != 0 && op.put.lease !in l.leases
    case FutureRevision => op.OpRange? && op.range.revision > |l.hist| - 1
    case Compacted => op.OpRange? && 0 < op.range.revision < l.compacted
  }

  ghost predicate Objection(l: Store, t: Txn, e: StoreError)
    requires l.Valid()
  {
    if e == DuplicateKey then WritesSomethingTwice(t.success) || WritesSomethingTwice(t.failure)
    else ObjectsToSome(l, if GuardsHold(l.Head(), t.compares) then t.success else t.failure, e)
  }

  predicate ObjectsToSome(l: Store, ops: seq<Op>, e: StoreError)
    requires l.Valid()
  {
    exists i :: 0 <= i < |ops| && Objects(l, ops[i], e)
  }

  lemma TwiceIsDuplicate(ops: seq<Op>)
    ensures HasDuplicates(ops) <==> WritesSomethingTwice(ops)
  {
    if HasDuplicates(ops) {
      var i, j :| 0 <= i < |ops| && 0 <= j < |ops| && i != j && Clash(ops[i], ops[j]);
      assert WritesTwice(ops, i, j);
    }
    if WritesSomethingTwice(ops) {
      var i, j :| 0 <= i < |ops| && 0 <= j < |ops| && WritesTwice(ops, i, j);
      assert Clash(ops[i], ops[j]);
    }
  }

  /** The first objection found, if there is any. */
  lemma {:induction false} PutErrorsKept(l: Store, ops: seq<Op>)
    requires l.Valid()
    ensures var e := FirstPutError(l, ops);
            && (e.Some? ==> e.value != DuplicateKey && ObjectsToSome(l, ops, e.value))
            && (e.None? ==> forall i :: 0 <= i < |ops| ==>
                              !Objects(l, ops[i], KeyNotFound) && !Objects(l, ops[i], LeaseNotFound))
  {
    if ops != [] {
      PutErrorsKept(l, ops[1..]);
      FirstObjects(l, ops, FirstPutError(l, ops));
    }
  }

  lemma {:induction false} RangeErrorsKept(l: Store, ops: seq<Op>)
    requires l.Valid()
    ensures var e := FirstRangeError(l, ops);
            && (e.Some? ==> e.value != DuplicateKey && ObjectsToSome(l, ops, e.value))
            && (e.None? ==> forall i :: 0 <= i < |ops| ==>
                              !Objects(l, ops[i], FutureRevision) && !Objects(l, ops[i], Compacted))
  {
    if ops != [] {
      RangeErrorsKept(l, ops[1..]);
      FirstObjects(l, ops, FirstRangeError(l, ops));
    }
  }

  lemma FirstObjects(l: Store, ops: seq<Op>, e: Option<StoreError>)
    requires l.Valid() && ops != []
    ensures e.Some? && (exists i :: 0 <= i < |ops[1..]| && Objects(l, ops[1..][i], e.value)) ==>
              exists i :: 0 <= i < |ops| && Objects(l, ops[i], e.value)
    ensures forall x :: (forall i :: 0 <= i < |ops[1..]| ==> !Objects(l, ops[1..][i], x)) && !Objects(l, ops[0], x) ==>
              forall i :: 0 <= i < |ops| ==> !Objects(l, ops[i], x)
  {
    if e.Some? {
      if i :| 0 <= i < |ops[1..]| && Objects(l, ops[1..][i], e.value) { assert Objects(l, ops[i + 1], e.value); }
    }
    forall x | (forall i :: 0 <= i < |ops[1..]| ==> !Objects(l, ops[1..][i], x)) && !Objects(l, ops[0], x)
      ensures forall i :: 0 <= i < |ops| ==> !Objects(l, ops[i], x)
    {
      forall i | 0 <= i < |ops| ensures !Objects(l, ops[i], x) {
        if i > 0 { assert !Objects(l, ops[1..][i - 1], x); }
      }
    }
  }

  /** A transaction is refused exactly when there is an objection, with one that there is,
      and then it changes nothing. */
  lemma RefusalKept(l: Store, t: Txn)
    requires l.Valid()
    ensures Execute(l, t).1.Rejected? <==> exists e :: Objection(l, t, e)
    ensures Execute(l, t).1.Rejected? ==> Objection(l, t, Execute(l, t).1.error) && Execute(l, t).0 == l
  {
    TwiceIsDuplicate(t.success);
    TwiceIsDuplicate(t.failure);
    GuardsKept(l.Head(), t.compares);
    var ops := Branch(l, t);
    PutErrorsKept(l, ops);
    RangeErrorsKept(l, ops);
    if Execute(l, t).1.Rejected? { assert Objection(l, t, Execute(l, t).1.error); }
    if e :| Objection(l, t, e) {
      if e != DuplicateKey { assert ObjectsToSome(l, ops, e); }
    }
  }

  // ---- Leases and compaction ----

  predicate HoldsLease(m: Snapshot, k: Bytes, id: int)
  {
    k in m && m[k].lease == id
  }

  /** The end of a granted lease: its keys and no others disappear, at one new revision if
      there are any. */
  ghost predicate LeaseEnds(l: Store, l': Store, id: int)
    requires l.Valid() && l'.Valid()
  {
    && l'.leases == l.leases - {id} && l'.compacted == l.compacted && l.hist <= l'.hist
    && (forall k :: k in l'.Head() <==> k in l.Head() && !HoldsLease(l.Head(), k, id))
    && (forall k :: k in l'.Head() ==> l'.Head()[k] == l.Head()[k])
    && |l'.hist| == |l.hist| + (if exists k :: HoldsLease(l.Head(), k, id) then 1 else 0)
  }

  lemma LeaseEndKept(l: Store, id: int)
    requires l.Valid()
    ensures Revoke(l, id).Valid()
    ensures if id in l.leases then LeaseEnds(l, Revoke(l, id), id) else Revoke(l, id) == l
  {
    var gone := Attached(l.Head(), id);
    if k :| HoldsLease(l.Head(), k, id) { assert k in gone; }
    assert forall k :: k in gone <==> HoldsLease(l.Head(), k, id);
  }

  lemma GrantKept(l: Store, id: int)
    requires id != 0
    ensures Grant(l, id).hist == l.hist && Grant(l, id).compacted == l.compacted
    ensures forall i :: i in Grant(l, id).leases <==> i in l.leases || i == id
  {}

  /** Compaction keeps all contents and moves the floor, up only and to a reached revision. */
  lemma CompactKept(l: Store, revision: int)
    ensures Compact(l, revision).hist == l.hist && Compact(l, revision).leases == l.leases
    ensures l.compacted < revision < |l.hist| ==> Compact(l, revision).compacted == revision
    ensures !(l.compacted < revision < |l.hist|) ==> Compact(l, revision).compacted == l.compacted
  {}

  // ---- Events ----

  /** Key k was written or removed at revision r. */
  predicate Happened(h: seq<Snapshot>, r: int, k: Bytes)
    requires 0 < r < |h|
  {
    !SameAt(h[r - 1], h[r], k)
  }

  /** The event of key k at revision r, with the previous pair if asked for. */
  predicate Reports(h: seq<Snapshot>, r: int, k: Bytes, prevKv: bool, e: Event)
    requires 0 < r < |h|
  {
    && Happened(h, r, k) && (e.delete <==> k !in h[r])
    && (if k in h[r] then PairOf(k, h[r][k], e.kv) else e.kv == KeyValue(k, [], 0, r, 0, 0))
    && (if prevKv && k in h[r - 1] then e.prev.Some? && PairOf(k, h[r - 1][k], e.prev.value) else e.prev.None?)
  }

  /** There is an event exactly where something happened, and it reports what did. */
  lemma EventKept(s: Store, r: int, k: Bytes)
    requires Chronicle(s.hist) && 0 < r < |s.hist|
    ensures EventAt(s, r, k).Some? <==> Happened(s.hist, r, k)
    ensures EventAt(s, r, k).Some? ==> Reports(s.hist, r, k, true, EventAt(s, r, k).value)
  {
    var h := s.hist;
    assert Follows(h[r - 1], h[r], r);
    if k in h[r] { assert Evolves(h[r - 1], h[r], r, k); }
    if k in h[r - 1] { MetadataTrue(h, r - 1, k); }
  }
}
