/** One etcd: a multi-version key-value store with compaction and leases, as in the
    "Key-Value API", "Watch API" and "Lease API" sections of the etcd v3.5
    documentation. The coordinator is such a store, and so is the store that users
    of the proxy are meant to see. */
module Mvcc {
  import opened Wrappers
  import opened ByteStrings

  datatype Record = Record(value: Bytes, create: int, mod: int, version: int, lease: int)

  type Snapshot = map<Bytes, Record>

  /** hist[r] is the keyspace at revision r; reads below `compacted` are refused. */
  datatype Store = Store(hist: seq<Snapshot>, compacted: int, leases: set<int>)
  {
    predicate Valid() { |hist| > 0 }

    function Rev(): int { |hist| - 1 }

    function Head(): Snapshot
      requires Valid()
    {
      hist[|hist| - 1]
    }
  }

  /** A new etcd is at revision 1. */
  const EMPTY: Store := Store([map[], map[]], -1, {})

  datatype KeyValue = KeyValue(key: Bytes, value: Bytes, create: int, mod: int, version: int, lease: int)

  function ToKv(k: Bytes, r: Record): KeyValue
  {
    KeyValue(k, r.value, r.create, r.mod, r.version, r.lease)
  }

  // ---- Requests ----

  datatype SortOrder = NoOrder | Ascend | Descend

  datatype SortTarget = ByKey | ByVersion | ByCreate | ByMod | ByValue

  datatype RangeRequest = RangeRequest(
    key: Bytes, end: Bytes, limit: int, revision: int, order: SortOrder, target: SortTarget,
    keysOnly: bool, countOnly: bool, minMod: int, maxMod: int, minCreate: int, maxCreate: int)

  datatype PutRequest = PutRequest(
    key: Bytes, value: Bytes, lease: int, prevKv: bool, ignoreValue: bool, ignoreLease: bool)

  datatype DeleteRequest = DeleteRequest(key: Bytes, end: Bytes, prevKv: bool)

  datatype CompareTarget = VersionOf | CreateOf | ModOf | LeaseOf | ValueOf

  datatype CompareResult = Equal | Greater | Lesser | NotEqual

  datatype Compare = Compare(
    key: Bytes, end: Bytes, target: CompareTarget, result: CompareResult, number: int, value: Bytes)

  datatype Op = OpRange(range: RangeRequest) | OpPut(put: PutRequest) | OpDelete(del: DeleteRequest)

  datatype Txn = Txn(compares: seq<Compare>, success: seq<Op>, failure: seq<Op>)

  // ---- Responses ----

  /** Answer to one operation. `count` is the number of keys in the range or the
      number deleted; `kvs` holds the pairs read, or the previous pairs. */
  datatype OpResponse = OpResponse(rev: int, count: int, more: bool, kvs: seq<KeyValue>)

  datatype StoreError = DuplicateKey | KeyNotFound | LeaseNotFound | FutureRevision | Compacted

  datatype TxnResult =
    | Committed(succeeded: bool, rev: int, responses: seq<OpResponse>)
    | Rejected(error: StoreError)

  // ---- Reading ----

  function KeysIn(m: Snapshot, key: Bytes, end: Bytes): set<Bytes>
  {
    set k | k in m && InRange(key, end, k)
  }

  /** The pairs of a range, in key order. */
  function Select(m: Snapshot, key: Bytes, end: Bytes): seq<KeyValue>
  {
    var ks := Sorted(KeysIn(m, key, end));
    seq(|ks|, i requires 0 <= i < |ks| => assert ks[i] in KeysIn(m, key, end); ToKv(ks[i], m[ks[i]]))
  }

  predicate Kept(r: RangeRequest, kv: KeyValue)
  {
    && (r.maxMod != 0 ==> kv.mod <= r.maxMod) && (r.minMod != 0 ==> kv.mod >= r.minMod)
    && (r.maxCreate != 0 ==> kv.create <= r.maxCreate) && (r.minCreate != 0 ==> kv.create >= r.minCreate)
  }

  function Prune(r: RangeRequest, kvs: seq<KeyValue>): seq<KeyValue>
  {
    if kvs == [] then []
    else (if Kept(r, kvs[0]) then [kvs[0]] else []) + Prune(r, kvs[1..])
  }

  predicate Before(target: SortTarget, a: KeyValue, b: KeyValue)
  {
    match target
    case ByKey => Less(a.key, b.key)
    case ByVersion => a.version < b.version
    case ByCreate => a.create < b.create
    case ByMod => a.mod < b.mod
    case ByValue => Less(a.value, b.value)
  }

  predicate Precedes(target: SortTarget, descending: bool, a: KeyValue, b: KeyValue)
  {
    if descending then Before(target, b, a) else Before(target, a, b)
  }

  function Insert(target: SortTarget, descending: bool, x: KeyValue, s: seq<KeyValue>): seq<KeyValue>
  {
    if s == [] || !Precedes(target, descending, s[0], x) then [x] + s
    else [s[0]] + Insert(target, descending, x, s[1..])
  }

  function Sort(target: SortTarget, descending: bool, s: seq<KeyValue>): seq<KeyValue>
  {
    if s == [] then [] else Insert(target, descending, s[0], Sort(target, descending, s[1..]))
  }

  function Strip(kvs: seq<KeyValue>): seq<KeyValue>
  {
    seq(|kvs|, i requires 0 <= i < |kvs| => kvs[i].(value := []))
  }

  predicate Filtered(r: RangeRequest)
  {
    r.minMod != 0 || r.maxMod != 0 || r.minCreate != 0 || r.maxCreate != 0
  }

  /** What is fetched before filtering and sorting: with neither, only one pair
      beyond the limit. */
  function Fetched(r: RangeRequest, all: seq<KeyValue>): seq<KeyValue>
  {
    if r.limit > 0 && r.order == NoOrder && !Filtered(r) && |all| > r.limit + 1 then all[..r.limit + 1] else all
  }

  function Arranged(r: RangeRequest, kvs: seq<KeyValue>): seq<KeyValue>
  {
    if r.order == NoOrder && r.target == ByKey then kvs else Sort(r.target, r.order == Descend, kvs)
  }

  function Page(r: RangeRequest, all: seq<KeyValue>): (bool, seq<KeyValue>)
  {
    if r.countOnly then (false, [])
    else
      var kvs := Arranged(r, Prune(r, Fetched(r, all)));
      var more := r.limit > 0 && |kvs| > r.limit;
      var cut := if more then kvs[..r.limit] else kvs;
      (more, if r.keysOnly then Strip(cut) else cut)
  }

  // ---- Transactions ----

  predicate CompareNumber(result: CompareResult, actual: int, operand: int)
  {
    match result
    case Equal => actual == operand
    case NotEqual => actual != operand
    case Greater => actual > operand
    case Lesser => actual < operand
  }

  predicate CompareRecord(c: Compare, r: Record)
  {
    match c.target
    case VersionOf => CompareNumber(c.result, r.version, c.number)
    case CreateOf => CompareNumber(c.result, r.create, c.number)
    case ModOf => CompareNumber(c.result, r.mod, c.number)
    case LeaseOf => CompareNumber(c.result, r.lease, c.number)
    case ValueOf =>
      match c.result
      case Equal => r.value == c.value
      case NotEqual => r.value != c.value
      case Greater => Less(c.value, r.value)
      case Lesser => Less(r.value, c.value)
  }

  const NO_RECORD: Record := Record([], 0, 0, 0, 0)

  /** Every pair of the range satisfies the comparison; an empty range compares as
      a key with zero metadata, and fails a value comparison. */
  predicate CompareHolds(m: Snapshot, c: Compare)
  {
    if KeysIn(m, c.key, c.end) == {} then c.target != ValueOf && CompareRecord(c, NO_RECORD)
    else forall k :: k in KeysIn(m, c.key, c.end) ==> CompareRecord(c, m[k])
  }

  /** Two operations of one branch that write the same key. */
  predicate Clash(a: Op, b: Op)
  {
    && a.OpPut?
    && ((b.OpPut? && a.put.key == b.put.key) || (b.OpDelete? && InRange(b.del.key, b.del.end, a.put.key)))
  }

  predicate HasDuplicates(ops: seq<Op>)
  {
    exists i, j :: 0 <= i < |ops| && 0 <= j < |ops| && i != j && Clash(ops[i], ops[j])
  }

  function PutError(s: Store, op: Op): Option<StoreError>
    requires s.Valid()
  {
    if !op.OpPut? then None
    else if (op.put.ignoreValue || op.put.ignoreLease) && op.put.key !in s.Head() then Some(KeyNotFound)
    else if op.put.lease != 0 && op.put.lease !in s.leases then Some(LeaseNotFound)
    else None
  }

  function RangeError(s: Store, op: Op): Option<StoreError>
  {
    if !op.OpRange? || op.range.revision <= 0 then None
    else if op.range.revision > s.Rev() then Some(FutureRevision)
    else if op.range.revision < s.compacted then Some(Compacted)
    else None
  }

  function FirstPutError(s: Store, ops: seq<Op>): Option<StoreError>
    requires s.Valid()
  {
    if ops == [] then None
    else if PutError(s, ops[0]).Some? then PutError(s, ops[0])
    else FirstPutError(s, ops[1..])
  }

  function FirstRangeError(s: Store, ops: seq<Op>): Option<StoreError>
  {
    if ops == [] then None
    else if RangeError(s, ops[0]).Some? then RangeError(s, ops[0])
    else FirstRangeError(s, ops[1..])
  }

  function CheckOps(s: Store, ops: seq<Op>): Option<StoreError>
    requires s.Valid()
  {
    var e := FirstPutError(s, ops);
    if e.Some? then e else FirstRangeError(s, ops)
  }

  /** The keyspace a running transaction sees, and whether it has changed it. */
  datatype Work = Work(snap: Snapshot, dirty: bool)

  function ReadAt(s: Store, w: Work, revision: int): Snapshot
  {
    if 0 < revision < |s.hist| then s.hist[revision] else w.snap
  }

  function PutRecord(s: Store, w: Work, p: PutRequest): Record
  {
    if p.key in w.snap then
      var was := w.snap[p.key];
      Record(if p.ignoreValue then was.value else p.value, was.create, s.Rev() + 1, was.version + 1,
             if p.ignoreLease then was.lease else p.lease)
    else
      Record(p.value, s.Rev() + 1, s.Rev() + 1, 1, p.lease)
  }

  function ApplyOp(s: Store, w: Work, op: Op): (Work, OpResponse)
  {
    match op
    case OpRange(r) =>
      var all := Select(ReadAt(s, w, r.revision), r.key, r.end);
      var (more, kvs) := Page(r, all);
      (w, OpResponse(s.Rev() + (if w.dirty then 1 else 0), |all|, more, kvs))
    case OpPut(p) =>
      var prev := if p.prevKv && p.key in w.snap then [ToKv(p.key, w.snap[p.key])] else [];
      (Work(w.snap[p.key := PutRecord(s, w, p)], true), OpResponse(s.Rev() + 1, 0, false, prev))
    case OpDelete(d) =>
      var gone := Select(w.snap, d.key, d.end);
      var dirty := w.dirty || gone != [];
      (Work(w.snap - KeysIn(w.snap, d.key, d.end), dirty),
       OpResponse(s.Rev() + (if dirty then 1 else 0), |gone|, false, if d.prevKv then gone else []))
  }

  function ApplyOps(s: Store, w: Work, ops: seq<Op>): (Work, seq<OpResponse>)
    decreases ops
  {
    if ops == [] then (w, [])
    else
      var (w1, r) := ApplyOp(s, w, ops[0]);
      var (w2, rs) := ApplyOps(s, w1, ops[1..]);
      (w2, [r] + rs)
  }

  predicate ComparesHold(m: Snapshot, cs: seq<Compare>)
  {
    forall i :: 0 <= i < |cs| ==> CompareHolds(m, cs[i])
  }

  function Branch(s: Store, t: Txn): seq<Op>
    requires s.Valid()
  {
    if ComparesHold(s.Head(), t.compares) then t.success else t.failure
  }

  function Publish(s: Store, w: Work): Store
  {
    if w.dirty then s.(hist := s.hist + [w.snap]) else s
  }

  /** One atomic transaction. A single put, delete or range is the transaction with
      no comparison and that one operation. */
  function Execute(s: Store, t: Txn): (Store, TxnResult)
    requires s.Valid()
  {
    if HasDuplicates(t.success) || HasDuplicates(t.failure) then (s, Rejected(DuplicateKey))
    else
      var ops := Branch(s, t);
      var e := CheckOps(s, ops);
      if e.Some? then (s, Rejected(e.value))
      else
        var (w, rs) := ApplyOps(s, Work(s.Head(), false), ops);
        (Publish(s, w), Committed(ComparesHold(s.Head(), t.compares), s.Rev() + (if w.dirty then 1 else 0), rs))
  }

  // ---- Leases and compaction ----

  function Grant(s: Store, id: int): Store
  {
    if id == 0 then s else s.(leases := s.leases + {id})
  }

  function Attached(m: Snapshot, id: int): set<Bytes>
  {
    set k | k in m && m[k].lease == id
  }

  /** Revoking a lease, or its expiry, deletes all its keys at one revision. */
  function Revoke(s: Store, id: int): Store
    requires s.Valid()
  {
    if id !in s.leases then s
    else
      var gone := Attached(s.Head(), id);
      Publish(s.(leases := s.leases - {id}), Work(s.Head() - gone, gone != {}))
  }

  function Compact(s: Store, revision: int): Store
  {
    if s.compacted < revision <= s.Rev() then s.(compacted := revision) else s
  }

  // ---- Watch events ----

  datatype Event = Event(delete: bool, kv: KeyValue, prev: Option<KeyValue>)

  /** The event of key k at revision r, if the key changed there. */
  function EventAt(s: Store, r: int, k: Bytes): Option<Event>
    requires 0 < r < |s.hist|
  {
    var prev := if k in s.hist[r - 1] then Some(ToKv(k, s.hist[r - 1][k])) else None;
    if k in s.hist[r] then
      if s.hist[r][k].mod == r then Some(Event(false, ToKv(k, s.hist[r][k]), prev)) else None
    else if prev.Some? then Some(Event(true, KeyValue(k, [], 0, r, 0, 0), prev))
    else None
  }
}
