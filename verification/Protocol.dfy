/** Any number of proxies over one coordinator and its data shards, interleaved at
    single remote calls. Every source of nondeterminism (who moves, drawn tokens,
    lost replies, unavailable shards, crashes) is in the label of a step. */
module Protocol {
  import opened Wrappers
  import opened ByteStrings
  import opened Keys
  import opened Routing
  import opened Mvcc
  import opened Codec
  import opened Simulation
  import opened Abstraction

  // ---- Requests ----

  predicate AcceptedOp(op: Op)
  {
    Translatable(op) && (op.OpPut? && op.put.ignoreLease ==> op.put.lease == 0)
  }

  /** The one shard a mutating operation may touch. */
  function MutationOf(rs: seq<Route>, op: Op): Result<nat, Status>
    requires Covering(rs) && !op.OpRange?
  {
    if op.OpPut? then MutationShard(rs, op.put.key, []) else MutationShard(rs, op.del.key, op.del.end)
  }

  predicate Confined(rs: seq<Route>, ops: seq<Op>, m: nat)
    requires Covering(rs)
  {
    forall i :: 0 <= i < |ops| && !ops[i].OpRange? ==> MutationOf(rs, ops[i]) == Ok(m)
  }

  /** A single put, delete or range as a transaction. */
  function Single(op: Op): Txn
  {
    Txn([], [op], [])
  }

  function All(t: Txn): seq<Op>
  {
    t.success + t.failure
  }

  /** What the proxy accepts: flat, no comparison or sort by value, and all
      mutations of both branches on one shard. A single put, delete or range is
      accepted exactly when this holds of the transaction with that one operation. */
  ghost predicate AcceptedTxn(rs: seq<Route>, t: Txn)
  {
    && Covering(rs)
    && (forall i :: 0 <= i < |t.compares| ==> TranslatableCompare(t.compares[i]))
    && (forall i :: 0 <= i < |All(t)| ==> AcceptedOp(All(t)[i]))
    && exists m: nat :: Confined(rs, All(t), m)
  }

  function TranslateOp(op: Op, value: Bytes): Op
  {
    match op
    case OpRange(r) => OpRange(r.(key := MetaKey(r.key), end := MetaEnd(r.end)))
    case OpPut(p) => OpPut(p.(key := MetaKey(p.key), value := if p.ignoreValue then p.value else value))
    case OpDelete(d) => OpDelete(d.(key := MetaKey(d.key), end := MetaEnd(d.end)))
  }

  predicate NeedsBlob(op: Op)
  {
    op.OpPut? && !op.put.ignoreValue
  }

  // ---- States and steps ----

  /** A request in flight: translating and staging its operations one by one, or
      decoding the coordinator's answer in place, one pair at a time, at response i,
      pair j. `answer` is a history variable: what the logical store answered when
      the request committed. No step depends on it. */
  datatype Pending =
    | Staging(proxy: int, txn: Txn, done: seq<Op>)
    | Decoding(proxy: int, txn: Txn, result: TxnResult, i: nat, j: nat, answer: TxnResult)

  type Data = map<Bytes, map<Bytes, Bytes>>

  /** `adopted` are the routes whose fingerprint the coordinator holds, a history
      variable too. `tokens` are all tokens drawn so far. */
  datatype State = State(
    coord: Store, data: Data, tokens: set<Bytes>,
    proxies: map<int, seq<Route>>, pending: map<int, Pending>, adopted: Option<seq<Route>>)
  {
    function View(): Env { Env(if adopted.Some? then adopted.value else [], data) }

    /** The store users are meant to see. */
    ghost function Logical(): Store { AbsStore(View(), coord) }
  }

  const INITIAL: State := State(EMPTY, map[], {}, map[], map[], None)

  /** Whether a blob write took effect, and whether its reply came back. */
  datatype Fate = Stored | ReplyLost | NotStored

  datatype Label =
    | Build(proxy: int, routes: seq<Route>, lost: bool)
    | Begin(id: int, proxy: int, txn: Txn)
    | Rewrite(id: int)
    | Stage(id: int, token: Bytes, fate: Fate)
    | Commit(id: int, lost: bool)
    | Decode(id: int, available: bool)
    | Deliver(id: int)
    | Abandon(id: int)
    | Crash(proxy: int)
    | GrantLease(lease: int)
    | EndLease(lease: int)
    | CompactTo(revision: int)

  function ConfigTxn(fingerprint: Bytes): Txn
  {
    Txn([Compare(CONFIG_KEY, [], VersionOf, Equal, 0, [])],
        [OpPut(PutRequest(CONFIG_KEY, fingerprint, 0, false, false, false))],
        [OpRange(RangeRequest(CONFIG_KEY, [], 0, 0, NoOrder, ByKey, false, false, 0, 0, 0, 0))])
  }

  /** The constructor's reading of the reply: it wrote the fingerprint itself, or
      found exactly one pair with its own fingerprint. */
  predicate FingerprintAgrees(r: TxnResult, fingerprint: Bytes)
  {
    && r.Committed?
    && (r.succeeded ||
        (|r.responses| == 1 && |r.responses[0].kvs| == 1 && r.responses[0].kvs[0].value == fingerprint))
  }

  predicate IsStaging(s: State, id: int)
  {
    id in s.pending && s.pending[id].Staging? && s.pending[id].proxy in s.proxies
  }

  predicate NextOp(s: State, id: int, blob: bool)
  {
    && IsStaging(s, id)
    && |s.pending[id].done| < |All(s.pending[id].txn)|
    && NeedsBlob(All(s.pending[id].txn)[|s.pending[id].done|]) == blob
  }

  predicate FullyDecoded(p: Pending)
  {
    p.Decoding? && (p.result.Rejected? || p.i >= |p.result.responses|)
  }

  ghost predicate Enabled(s: State, a: Label)
  {
    match a
    case Build(p, rs, _) => p !in s.proxies && Covering(rs)
    case Begin(id, p, t) => id !in s.pending && p in s.proxies && AcceptedTxn(s.proxies[p], t)
    case Rewrite(id) => NextOp(s, id, false)
    case Stage(id, token, _) =>
      NextOp(s, id, true) && token !in s.tokens && Covering(s.proxies[s.pending[id].proxy])
    case Commit(id, _) =>
      IsStaging(s, id) && |s.pending[id].done| == |All(s.pending[id].txn)| && s.coord.Valid()
    case Decode(id, _) =>
      id in s.pending && s.pending[id].Decoding? && s.pending[id].proxy in s.proxies && !FullyDecoded(s.pending[id])
    case Deliver(id) => id in s.pending && FullyDecoded(s.pending[id])
    case Abandon(id) => id in s.pending
    case Crash(p) => p in s.proxies
    case GrantLease(_) => true
    case EndLease(_) => s.coord.Valid()
    case CompactTo(_) => true
  }

  function StoreBlob(data: Data, endpoint: Bytes, key: Bytes, value: Bytes): Data
  {
    data[endpoint := (if endpoint in data then data[endpoint] else map[])[key := value]]
  }

  function Forget(s: State, id: int): State
  {
    s.(pending := s.pending - {id})
  }

  ghost function BuildStep(s: State, p: int, rs: seq<Route>, lost: bool): State
    requires s.coord.Valid()
  {
    var (coord, r) := Execute(s.coord, ConfigTxn(Fingerprint(rs)));
    s.(coord := coord,
       proxies := if !lost && FingerprintAgrees(r, Fingerprint(rs)) then s.proxies[p := rs] else s.proxies,
       adopted := if r.Committed? && r.succeeded then Some(rs) else s.adopted)
  }

  /** stagePut's reference: the key's own shard, and a blob named by the token. */
  function Reference(rs: seq<Route>, op: Op, token: Bytes): Bytes
    requires Covering(rs) && op.OpPut?
  {
    EncodeRef(Shard(rs, op.put.key), BLOB_PREFIX + token)
  }

  ghost function StageStep(s: State, id: int, token: Bytes, fate: Fate): State
    requires NextOp(s, id, true) && Covering(s.proxies[s.pending[id].proxy])
  {
    var p := s.pending[id];
    var rs := s.proxies[p.proxy];
    var op := All(p.txn)[|p.done|];
    var t := s.(tokens := s.tokens + {token},
                data := if fate.NotStored? then s.data
                        else StoreBlob(s.data, rs[Shard(rs, op.put.key)].endpoint, BLOB_PREFIX + token, op.put.value));
    if fate.Stored? then
      t.(pending := t.pending[id := p.(done := p.done + [TranslateOp(op, Reference(rs, op, token))])])
    else Forget(t, id)
  }

  /** The transaction sent to the coordinator once every operation is translated. */
  function Assembled(t: Txn, done: seq<Op>): Txn
    requires |done| == |All(t)|
  {
    Txn(seq(|t.compares|, i requires 0 <= i < |t.compares| => TranslateCompare(t.compares[i])),
        done[..|t.success|], done[|t.success|..])
  }

  ghost function CommitStep(s: State, id: int, lost: bool): State
    requires Enabled(s, Commit(id, lost))
  {
    var p := s.pending[id];
    var (coord, r) := Execute(s.coord, Assembled(p.txn, p.done));
    var t := s.(coord := coord);
    if lost then Forget(t, id)
    else t.(pending := t.pending[id := Decoding(p.proxy, p.txn, r, 0, 0, Execute(ValidLogical(s), p.txn).1)])
  }

  ghost function ValidLogical(s: State): (l: Store)
    requires s.coord.Valid()
    ensures l.Valid() && l == s.Logical()
  {
    s.Logical()
  }

  function Replaced(r: TxnResult, i: nat, j: nat, kv: KeyValue): TxnResult
    requires r.Committed? && i < |r.responses| && j < |r.responses[i].kvs|
  {
    r.(responses := r.responses[i := r.responses[i].(kvs := r.responses[i].kvs[j := kv])])
  }

  function DecodeStep(s: State, id: int, available: bool): State
    requires id in s.pending && s.pending[id].Decoding? && !FullyDecoded(s.pending[id])
    requires s.pending[id].proxy in s.proxies
  {
    var p := s.pending[id];
    var kvs := p.result.responses[p.i].kvs;
    if p.j >= |kvs| then s.(pending := s.pending[id := p.(i := p.i + 1, j := 0)])
    else
      var branch := if p.result.succeeded then p.txn.success else p.txn.failure;
      var keysOnly := p.i < |branch| && KeysOnly(branch[p.i]);
      match DecodeKV(Env(s.proxies[p.proxy], s.data), kvs[p.j], keysOnly)
      case Ok(kv) =>
        if available then
          s.(pending := s.pending[id := p.(result := Replaced(p.result, p.i, p.j, kv), j := p.j + 1)])
        else Forget(s, id)
      case Err(_) => Forget(s, id)
  }

  ghost function Apply(s: State, a: Label): State
    requires Enabled(s, a) && s.coord.Valid()
  {
    match a
    case Build(p, rs, lost) => BuildStep(s, p, rs, lost)
    case Begin(id, p, t) => s.(pending := s.pending[id := Staging(p, t, [])])
    case Rewrite(id) =>
      var p := s.pending[id];
      s.(pending := s.pending[id := p.(done := p.done + [TranslateOp(All(p.txn)[|p.done|], [])])])
    case Stage(id, token, fate) => StageStep(s, id, token, fate)
    case Commit(id, lost) => CommitStep(s, id, lost)
    case Decode(id, available) => DecodeStep(s, id, available)
    case Deliver(id) => Forget(s, id)
    case Abandon(id) => Forget(s, id)
    case Crash(p) =>
      s.(proxies := s.proxies - {p}, pending := map id | id in s.pending && s.pending[id].proxy != p :: s.pending[id])
    case GrantLease(l) => s.(coord := Grant(s.coord, l))
    case EndLease(l) => s.(coord := Revoke(s.coord, l))
    case CompactTo(r) => s.(coord := Compact(s.coord, r))
  }

  // ---- The invariant ----

  /** The value is a reference to an existing blob on the home shard of user key u. */
  predicate Homed(env: Env, u: Bytes, v: Bytes)
  {
    && Covering(env.routes)
    && match DecodeRef(v)
       case None => false
       case Some((i, key)) =>
         && i == Shard(env.routes, u) && HasPrefix(key, BLOB_PREFIX)
         && HasBlob(env.data, env.routes[i].endpoint, key)
  }

  predicate SoundRecord(env: Env, k: Bytes, r: Record)
  {
    && r.version > 0
    && (k == CONFIG_KEY || (IsMetaKey(k) && UserKey(k) != [] && Homed(env, UserKey(k), r.value)))
    && (k == CONFIG_KEY ==> r.lease == 0)
  }

  ghost predicate SoundSnap(env: Env, c: Snapshot)
  {
    forall k :: k in c ==> SoundRecord(env, k, c[k])
  }

  ghost predicate SoundStore(env: Env, c: Store)
  {
    c.Valid() && 0 !in c.leases && forall i :: 0 <= i < |c.hist| ==> SoundSnap(env, c.hist[i])
  }

  /** The routing record is the fingerprint of the adopted routes, and every
      running proxy has exactly these routes. */
  ghost predicate RoutingAgrees(s: State)
  {
    && s.coord.Valid()
    && (s.adopted.None? ==> CONFIG_KEY !in s.coord.Head() && s.proxies == map[])
    && (s.adopted.Some? ==>
          && Covering(s.adopted.value)
          && CONFIG_KEY in s.coord.Head()
          && s.coord.Head()[CONFIG_KEY].value == Fingerprint(s.adopted.value)
          && forall p :: p in s.proxies ==> s.proxies[p] == s.adopted.value)
  }

  ghost predicate BlobsNamed(s: State)
  {
    forall e :: e in s.data ==> forall b :: b in s.data[e] ==> exists t :: t in s.tokens && b == BLOB_PREFIX + t
  }

  predicate StagedOp(env: Env, o: Op, t: Op)
  {
    Translated(env, o, t) && (NeedsBlob(o) ==> Homed(env, o.put.key, t.put.value))
  }

  /** The first n pairs are decoded, the rest are still related to the answer. */
  predicate PartlyDecoded(env: Env, keysOnly: bool, c: OpResponse, l: OpResponse, n: int)
  {
    && c.rev == l.rev && c.count == l.count && c.more == l.more && |c.kvs| == |l.kvs| && n <= |c.kvs|
    && forall q :: 0 <= q < |c.kvs| ==>
         if q < n then c.kvs[q] == l.kvs[q] else RelKv(env, keysOnly, c.kvs[q], l.kvs[q])
  }

  function DecodedUpTo(l: OpResponse, a: int, i: nat, j: nat): int
  {
    if a < i then |l.kvs| else if a == i then j else 0
  }

  predicate AnswerTracked(env: Env, ops: seq<Op>, p: Pending)
    requires p.Decoding?
  {
    match (p.result, p.answer)
    case (Rejected(e), Rejected(f)) => e == f
    case (Committed(b, r, cs), Committed(b', r', ls)) =>
      && b == b' && r == r' && |cs| == |ls| == |ops|
      && forall a :: 0 <= a < |cs| ==>
           PartlyDecoded(env, KeysOnly(ops[a]), cs[a], ls[a], DecodedUpTo(ls[a], a, p.i, p.j))
    case _ => false
  }

  function AnswerBranch(p: Pending): seq<Op>
    requires p.Decoding?
  {
    if p.result.Committed? && p.result.succeeded then p.txn.success else p.txn.failure
  }

  ghost predicate PendingSound(env: Env, p: Pending)
  {
    match p
    case Staging(_, t, done) =>
      && AcceptedTxn(env.routes, t) && |done| <= |All(t)|
      && forall i :: 0 <= i < |done| ==> StagedOp(env, All(t)[i], done[i])
    case Decoding(_, _, _, _, _, _) => AnswerTracked(env, AnswerBranch(p), p)
  }

  ghost predicate Inv(s: State)
  {
    && SoundStore(s.View(), s.coord) && RoutingAgrees(s) && BlobsNamed(s)
    && forall id :: id in s.pending ==> s.pending[id].proxy in s.proxies && PendingSound(s.View(), s.pending[id])
  }
}
