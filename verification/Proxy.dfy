/** One proxy's request code, run without interruption: validation of whole requests
    before any write, staging, the coordinator call, and decoding in place. */
module Proxy {
  import opened Wrappers
  import opened ByteStrings
  import opened Keys
  import opened Routing
  import opened Mvcc
  import opened Codec
  import opened Simulation
  import opened Abstraction
  import opened Protocol
  import opened Refinement
  import opened Semantics

  // ---- Requests as they arrive, any part of which may be missing ----

  datatype ClientOp =
    | NilOp
    | OtherOp
    | RangeOp(range: Option<RangeRequest>)
    | PutOp(put: Option<PutRequest>)
    | DeleteOp(del: Option<DeleteRequest>)

  datatype ClientTxn = ClientTxn(compares: seq<Option<Compare>>, success: seq<ClientOp>, failure: seq<ClientOp>)

  /** The operation of a client request, if there is one and it is not nested. */
  function Flat(c: ClientOp): Option<Op>
  {
    match c
    case RangeOp(Some(r)) => Some(OpRange(r))
    case PutOp(Some(p)) => Some(OpPut(p))
    case DeleteOp(Some(d)) => Some(OpDelete(d))
    case _ => None
  }

  predicate Complete(t: ClientTxn)
  {
    && (forall i :: 0 <= i < |t.compares| ==> t.compares[i].Some?)
    && (forall i :: 0 <= i < |t.success| ==> Flat(t.success[i]).Some?)
    && (forall i :: 0 <= i < |t.failure| ==> Flat(t.failure[i]).Some?)
  }

  function FlatOps(cs: seq<ClientOp>): seq<Op>
    requires forall i :: 0 <= i < |cs| ==> Flat(cs[i]).Some?
  {
    seq(|cs|, i requires 0 <= i < |cs| => Flat(cs[i]).value)
  }

  function FlatTxn(t: ClientTxn): Txn
    requires Complete(t)
  {
    Txn(seq(|t.compares|, i requires 0 <= i < |t.compares| => t.compares[i].value),
        FlatOps(t.success), FlatOps(t.failure))
  }

  /** The request holds this operation. */
  predicate StandsFor(c: ClientOp, op: Op)
  {
    match op
    case OpRange(r) => c == RangeOp(Some(r))
    case OpPut(p) => c == PutOp(Some(p))
    case OpDelete(d) => c == DeleteOp(Some(d))
  }

  predicate StandForAll(cs: seq<ClientOp>, ops: seq<Op>)
  {
    |cs| == |ops| && forall i :: 0 <= i < |ops| ==> StandsFor(cs[i], ops[i])
  }

  /** The request is this transaction: comparison by comparison, branch by branch and
      operation by operation. */
  predicate Represents(req: ClientTxn, t: Txn)
  {
    && |req.compares| == |t.compares|
    && (forall i :: 0 <= i < |t.compares| ==> req.compares[i] == Some(t.compares[i]))
    && StandForAll(req.success, t.success) && StandForAll(req.failure, t.failure)
  }

  lemma FlatStandsFor(c: ClientOp, op: Op)
    ensures StandsFor(c, op) <==> Flat(c) == Some(op)
  {}

  lemma FlatOpsStand(cs: seq<ClientOp>, ops: seq<Op>)
    ensures StandForAll(cs, ops) <==> (forall i :: 0 <= i < |cs| ==> Flat(cs[i]).Some?) && ops == FlatOps(cs)
  {
    if StandForAll(cs, ops) {
      forall i | 0 <= i < |cs| ensures Flat(cs[i]) == Some(ops[i]) {
        assert StandsFor(cs[i], ops[i]);
        FlatStandsFor(cs[i], ops[i]);
      }
    }
    if (forall i :: 0 <= i < |cs| ==> Flat(cs[i]).Some?) && ops == FlatOps(cs) {
      forall i | 0 <= i < |cs| ensures StandsFor(cs[i], ops[i]) {
        assert Flat(cs[i]) == Some(ops[i]);
      }
    }
  }

  /** A complete request is one transaction, and an incomplete one is none. */
  lemma RepresentsExact(req: ClientTxn, t: Txn)
    ensures Represents(req, t) <==> Complete(req) && t == FlatTxn(req)
  {
    FlatOpsStand(req.success, t.success);
    FlatOpsStand(req.failure, t.failure);
    if Represents(req, t) { assert t.compares == FlatTxn(req).compares; }
  }

  // ---- Validation ----

  /** validateCoordinatedPut on a request that is present. */
  predicate ValidPut(p: PutRequest)
  {
    p.key != [] && (p.ignoreValue ==> p.value == []) && (p.ignoreLease ==> p.lease == 0)
  }

  predicate OpOk(rs: seq<Route>, op: Op)
    requires Covering(rs)
  {
    AcceptedOp(op) && (!op.OpRange? ==> MutationOf(rs, op).Ok?)
  }

  /** One iteration of the validation pass: the shard the operation mutates, or -1. */
  method CheckOp(rs: seq<Route>, c: ClientOp) returns (r: Result<int, Status>)
    requires Covering(rs)
    ensures r.Ok? <==> Flat(c).Some? && OpOk(rs, Flat(c).value)
    ensures r.Ok? ==> StandsFor(c, Flat(c).value)
    ensures r.Ok? ==> r.value == (if Flat(c).value.OpRange? then -1 else MutationOf(rs, Flat(c).value).value)
    ensures r.Err? ==> r.error == InvalidArgument
  {
    match c
    case RangeOp(Some(q)) =>
      if q.target == ByValue || q.key == [] { return Err(InvalidArgument); }
      return Ok(-1);
    case PutOp(Some(p)) =>
      if !ValidPut(p) { return Err(InvalidArgument); }
      var m := MutationShard(rs, p.key, []);
      if m.Err? { return Err(InvalidArgument); }
      return Ok(m.value);
    case DeleteOp(Some(d)) =>
      var m := MutationShard(rs, d.key, d.end);
      if m.Err? { return Err(InvalidArgument); }
      return Ok(m.value);
    case _ =>
      return Err(InvalidArgument);
  }

  /** The transaction checks made before anything is written: it is accepted exactly
      when nothing is missing or nested, nothing compares or sorts by value, and
      both branches together mutate at most one shard. */
  method ValidateTxn(rs: seq<Route>, req: ClientTxn) returns (r: Result<Txn, Status>)
    requires Covering(rs)
    ensures r.Ok? ==> Represents(req, r.value) && AcceptedTxn(rs, r.value)
    ensures r.Err? ==> r.error == InvalidArgument && forall t :: Represents(req, t) ==> !AcceptedTxn(rs, t)
  {
    forall t ensures Represents(req, t) <==> Complete(req) && t == FlatTxn(req) { RepresentsExact(req, t); }
    r := FlattenTxn(rs, req);
  }

  method FlattenTxn(rs: seq<Route>, req: ClientTxn) returns (r: Result<Txn, Status>)
    requires Covering(rs)
    ensures r.Ok? <==> Complete(req) && AcceptedTxn(rs, FlatTxn(req))
    ensures r.Ok? ==> r.value == FlatTxn(req)
    ensures r.Err? ==> r.error == InvalidArgument
  {
    for i := 0 to |req.compares|
      invariant forall j :: 0 <= j < i ==> req.compares[j].Some? && TranslatableCompare(req.compares[j].value)
    {
      var c := req.compares[i];
      if c.None? || c.value.target == ValueOf || c.value.key == [] {
        if Complete(req) { assert FlatTxn(req).compares[i] == c.value; }
        return Err(InvalidArgument);
      }
    }
    var ops := req.success + req.failure;
    var mutation := -1;
    for i := 0 to |ops|
      invariant -1 <= mutation
      invariant forall j :: 0 <= j < i ==> Flat(ops[j]).Some? && OpOk(rs, Flat(ops[j]).value)
      invariant forall j :: 0 <= j < i && !Flat(ops[j]).value.OpRange? ==>
                  mutation >= 0 && MutationOf(rs, Flat(ops[j]).value) == Ok(mutation)
      invariant mutation >= 0 ==>
                  exists j :: 0 <= j < i && !Flat(ops[j]).value.OpRange?
                              && MutationOf(rs, Flat(ops[j]).value) == Ok(mutation)
    {
      var index := CheckOp(rs, ops[i]);
      if index.Err? {
        RefusedOp(rs, req, i);
        return Err(InvalidArgument);
      }
      if index.value >= 0 {
        if mutation >= 0 && mutation != index.value {
          RefusedPair(rs, req, i, mutation);
          return Err(InvalidArgument);
        }
        mutation := index.value;
      }
    }
    AllAccepted(rs, req, if mutation < 0 then 0 else mutation);
    return Ok(FlatTxn(req));
  }

  /** Positions in both branches together. */
  lemma FlatAt(req: ClientTxn, i: nat)
    requires Complete(req) && i < |req.success| + |req.failure|
    ensures Flat((req.success + req.failure)[i]) == Some(All(FlatTxn(req))[i])
  {}

  lemma RefusedOp(rs: seq<Route>, req: ClientTxn, i: nat)
    requires Covering(rs) && i < |req.success + req.failure|
    requires var c := (req.success + req.failure)[i]; Flat(c).None? || !OpOk(rs, Flat(c).value)
    ensures !(Complete(req) && AcceptedTxn(rs, FlatTxn(req)))
  {
    if Complete(req) {
      FlatAt(req, i);
      var op := All(FlatTxn(req))[i];
      forall m: nat ensures AcceptedOp(op) ==> !Confined(rs, All(FlatTxn(req)), m) {}
    }
  }

  lemma RefusedPair(rs: seq<Route>, req: ClientTxn, i: nat, m: nat)
    requires Covering(rs) && i < |req.success + req.failure|
    requires var ops := req.success + req.failure;
             && Flat(ops[i]).Some? && !Flat(ops[i]).value.OpRange?
             && MutationOf(rs, Flat(ops[i]).value).Ok? && MutationOf(rs, Flat(ops[i]).value) != Ok(m)
             && exists j :: 0 <= j < i && Flat(ops[j]).Some? && !Flat(ops[j]).value.OpRange?
                            && MutationOf(rs, Flat(ops[j]).value) == Ok(m)
    ensures !(Complete(req) && AcceptedTxn(rs, FlatTxn(req)))
  {
    if Complete(req) {
      var ops, all := req.success + req.failure, All(FlatTxn(req));
      var j :| 0 <= j < i && Flat(ops[j]).Some? && !Flat(ops[j]).value.OpRange?
               && MutationOf(rs, Flat(ops[j]).value) == Ok(m);
      FlatAt(req, i);
      FlatAt(req, j);
      assert MutationOf(rs, all[i]) != MutationOf(rs, all[j]);
      forall n: nat ensures !Confined(rs, all, n) {}
    }
  }

  lemma AllAccepted(rs: seq<Route>, req: ClientTxn, m: nat)
    requires Covering(rs)
    requires forall i :: 0 <= i < |req.compares| ==> req.compares[i].Some? && TranslatableCompare(req.compares[i].value)
    requires var ops := req.success + req.failure;
             forall j :: 0 <= j < |ops| ==>
               && Flat(ops[j]).Some? && OpOk(rs, Flat(ops[j]).value)
               && (!Flat(ops[j]).value.OpRange? ==> MutationOf(rs, Flat(ops[j]).value) == Ok(m))
    ensures Complete(req) && AcceptedTxn(rs, FlatTxn(req))
  {
    var ops := req.success + req.failure;
    forall i | 0 <= i < |req.success| ensures Flat(req.success[i]).Some? { assert ops[i] == req.success[i]; }
    forall i | 0 <= i < |req.failure| ensures Flat(req.failure[i]).Some? {
      assert ops[|req.success| + i] == req.failure[i];
    }
    var all := All(FlatTxn(req));
    forall j | 0 <= j < |all| ensures AcceptedOp(all[j]) && (!all[j].OpRange? ==> MutationOf(rs, all[j]) == Ok(m)) {
      FlatAt(req, j);
    }
    assert Confined(rs, all, m);
  }

  // ---- Single requests are accepted exactly as one-operation transactions ----

  lemma SingleAccepted(rs: seq<Route>, op: Op)
    requires Covering(rs)
    ensures AcceptedTxn(rs, Single(op)) <==> OpOk(rs, op)
  {
    var all := All(Single(op));
    assert all == [op] && all[0] == op;
    if OpOk(rs, op) {
      var m: nat := if op.OpRange? then 0 else MutationOf(rs, op).value;
      assert Confined(rs, all, m);
    }
  }

  // ---- The proxy ----

  /** What the environment does to one blob write: the token drawn, if the random
      source gives one, and the fate of the write. */
  datatype Draw = Draw(token: Option<Bytes>, fate: Fate)

  ghost predicate FreshDraws(tokens: set<Bytes>, draws: seq<Draw>)
  {
    && (forall i :: 0 <= i < |draws| && draws[i].token.Some? ==> draws[i].token.value !in tokens)
    && (forall i, j :: 0 <= i < j < |draws| && draws[i].token.Some? ==> draws[i].token != draws[j].token)
  }

  /** Every value of both branches was stored and acknowledged. */
  predicate AllStored(t: Txn, draws: seq<Draw>)
    requires |draws| == |All(t)|
  {
    forall i :: 0 <= i < |draws| && NeedsBlob(All(t)[i]) ==> draws[i].token.Some? && draws[i].fate.Stored?
  }

  /** What becomes of an accepted request, given whether all its values were stored, the fate
      of the coordinator call and the data shards that cannot be read: it takes effect on
      the logical store unless a value was not stored or the call did not take effect, and
      it is answered, with that store's answer, only if the reply came back, and surely so
      if then every shard can be read. */
  ghost predicate Outcome(l: Store, l': Store, t: Txn, stored: bool, call: Fate, down: set<Bytes>,
                          r: Result<TxnResult, Status>)
    requires l.Valid()
  {
    && l' == (if stored && !call.NotStored? then Execute(l, t).0 else l)
    && (r.Ok? ==> stored && call.Stored? && r.value == Execute(l, t).1)
    && (stored && call.Stored? && down == {} ==> r.Ok?)
  }

  class CoordinatedProxy {
    const routes: seq<Route>
    var coord: Store
    var data: Data
    var tokens: set<Bytes>

    ghost function State(): State
      reads this
    {
      Protocol.State.State(coord, data, tokens, map[], map[], Some(routes))
    }

    ghost predicate Valid()
      reads this
    {
      Covering(routes) && SoundStore(State().View(), coord) && BlobsNamed(State())
    }

    /** The store the users of this proxy see. */
    ghost function Logical(): (l: Store)
      requires Valid()
      reads this
      ensures l.Valid()
    {
      ValidLogical(State())
    }

    /** Attaches to a coordinator and data shards that already satisfy the invariant. */
    constructor (routes: seq<Route>, coord: Store, data: Data, tokens: set<Bytes>)
      requires Covering(routes) && SoundStore(Env(routes, data), coord)
      requires BlobsNamed(Protocol.State.State(coord, data, tokens, map[], map[], Some(routes)))
      ensures Valid() && this.routes == routes && this.coord == coord && this.data == data && this.tokens == tokens
    {
      this.routes := routes;
      this.coord := coord;
      this.data := data;
      this.tokens := tokens;
    }

    /** stagePut: the value becomes a new blob on the key's own shard, and the request
        to publish holds a reference to it. Nothing stored before changes. */
    method StagePut(p: PutRequest, draw: Draw) returns (r: Result<PutRequest, Status>)
      requires Valid() && ValidPut(p) && (draw.token.Some? ==> draw.token.value !in tokens)
      modifies this`data, this`tokens
      ensures Valid() && Logical() == old(Logical()) && Extends(old(data), data)
      ensures old(tokens) <= tokens <= old(tokens) + (if draw.token.Some? then {draw.token.value} else {})
      ensures r.Ok? <==> p.ignoreValue || (draw.token.Some? && draw.fate.Stored?)
      ensures r.Ok? ==> StagedOp(State().View(), OpPut(p), OpPut(r.value))
      ensures p.ignoreValue ==> data == old(data) && tokens == old(tokens)
    {
      var q := p.(key := MetaKey(p.key));
      if !p.ignoreValue {
        if draw.token.None? { return Err(Unavailable); }
        var token := draw.token.value;
        var i := FindShard(routes, p.key);
        ShardIsUniqueOwner(routes, p.key);
        var blob := BLOB_PREFIX + token;
        ghost var before := State();
        BlobsStayNamed(before, routes[i].endpoint, token, p.value);
        FreshBlobExtends(before, routes[i].endpoint, token, p.value);
        tokens := tokens + {token};
        if !draw.fate.NotStored? { data := StoreBlob(data, routes[i].endpoint, blob, p.value); }
        SoundStable(before.View(), State().View(), coord);
        if !draw.fate.Stored? { return Err(Unavailable); }
        q := q.(value := EncodeRef(i, blob));
        StagedReference(State().View(), OpPut(p), token);
      }
      return Ok(q);
    }

    /** One operation of the translation pass. */
    method StageOne(op: Op, draw: Draw) returns (r: Result<Op, Status>)
      requires Valid() && AcceptedOp(op) && (draw.token.Some? ==> draw.token.value !in tokens)
      modifies this`data, this`tokens
      ensures Valid() && Logical() == old(Logical()) && Extends(old(data), data)
      ensures old(tokens) <= tokens <= old(tokens) + (if draw.token.Some? then {draw.token.value} else {})
      ensures r.Ok? <==> (NeedsBlob(op) ==> draw.token.Some? && draw.fate.Stored?)
      ensures r.Ok? ==> StagedOp(State().View(), op, r.value)
      ensures !NeedsBlob(op) ==> data == old(data)
    {
      match op
      case OpPut(p) =>
        var q := StagePut(p, draw);
        return if q.Ok? then Ok(OpPut(q.value)) else Err(q.error);
      case OpRange(q) => return Ok(TranslateOp(op, []));
      case OpDelete(d) => return Ok(TranslateOp(op, []));
    }

    /** The translation pass over both branches, in order. A failure leaves the
        coordinator alone and at most adds blobs that nothing refers to. */
    method StageAll(t: Txn, draws: seq<Draw>) returns (r: Result<seq<Op>, Status>)
      requires Valid() && AcceptedTxn(routes, t) && FreshDraws(tokens, draws) && |draws| == |All(t)|
      modifies this`data, this`tokens
      ensures Valid() && Logical() == old(Logical()) && Extends(old(data), data)
      ensures r.Ok? <==> AllStored(t, draws)
      ensures (forall i :: 0 <= i < |draws| ==> !NeedsBlob(All(t)[i])) ==> data == old(data)
      ensures r.Ok? ==>
                && |r.value| == |All(t)|
                && forall i :: 0 <= i < |All(t)| ==> StagedOp(State().View(), All(t)[i], r.value[i])
    {
      var ops, done := All(t), [];
      for k := 0 to |ops|
        invariant Valid() && Logical() == old(Logical()) && Extends(old(data), data)
        invariant forall i :: k <= i < |draws| && draws[i].token.Some? ==> draws[i].token.value !in tokens
        invariant (forall i :: 0 <= i < k ==> !NeedsBlob(ops[i])) ==> data == old(data)
        invariant forall i :: 0 <= i < k && NeedsBlob(ops[i]) ==> draws[i].token.Some? && draws[i].fate.Stored?
        invariant |done| == k && StagedSoFar(State().View(), ops, done)
      {
        assert AcceptedOp(ops[k]);
        ghost var before := State().View();
        var t := StageOne(ops[k], draws[k]);
        StagedLater(before, State().View(), ops, done);
        if t.Err? { return Err(t.error); }
        done := done + [t.value];
      }
      return Ok(done);
    }

    /** decodeKV with some data shards unreachable. */
    method DecodePair(kv: KeyValue, keysOnly: bool, down: set<Bytes>) returns (r: Result<KeyValue, Status>)
      requires Valid()
      ensures r.Ok? ==> r == DecodeKV(State().View(), kv, keysOnly)
      ensures r.Err? ==> r.error == DataLoss || (r.error == Unavailable && down != {})
      ensures down == {} ==> r == DecodeKV(State().View(), kv, keysOnly)
    {
      if !IsMetaKey(kv.key) { return Err(DataLoss); }
      var named := kv.(key := UserKey(kv.key));
      if keysOnly { return Ok(named); }
      if kv.value == [] { return Err(DataLoss); }
      var ref := DecodeRef(kv.value);
      if ref.None? || ref.value.0 >= |routes| || !HasPrefix(ref.value.1, BLOB_PREFIX) { return Err(DataLoss); }
      var endpoint := routes[ref.value.0].endpoint;
      if endpoint in down { return Err(Unavailable); }
      if !HasBlob(data, endpoint, ref.value.1) { return Err(DataLoss); }
      return Ok(named.(value := data[endpoint][ref.value.1]));
    }

    /** Decodes every pair of every response in place; all or nothing. */
    method DecodeAll(ops: seq<Op>, responses: seq<OpResponse>, ghost answer: seq<OpResponse>, down: set<Bytes>)
      returns (r: Result<seq<OpResponse>, Status>)
      requires Valid() && |responses| == |answer| == |ops|
      requires forall i :: 0 <= i < |ops| ==> RelResponse(State().View(), KeysOnly(ops[i]), responses[i], answer[i])
      ensures r.Ok? ==> r.value == answer
      ensures down == {} ==> r.Ok?
    {
      var out := responses;
      for i := 0 to |ops|
        invariant |out| == |ops|
        invariant forall a :: 0 <= a < i ==> out[a] == answer[a]
        invariant forall a :: i <= a < |ops| ==> out[a] == responses[a]
      {
        var kvs := out[i].kvs;
        for j := 0 to |kvs|
          invariant |kvs| == |answer[i].kvs| == |responses[i].kvs|
          invariant forall q :: 0 <= q < j ==> kvs[q] == answer[i].kvs[q]
          invariant forall q :: j <= q < |kvs| ==> kvs[q] == responses[i].kvs[q]
        {
          assert RelKv(State().View(), KeysOnly(ops[i]), kvs[j], answer[i].kvs[j]);
          RelKvDecodes(State().View(), KeysOnly(ops[i]), kvs[j], answer[i].kvs[j]);
          var kv := DecodePair(kvs[j], KeysOnly(ops[i]), down);
          if kv.Err? { return Err(kv.error); }
          kvs := kvs[j := kv.value];
        }
        assert kvs == answer[i].kvs;
        assert RelResponse(State().View(), KeysOnly(ops[i]), responses[i], answer[i]);
        out := out[i := out[i].(kvs := kvs)];
      }
      assert out == answer;
      return Ok(out);
    }

    /** Staging, one coordinator call and decoding, for an accepted request. */
    method Submit(t: Txn, draws: seq<Draw>, call: Fate, down: set<Bytes>) returns (r: Result<TxnResult, Status>)
      requires Valid() && AcceptedTxn(routes, t) && FreshDraws(tokens, draws) && |draws| == |All(t)|
      modifies this
      ensures Valid() && Extends(old(data), data)
      ensures Outcome(old(Logical()), Logical(), t, AllStored(t, draws), call, down, r)
      ensures (forall i :: 0 <= i < |draws| ==> !NeedsBlob(All(t)[i])) ==> data == old(data)
      ensures !AllStored(t, draws) || call.NotStored? ==> coord == old(coord)
      ensures OnlyReads(All(t)) ==> coord == old(coord)
    {
      var done := StageAll(t, draws);
      if done.Err? { return Err(done.error); }
      ghost var env, c, l, q := State().View(), coord, Logical(), Assembled(t, done.value);
      StagedMeans(env, c, t, done.value);
      if OnlyReads(All(t)) {
        StagedReads(env, t, done.value);
        ReadOnly(c, q);
      }
      var (next, out) := Execute(coord, Assembled(t, done.value));
      if call.NotStored? { return Err(Unavailable); }
      coord := next;
      if call.ReplyLost? { return Err(Unavailable); }
      r := Answer(t, out, Execute(l, t).1, down);
    }

    /** The client's answer from the coordinator's. */
    method Answer(t: Txn, out: TxnResult, ghost answer: TxnResult,
                  down: set<Bytes>) returns (r: Result<TxnResult, Status>)
      requires Valid()
      requires RelResult(State().View(), if out.Committed? && out.succeeded then t.success else t.failure, out, answer)
      ensures r.Ok? ==> r.value == answer
      ensures down == {} ==> r.Ok?
    {
      if out.Rejected? { return Ok(out); }
      var branch := if out.succeeded then t.success else t.failure;
      var responses := DecodeAll(branch, out.responses, answer.responses, down);
      if responses.Err? { return Err(responses.error); }
      return Ok(out.(responses := responses.value));
    }

    /** Txn. A refused request leaves the coordinator and every data shard as they
        were; one that fails to store a value leaves the coordinator as it was, every
        reference in it being to a blob that was there before; one whose coordinator call
        takes effect, reply lost or not, is the logical store's transaction; and an answer is
        that store's answer. */
    method Txn(req: Option<ClientTxn>, draws: seq<Draw>, call: Fate, down: set<Bytes>)
      returns (r: Result<TxnResult, Status>)
      requires Valid() && FreshDraws(tokens, draws)
      requires req.Some? ==> |draws| == |req.value.success + req.value.failure|
      modifies this
      ensures Valid() && Extends(old(data), data)
      ensures (forall t :: !AcceptedRequest(routes, req, t)) ==> r == Err(InvalidArgument) && unchanged(this)
      ensures forall t :: AcceptedRequest(routes, req, t) ==>
                && Outcome(old(Logical()), Logical(), t, AllStored(t, draws), call, down, r)
                && (!AllStored(t, draws) || call.NotStored? ==>
                      coord == old(coord) && SoundStore(Env(routes, old(data)), coord))
    {
      if req.None? { return Err(InvalidArgument); }
      var t := ValidateTxn(routes, req.value);
      if t.Err? { return Err(t.error); }
      forall u | Represents(req.value, u) ensures u == t.value {
        RepresentsExact(req.value, u);
        RepresentsExact(req.value, t.value);
      }
      assert AcceptedRequest(routes, req, t.value);
      r := Submit(t.value, draws, call, down);
    }

    /** Put. */
    method Put(req: Option<PutRequest>, draw: Draw, call: Fate, down: set<Bytes>) returns (r: Result<TxnResult, Status>)
      requires Valid() && (draw.token.Some? ==> draw.token.value !in tokens)
      modifies this
      ensures Valid() && Extends(old(data), data)
      ensures !(req.Some? && ValidPut(req.value)) ==> r == Err(InvalidArgument) && unchanged(this)
      ensures req.Some? && ValidPut(req.value) ==>
                var t := Single(OpPut(req.value));
                && Outcome(old(Logical()), Logical(), t, AllStored(t, [draw]), call, down, r)
                && (!AllStored(t, [draw]) || call.NotStored? ==>
                      coord == old(coord) && SoundStore(Env(routes, old(data)), coord))
    {
      if req.None? || !ValidPut(req.value) { return Err(InvalidArgument); }
      var op := OpPut(req.value);
      MutationShardExact(routes, req.value.key, []);
      SingleAccepted(routes, op);
      r := Submit(Single(op), [draw], call, down);
    }

    /** DeleteRange, refused exactly when its range reaches beyond one shard. */
    method DeleteRange(req: Option<DeleteRequest>, call: Fate, down: set<Bytes>) returns (r: Result<TxnResult, Status>)
      requires Valid()
      modifies this
      ensures Valid() && data == old(data)
      ensures !(req.Some? && MutationShard(routes, req.value.key, req.value.end).Ok?) ==>
                r == Err(InvalidArgument) && unchanged(this)
      ensures req.Some? && MutationShard(routes, req.value.key, req.value.end).Ok? ==>
                Outcome(old(Logical()), Logical(), Single(OpDelete(req.value)), true, call, down, r)
    {
      if req.None? { return Err(InvalidArgument); }
      var m := MutationShard(routes, req.value.key, req.value.end);
      if m.Err? { return Err(m.error); }
      SingleAccepted(routes, OpDelete(req.value));
      r := Submit(Single(OpDelete(req.value)), [Draw(None, NotStored)], call, down);
    }

    /** Range: fails, or gives the logical store's answer at the call; it never changes anything. */
    method Range(req: Option<RangeRequest>, call: Fate, down: set<Bytes>) returns (r: Result<TxnResult, Status>)
      requires Valid()
      modifies this
      ensures Valid() && data == old(data) && coord == old(coord)
      ensures !(req.Some? && req.value.key != [] && req.value.target != ByValue) ==> r == Err(InvalidArgument)
      ensures req.Some? && req.value.key != [] && req.value.target != ByValue ==>
                Outcome(old(Logical()), Logical(), Single(OpRange(req.value)), true, call, down, r)
    {
      if req.None? || req.value.target == ByValue || req.value.key == [] { return Err(InvalidArgument); }
      var op := OpRange(req.value);
      SingleAccepted(routes, op);
      assert OnlyReads(All(Single(op)));
      r := Submit(Single(op), [Draw(None, NotStored)], call, down);
    }
  }

  /** LeaseTimeToLive's loop: strips the prefix of every key in place, and fails on the
      first key without it. */
  method StripPrefixes(keys: array<Bytes>) returns (ok: bool)
    modifies keys
    ensures ok <==> forall i :: 0 <= i < keys.Length ==> IsMetaKey(old(keys[i]))
    ensures ok ==> forall i :: 0 <= i < keys.Length ==> keys[i] == UserKey(old(keys[i]))
  {
    for i := 0 to keys.Length
      invariant forall j :: i <= j < keys.Length ==> keys[j] == old(keys[j])
      invariant forall j :: 0 <= j < i ==> IsMetaKey(old(keys[j])) && keys[j] == UserKey(old(keys[j]))
    {
      if !IsMetaKey(keys[i]) { return false; }
      keys[i] := UserKey(keys[i]);
    }
    return true;
  }

  function Stripped(keys: seq<Bytes>): seq<Bytes>
    requires forall i :: 0 <= i < |keys| ==> IsMetaKey(keys[i])
  {
    seq(|keys|, i requires 0 <= i < |keys| => UserKey(keys[i]))
  }

  lemma StrippedMembers(keys: seq<Bytes>, u: Bytes)
    requires forall i :: 0 <= i < |keys| ==> IsMetaKey(keys[i])
    ensures u in Stripped(keys) <==> MetaKey(u) in keys
  {
    if u in Stripped(keys) {
      var i :| 0 <= i < |keys| && UserKey(keys[i]) == u;
      UserKeyRoundTrip(keys[i]);
    }
    if MetaKey(u) in keys {
      var i :| 0 <= i < |keys| && keys[i] == MetaKey(u);
      MetaKeyRoundTrip(u);
      assert Stripped(keys)[i] == u;
    }
  }

  /** The sequence holds exactly the keys of the set, in whatever order. */
  ghost predicate Enumerates(keys: seq<Bytes>, ks: set<Bytes>)
  {
    forall k :: k in keys <==> k in ks
  }

  lemma LeaseKeysMeta(keys: seq<Bytes>, ks: set<Bytes>)
    requires Enumerates(keys, ks) && forall k :: k in ks ==> IsMetaKey(k)
    ensures forall i :: 0 <= i < |keys| ==> IsMetaKey(keys[i])
  {
    forall i | 0 <= i < |keys| ensures IsMetaKey(keys[i]) { assert keys[i] in keys; }
  }

  /** The keys the coordinator lists for a live lease, in whatever order, all have the
      prefix, and without it they are the logical store's keys of that lease. */
  lemma LeaseKeysLogical(env: Env, c: Store, lease: int, keys: seq<Bytes>)
    requires SoundStore(env, c) && lease in c.leases && Enumerates(keys, Attached(c.Head(), lease))
    ensures forall i :: 0 <= i < |keys| ==> IsMetaKey(keys[i])
    ensures AbsStore(env, c).Valid() && Enumerates(Stripped(keys), Attached(AbsStore(env, c).Head(), lease))
    ensures forall u :: u in Stripped(keys) <==> HoldsLease(AbsStore(env, c).Head(), u, lease)
  {
    SoundRevoke(env, c, lease);
    LeaseKeysMeta(keys, Attached(c.Head(), lease));
    SoundRelated(env, c);
    LeaseKeysIn(env, c, AbsStore(env, c), lease, keys);
  }

  lemma LeaseKeysIn(env: Env, c: Store, l: Store, lease: int, keys: seq<Bytes>)
    requires RelStore(env, c, l) && (forall i :: 0 <= i < |keys| ==> IsMetaKey(keys[i]))
    requires Enumerates(keys, Attached(c.Head(), lease)) && forall k :: k in Attached(c.Head(), lease) ==> IsMetaKey(k)
    ensures Enumerates(Stripped(keys), Attached(l.Head(), lease))
  {
    LeaseKeysRelated(env, c.Head(), l.Head(), lease, keys);
  }

  lemma LeaseKeysRelated(env: Env, c: Snapshot, l: Snapshot, lease: int, keys: seq<Bytes>)
    requires RelSnap(env, c, l) && (forall i :: 0 <= i < |keys| ==> IsMetaKey(keys[i]))
    requires Enumerates(keys, Attached(c, lease)) && forall k :: k in Attached(c, lease) ==> IsMetaKey(k)
    ensures Enumerates(Stripped(keys), Attached(l, lease))
  {
    RelAttached(env, c, l, lease);
    forall u ensures u in Stripped(keys) <==> u in Attached(l, lease) {
      StrippedMembers(keys, u);
    }
  }

  /** NewCoordinatedProxy against a coordinator whose routing record, if there is one,
      holds the fingerprint of `adopted`. It succeeds exactly when the topology is
      accepted, the reply arrives and the coordinator has these routes already or none. */
  method NewCoordinatedProxy(coordinator: Option<Conn>, shards: seq<ShardArg>, coord: Store, lost: bool,
                             ghost adopted: Option<seq<Route>>)
    returns (r: Result<seq<Route>, Status>, coord': Store)
    requires coord.Valid()
    requires adopted.None? ==> CONFIG_KEY !in coord.Head()
    requires adopted.Some? ==>
               && CONFIG_KEY in coord.Head() && coord.Head()[CONFIG_KEY].version > 0
               && coord.Head()[CONFIG_KEY].value == Fingerprint(adopted.value)
    ensures !Accepted(coordinator, shards) ==> r.Err? && coord' == coord
    ensures Accepted(coordinator, shards) ==>
              (r.Ok? <==> !lost && (adopted.None? || adopted.value == ArgRoutes(shards)))
    ensures r.Ok? ==> r.value == ArgRoutes(shards)
    ensures Accepted(coordinator, shards) && !lost && r.Err? ==> r.error == FailedPrecondition
    ensures adopted.Some? ==> coord' == coord
    ensures adopted.None? && Accepted(coordinator, shards) ==>
              && coord'.Valid() && CONFIG_KEY in coord'.Head()
              && coord'.Head()[CONFIG_KEY].value == Fingerprint(ArgRoutes(shards))
              && coord'.Head() - {CONFIG_KEY} == coord.Head()
  {
    coord' := coord;
    r := CheckTopology(coordinator, shards);
    if r.Err? { return; }
    var fingerprint := Fingerprint(r.value);
    ConfigOutcome(coord, fingerprint);
    var (next, reply) := Execute(coord, ConfigTxn(fingerprint));
    coord' := next;
    if lost { return Err(Unavailable), coord'; }
    if adopted.Some? { FingerprintTells(adopted.value, r.value); }
    if !FingerprintAgrees(reply, fingerprint) { return Err(FailedPrecondition), coord'; }
  }

  ghost predicate AcceptedRequest(rs: seq<Route>, req: Option<ClientTxn>, t: Txn)
  {
    req.Some? && Represents(req.value, t) && AcceptedTxn(rs, t)
  }

  ghost predicate StagedSoFar(env: Env, ops: seq<Op>, done: seq<Op>)
  {
    |done| <= |ops| && forall i :: 0 <= i < |done| ==> StagedOp(env, ops[i], done[i])
  }

  lemma StagedLater(env: Env, env': Env, ops: seq<Op>, done: seq<Op>)
    requires env.routes == env'.routes && Extends(env.data, env'.data) && StagedSoFar(env, ops, done)
    ensures StagedSoFar(env', ops, done)
  {
    forall i | 0 <= i < |done| ensures StagedOp(env', ops[i], done[i]) {
      StagedStable(env, env', ops[i], done[i]);
    }
  }

  /** The staged transaction on the coordinator is the client's own on the logical store. */
  lemma StagedMeans(env: Env, c: Store, t: Txn, done: seq<Op>)
    requires SoundStore(env, c) && AcceptedTxn(env.routes, t) && |done| == |All(t)|
    requires forall i :: 0 <= i < |done| ==> StagedOp(env, All(t)[i], done[i])
    ensures var (c', r) := Execute(c, Assembled(t, done));
            var l := AbsStore(env, c);
            && l.Valid() && SoundStore(env, c') && AbsStore(env, c') == Execute(l, t).0
            && RelResult(env, Branch(l, t), r, Execute(l, t).1)
  {
    var l, q := AbsStore(env, c), Assembled(t, done);
    AssembledIsStaged(env, t, done);
    SoundExecute(env, c, t, q);
    SoundRelated(env, c);
    RelExecute(env, c, l, t, q);
    RelatedIsAbs(env, Execute(c, q).0, Execute(l, t).0);
  }

  predicate OnlyReads(ops: seq<Op>)
  {
    forall i :: 0 <= i < |ops| ==> ops[i].OpRange?
  }

  lemma {:induction false} ReadsApplied(l: Store, w: Work, ops: seq<Op>)
    requires OnlyReads(ops)
    ensures ApplyOps(l, w, ops).0 == w
    decreases ops
  {
    if ops != [] { ReadsApplied(l, w, ops[1..]); }
  }

  /** Reading does not change the store. */
  lemma ReadOnly(l: Store, t: Txn)
    requires l.Valid() && OnlyReads(t.success) && OnlyReads(t.failure)
    ensures Execute(l, t).0 == l
  {
    ReadsApplied(l, Work(l.Head(), false), Branch(l, t));
  }

  lemma StagedReads(env: Env, t: Txn, done: seq<Op>)
    requires |done| == |All(t)| && OnlyReads(All(t))
    requires forall i :: 0 <= i < |done| ==> StagedOp(env, All(t)[i], done[i])
    ensures OnlyReads(Assembled(t, done).success) && OnlyReads(Assembled(t, done).failure)
  {
    assert forall i :: 0 <= i < |done| ==> done[i].OpRange?;
  }
}
