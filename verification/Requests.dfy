/** What delivered answers, lease ends and compaction mean to clients, in the terms of
    `Semantics`, and that no request gets stuck. */
module Requests {
  import opened ByteStrings
  import opened Mvcc
  import opened MvccFacts
  import opened Semantics
  import opened Simulation
  import opened Protocol
  import opened Refinement
  import opened Runs

  // ---- Delivered answers ----

  lemma ServedHow(ss: seq<State>, ls: seq<Label>, n: nat, id: int) returns (b: int, c: int)
    requires IsRun(ss, ls) && n < |ls| && ls[n] == Deliver(id)
    ensures id in ss[n].pending && ss[n].pending[id].Decoding?
    ensures var p := ss[n].pending[id]; Served(ss, ls, b, c, n, id, p.proxy, p.txn, p.result)
  {
    Linearizable(ss, ls, n, id);
    var p := ss[n].pending[id];
    b, c :| Served(ss, ls, b, c, n, id, p.proxy, p.txn, p.result);
  }

  lemma CommitEffect(ss: seq<State>, ls: seq<Label>, c: int, id: int, t: Txn, r: TxnResult)
    requires IsRun(ss, ls) && CommittedAt(ss, ls, c, id, t, r)
    ensures ss[c + 1].Logical() == Execute(ss[c].Logical(), t).0
  {
    Reachable(ss, ls, c);
    assert StepAt(ss, ls, c);
    StepRefines(ss[c], ls[c]);
  }

  /** The result answers the transaction on store l and leaves l': it ran as a transaction
      should, or it was refused for a reason that there is, and changed nothing. */
  ghost predicate TxnDoes(l: Store, l': Store, t: Txn, r: TxnResult)
    requires l.Valid()
  {
    match r
    case Committed(_, _, _) => (forall e :: !Objection(l, t, e)) && exists works :: TxnMeans(l, l', t, r, works)
    case Rejected(e) => Objection(l, t, e) && l' == l
  }

  lemma ExecuteDoes(l: Store, t: Txn)
    requires l.Valid()
    ensures TxnDoes(l, Execute(l, t).0, t, Execute(l, t).1)
  {
    RefusalKept(l, t);
    if Execute(l, t).1.Committed? { var works := TxnKept(l, t); }
  }

  /** A delivered transaction: at its one commit it took the branch its comparisons choose
      on the logical store of that moment, its operations ran one after the other, and
      its writes became one revision; or it was refused for a reason. */
  lemma TxnAnswered(ss: seq<State>, ls: seq<Label>, n: nat, id: int) returns (b: int, c: int)
    requires IsRun(ss, ls) && n < |ls| && ls[n] == Deliver(id)
    ensures id in ss[n].pending && ss[n].pending[id].Decoding?
    ensures var p := ss[n].pending[id]; Served(ss, ls, b, c, n, id, p.proxy, p.txn, p.result)
    ensures 0 <= c < |ls| && ss[c].Logical().Valid()
    ensures var p := ss[n].pending[id]; TxnDoes(ss[c].Logical(), ss[c + 1].Logical(), p.txn, p.result)
  {
    b, c := ServedHow(ss, ls, n, id);
    var p := ss[n].pending[id];
    CommitEffect(ss, ls, c, id, p.txn, p.result);
    ExecuteDoes(ss[c].Logical(), p.txn);
  }

  /** A request for this operation, answered, is delivered at step n. */
  ghost predicate DeliversAt(ss: seq<State>, ls: seq<Label>, n: nat, id: int, op: Op)
  {
    && IsRun(ss, ls) && n < |ls| && ls[n] == Deliver(id) && id in ss[n].pending
    && var p := ss[n].pending[id];
    && p.Decoding? && p.txn == Single(op) && p.result.Committed?
  }

  /** One operation alone takes l to l' and gives this result. */
  ghost predicate SingleDoes(l: Store, l': Store, op: Op, r: TxnResult, w: Work)
    requires l.Valid() && r.Committed?
  {
    && |r.responses| == 1 && OpDoes(l, Work(l.Head(), false), w, op, r.responses[0])
    && l'.hist == (if w.dirty then l.hist + [w.snap] else l.hist) && r.rev == |l'.hist| - 1
    && l'.compacted == l.compacted && l'.leases == l.leases
  }

  lemma SingleFromTxn(l: Store, l': Store, op: Op, r: TxnResult) returns (w: Work)
    requires l.Valid() && r.Committed? && TxnDoes(l, l', Single(op), r)
    ensures SingleDoes(l, l', op, r, w) && forall e :: !Objects(l, op, e)
  {
    var works :| TxnMeans(l, l', Single(op), r, works);
    w := works[1];
    var ops := Single(op).success;
    assert OpDoes(l, works[0], works[1], ops[0], r.responses[0]);
    forall e ensures !Objects(l, op, e) { NoObjection(l, op, e); }
  }

  lemma NoObjection(l: Store, op: Op, e: StoreError)
    requires l.Valid() && !Objection(l, Single(op), e)
    ensures !Objects(l, op, e)
  {
    assert GuardsHold(l.Head(), Single(op).compares);
    assert [op][0] == op && (Objects(l, [op][0], e) ==> ObjectsToSome(l, [op], e));
  }

  /** The delivered answer to a single operation, its commit and the stores around it. */
  lemma SingleDelivered(ss: seq<State>, ls: seq<Label>, n: nat, id: int, op: Op) returns (b: int, c: int, w: Work)
    requires DeliversAt(ss, ls, n, id, op)
    ensures var p := ss[n].pending[id]; Served(ss, ls, b, c, n, id, p.proxy, p.txn, p.result)
    ensures 0 <= c < |ls| && ss[c].Logical().Valid()
    ensures SingleDoes(ss[c].Logical(), ss[c + 1].Logical(), op, ss[n].pending[id].result, w)
    ensures forall e :: !Objects(ss[c].Logical(), op, e)
  {
    b, c := TxnAnswered(ss, ls, n, id);
    w := SingleFromTxn(ss[c].Logical(), ss[c + 1].Logical(), op, ss[n].pending[id].result);
  }

  /** A delivered range holds exactly the pairs that the logical store has in the range at
      its commit, or at the revision asked for, within the revision bounds, in the order
      asked for and up to the limit; the count is that of the whole range. */
  lemma RangeAnswered(ss: seq<State>, ls: seq<Label>, n: nat, id: int, r: RangeRequest)
    returns (b: int, c: int, all: seq<KeyValue>, full: seq<KeyValue>)
    requires DeliversAt(ss, ls, n, id, OpRange(r))
    ensures var p := ss[n].pending[id]; Served(ss, ls, b, c, n, id, p.proxy, p.txn, p.result)
    ensures 0 <= c < |ls| && ss[c].Logical().Valid() && ss[c + 1].Logical() == ss[c].Logical()
    ensures var l, result := ss[c].Logical(), ss[n].pending[id].result;
            && r.revision < |l.hist| && (r.revision > 0 ==> r.revision >= l.compacted)
            && result.rev == |l.hist| - 1 && |result.responses| == 1
            && RangeMeans(if r.revision > 0 then l.hist[r.revision] else l.Head(), r, result.responses[0], all, full)
  {
    var w: Work;
    b, c, w := SingleDelivered(ss, ls, n, id, OpRange(r));
    var l, page := ss[c].Logical(), ss[n].pending[id].result.responses[0];
    assert !Objects(l, OpRange(r), FutureRevision) && !Objects(l, OpRange(r), Compacted);
    assert RangeDoes(Seen(l, l.Head(), r.revision), r, page);
    all, full :| RangeMeans(Seen(l, l.Head(), r.revision), r, page, all, full);
  }

  /** A delivered put: right after its commit, at the revision it reports, the logical store
      holds its value and lease, or those it was told to keep, one version on, and every
      other key as before; the previous pair it reports is the one there was. */
  lemma PutAnswered(ss: seq<State>, ls: seq<Label>, n: nat, id: int, q: PutRequest) returns (b: int, c: int)
    requires DeliversAt(ss, ls, n, id, OpPut(q))
    ensures var p := ss[n].pending[id]; Served(ss, ls, b, c, n, id, p.proxy, p.txn, p.result)
    ensures 0 <= c < |ls| && ss[c].Logical().Valid() && ss[c + 1].Logical().Valid()
    ensures var l, l', result := ss[c].Logical(), ss[c + 1].Logical(), ss[n].pending[id].result;
            && l'.hist == l.hist + [l'.Head()] && result.rev == |l.hist| && |result.responses| == 1
            && PutDoes(l, l.Head(), l'.Head(), q, result.responses[0])
            && (q.lease != 0 ==> q.lease in l.leases)
  {
    var w: Work;
    b, c, w := SingleDelivered(ss, ls, n, id, OpPut(q));
    assert !Objects(ss[c].Logical(), OpPut(q), LeaseNotFound);
  }

  /** A delivered delete: right after its commit no key of the range is left, every other key
      is as before, and the count and the previous pairs are of exactly the keys removed. */
  lemma DeleteAnswered(ss: seq<State>, ls: seq<Label>, n: nat, id: int, q: DeleteRequest)
    returns (b: int, c: int, gone: seq<KeyValue>)
    requires DeliversAt(ss, ls, n, id, OpDelete(q))
    ensures var p := ss[n].pending[id]; Served(ss, ls, b, c, n, id, p.proxy, p.txn, p.result)
    ensures 0 <= c < |ls| && ss[c].Logical().Valid() && ss[c + 1].Logical().Valid()
    ensures var l, l', result := ss[c].Logical(), ss[c + 1].Logical(), ss[n].pending[id].result;
            && l'.hist == (if gone == [] then l.hist else l.hist + [l'.Head()])
            && result.rev == |l'.hist| - 1 && |result.responses| == 1
            && DeleteMeans(l.Head(), l'.Head(), q, result.responses[0], gone)
  {
    var w: Work;
    b, c, w := SingleDelivered(ss, ls, n, id, OpDelete(q));
    var l, r := ss[c].Logical(), ss[n].pending[id].result.responses[0];
    gone := DeletedPairs(l, w, q, r);
  }

  lemma DeletedPairs(l: Store, w: Work, q: DeleteRequest, r: OpResponse) returns (gone: seq<KeyValue>)
    requires l.Valid() && OpDoes(l, Work(l.Head(), false), w, OpDelete(q), r)
    ensures DeleteMeans(l.Head(), w.snap, q, r, gone) && (w.dirty <==> gone != [])
    ensures gone == [] ==> w.snap == l.Head()
  {
    gone :| DeleteMeans(l.Head(), w.snap, q, r, gone);
    if gone == [] { NothingGone(l.Head(), w.snap, q, r); }
  }

  lemma NothingGone(m: Snapshot, m': Snapshot, q: DeleteRequest, r: OpResponse)
    requires DeleteMeans(m, m', q, r, [])
    ensures m' == m
  {
    forall k ensures SameAt(m, m', k) {}
    assert m'.Keys == m.Keys;
  }

  // ---- Leases and compaction ----

  /** At the newest revision of l' there is a delete event of key k. */
  ghost predicate Removed(l': Store, k: Bytes)
  {
    var r := |l'.hist| - 1;
    r > 0 && EventAt(l', r, k).Some? && Reports(l'.hist, r, k, true, EventAt(l', r, k).value) && k !in l'.hist[r]
  }

  /** The lease ends, with a delete event for each of its keys; one not granted changes nothing. */
  ghost predicate LeaseEndsWithEvents(l: Store, l': Store, lease: int)
    requires l.Valid() && l'.Valid()
  {
    && (lease in l.leases ==> LeaseEnds(l, l', lease))
    && (lease in l.leases ==> forall k :: HoldsLease(l.Head(), k, lease) ==> Removed(l', k))
    && (lease !in l.leases ==> l' == l)
  }

  lemma RevokeReports(l: Store, lease: int)
    requires l.Valid() && Chronicle(Revoke(l, lease).hist)
    ensures Revoke(l, lease).Valid() && LeaseEndsWithEvents(l, Revoke(l, lease), lease)
  {
    LeaseEndKept(l, lease);
    var l' := Revoke(l, lease);
    if lease in l.leases {
      forall k | HoldsLease(l.Head(), k, lease) ensures Removed(l', k) {
        EndEvent(l, l', lease, k);
      }
    }
  }

  lemma EndEvent(l: Store, l': Store, lease: int, k: Bytes)
    requires l.Valid() && l'.Valid() && LeaseEnds(l, l', lease) && Chronicle(l'.hist) && HoldsLease(l.Head(), k, lease)
    ensures Removed(l', k)
  {
    assert l'.hist[|l.hist| - 1] == l.Head();
    EventKept(l', |l'.hist| - 1, k);
  }

  lemma EndLeaseStep(ss: seq<State>, ls: seq<Label>, n: nat, lease: int)
    requires IsRun(ss, ls) && n < |ls| && ls[n] == EndLease(lease)
    ensures ss[n].Logical().Valid() && ss[n + 1].Logical() == Revoke(ss[n].Logical(), lease)
  {
    Reachable(ss, ls, n);
    assert StepAt(ss, ls, n);
    EndLeaseRefines(ss[n], lease);
  }

  /** Ending a granted lease removes exactly its keys from the logical store, on whichever
      shards they live, at one revision with a delete event each. */
  lemma LeaseEnded(ss: seq<State>, ls: seq<Label>, n: nat, lease: int)
    requires IsRun(ss, ls) && n < |ls| && ls[n] == EndLease(lease)
    ensures ss[n].Logical().Valid() && ss[n + 1].Logical().Valid()
    ensures LeaseEndsWithEvents(ss[n].Logical(), ss[n + 1].Logical(), lease)
  {
    EndLeaseStep(ss, ls, n, lease);
    UserMetadataTrue(ss, ls, n + 1);
    RevokeReports(ss[n].Logical(), lease);
  }

  lemma LeaseGranted(ss: seq<State>, ls: seq<Label>, n: nat, lease: int)
    requires IsRun(ss, ls) && n < |ls| && ls[n] == GrantLease(lease) && lease != 0
    ensures var l, l' := ss[n].Logical(), ss[n + 1].Logical();
            && l'.hist == l.hist && l'.compacted == l.compacted
            && forall i :: i in l'.leases <==> i in l.leases || i == lease
  {
    Reachable(ss, ls, n);
    assert StepAt(ss, ls, n);
    StepRefines(ss[n], ls[n]);
    GrantKept(ValidLogical(ss[n]), lease);
  }

  /** Compaction changes no contents, and from then on refuses reads below its revision. */
  lemma CompactionDone(ss: seq<State>, ls: seq<Label>, n: nat, revision: int)
    requires IsRun(ss, ls) && n < |ls| && ls[n] == CompactTo(revision)
    ensures var l, l' := ss[n].Logical(), ss[n + 1].Logical();
            && l'.hist == l.hist && l'.leases == l.leases
            && l'.compacted == (if l.compacted < revision < |l.hist| then revision else l.compacted)
  {
    Reachable(ss, ls, n);
    assert StepAt(ss, ls, n);
    StepRefines(ss[n], ls[n]);
    CompactKept(ValidLogical(ss[n]), revision);
  }

  // ---- No lease is orphaned ----

  /** Every lease a stored key is attached to is granted. */
  ghost predicate LeasesLive(m: Snapshot, leases: set<int>)
  {
    forall k :: k in m ==> m[k].lease == 0 || m[k].lease in leases
  }

  lemma OpKeepsLeases(l: Store, w: Work, w': Work, op: Op, r: OpResponse)
    requires l.Valid() && LeasesLive(w.snap, l.leases) && OpDoes(l, w, w', op, r) && !Objects(l, op, LeaseNotFound)
    ensures LeasesLive(w'.snap, l.leases)
  {
    match op
    case OpRange(_) =>
    case OpPut(q) =>
      forall k | k in w'.snap ensures w'.snap[k].lease == 0 || w'.snap[k].lease in l.leases {
        if k != q.key { assert SameAt(w.snap, w'.snap, k); }
      }
    case OpDelete(q) =>
      var gone :| DeleteMeans(w.snap, w'.snap, q, r, gone);
  }

  lemma {:induction false} OpsKeepLeases(l: Store, works: seq<Work>, ops: seq<Op>, rs: seq<OpResponse>, i: nat)
    requires l.Valid() && RunsThrough(l, works, ops, rs) && i <= |ops| && LeasesLive(works[0].snap, l.leases)
    requires forall j :: 0 <= j < |ops| ==> !Objects(l, ops[j], LeaseNotFound)
    ensures LeasesLive(works[i].snap, l.leases)
  {
    if i > 0 {
      OpsKeepLeases(l, works, ops, rs, i - 1);
      assert OpDoes(l, works[i - 1], works[i], ops[i - 1], rs[i - 1]);
      OpKeepsLeases(l, works[i - 1], works[i], ops[i - 1], rs[i - 1]);
    }
  }

  lemma TxnKeepsLeases(l: Store, t: Txn)
    requires l.Valid() && LeasesLive(l.Head(), l.leases)
    ensures var l' := Execute(l, t).0; l'.Valid() && LeasesLive(l'.Head(), l'.leases)
  {
    ExecuteDoes(l, t);
    DoesKeepsLeases(l, Execute(l, t).0, t, Execute(l, t).1);
  }

  lemma DoesKeepsLeases(l: Store, l': Store, t: Txn, r: TxnResult)
    requires l.Valid() && LeasesLive(l.Head(), l.leases) && TxnDoes(l, l', t, r)
    ensures l'.Valid() && LeasesLive(l'.Head(), l'.leases)
  {
    if r.Committed? {
      var works :| TxnMeans(l, l', t, r, works);
      var ops := if r.succeeded then t.success else t.failure;
      LeasesFound(l, t, ops);
      OpsKeepLeases(l, works, ops, r.responses, |ops|);
    }
  }

  lemma LeasesFound(l: Store, t: Txn, ops: seq<Op>)
    requires l.Valid() && !Objection(l, t, LeaseNotFound)
    requires ops == if GuardsHold(l.Head(), t.compares) then t.success else t.failure
    ensures forall j :: 0 <= j < |ops| ==> !Objects(l, ops[j], LeaseNotFound)
  {
    assert !ObjectsToSome(l, ops, LeaseNotFound);
  }

  lemma PerformKeepsLeases(l: Store, o: Operation)
    requires l.Valid() && LeasesLive(l.Head(), l.leases)
    ensures Perform(l, o).Valid() && LeasesLive(Perform(l, o).Head(), Perform(l, o).leases)
  {
    match o
    case Run(t) => TxnKeepsLeases(l, t);
    case RevokeOp(i) => LeaseEndKept(l, i);
    case _ =>
  }

  /** In every reachable state the leases of all stored keys are granted. */
  lemma {:induction false} NoOrphans(ss: seq<State>, ls: seq<Label>, n: nat)
    requires IsRun(ss, ls) && n < |ss|
    ensures ss[n].Logical().Valid() && LeasesLive(ss[n].Logical().Head(), ss[n].Logical().leases)
  {
    RunRefines(ss, ls);
    if n > 0 {
      NoOrphans(ss, ls, n - 1);
      PerformKeepsLeases(ss[n - 1].Logical(), Observed(ss[n - 1], ls[n - 1]));
    }
  }

  /** A key put under a lease does not survive the end of the lease, unless it was put again
      without it in the meantime. */
  lemma LeasedPutEnds(ss: seq<State>, ls: seq<Label>, m: nat, id: int, q: PutRequest, n: nat)
    returns (b: int, c: int)
    requires DeliversAt(ss, ls, m, id, OpPut(q)) && q.lease != 0 && !q.ignoreLease
    requires n < |ls| && ls[n] == EndLease(q.lease)
    ensures var p := ss[m].pending[id]; Served(ss, ls, b, c, m, id, p.proxy, p.txn, p.result)
    ensures ss[n + 1].Logical().Valid()
    ensures c < n && q.key in ss[n + 1].Logical().Head() ==>
              var rec := ss[n + 1].Logical().Head()[q.key];
              rec.lease != q.lease && rec.mod > ss[m].pending[id].result.rev
  {
    b, c := PutUnderLease(ss, ls, m, id, q);
    GoneWithLease(ss, ls, n, q.lease, q.key);
    if c < n { LeasedThenEnded(ss, ls, c + 1, n, q.key, q.lease); }
  }

  /** The newest revision wrote key k under the lease. */
  predicate JustLeased(h: seq<Snapshot>, k: Bytes, lease: int)
  {
    |h| > 0 && k in h[|h| - 1] && h[|h| - 1][k].mod == |h| - 1 && h[|h| - 1][k].lease == lease
  }

  lemma PutUnderLease(ss: seq<State>, ls: seq<Label>, m: nat, id: int, q: PutRequest) returns (b: int, c: int)
    requires DeliversAt(ss, ls, m, id, OpPut(q)) && !q.ignoreLease
    ensures var p := ss[m].pending[id]; Served(ss, ls, b, c, m, id, p.proxy, p.txn, p.result)
    ensures 0 <= c < |ls| && JustLeased(ss[c + 1].Logical().hist, q.key, q.lease)
    ensures ss[m].pending[id].result.rev == |ss[c + 1].Logical().hist| - 1
  {
    b, c := PutAnswered(ss, ls, m, id, q);
  }

  lemma LeasedThenEnded(ss: seq<State>, ls: seq<Label>, c: nat, n: nat, k: Bytes, lease: int)
    requires IsRun(ss, ls) && c <= n < |ls| && ls[n] == EndLease(lease) && lease != 0
    requires JustLeased(ss[c].Logical().hist, k, lease)
    ensures ss[n + 1].Logical().Valid()
    ensures var m := ss[n + 1].Logical().Head();
            k in m ==> m[k].lease != lease && m[k].mod > |ss[c].Logical().hist| - 1
  {
    GoneWithLease(ss, ls, n, lease, k);
    LogicalPastKept(ss, ls, c, n + 1);
    UserMetadataTrue(ss, ls, n + 1);
    OutlivesLease(ss[c].Logical().hist, ss[n + 1].Logical().hist, k, lease);
  }

  /** A key written last under the lease, and now without it, was written again. */
  lemma OutlivesLease(h: seq<Snapshot>, h': seq<Snapshot>, k: Bytes, lease: int)
    requires Chronicle(h') && h <= h' && JustLeased(h, k, lease)
    requires !HoldsLease(h'[|h'| - 1], k, lease)
    ensures k in h'[|h'| - 1] ==> h'[|h'| - 1][k].lease != lease && h'[|h'| - 1][k].mod > |h| - 1
  {
    assert h'[|h| - 1] == h[|h| - 1];
    if k in h'[|h'| - 1] { WrittenSince(h', |h| - 1, k); }
  }

  lemma GoneWithLease(ss: seq<State>, ls: seq<Label>, n: nat, lease: int, k: Bytes)
    requires IsRun(ss, ls) && n < |ls| && ls[n] == EndLease(lease) && lease != 0
    ensures ss[n + 1].Logical().Valid() && !HoldsLease(ss[n + 1].Logical().Head(), k, lease)
  {
    EndLeaseStep(ss, ls, n, lease);
    NoOrphans(ss, ls, n);
    LeaseEndKept(ss[n].Logical(), lease);
  }

  /** A record that differs from what was written at revision r was written later. */
  lemma WrittenSince(h: seq<Snapshot>, r: nat, k: Bytes)
    requires Chronicle(h) && r < |h| && k in h[r] && h[r][k].mod == r && k in h[|h| - 1] && h[|h| - 1][k] != h[r][k]
    ensures h[|h| - 1][k].mod > r
  {
    MetadataTrue(h, |h| - 1, k);
  }

  // ---- No request gets stuck ----

  /** A step of request id alone, in which nothing goes wrong. */
  predicate OwnStep(a: Label, id: int)
  {
    match a
    case Rewrite(i) => i == id
    case Stage(i, _, fate) => i == id && fate.Stored?
    case Commit(i, lost) => i == id && !lost
    case Decode(i, available) => i == id && available
    case Deliver(i) => i == id
    case _ => false
  }

  /** The answer a request has coming: the recorded one, or before its commit the one the
      logical store would give now. */
  ghost function Due(s: State, id: int): TxnResult
    requires s.coord.Valid() && id in s.pending
  {
    var p := s.pending[id];
    if p.Decoding? then p.answer else Execute(ValidLogical(s), p.txn).1
  }

  // What is left to do, compared in this order.
  function Phase(p: Pending): nat { if p.Staging? then 1 else 0 }

  function Items(p: Pending): nat
  {
    match p
    case Staging(_, t, done) => if |done| < |All(t)| then |All(t)| - |done| else 0
    case Decoding(_, _, r, i, _, _) => if r.Committed? && i < |r.responses| then |r.responses| - i else 0
  }

  function Pairs(p: Pending): nat
  {
    match p
    case Staging(_, _, _) => 0
    case Decoding(_, _, r, i, j, _) =>
      if r.Committed? && i < |r.responses| && j < |r.responses[i].kvs| then |r.responses[i].kvs| - j else 0
  }

  predicate Nearer(p: Pending, q: Pending)
  {
    || Phase(p) < Phase(q)
    || (Phase(p) == Phase(q) && (Items(p) < Items(q) || (Items(p) == Items(q) && Pairs(p) < Pairs(q))))
  }

  /** The step is the request's own, brings it nearer its end and keeps what it is due. */
  ghost predicate Advances(s: State, a: Label, id: int)
    requires Inv(s) && id in s.pending
  {
    && OwnStep(a, id) && Enabled(s, a) && id in Apply(s, a).pending && Apply(s, a).coord.Valid()
    && Nearer(Apply(s, a).pending[id], s.pending[id]) && Due(Apply(s, a), id) == Due(s, id)
  }

  lemma {:induction false} Bound(s: set<Bytes>) returns (n: nat)
    ensures forall x :: x in s ==> |x| < n
  {
    n := 0;
    if x :| x in s {
      var m := Bound(s - {x});
      n := if |x| < m then m else |x| + 1;
    }
  }

  /** There is always another token. */
  lemma FreshToken(s: set<Bytes>) returns (t: Bytes)
    ensures t !in s
  {
    var n := Bound(s);
    t := seq(n, _ => 0);
  }

  lemma RewriteAdvances(s: State, id: int)
    requires Inv(s) && id in s.pending && NextOp(s, id, false)
    ensures Advances(s, Rewrite(id), id)
  {
    RewriteRefines(s, id);
  }

  lemma StageAdvances(s: State, id: int) returns (token: Bytes)
    requires Inv(s) && id in s.pending && NextOp(s, id, true)
    ensures Advances(s, Stage(id, token, Stored), id)
  {
    token := FreshToken(s.tokens);
    StageRefines(s, id, token, Stored);
  }

  lemma CommitAdvances(s: State, id: int)
    requires Inv(s) && id in s.pending && Enabled(s, Commit(id, false))
    ensures Advances(s, Commit(id, false), id)
  {
    CommitRefines(s, id, false);
  }

  lemma DecodeAdvances(s: State, id: int)
    requires Inv(s) && id in s.pending && Enabled(s, Decode(id, true))
    ensures Advances(s, Decode(id, true), id)
  {
    var p := s.pending[id];
    assert s.View() == Env(s.proxies[p.proxy], s.data);
    TrackedAtPair(s.View(), p);
    DecodeNextIs(s, id, true);
  }

  lemma CanAdvance(s: State, id: int) returns (a: Label)
    requires Inv(s) && id in s.pending && !FullyDecoded(s.pending[id])
    ensures Advances(s, a, id)
  {
    var p := s.pending[id];
    assert p.proxy in s.proxies && PendingSound(s.View(), p);
    if p.Decoding? {
      a := Decode(id, true);
      DecodeAdvances(s, id);
    } else if |p.done| == |All(p.txn)| {
      a := Commit(id, false);
      CommitAdvances(s, id);
    } else if NeedsBlob(All(p.txn)[|p.done|]) {
      var token := StageAdvances(s, id);
      a := Stage(id, token, Stored);
    } else {
      a := Rewrite(id);
      RewriteAdvances(s, id);
    }
  }

  lemma ExtendRun(ss: seq<State>, ls: seq<Label>, a: Label)
    requires IsRun(ss, ls) && ss[|ls|].coord.Valid() && Enabled(ss[|ls|], a)
    ensures IsRun(ss + [Apply(ss[|ls|], a)], ls + [a])
  {
    var ss', ls' := ss + [Apply(ss[|ls|], a)], ls + [a];
    forall i | 0 <= i < |ls'| ensures StepAt(ss', ls', i) {
      if i < |ls| { StepKept(ss, ls, ss'[|ls'|], a, i); }
    }
  }

  lemma StepKept(ss: seq<State>, ls: seq<Label>, t: State, a: Label, i: nat)
    requires |ss| == |ls| + 1 && i < |ls| && StepAt(ss, ls, i)
    ensures StepAt(ss + [t], ls + [a], i)
  {
    assert (ss + [t])[i] == ss[i] && (ss + [t])[i + 1] == ss[i + 1] && (ls + [a])[i] == ls[i];
  }

  /** The longer run continues the shorter by steps of request id alone. */
  ghost predicate Continues(ss: seq<State>, ls: seq<Label>, ss': seq<State>, ls': seq<Label>, id: int)
  {
    IsRun(ss', ls') && ss <= ss' && ls <= ls' && forall k :: |ls| <= k < |ls'| ==> OwnStep(ls'[k], id)
  }

  /** ... and ends with its delivery of r. */
  ghost predicate Completes(ss: seq<State>, ls: seq<Label>, ss': seq<State>, ls': seq<Label>, id: int, r: TxnResult)
  {
    && Continues(ss, ls, ss', ls', id) && |ls'| > |ls| && ls'[|ls'| - 1] == Deliver(id)
    && var s := ss'[|ls'| - 1];
    && id in s.pending && s.pending[id].Decoding? && s.pending[id].result == r
  }

  lemma CompletesSooner(ss: seq<State>, ls: seq<Label>, t: State, a: Label,
                        ss': seq<State>, ls': seq<Label>, id: int, r: TxnResult)
    requires OwnStep(a, id) && Completes(ss + [t], ls + [a], ss', ls', id, r)
    ensures Completes(ss, ls, ss', ls', id, r)
  {
    assert ss <= ss + [t] && ls <= ls + [a];
    forall k | |ls| <= k < |ls'| ensures OwnStep(ls'[k], id) {
      if k == |ls| { assert ls'[k] == (ls + [a])[k]; }
    }
  }

  lemma CompletesNow(ss: seq<State>, ls: seq<Label>, id: int) returns (ss': seq<State>, ls': seq<Label>)
    requires IsRun(ss, ls) && Inv(ss[|ls|]) && id in ss[|ls|].pending && FullyDecoded(ss[|ls|].pending[id])
    ensures Completes(ss, ls, ss', ls', id, ss[|ls|].pending[id].answer)
  {
    var s := ss[|ls|];
    DeliveredIsAnswer(s, id);
    ExtendRun(ss, ls, Deliver(id));
    ss', ls' := ss + [Apply(s, Deliver(id))], ls + [Deliver(id)];
  }

  /** No request gets stuck: in every run and at every moment, a request in flight can be
      brought to its delivery by steps of its own, as long as shards and coordinator answer,
      and what is delivered is the recorded answer, or for one not yet committed what the
      logical store would answer now. */
  lemma {:induction false} CanComplete(ss: seq<State>, ls: seq<Label>, id: int)
    returns (ss': seq<State>, ls': seq<Label>)
    requires IsRun(ss, ls) && id in ss[|ls|].pending
    ensures ss[|ls|].coord.Valid() && Completes(ss, ls, ss', ls', id, Due(ss[|ls|], id))
    decreases Phase(ss[|ls|].pending[id]), Items(ss[|ls|].pending[id]), Pairs(ss[|ls|].pending[id])
  {
    Reachable(ss, ls, |ls|);
    var s := ss[|ls|];
    if FullyDecoded(s.pending[id]) {
      ss', ls' := CompletesNow(ss, ls, id);
    } else {
      var a := CanAdvance(s, id);
      ExtendRun(ss, ls, a);
      var t := Apply(s, a);
      ss', ls' := CanComplete(ss + [t], ls + [a], id);
      CompletesSooner(ss, ls, t, a, ss', ls', id, Due(s, id));
    }
  }
}
