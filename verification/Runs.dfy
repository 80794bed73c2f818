/** Whole runs of the protocol: the coordinated store is linearizable to one etcd,
    its routing record is written once, and no published value is ever lost. */
module Runs {
  import opened Wrappers
  import opened ByteStrings
  import opened Keys
  import opened Routing
  import opened Mvcc
  import opened Simulation
  import opened Abstraction
  import opened Protocol
  import opened Refinement
  import opened MvccFacts
  import opened Semantics

  ghost predicate StepAt(ss: seq<State>, ls: seq<Label>, i: int)
    requires 0 <= i < |ls| && |ss| == |ls| + 1
  {
    ss[i].coord.Valid() && Enabled(ss[i], ls[i]) && ss[i + 1] == Apply(ss[i], ls[i])
  }

  /** A finite run from the empty deployment, of any length and any interleaving. */
  ghost predicate IsRun(ss: seq<State>, ls: seq<Label>)
  {
    |ss| == |ls| + 1 && ss[0] == INITIAL && forall i :: 0 <= i < |ls| ==> StepAt(ss, ls, i)
  }

  lemma InitialInv()
    ensures Inv(INITIAL) && INITIAL.Logical() == EMPTY
  {
    var s := INITIAL;
    assert forall i :: 0 <= i < |s.coord.hist| ==> s.coord.hist[i] == map[];
    assert UserKeys(map[]) == {};
    assert s.Logical().hist == EMPTY.hist;
  }

  /** The invariant holds in every reachable state. */
  lemma {:induction false} Reachable(ss: seq<State>, ls: seq<Label>, n: nat)
    requires IsRun(ss, ls) && n < |ss|
    ensures Inv(ss[n])
  {
    if n == 0 {
      InitialInv();
    } else {
      Reachable(ss, ls, n - 1);
      assert StepAt(ss, ls, n - 1);
      StepRefines(ss[n - 1], ls[n - 1]);
    }
  }

  /** Refinement: the logical stores along a run are a run of one empty etcd, whose
      operations are the committed transactions, lease and compaction requests at
      the very steps that commit them, and one reserved revision for the routing record. */
  lemma RunRefines(ss: seq<State>, ls: seq<Label>)
    requires IsRun(ss, ls)
    ensures ss[0].Logical() == EMPTY
    ensures forall i :: 0 <= i < |ls| ==>
              && ss[i].Logical().Valid() && (ls[i].Commit? ==> ls[i].id in ss[i].pending)
              && ss[i + 1].Logical() == Perform(ss[i].Logical(), Observed(ss[i], ls[i]))
  {
    InitialInv();
    forall i | 0 <= i < |ls|
      ensures ss[i].Logical().Valid() && (ls[i].Commit? ==> ls[i].id in ss[i].pending)
      ensures ss[i + 1].Logical() == Perform(ss[i].Logical(), Observed(ss[i], ls[i]))
    {
      Reachable(ss, ls, i);
      assert StepAt(ss, ls, i);
      StepRefines(ss[i], ls[i]);
    }
  }

  // ---- Linearizability ----

  ghost predicate BegunAt(ls: seq<Label>, b: int, id: int, p: int, t: Txn)
  {
    0 <= b < |ls| && ls[b] == Begin(id, p, t)
  }

  /** Request id, with transaction t, committed at step c, and the logical store answered
      r there. */
  ghost predicate CommittedAt(ss: seq<State>, ls: seq<Label>, c: int, id: int, t: Txn, r: TxnResult)
    requires |ss| == |ls| + 1
  {
    && 0 <= c < |ls| && ls[c] == Commit(id, false) && id in ss[c].pending && ss[c].pending[id].txn == t
    && ss[c].Logical().Valid() && r == Execute(ss[c].Logical(), t).1
  }

  /** The request begun at b is the one still in flight at n: its id was never free between. */
  ghost predicate InFlight(ss: seq<State>, b: int, n: int, id: int)
    requires 0 <= n < |ss|
  {
    b >= 0 && forall k :: b < k <= n ==> id in ss[k].pending
  }

  /** Among the steps between b and n, request id committed at c and nowhere else. */
  ghost predicate OnlyCommit(ls: seq<Label>, b: int, c: int, n: int, id: int)
    requires n <= |ls|
  {
    forall k :: 0 <= b < k < n && ls[k].Commit? && ls[k].id == id ==> k == c
  }

  /** Request id of state n was begun at b, committed at c with answer r and only there,
      and has been in flight ever since it was begun. */
  ghost predicate Served(ss: seq<State>, ls: seq<Label>, b: int, c: int, n: int, id: int, p: int, t: Txn, r: TxnResult)
    requires |ss| == |ls| + 1 && 0 <= n < |ss|
  {
    && b < c < n && BegunAt(ls, b, id, p, t) && CommittedAt(ss, ls, c, id, t, r)
    && InFlight(ss, b, n, id) && OnlyCommit(ls, b, c, n, id)
  }

  ghost predicate Waiting(ss: seq<State>, ls: seq<Label>, b: int, n: int, id: int, p: int, t: Txn)
    requires |ss| == |ls| + 1 && 0 <= n < |ss|
  {
    b < n && BegunAt(ls, b, id, p, t) && InFlight(ss, b, n, id) && OnlyCommit(ls, b, n, n, id)
  }

  /** Where request id of state n comes from. */
  ghost predicate Explained(ss: seq<State>, ls: seq<Label>, n: int, id: int)
    requires |ss| == |ls| + 1 && 0 <= n < |ss| && id in ss[n].pending
  {
    match ss[n].pending[id]
    case Staging(p, t, _) => exists b :: Waiting(ss, ls, b, n, id, p, t)
    case Decoding(p, t, _, _, _, answer) => exists b, c :: Served(ss, ls, b, c, n, id, p, t, answer)
  }

  lemma {:induction false} AllExplained(ss: seq<State>, ls: seq<Label>, n: nat)
    requires IsRun(ss, ls) && n < |ss|
    ensures forall id :: id in ss[n].pending ==> Explained(ss, ls, n, id)
  {
    if n > 0 {
      AllExplained(ss, ls, n - 1);
      assert StepAt(ss, ls, n - 1);
      forall id | id in ss[n].pending ensures Explained(ss, ls, n, id) {
        StepExplains(ss, ls, n - 1, id);
      }
    }
  }

  lemma StepExplains(ss: seq<State>, ls: seq<Label>, n: nat, id: int)
    requires |ss| == |ls| + 1 && n < |ls| && StepAt(ss, ls, n) && id in ss[n + 1].pending
    requires id in ss[n].pending ==> Explained(ss, ls, n, id)
    ensures Explained(ss, ls, n + 1, id)
  {
    var s, a, q := ss[n], ls[n], ss[n + 1].pending[id];
    if a.Begin? && a.id == id {
      assert Waiting(ss, ls, n, n + 1, id, a.proxy, a.txn);
    } else {
      PendingOrigin(s, a, id);
      var p := s.pending[id];
      if p.Staging? {
        var b :| Waiting(ss, ls, b, n, id, p.proxy, p.txn);
        if q.Decoding? {
          WaitingServed(ss, ls, b, n, id, p.proxy, p.txn, q.answer);
        } else {
          WaitingOn(ss, ls, b, n, id, p.proxy, p.txn);
        }
      } else {
        var b, c :| Served(ss, ls, b, c, n, id, p.proxy, p.txn, p.answer);
        ServedOn(ss, ls, b, c, n, id, p.proxy, p.txn, p.answer);
      }
    }
  }

  lemma WaitingOn(ss: seq<State>, ls: seq<Label>, b: int, n: nat, id: int, p: int, t: Txn)
    requires |ss| == |ls| + 1 && n < |ls| && Waiting(ss, ls, b, n, id, p, t) && id in ss[n + 1].pending
    requires !(ls[n].Commit? && ls[n].id == id)
    ensures Waiting(ss, ls, b, n + 1, id, p, t)
  {}

  lemma WaitingServed(ss: seq<State>, ls: seq<Label>, b: int, n: nat, id: int, p: int, t: Txn, r: TxnResult)
    requires |ss| == |ls| + 1 && n < |ls| && Waiting(ss, ls, b, n, id, p, t) && id in ss[n + 1].pending
    requires CommittedAt(ss, ls, n, id, t, r)
    ensures Served(ss, ls, b, n, n + 1, id, p, t, r)
  {}

  lemma ServedOn(ss: seq<State>, ls: seq<Label>, b: int, c: int, n: nat, id: int, p: int, t: Txn, r: TxnResult)
    requires |ss| == |ls| + 1 && n < |ls| && Served(ss, ls, b, c, n, id, p, t, r) && id in ss[n + 1].pending
    requires !(ls[n].Commit? && ls[n].id == id)
    ensures Served(ss, ls, b, c, n + 1, id, p, t, r)
  {}

  /** A step leaves a request's identity and recorded answer alone, and turns
      staging into decoding exactly by committing it. */
  lemma PendingOrigin(s: State, a: Label, id: int)
    requires s.coord.Valid() && Enabled(s, a) && id in Apply(s, a).pending && !(a.Begin? && a.id == id)
    ensures id in s.pending
    ensures var p, q := s.pending[id], Apply(s, a).pending[id];
            && q.proxy == p.proxy && q.txn == p.txn
            && (p.Decoding? ==> q.Decoding? && q.answer == p.answer)
            && (a.Commit? && a.id == id <==> p.Staging? && q.Decoding?)
            && (p.Staging? && q.Decoding? ==>
                  a == Commit(id, false) && q.answer == Execute(ValidLogical(s), p.txn).1)
  {}

  /** Linearizability: whatever a client receives is the logical store's answer to its
      own request at that request's one commit, between its begin and its delivery. The
      id is in flight all the time between, so the begin is not that of an earlier
      request with the same id. */
  lemma Linearizable(ss: seq<State>, ls: seq<Label>, n: nat, id: int)
    requires IsRun(ss, ls) && n < |ls| && ls[n] == Deliver(id)
    ensures id in ss[n].pending && ss[n].pending[id].Decoding?
    ensures var p := ss[n].pending[id];
            exists b, c :: Served(ss, ls, b, c, n, id, p.proxy, p.txn, p.result)
  {
    assert StepAt(ss, ls, n);
    Reachable(ss, ls, n);
    AllExplained(ss, ls, n);
    DeliveredIsAnswer(ss[n], id);
    assert Explained(ss, ls, n, id);
  }

  /** Every answer has a commit of its own, and answers respect real time: two requests
      delivered at m and n never share a commit, also under one id, and one delivered
      before the other began committed before it. */
  lemma OwnCommits(ss: seq<State>, ls: seq<Label>, m: nat, n: nat, b: int, c: int, b': int, c': int,
                   id: int, p: int, t: Txn, r: TxnResult, id': int, p': int, t': Txn, r': TxnResult)
    requires IsRun(ss, ls) && m < n < |ls| && ls[m] == Deliver(id) && ls[n] == Deliver(id')
    requires Served(ss, ls, b, c, m, id, p, t, r) && Served(ss, ls, b', c', n, id', p', t', r')
    ensures c != c' && (m < b' ==> c < c') && (id == id' ==> m < b')
  {
    assert StepAt(ss, ls, m);
    if id == id' {
      assert id !in ss[m + 1].pending;
    }
  }

  // ---- Nothing published is lost ----

  /** Revisions reached, blobs and an existing routing record are the same later. */
  ghost predicate PastIn(s: State, t: State)
  {
    && s.coord.hist <= t.coord.hist && Extends(s.data, t.data)
    && (s.adopted.Some? ==>
          && t.adopted == s.adopted && s.coord.Valid() && t.coord.Valid()
          && SameConfig(s.coord.Head(), t.coord.Head()))
  }

  lemma PastOneStep(ss: seq<State>, ls: seq<Label>, j: nat)
    requires IsRun(ss, ls) && j < |ls|
    ensures PastIn(ss[j], ss[j + 1])
  {
    Reachable(ss, ls, j);
    Reachable(ss, ls, j + 1);
    assert StepAt(ss, ls, j);
    StepKeepsPast(ss[j], ls[j]);
  }

  lemma PastInFurther(s: State, t: State, u: State)
    requires PastIn(s, t) && PastIn(t, u)
    ensures PastIn(s, u)
  {}

  lemma {:induction false} PastKept(ss: seq<State>, ls: seq<Label>, i: nat, j: nat)
    requires IsRun(ss, ls) && i <= j < |ss|
    ensures ss[i].coord.hist <= ss[j].coord.hist && Extends(ss[i].data, ss[j].data)
    ensures ss[i].adopted.Some? ==>
              ss[j].adopted == ss[i].adopted && ss[i].coord.Valid() && ss[j].coord.Valid() &&
              SameConfig(ss[i].coord.Head(), ss[j].coord.Head())
  {
    assert PastIn(ss[i], ss[j]) by { PastInLater(ss, ls, i, j); }
  }

  lemma {:induction false} PastInLater(ss: seq<State>, ls: seq<Label>, i: nat, j: nat)
    requires IsRun(ss, ls) && i <= j < |ss|
    ensures PastIn(ss[i], ss[j])
  {
    if i == j {
      Reachable(ss, ls, i);
    } else {
      PastInLater(ss, ls, i, j - 1);
      PastOneStep(ss, ls, j - 1);
      PastInFurther(ss[i], ss[j - 1], ss[j]);
    }
  }

  /** Reference integrity: every metadata record of every revision reached refers to a
      blob on the home shard of its key, that blob holds the logical value of the key
      at that revision, and it still does in every later state. */
  lemma ReferencesIntact(ss: seq<State>, ls: seq<Label>, i: nat, j: nat, r: nat, k: Bytes)
    requires IsRun(ss, ls) && i <= j < |ss|
    requires r < |ss[i].coord.hist| && k in ss[i].coord.hist[r] && k != CONFIG_KEY
    ensures IsMetaKey(k) && UserKey(k) != [] && Homed(ss[i].View(), UserKey(k), ss[i].coord.hist[r][k].value)
    ensures UserKey(k) in ss[i].Logical().hist[r]
    ensures Resolve(ss[j].View(), ss[i].coord.hist[r][k].value) == Some(ss[i].Logical().hist[r][UserKey(k)].value)
  {
    Reachable(ss, ls, i);
    PastKept(ss, ls, i, j);
    var env, v := ss[i].View(), ss[i].coord.hist[r][k].value;
    assert SoundRecord(env, k, ss[i].coord.hist[r][k]);
    HomedResolves(env, UserKey(k), v);
    SoundRelated(env, ss[i].coord);
    UserKeyRoundTrip(k);
    assert RelSnap(env, ss[i].coord.hist[r], ss[i].Logical().hist[r]);
    ResolveStable(env, ss[j].View(), v);
  }

  /** The logical past never changes: what was true at a revision stays true of it. */
  lemma LogicalPastKept(ss: seq<State>, ls: seq<Label>, i: nat, j: nat)
    requires IsRun(ss, ls) && i <= j < |ss|
    ensures ss[i].Logical().hist <= ss[j].Logical().hist
  {
    Reachable(ss, ls, i);
    Reachable(ss, ls, j);
    PastKept(ss, ls, i, j);
    var a, b := ss[i], ss[j];
    forall r | 0 <= r < |a.coord.hist| ensures a.Logical().hist[r] == b.Logical().hist[r] {
      assert a.coord.hist[r] == b.coord.hist[r];
      if a.adopted.Some? {
        SoundResolvable(a.View(), a.coord.hist[r]);
        AbsSnapStable(a.View(), b.View(), a.coord.hist[r]);
      } else {
        NoMetadataYet(a, r);
        AbsSnapEmpty(a.View(), a.coord.hist[r]);
        AbsSnapEmpty(b.View(), a.coord.hist[r]);
      }
    }
  }

  lemma NoMetadataYet(s: State, r: nat)
    requires Inv(s) && s.adopted.None? && r < |s.coord.hist|
    ensures forall k :: k in s.coord.hist[r] ==> !IsMetaKey(k)
  {
    ConfigKeyIsNotMeta();
    forall k | k in s.coord.hist[r] ensures !IsMetaKey(k) {
      assert SoundRecord(s.View(), k, s.coord.hist[r][k]);
    }
  }

  lemma AbsSnapEmpty(env: Env, c: Snapshot)
    requires forall k :: k in c ==> !IsMetaKey(k)
    ensures AbsSnap(env, c) == map[]
  {
    assert UserKeys(c) == {};
  }

  /** A read of a past revision gives the same answer whenever it is made: pages and
      retries of one listing never mix versions, whatever was written meanwhile. */
  lemma HistoricalReadsStable(ss: seq<State>, ls: seq<Label>, i: nat, j: nat, r: RangeRequest)
    requires IsRun(ss, ls) && i <= j < |ss| && r.revision > 0
    ensures ss[i].Logical().Valid() && ss[j].Logical().Valid()
    ensures var a := Execute(ss[i].Logical(), Single(OpRange(r))).1;
            var b := Execute(ss[j].Logical(), Single(OpRange(r))).1;
            a.Committed? && b.Committed? ==>
              && |a.responses| == |b.responses| == 1
              && a.responses[0].kvs == b.responses[0].kvs
              && a.responses[0].count == b.responses[0].count && a.responses[0].more == b.responses[0].more
  {
    Reachable(ss, ls, i);
    Reachable(ss, ls, j);
    LogicalPastKept(ss, ls, i, j);
    var a, b := ValidLogical(ss[i]), ValidLogical(ss[j]);
    if Execute(a, Single(OpRange(r))).1.Committed? && Execute(b, Single(OpRange(r))).1.Committed? {
      PastRead(a, r);
      PastRead(b, r);
    }
  }

  lemma PastRead(l: Store, r: RangeRequest)
    requires l.Valid() && r.revision > 0 && Execute(l, Single(OpRange(r))).1.Committed?
    ensures r.revision < |l.hist|
    ensures var all := Select(l.hist[r.revision], r.key, r.end);
            Execute(l, Single(OpRange(r))).1.responses == [OpResponse(l.Rev(), |all|, Page(r, all).0, Page(r, all).1)]
  {
    var op, t := OpRange(r), Single(OpRange(r));
    assert Branch(l, t) == [op] && [op][1..] == [];
    assert FirstPutError(l, [op]).None? && FirstRangeError(l, [op]) == RangeError(l, op);
    ExecuteSingle(l, t, op);
  }

  /** One page of a listing at a revision. */
  function PageRequest(key: Bytes, end: Bytes, limit: int, rev: int, keysOnly: bool): RangeRequest
  {
    RangeRequest(key, end, limit, rev, NoOrder, ByKey, keysOnly, false, 0, 0, 0, 0)
  }

  /** These pages were answered at these moments of a run, each but the first asked from
      the first key after the last one of the page before, until there was no more. */
  ghost predicate Listing(ss: seq<State>, key: Bytes, end: Bytes, limit: int, rev: int, keysOnly: bool,
                          moments: seq<nat>, pages: seq<OpResponse>)
    decreases |pages|
  {
    && |moments| == |pages| > 0 && AnsweredAt(ss, key, end, limit, rev, keysOnly, moments[0], pages[0])
    && if pages[0].more then
         Listing(ss, LastKey(pages[0]) + [0], end, limit, rev, keysOnly, moments[1..], pages[1..])
       else |pages| == 1
  }

  ghost predicate AnsweredAt(ss: seq<State>, key: Bytes, end: Bytes, limit: int, rev: int, keysOnly: bool,
                             i: nat, page: OpResponse)
  {
    && i < |ss| && ss[i].Logical().Valid()
    && var r := Execute(ss[i].Logical(), Single(OpRange(PageRequest(key, end, limit, rev, keysOnly)))).1;
    && r.Committed? && r.responses == [page]
  }

  function LastKey(page: OpResponse): Bytes
  {
    if page.kvs == [] then [] else page.kvs[|page.kvs| - 1].key
  }

  /** The page holds the pairs of the range, or the first `limit` of them if there are more. */
  predicate PageOf(m: Snapshot, key: Bytes, end: Bytes, limit: int, keysOnly: bool, page: OpResponse)
  {
    var all := Select(m, key, end);
    && (page.more <==> 0 < limit < |all|)
    && page.kvs == Presented(keysOnly, if 0 < limit < |all| then all[..limit] else all)
  }

  function AllPairs(pages: seq<OpResponse>): seq<KeyValue>
  {
    if pages == [] then [] else pages[0].kvs + AllPairs(pages[1..])
  }

  function Presented(keysOnly: bool, kvs: seq<KeyValue>): seq<KeyValue>
  {
    if keysOnly then Strip(kvs) else kvs
  }

  lemma PageIs(key: Bytes, end: Bytes, limit: int, rev: int, keysOnly: bool, all: seq<KeyValue>)
    ensures Page(PageRequest(key, end, limit, rev, keysOnly), all) ==
              if 0 < limit < |all| then (true, Presented(keysOnly, all[..limit])) else (false, Presented(keysOnly, all))
  {
    var r := PageRequest(key, end, limit, rev, keysOnly);
    PruneNothing(r, Fetched(r, all));
    if 0 < limit < |all| { assert Fetched(r, all)[..limit] == all[..limit]; }
  }

  lemma OneKeyOneRow(m: Snapshot, key: Bytes)
    ensures |Select(m, key, [])| <= 1
  {
    var ks := Sorted(KeysIn(m, key, []));
    if |ks| > 1 {
      assert ks[0] in KeysIn(m, key, []) && ks[1] in KeysIn(m, key, []);
      LessIrreflexive(key);
    }
  }

  /** These are the pages of one snapshot. */
  predicate PagesOf(m: Snapshot, key: Bytes, end: Bytes, limit: int, keysOnly: bool, pages: seq<OpResponse>)
    decreases |pages|
  {
    && |pages| > 0 && PageOf(m, key, end, limit, keysOnly, pages[0])
    && if pages[0].more then PagesOf(m, LastKey(pages[0]) + [0], end, limit, keysOnly, pages[1..]) else |pages| == 1
  }

  lemma {:induction false} PagesJoin(m: Snapshot, key: Bytes, end: Bytes, limit: int, keysOnly: bool,
                                     pages: seq<OpResponse>)
    requires PagesOf(m, key, end, limit, keysOnly, pages)
    ensures AllPairs(pages) == Presented(keysOnly, Select(m, key, end))
    decreases |pages|
  {
    if pages[0].more {
      PagesJoin(m, LastKey(pages[0]) + [0], end, limit, keysOnly, pages[1..]);
      RestOfListing(m, key, end, limit, keysOnly, pages[0]);
    } else {
      assert pages[1..] == [];
    }
  }

  lemma {:induction false} ListingPages(ss: seq<State>, ls: seq<Label>, n: nat, key: Bytes, end: Bytes, limit: int,
                                        rev: int, keysOnly: bool, moments: seq<nat>, pages: seq<OpResponse>)
    requires IsRun(ss, ls) && n < |ss| && rev > 0
    requires Listing(ss, key, end, limit, rev, keysOnly, moments, pages)
    requires forall i :: 0 <= i < |moments| ==> moments[i] <= n
    ensures rev < |ss[n].Logical().hist| && PagesOf(ss[n].Logical().hist[rev], key, end, limit, keysOnly, pages)
    decreases |pages|
  {
    FirstPage(ss, ls, n, key, end, limit, rev, keysOnly, moments[0], pages[0]);
    if pages[0].more {
      ListingPages(ss, ls, n, LastKey(pages[0]) + [0], end, limit, rev, keysOnly, moments[1..], pages[1..]);
    }
  }

  /** Pages never mix versions: however the pages of a listing at one revision are spread
      over a run, and whatever is written, deleted or compacted between them, together
      they are the listing at that revision: the pair of every key of the range that was
      stored then, each once and in key order, and nothing else. */
  lemma PagesAddUp(ss: seq<State>, ls: seq<Label>, n: nat, key: Bytes, end: Bytes, limit: int,
                   rev: int, keysOnly: bool, moments: seq<nat>, pages: seq<OpResponse>)
    returns (all: seq<KeyValue>)
    requires IsRun(ss, ls) && n < |ss| && rev > 0
    requires Listing(ss, key, end, limit, rev, keysOnly, moments, pages)
    requires forall i :: 0 <= i < |moments| ==> moments[i] <= n
    ensures rev < |ss[n].Logical().hist|
    ensures ListsRange(ss[n].Logical().hist[rev], key, end, all) && ShowsAll(keysOnly, all, AllPairs(pages))
  {
    ListingPages(ss, ls, n, key, end, limit, rev, keysOnly, moments, pages);
    var m := ss[n].Logical().hist[rev];
    all := Select(m, key, end);
    PagesJoin(m, key, end, limit, keysOnly, pages);
    SelectLists(m, key, end);
    PresentedShows(keysOnly, all);
  }

  /** The page answered at moment i is the page of the snapshot as it still stands at n. */
  lemma FirstPage(ss: seq<State>, ls: seq<Label>, n: nat, key: Bytes, end: Bytes, limit: int,
                  rev: int, keysOnly: bool, i: nat, page: OpResponse)
    requires IsRun(ss, ls) && i <= n < |ss| && rev > 0 && AnsweredAt(ss, key, end, limit, rev, keysOnly, i, page)
    ensures rev < |ss[n].Logical().hist| && PageOf(ss[n].Logical().hist[rev], key, end, limit, keysOnly, page)
  {
    var l, r := ss[i].Logical(), PageRequest(key, end, limit, rev, keysOnly);
    LogicalPastKept(ss, ls, i, n);
    PastRead(l, r);
    assert l.hist[rev] == ss[n].Logical().hist[rev];
    PageIs(key, end, limit, rev, keysOnly, Select(l.hist[rev], key, end));
  }

  /** What a page leaves out is the listing after its last key. */
  lemma RestOfListing(m: Snapshot, key: Bytes, end: Bytes, limit: int, keysOnly: bool, page: OpResponse)
    requires PageOf(m, key, end, limit, keysOnly, page) && page.more
    ensures page.kvs != [] && Presented(keysOnly, Select(m, key, end)) ==
              page.kvs + Presented(keysOnly, Select(m, LastKey(page) + [0], end))
  {
    var all := Select(m, key, end);
    if end == [] { OneKeyOneRow(m, key); }
    NextPage(m, key, end, limit);
    assert LastKey(page) == all[limit - 1].key;
    Rejoined(keysOnly, all, limit);
  }

  lemma Rejoined(keysOnly: bool, all: seq<KeyValue>, n: nat)
    requires n <= |all|
    ensures Presented(keysOnly, all[..n]) + Presented(keysOnly, all[n..]) == Presented(keysOnly, all)
  {
    assert all[..n] + all[n..] == all;
  }

  /** The create and mod revisions and versions that users see are true of the
      logical store's history, in every reachable state. */
  lemma {:induction false} UserMetadataTrue(ss: seq<State>, ls: seq<Label>, n: nat)
    requires IsRun(ss, ls) && n < |ss|
    ensures Chronicle(ss[n].Logical().hist)
  {
    RunRefines(ss, ls);
    if n > 0 {
      UserMetadataTrue(ss, ls, n - 1);
      PerformChronicles(ss[n - 1].Logical(), Observed(ss[n - 1], ls[n - 1]));
    }
  }

  lemma PerformChronicles(l: Store, o: Operation)
    requires Chronicle(l.hist)
    ensures Chronicle(Perform(l, o).hist)
  {
    match o
    case ReserveRevision =>
      HeadFollowsItself(l);
      Extended(l.hist, l.Head());
    case Run(t) => ExecuteChronicles(l, t);
    case RevokeOp(i) => RevokeChronicles(l, i);
    case _ =>
  }

  // ---- Routing agreement ----

  /** All proxies ever built successfully, at any times of one run, have the same
      routes, and once written the routing record is never altered. */
  lemma RoutesAgree(ss: seq<State>, ls: seq<Label>, i: nat, j: nat, p: int, q: int)
    requires IsRun(ss, ls) && i <= j < |ss| && p in ss[i].proxies && q in ss[j].proxies
    ensures ss[i].proxies[p] == ss[j].proxies[q]
    ensures ss[i].coord.Valid() && ss[j].coord.Valid()
    ensures CONFIG_KEY in ss[i].coord.Head() && CONFIG_KEY in ss[j].coord.Head()
    ensures ss[j].coord.Head()[CONFIG_KEY] == ss[i].coord.Head()[CONFIG_KEY]
  {
    Reachable(ss, ls, i);
    Reachable(ss, ls, j);
    PastKept(ss, ls, i, j);
  }

  /** The routing record is written at most once in a run. */
  lemma ReservedOnce(ss: seq<State>, ls: seq<Label>, i: nat, j: nat)
    requires IsRun(ss, ls) && i < j < |ls| && ls[i].Build? && ls[j].Build?
    ensures Observed(ss[j], ls[j]) == Nothing
  {
    Reachable(ss, ls, i);
    assert StepAt(ss, ls, i);
    BuildKeepsPast(ss[i], ls[i].proxy, ls[i].routes, ls[i].lost);
    PastKept(ss, ls, i + 1, j);
  }

  // ---- Mutations stay on one shard ----

  lemma OpConfined(rs: seq<Route>, l: Store, w: Work, op: Op, m: nat, u: Bytes)
    requires Covering(rs) && AcceptedOp(op) && (!op.OpRange? ==> MutationOf(rs, op) == Ok(m))
    ensures var n := ApplyOp(l, w, op).0.snap;
            ((u in w.snap) != (u in n) || (u in w.snap && w.snap[u] != n[u])) ==> Shard(rs, u) == m
  {
    match op
    case OpRange(_) =>
    case OpPut(p) => MutationShardExact(rs, p.key, []);
    case OpDelete(d) => MutationShardExact(rs, d.key, d.end);
  }

  lemma {:induction false} OpsConfined(rs: seq<Route>, l: Store, w: Work, ops: seq<Op>, m: nat, u: Bytes)
    requires Covering(rs) && Confined(rs, ops, m) && forall i :: 0 <= i < |ops| ==> AcceptedOp(ops[i])
    ensures var n := ApplyOps(l, w, ops).0.snap;
            ((u in w.snap) != (u in n) || (u in w.snap && w.snap[u] != n[u])) ==> Shard(rs, u) == m
    decreases ops
  {
    if ops != [] {
      OpConfined(rs, l, w, ops[0], m, u);
      OpsConfined(rs, l, ApplyOp(l, w, ops[0]).0, ops[1..], m, u);
    }
  }

  /** An accepted transaction changes keys of one shard only, whichever branch runs. */
  lemma AcceptedConfined(rs: seq<Route>, l: Store, t: Txn) returns (m: nat)
    requires l.Valid() && AcceptedTxn(rs, t)
    ensures Covering(rs) && Confined(rs, All(t), m)
    ensures forall u :: var a, b := l.Head(), Execute(l, t).0.Head();
              ((u in a) != (u in b) || (u in a && a[u] != b[u])) ==> Shard(rs, u) == m
  {
    m :| Confined(rs, All(t), m);
    var ops := Branch(l, t);
    forall i | 0 <= i < |ops|
      ensures AcceptedOp(ops[i]) && (!ops[i].OpRange? ==> MutationOf(rs, ops[i]) == Ok(m))
    {
      var j := if ops == t.success then i else |t.success| + i;
      assert All(t)[j] == ops[i];
      assert AcceptedOp(All(t)[j]);
    }
    forall u ensures var a, b := l.Head(), Execute(l, t).0.Head();
        ((u in a) != (u in b) || (u in a && a[u] != b[u])) ==> Shard(rs, u) == m
    {
      OpsConfined(rs, l, Work(l.Head(), false), ops, m, u);
    }
  }
}
