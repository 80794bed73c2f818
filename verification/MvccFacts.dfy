/** What the store model means: the metadata of every record tells the history of
    its key, reads see the writes before them, and pages of a snapshot add up. */
module MvccFacts {
  import opened ByteStrings
  import opened Mvcc

  // ---- Metadata tells history ----

  /** Key k of snapshot b, at revision r, follows from snapshot a before it: written at
      r, once, with its creation kept and its version counted up; or untouched. */
  predicate Evolves(a: Snapshot, b: Snapshot, r: int, k: Bytes)
    requires k in b
  {
    if b[k].mod == r then
      if k in a then b[k].create == a[k].create && b[k].version == a[k].version + 1
      else b[k].create == r && b[k].version == 1
    else k in a && a[k] == b[k]
  }

  ghost predicate Follows(a: Snapshot, b: Snapshot, r: int)
  {
    forall k :: k in b ==> Evolves(a, b, r, k)
  }

  ghost predicate Chronicle(h: seq<Snapshot>)
  {
    |h| > 0 && h[0] == map[] && forall r :: 0 < r < |h| ==> Follows(h[r - 1], h[r], r)
  }

  /** The number of revisions in lo..hi at which k was written. */
  function Writes(h: seq<Snapshot>, k: Bytes, lo: nat, hi: nat): nat
    requires lo <= hi < |h|
    decreases hi
  {
    (if k in h[hi] && h[hi][k].mod == hi then 1 else 0) + (if hi > lo then Writes(h, k, lo, hi - 1) else 0)
  }

  /** The user-visible metadata is true: a record at revision r was written at its mod
      revision and is unchanged since, its key has been present since its create
      revision and not just before, and its version counts the writes since. */
  lemma {:induction false} MetadataTrue(h: seq<Snapshot>, r: nat, k: Bytes)
    requires Chronicle(h) && r < |h| && k in h[r]
    ensures var rec := h[r][k];
            && 0 < rec.create <= rec.mod <= r
            && (forall j :: rec.mod <= j <= r ==> k in h[j] && h[j][k] == rec)
            && k !in h[rec.create - 1] && (forall j :: rec.create <= j <= r ==> k in h[j])
            && rec.version == Writes(h, k, rec.create, r)
  {
    assert r > 0 && Follows(h[r - 1], h[r], r);
    assert Evolves(h[r - 1], h[r], r, k);
    if k in h[r - 1] { MetadataTrue(h, r - 1, k); }
  }

  /** The puts still to come find their keys as the transaction found them. */
  ghost predicate Untouched(m: Snapshot, n: Snapshot, ops: seq<Op>)
  {
    forall i :: 0 <= i < |ops| && ops[i].OpPut? ==>
      SameAt(m, n, ops[i].put.key)
  }

  lemma UntouchedRest(s: Store, w: Work, m: Snapshot, ops: seq<Op>)
    requires ops != [] && !HasDuplicates(ops) && Untouched(m, w.snap, ops)
    ensures Untouched(m, ApplyOp(s, w, ops[0]).0.snap, ops[1..]) && !HasDuplicates(ops[1..])
  {
    var rest := ops[1..];
    forall i | 0 <= i < |rest| && rest[i].OpPut?
      ensures SameAt(m, ApplyOp(s, w, ops[0]).0.snap, rest[i].put.key)
    {
      assert rest[i] == ops[i + 1] && !Clash(ops[i + 1], ops[0]);
    }
    forall i, j | 0 <= i < |rest| && 0 <= j < |rest| && i != j ensures !Clash(rest[i], rest[j]) {
      assert !Clash(ops[i + 1], ops[j + 1]);
    }
  }

  lemma {:induction false} OpsFollow(s: Store, w: Work, m: Snapshot, ops: seq<Op>)
    requires Follows(m, w.snap, s.Rev() + 1) && Untouched(m, w.snap, ops) && !HasDuplicates(ops)
    ensures Follows(m, ApplyOps(s, w, ops).0.snap, s.Rev() + 1)
    decreases ops
  {
    if ops != [] {
      var n := ApplyOp(s, w, ops[0]).0;
      forall k | k in n.snap ensures Evolves(m, n.snap, s.Rev() + 1, k) {
        if k in w.snap { assert Evolves(m, w.snap, s.Rev() + 1, k); }
      }
      UntouchedRest(s, w, m, ops);
      OpsFollow(s, n, m, ops[1..]);
    }
  }

  lemma HeadFollowsItself(s: Store)
    requires Chronicle(s.hist)
    ensures Follows(s.Head(), s.Head(), s.Rev() + 1)
  {
    forall k | k in s.Head() ensures Evolves(s.Head(), s.Head(), s.Rev() + 1, k) {
      MetadataTrue(s.hist, |s.hist| - 1, k);
    }
  }

  lemma ExecuteChronicles(s: Store, t: Txn)
    requires Chronicle(s.hist)
    ensures Chronicle(Execute(s, t).0.hist)
  {
    var ops, w := Branch(s, t), Work(s.Head(), false);
    if !HasDuplicates(t.success) && !HasDuplicates(t.failure) && CheckOps(s, ops).None? {
      HeadFollowsItself(s);
      OpsFollow(s, w, s.Head(), ops);
      Extended(s.hist, ApplyOps(s, w, ops).0.snap);
    }
  }

  lemma Extended(h: seq<Snapshot>, m: Snapshot)
    requires Chronicle(h) && Follows(h[|h| - 1], m, |h|)
    ensures Chronicle(h + [m])
  {
    var g := h + [m];
    forall r | 0 < r < |g| ensures Follows(g[r - 1], g[r], r) {
      if r < |h| { assert g[r] == h[r] && g[r - 1] == h[r - 1]; }
    }
  }

  lemma RevokeChronicles(s: Store, id: int)
    requires Chronicle(s.hist)
    ensures Chronicle(Revoke(s, id).hist)
  {
    HeadFollowsItself(s);
    var m := s.Head() - Attached(s.Head(), id);
    forall k | k in m ensures Evolves(s.Head(), m, s.Rev() + 1, k) {
      assert Evolves(s.Head(), s.Head(), s.Rev() + 1, k);
    }
    Extended(s.hist, m);
  }

  /** The two agree on key k. */
  predicate SameAt(a: Snapshot, b: Snapshot, k: Bytes)
  {
    (k in a <==> k in b) && (k in a ==> a[k] == b[k])
  }

  // ---- Sorting and filtering ----

  predicate Ordered(target: SortTarget, descending: bool, s: seq<KeyValue>)
  {
    forall i, j :: 0 <= i < j < |s| ==> !Precedes(target, descending, s[j], s[i])
  }

  lemma PrecedesOrder(target: SortTarget, descending: bool, a: KeyValue, b: KeyValue, c: KeyValue)
    ensures Precedes(target, descending, a, b) ==> !Precedes(target, descending, b, a)
    ensures !Precedes(target, descending, b, a) && !Precedes(target, descending, c, b) ==>
              !Precedes(target, descending, c, a)
  {
    if target == ByKey { BytesOrder(a.key, b.key, c.key); }
    if target == ByValue { BytesOrder(a.value, b.value, c.value); }
  }

  lemma BytesOrder(a: Bytes, b: Bytes, c: Bytes)
    ensures Less(a, b) ==> !Less(b, a)
    ensures Less(c, a) ==> Less(b, a) || Less(c, b)
    ensures Less(a, c) ==> Less(a, b) || Less(b, c)
  {
    if Less(a, b) { LessAsymmetric(a, b); }
    if Less(c, a) && !Less(c, b) { LessMixed(b, c, a); }
    if Less(a, c) && !Less(a, b) { LessMixed(b, a, c); }
  }

  lemma {:induction false} InsertMembers(target: SortTarget, descending: bool, x: KeyValue, s: seq<KeyValue>)
    ensures multiset(Insert(target, descending, x, s)) == multiset{x} + multiset(s)
  {
    if s != [] {
      assert s == [s[0]] + s[1..];
      InsertMembers(target, descending, x, s[1..]);
    }
  }

  lemma OrderedCons(target: SortTarget, descending: bool, x: KeyValue, s: seq<KeyValue>)
    requires Ordered(target, descending, s) && forall y :: y in s ==> !Precedes(target, descending, y, x)
    ensures Ordered(target, descending, [x] + s)
  {}

  lemma {:induction false} InsertOrdered(target: SortTarget, descending: bool, x: KeyValue, s: seq<KeyValue>)
    requires Ordered(target, descending, s)
    ensures Ordered(target, descending, Insert(target, descending, x, s))
  {
    if s != [] {
      if Precedes(target, descending, s[0], x) {
        InsertOrdered(target, descending, x, s[1..]);
        InsertMembers(target, descending, x, s[1..]);
        var r := Insert(target, descending, x, s[1..]);
        forall y | y in r ensures !Precedes(target, descending, y, s[0]) {
          assert y in multiset(r);
          PrecedesOrder(target, descending, s[0], x, x);
        }
        OrderedCons(target, descending, s[0], r);
      } else {
        forall y | y in s ensures !Precedes(target, descending, y, x) {
          PrecedesOrder(target, descending, x, s[0], y);
        }
        OrderedCons(target, descending, x, s);
      }
    }
  }

  /** Sorting orders the pairs by the target and is a permutation. */
  lemma {:induction false} SortArranges(target: SortTarget, descending: bool, s: seq<KeyValue>)
    ensures Ordered(target, descending, Sort(target, descending, s))
    ensures multiset(Sort(target, descending, s)) == multiset(s)
  {
    if s != [] {
      assert s == [s[0]] + s[1..];
      SortArranges(target, descending, s[1..]);
      InsertOrdered(target, descending, s[0], Sort(target, descending, s[1..]));
      InsertMembers(target, descending, s[0], Sort(target, descending, s[1..]));
    }
  }

  /** Filtering keeps exactly the pairs within the revision bounds, as often as they occur. */
  lemma {:induction false} PruneExact(r: RangeRequest, s: seq<KeyValue>, kv: KeyValue)
    ensures multiset(Prune(r, s))[kv] == if Kept(r, kv) then multiset(s)[kv] else 0
  {
    if s != [] {
      assert s == [s[0]] + s[1..];
      PruneExact(r, s[1..], kv);
    }
  }

  lemma {:induction false} PruneNothing(r: RangeRequest, kvs: seq<KeyValue>)
    requires !Filtered(r)
    ensures Prune(r, kvs) == kvs
  {
    if kvs != [] {
      PruneNothing(r, kvs[1..]);
      assert kvs == [kvs[0]] + kvs[1..];
    }
  }

  /** A subsequence of an ordered sequence is ordered. */
  lemma {:induction false} PruneOrdered(target: SortTarget, descending: bool, r: RangeRequest, s: seq<KeyValue>)
    requires Ordered(target, descending, s)
    ensures Ordered(target, descending, Prune(r, s))
  {
    if s != [] {
      PruneOrdered(target, descending, r, s[1..]);
      var rest := Prune(r, s[1..]);
      forall y | y in rest ensures !Precedes(target, descending, y, s[0]) {
        PruneExact(r, s[1..], y);
        assert y in multiset(rest) && y in multiset(s[1..]);
      }
      OrderedCons(target, descending, s[0], rest);
    }
  }

  lemma SelectOrdered(m: Snapshot, key: Bytes, end: Bytes)
    ensures Ordered(ByKey, false, Select(m, key, end))
  {
    var ks := Sorted(KeysIn(m, key, end));
    forall i, j | 0 <= i < j < |ks| ensures !Less(ks[j], ks[i]) {
      LessAsymmetric(ks[i], ks[j]);
    }
  }

  // ---- Pages add up ----

  /** k + [0] is the first key after k. */
  lemma {:induction false} Successor(k: Bytes, x: Bytes)
    ensures !Less(x, k + [0]) <==> Less(k, x)
  {
    if k == [] {
      assert [] + [0] == [0];
      if x != [] { assert !Less(x[1..], []) && [0][1..] == []; }
    } else if x != [] {
      Successor(k[1..], x[1..]);
      assert (k + [0])[1..] == k[1..] + [0];
    }
  }

  /** Reading on from the first key after the last one of a page gives exactly the
      pairs that the page left out. */
  lemma NextPage(m: Snapshot, key: Bytes, end: Bytes, n: nat)
    requires end != [] && 0 < n <= |Select(m, key, end)|
    ensures var kvs := Select(m, key, end); Select(m, kvs[n - 1].key + [0], end) == kvs[n..]
  {
    var ks := Sorted(KeysIn(m, key, end));
    var last := ks[n - 1];
    var rest := Sorted(KeysIn(m, last + [0], end));
    forall x ensures x in ks[n..] <==> x in rest {
      Successor(last, x);
      if x in ks[n..] {
        var i :| n <= i < |ks| && ks[i] == x;
        assert x in KeysIn(m, key, end);
      }
      if x in rest {
        assert last in KeysIn(m, key, end);
        if Less(x, key) { LessMixed(x, key, last); LessAsymmetric(x, last); }
        assert x in KeysIn(m, key, end) && x in ks;
        var i :| 0 <= i < |ks| && ks[i] == x;
        LessIrreflexive(x);
        if i < n { AtMost(ks, i, n - 1); }
        assert ks[n..][i - n] == x;
      }
    }
    AscendingUnique(ks[n..], rest);
  }

  lemma AtMost(ks: seq<Bytes>, i: nat, j: nat)
    requires Ascending(ks) && i <= j < |ks|
    ensures !Less(ks[j], ks[i])
  {
    LessIrreflexive(ks[i]);
    if i < j { LessAsymmetric(ks[i], ks[j]); }
  }
}
