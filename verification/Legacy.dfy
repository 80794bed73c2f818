/** The legacy key-range mode: puts and fanned-out deletes over independent shards,
    in runs where every shard call succeeds. */
module Legacy {
  import opened Wrappers
  import opened ByteStrings
  import opened Routing

  type Kv = map<Bytes, Bytes>

  function KeysOf(m: Kv, key: Bytes, end: Bytes): set<Bytes>
  {
    set k | k in m && InRange(key, end, k)
  }

  /** All shards' stores as one; the shards' keys are disjoint when each holds only its own. */
  function Union(ss: seq<Kv>): Kv
  {
    if ss == [] then map[] else Union(ss[..|ss| - 1]) + ss[|ss| - 1]
  }

  /** Each shard holds only keys it owns. */
  ghost predicate Owned(rs: seq<Route>, ss: seq<Kv>)
  {
    |ss| <= |rs| && forall i :: 0 <= i < |ss| ==> forall k :: k in ss[i] ==> Owns(rs, i, k)
  }

  lemma {:induction false} UnionMember(ss: seq<Kv>, k: Bytes)
    ensures k in Union(ss) <==> exists i :: 0 <= i < |ss| && k in ss[i]
  {
    if ss != [] {
      var p := ss[..|ss| - 1];
      UnionMember(p, k);
      if k in Union(p) {
        var i :| 0 <= i < |p| && k in p[i];
        assert k in ss[i];
      }
      if i :| 0 <= i < |ss| && k in ss[i] {
        if i < |p| { assert k in p[i]; }
      }
    }
  }

  lemma HoldersAgree(rs: seq<Route>, ss: seq<Kv>, i: nat, j: nat, k: Bytes)
    requires Covering(rs) && Owned(rs, ss) && i < |ss| && j < |ss| && k in ss[i] && k in ss[j]
    ensures i == j
  {
    ShardIsUniqueOwner(rs, k);
  }

  lemma NotTwice(rs: seq<Route>, ss: seq<Kv>, n: nat, k: Bytes)
    requires Covering(rs) && Owned(rs, ss) && n < |ss|
    ensures !(k in Union(ss[..n]) && k in ss[n])
  {
    UnionMember(ss[..n], k);
    if i :| 0 <= i < n && k in ss[..n][i] && k in ss[n] { HoldersAgree(rs, ss, i, n, k); }
  }

  /** A key is found in the union with the value of its home shard. */
  lemma {:induction false} UnionAt(rs: seq<Route>, ss: seq<Kv>, i: nat, k: Bytes)
    requires Covering(rs) && Owned(rs, ss) && i < |ss| && Owns(rs, i, k)
    ensures k in Union(ss) <==> k in ss[i]
    ensures k in ss[i] ==> Union(ss)[k] == ss[i][k]
  {
    UnionMember(ss, k);
    ShardIsUniqueOwner(rs, k);
    var p := ss[..|ss| - 1];
    if i < |p| { UnionAt(rs, p, i, k); }
  }

  // ---- Put ----

  lemma PutUnion(rs: seq<Route>, ss: seq<Kv>, k: Bytes, v: Bytes)
    requires Covering(rs) && Owned(rs, ss) && |ss| == |rs|
    ensures var h := Shard(rs, k);
            Owned(rs, ss[h := ss[h][k := v]]) && Union(ss[h := ss[h][k := v]]) == Union(ss)[k := v]
  {
    var h := Shard(rs, k);
    var ts := ss[h := ss[h][k := v]];
    ShardIsUniqueOwner(rs, k);
    assert Owned(rs, ts);
    forall x ensures x in Union(ts) <==> x in Union(ss)[k := v]
             ensures x in Union(ts) ==> Union(ts)[x] == Union(ss)[k := v][x]
    {
      var i := Shard(rs, x);
      ShardIsUniqueOwner(rs, x);
      UnionAt(rs, ss, i, x);
      UnionAt(rs, ts, i, x);
    }
  }

  // ---- DeleteRange ----

  function Cleared(ss: seq<Kv>, key: Bytes, end: Bytes): seq<Kv>
  {
    seq(|ss|, i requires 0 <= i < |ss| => ss[i] - KeysOf(ss[i], key, end))
  }

  lemma ClearedUnion(rs: seq<Route>, ss: seq<Kv>, key: Bytes, end: Bytes)
    requires Covering(rs) && Owned(rs, ss) && |ss| == |rs|
    ensures Owned(rs, Cleared(ss, key, end))
    ensures Union(Cleared(ss, key, end)) == Union(ss) - KeysOf(Union(ss), key, end)
  {
    var ts := Cleared(ss, key, end);
    forall x ensures x in Union(ts) <==> x in Union(ss) - KeysOf(Union(ss), key, end)
             ensures x in Union(ts) ==> Union(ts)[x] == Union(ss)[x]
    {
      var i := Shard(rs, x);
      ShardIsUniqueOwner(rs, x);
      UnionAt(rs, ss, i, x);
      UnionAt(rs, ts, i, x);
    }
  }

  /** The number of keys of the range on the first n shards. */
  function CountUpTo(ss: seq<Kv>, key: Bytes, end: Bytes, n: nat): nat
    requires n <= |ss|
  {
    if n == 0 then 0 else CountUpTo(ss, key, end, n - 1) + |KeysOf(ss[n - 1], key, end)|
  }

  lemma {:induction false} CountIsUnion(rs: seq<Route>, ss: seq<Kv>, key: Bytes, end: Bytes, n: nat)
    requires Covering(rs) && Owned(rs, ss) && n <= |ss|
    ensures CountUpTo(ss, key, end, n) == |KeysOf(Union(ss[..n]), key, end)|
  {
    if n > 0 {
      CountIsUnion(rs, ss, key, end, n - 1);
      OneMoreShard(rs, ss, key, end, n - 1);
    }
  }

  lemma OneMoreShard(rs: seq<Route>, ss: seq<Kv>, key: Bytes, end: Bytes, n: nat)
    requires Covering(rs) && Owned(rs, ss) && n < |ss|
    ensures |KeysOf(Union(ss[..n + 1]), key, end)| == |KeysOf(Union(ss[..n]), key, end)| + |KeysOf(ss[n], key, end)|
  {
    var a, b := KeysOf(Union(ss[..n]), key, end), KeysOf(ss[n], key, end);
    assert ss[..n + 1][..n] == ss[..n];
    assert KeysOf(Union(ss[..n + 1]), key, end) == a + b;
    forall k ensures !(k in a && k in b) {
      NotTwice(rs, ss, n, k);
    }
    assert a !! b;
  }

  /** The keys a shard reports as deleted: how many, and which (for PrevKvs). */
  datatype DeleteResponse = DeleteResponse(deleted: int, prev: set<Bytes>)

  function Responses(ss: seq<Kv>, key: Bytes, end: Bytes, lo: nat, hi: nat): seq<DeleteResponse>
    requires lo <= hi <= |ss|
  {
    seq(hi - lo, i requires 0 <= i < hi - lo =>
      DeleteResponse(|KeysOf(ss[lo + i], key, end)|, KeysOf(ss[lo + i], key, end)))
  }

  function SumDeleted(rs: seq<DeleteResponse>, n: nat): int
    requires n <= |rs|
  {
    if n == 0 then 0 else SumDeleted(rs, n - 1) + rs[n - 1].deleted
  }

  /** FilterDeleteRange: the first response, with the other counts added to its own.
      The pairs of the other responses are dropped. */
  method FilterDeleteRange(resps: seq<DeleteResponse>) returns (r: Option<DeleteResponse>)
    ensures r.None? <==> resps == []
    ensures r.Some? ==> r.value.deleted == SumDeleted(resps, |resps|) && r.value.prev == resps[0].prev
  {
    if |resps| == 0 { return None; }
    var ret := resps[0];
    var i := 1;
    while i < |resps|
      invariant 1 <= i <= |resps|
      invariant ret.deleted == SumDeleted(resps, i) && ret.prev == resps[0].prev
    {
      ret := ret.(deleted := ret.deleted + resps[i].deleted);
      i := i + 1;
    }
    return Some(ret);
  }

  /** Shards outside the scan hold no key of the range, so the scanned shards' counts
      add up to all of them. */
  lemma {:induction false} ScanCountsAll(ss: seq<Kv>, key: Bytes, end: Bytes, lo: nat, hi: nat, n: nat)
    requires lo <= hi <= |ss| && n <= |ss|
    requires forall i :: 0 <= i < |ss| && !(lo <= i < hi) ==> KeysOf(ss[i], key, end) == {}
    ensures CountUpTo(ss, key, end, n) ==
              (if n <= lo then 0 else SumDeleted(Responses(ss, key, end, lo, hi), if n < hi then n - lo else hi - lo))
  {
    if n > 0 {
      ScanCountsAll(ss, key, end, lo, hi, n - 1);
      var rs := Responses(ss, key, end, lo, hi);
      if lo < n <= hi { assert rs[n - 1 - lo].deleted == |KeysOf(ss[n - 1], key, end)|; }
    }
  }

  /** Each of 0, 1, ..., n - 1 exactly once, in any order. */
  predicate Schedule(order: seq<nat>, n: nat)
  {
    && |order| == n && (forall q :: 0 <= q < n ==> q in order)
    && (forall i :: 0 <= i < n ==> order[i] < n) && (forall i, j :: 0 <= i < j < n ==> order[i] != order[j])
  }

  /** The calls to the scanned shards, made in the order in which the scheduler runs the
      goroutines. The outcome does not depend on it. */
  method FanOut(ss: seq<Kv>, clis: seq<nat>, order: seq<nat>, key: Bytes, end: Bytes, ghost lo: nat, ghost hi: nat)
    returns (after: seq<Kv>, rets: seq<DeleteResponse>)
    requires lo <= hi <= |ss| && clis == Run(lo, hi) && Schedule(order, |clis|)
    ensures rets == Responses(ss, key, end, lo, hi) && |after| == |ss|
    ensures forall i :: 0 <= i < |ss| ==> after[i] == if lo <= i < hi then ss[i] - KeysOf(ss[i], key, end) else ss[i]
  {
    after, rets := ss, seq(|clis|, _ => DeleteResponse(0, {}));
    for n := 0 to |order|
      invariant |after| == |ss| && |rets| == |clis|
      invariant forall q :: 0 <= q < |clis| && q in order[..n] ==> rets[q] == Responses(ss, key, end, lo, hi)[q]
      invariant forall i :: 0 <= i < |ss| ==>
                  after[i] == if lo <= i < hi && i - lo in order[..n] then ss[i] - KeysOf(ss[i], key, end) else ss[i]
    {
      var q := order[n];
      var i := clis[q];
      assert order[..n + 1] == order[..n] + [q] && q !in order[..n];
      var gone := KeysOf(after[i], key, end);
      rets := rets[q := DeleteResponse(|gone|, gone)];
      after := after[i := after[i] - gone];
    }
    assert order[..|order|] == order;
  }

  class KVProxy {
    const cs: seq<ShardConf>
    var stores: seq<Kv>

    ghost function Routes(): seq<Route> { BuiltRoutes(cs) }

    ghost predicate Valid()
      reads this
    {
      ValidConfig(cs) && |stores| == |cs| && Covering(Routes()) && Owned(Routes(), stores)
    }

    constructor (cs: seq<ShardConf>)
      requires ValidConfig(cs)
      ensures Valid() && this.cs == cs && Union(stores) == map[]
    {
      this.cs := cs;
      stores := seq(|cs|, _ => map[]);
      new;
      ConfigChain(cs, []);
      forall k ensures k !in Union(stores) { UnionMember(stores, k); }
    }

    /** Put: one shard, the home of the key, and the union gains exactly this pair. */
    method Put(key: Bytes, value: Bytes)
      requires Valid()
      modifies this`stores
      ensures Valid() && Union(stores) == old(Union(stores))[key := value]
      ensures var h := Shard(Routes(), key); stores == old(stores)[h := old(stores)[h][key := value]]
    {
      ghost var _ := LegacyScan(cs, key, []);
      var clis := GetShardClis(LegacyShards(cs), key, []);
      RoutersAgree(cs, key, []);
      PutUnion(Routes(), stores, key, value);
      var i := clis[0];
      stores := stores[i := stores[i][key := value]];
    }

    /** DeleteRange: the fan-out removes exactly the keys of the range from the union
        and reports exactly how many, in whatever order the shards are called. The pairs
        it reports are those of the home shard:
        all the deleted pairs exactly when every deleted key lives there, and surely so
        if the scan finds a single shard. */
    method DeleteRange(key: Bytes, end: Bytes, order: seq<nat>) returns (r: DeleteResponse)
      requires Valid() && Schedule(order, |AllContaining(LegacyShards(cs), key, end, |cs|)|)
      modifies this`stores
      ensures Valid() && Union(stores) == old(Union(stores)) - KeysOf(old(Union(stores)), key, end)
      ensures stores == Cleared(old(stores), key, end)
      ensures forall k :: k in Union(stores) <==> k in old(Union(stores)) && !InRange(key, end, k)
      ensures r.deleted == |set k | k in old(Union(stores)) && InRange(key, end, k)|
      ensures r.prev == KeysOf(old(stores)[Shard(Routes(), key)], key, end)
      ensures r.prev <= KeysOf(old(Union(stores)), key, end)
      ensures |AllContaining(LegacyShards(cs), key, end, |cs|)| == 1 ==> r.prev == KeysOf(old(Union(stores)), key, end)
      ensures r.prev == KeysOf(old(Union(stores)), key, end) <==>
                forall k :: k in KeysOf(old(Union(stores)), key, end) ==> Shard(Routes(), k) == Shard(Routes(), key)
    {
      ghost var hi := LegacyScan(cs, key, end);
      ghost var h := Shard(Routes(), key);
      ghost var was := stores;
      var clis := GetShardClis(LegacyShards(cs), key, end);
      forall i | 0 <= i < |was| && !(h <= i < hi) ensures KeysOf(was[i], key, end) == {} {
        NotScanned(Routes(), was, key, end, i);
      }
      var rets;
      stores, rets := FanOut(stores, clis, order, key, end, h, hi);
      forall i | 0 <= i < |was| ensures stores[i] == Cleared(was, key, end)[i] {
        if !(h <= i < hi) { assert was[i] - {} == was[i]; }
      }
      assert stores == Cleared(was, key, end);
      RangeDeleted(Routes(), was, key, end, h, hi);
      var filtered := FilterDeleteRange(rets);
      r := filtered.value;
      assert r.prev == KeysOf(was[h], key, end);
      HomePrev(Routes(), was, key, end);
      PairsCompleteExact(cs, key, end);
      assert AlwaysComplete(Routes(), key, end) ==> PairsComplete(Routes(), was, key, end);
    }
  }

  /** What clearing the range everywhere does, and what the scanned shards report of it. */
  lemma RangeDeleted(rs: seq<Route>, ss: seq<Kv>, key: Bytes, end: Bytes, lo: nat, hi: nat)
    requires Covering(rs) && Owned(rs, ss) && |ss| == |rs| && lo <= hi <= |ss|
    requires forall i :: 0 <= i < |ss| && !(lo <= i < hi) ==> KeysOf(ss[i], key, end) == {}
    ensures Owned(rs, Cleared(ss, key, end))
    ensures Union(Cleared(ss, key, end)) == Union(ss) - KeysOf(Union(ss), key, end)
    ensures forall k :: k in Union(Cleared(ss, key, end)) <==> k in Union(ss) && !InRange(key, end, k)
    ensures SumDeleted(Responses(ss, key, end, lo, hi), hi - lo) == |set k | k in Union(ss) && InRange(key, end, k)|
  {
    ClearedUnion(rs, ss, key, end);
    ScanCountsAll(ss, key, end, lo, hi, |ss|);
    CountIsUnion(rs, ss, key, end, |ss|);
    assert ss[..|ss|] == ss;
    assert KeysOf(Union(ss), key, end) == set k | k in Union(ss) && InRange(key, end, k);
  }

  lemma NotScanned(rs: seq<Route>, ss: seq<Kv>, key: Bytes, end: Bytes, i: nat)
    requires Covering(rs) && Owned(rs, ss) && i < |ss|
    ensures KeysOf(ss[i], key, end) != {} ==> OwnsSome(rs, i, key, end)
  {
    if k :| k in KeysOf(ss[i], key, end) {
      assert InRange(key, end, k) && Owns(rs, i, k);
    }
  }

  /** The home shard's pairs of the range are the union's exactly when no other shard has any. */
  lemma HomePrev(rs: seq<Route>, ss: seq<Kv>, key: Bytes, end: Bytes)
    requires Covering(rs) && Owned(rs, ss) && |ss| == |rs|
    ensures var h := Shard(rs, key);
            var mine, all := KeysOf(ss[h], key, end), KeysOf(Union(ss), key, end);
            mine <= all && (mine == all <==> forall k :: k in all ==> Shard(rs, k) == h)
  {
    var h := Shard(rs, key);
    var mine, all := KeysOf(ss[h], key, end), KeysOf(Union(ss), key, end);
    forall k | k in mine ensures k in all && Shard(rs, k) == h {
      UnionAt(rs, ss, h, k);
      ShardIsUniqueOwner(rs, k);
    }
    forall k | k in all && Shard(rs, k) == h ensures k in mine {
      ShardIsUniqueOwner(rs, k);
      UnionAt(rs, ss, h, k);
    }
  }

  /** The home shard's pairs of the range are all of them. */
  predicate PairsComplete(rs: seq<Route>, ss: seq<Kv>, key: Bytes, end: Bytes)
    requires Covering(rs) && |ss| == |rs|
  {
    KeysOf(ss[Shard(rs, key)], key, end) == KeysOf(Union(ss), key, end)
  }

  /** ... whatever the shards hold. */
  ghost predicate AlwaysComplete(rs: seq<Route>, key: Bytes, end: Bytes)
    requires Covering(rs)
  {
    forall ss :: |ss| == |rs| && Owned(rs, ss) ==> PairsComplete(rs, ss, key, end)
  }

  /** A key of the range on another shard, once stored, is deleted but not reported. */
  lemma PairsDropped(rs: seq<Route>, key: Bytes, end: Bytes, u: Bytes, v: Bytes) returns (ss: seq<Kv>)
    requires Covering(rs) && InRange(key, end, u) && Shard(rs, u) != Shard(rs, key)
    ensures |ss| == |rs| && Owned(rs, ss) && !PairsComplete(rs, ss, key, end)
    ensures ss[Shard(rs, u)] == map[u := v]
  {
    ss := seq(|rs|, i => if i == Shard(rs, u) then map[u := v] else map[]);
    ShardIsUniqueOwner(rs, u);
    UnionAt(rs, ss, Shard(rs, u), u);
    assert u in KeysOf(Union(ss), key, end) && u !in KeysOf(ss[Shard(rs, key)], key, end);
  }

  /** The reported pairs can be relied on, whatever the shards hold, exactly when the scan
      finds a single shard, that is when the coordinated router would take the range as
      one mutation. */
  lemma PairsCompleteExact(cs: seq<ShardConf>, key: Bytes, end: Bytes)
    requires ValidConfig(cs)
    ensures Covering(BuiltRoutes(cs)) && |LegacyShards(cs)| == |cs|
    ensures AlwaysComplete(BuiltRoutes(cs), key, end) <==> |AllContaining(LegacyShards(cs), key, end, |cs|)| == 1
    ensures key != [] ==> (AlwaysComplete(BuiltRoutes(cs), key, end) <==> MutationShard(BuiltRoutes(cs), key, end).Ok?)
  {
    RoutersAgree(cs, key, end);
    var hi := LegacyScan(cs, key, end);
    var rs, h := BuiltRoutes(cs), Shard(BuiltRoutes(cs), key);
    if hi == h + 1 {
      forall ss: seq<Kv> | |ss| == |rs| && Owned(rs, ss) ensures PairsComplete(rs, ss, key, end) {
        AloneComplete(rs, ss, key, end);
      }
    } else {
      assert OwnsSome(rs, h + 1, key, end);
      var u :| InRange(key, end, u) && Owns(rs, h + 1, u);
      ShardIsUniqueOwner(rs, u);
      var ss := PairsDropped(rs, key, end, u, []);
    }
  }

  lemma AloneComplete(rs: seq<Route>, ss: seq<Kv>, key: Bytes, end: Bytes)
    requires Covering(rs) && Owned(rs, ss) && |ss| == |rs|
    requires forall i :: 0 <= i < |rs| && OwnsSome(rs, i, key, end) ==> i == Shard(rs, key)
    ensures PairsComplete(rs, ss, key, end)
  {
    forall k | k in KeysOf(Union(ss), key, end) ensures Shard(rs, k) == Shard(rs, key) {
      ShardIsUniqueOwner(rs, k);
      assert OwnsSome(rs, Shard(rs, k), key, end);
    }
    HomePrev(rs, ss, key, end);
  }

  lemma TwoStores(a: Kv, b: Kv)
    ensures Union([a, b]) == a + b
  {
    var ss := [a, b];
    assert ss[..1] == [a] && [a][..0] == [];
    assert Union([a]) == map[] + a;
  }

  lemma SplitAtM() returns (cs: seq<ShardConf>)
    ensures ValidConfig(cs) && |cs| == 2 && Covering(BuiltRoutes(cs))
    ensures Shard(BuiltRoutes(cs), [97]) == 0 && Owns(BuiltRoutes(cs), 0, [97]) && Owns(BuiltRoutes(cs), 1, [122])
  {
    var a: Bytes, m: Bytes, z: Bytes := [97], [109], [122];
    cs := [ShardConf([], [], m, [], [49], NO_TLS), ShardConf(m, [], [], [], [50], NO_TLS)];
    assert Less([], m) && Less(a, m) && !Less(z, m);
    ConfigChain(cs, []);
  }

  /** Two shards split at "m", holding "a" and "z": a delete of everything from "a" on
      removes both and reports only "a". */
  lemma PairsLost() returns (cs: seq<ShardConf>, ss: seq<Kv>)
    ensures ValidConfig(cs) && Covering(BuiltRoutes(cs)) && |ss| == |cs| && Owned(BuiltRoutes(cs), ss)
    ensures KeysOf(Union(ss), [97], NO_END) == {[97], [122]}
    ensures KeysOf(ss[Shard(BuiltRoutes(cs), [97])], [97], NO_END) == {[97]}
  {
    var a: Bytes, z: Bytes := [97], [122];
    cs := SplitAtM();
    ss := [map[a := []], map[z := []]];
    TwoStores(ss[0], ss[1]);
    assert InRange(a, NO_END, a) && InRange(a, NO_END, z) by { LessIrreflexive(a); }
  }

  // ---- Whole runs ----

  datatype Request = PutOf(key: Bytes, value: Bytes) | DeleteOf(key: Bytes, end: Bytes)

  /** What a run of requests does to the shards, and to one plain store. */
  function ShardsAfter(rs: seq<Route>, ss: seq<Kv>, ops: seq<Request>): seq<Kv>
    requires Covering(rs) && |ss| == |rs|
    decreases ops
  {
    if ops == [] then ss
    else
      match ops[0]
      case PutOf(k, v) => ShardsAfter(rs, ss[Shard(rs, k) := ss[Shard(rs, k)][k := v]], ops[1..])
      case DeleteOf(k, e) => ShardsAfter(rs, Cleared(ss, k, e), ops[1..])
  }

  function StoreAfter(m: Kv, ops: seq<Request>): Kv
    decreases ops
  {
    if ops == [] then m
    else
      match ops[0]
      case PutOf(k, v) => StoreAfter(m[k := v], ops[1..])
      case DeleteOf(k, e) => StoreAfter(m - KeysOf(m, k, e), ops[1..])
  }

  /** Over every run the shards together are the one store, each holding only its own keys. */
  lemma {:induction false} RunConserves(rs: seq<Route>, ss: seq<Kv>, ops: seq<Request>)
    requires Covering(rs) && Owned(rs, ss) && |ss| == |rs|
    ensures Owned(rs, ShardsAfter(rs, ss, ops)) && Union(ShardsAfter(rs, ss, ops)) == StoreAfter(Union(ss), ops)
    decreases ops
  {
    if ops != [] {
      match ops[0]
      case PutOf(k, v) =>
        PutUnion(rs, ss, k, v);
        RunConserves(rs, ss[Shard(rs, k) := ss[Shard(rs, k)][k := v]], ops[1..]);
      case DeleteOf(k, e) =>
        ClearedUnion(rs, ss, k, e);
        RunConserves(rs, Cleared(ss, k, e), ops[1..]);
    }
  }
}
