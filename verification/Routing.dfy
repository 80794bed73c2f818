/** Key-range routing: configuration, normalisation, the coordinated router and
    the legacy router with its early-exit scan. */
module Routing {
  import opened Wrappers
  import opened ByteStrings

  // ---- Coordinated routes ----

  /** A half-open key range and the endpoint of its data shard; an empty final
      `end` covers the rest of the keyspace. */
  datatype Route = Route(start: Bytes, end: Bytes, endpoint: Bytes)

  /** Contiguous ordered ranges covering all keys (the constructor's range checks). */
  predicate Covering(rs: seq<Route>)
  {
    && |rs| > 0
    && rs[0].start == []
    && rs[|rs| - 1].end == []
    && (forall i :: 0 < i < |rs| ==> rs[i - 1].end == rs[i].start)
    && (forall i :: 0 <= i < |rs| - 1 ==> rs[i].end != [] && Less(rs[i].start, rs[i].end))
  }

  predicate DistinctEndpoints(rs: seq<Route>, coordinator: Bytes)
  {
    && (forall i :: 0 <= i < |rs| ==> rs[i].endpoint != coordinator)
    && (forall i, j :: 0 <= i < j < |rs| ==> rs[i].endpoint != rs[j].endpoint)
  }

  predicate ValidRoutes(rs: seq<Route>, coordinator: Bytes)
  {
    Covering(rs) && DistinctEndpoints(rs, coordinator)
  }

  /** Shard i owns key k. */
  predicate Owns(rs: seq<Route>, i: int, k: Bytes)
    requires 0 <= i < |rs|
  {
    !Less(k, rs[i].start) && (rs[i].end == [] || Less(k, rs[i].end))
  }

  /** Shard i owns some key of the range. */
  ghost predicate OwnsSome(rs: seq<Route>, i: int, key: Bytes, end: Bytes)
    requires 0 <= i < |rs|
  {
    exists u :: InRange(key, end, u) && Owns(rs, i, u)
  }

  /** The first shard whose end lies above the key. */
  function Shard(rs: seq<Route>, k: Bytes): (i: nat)
    requires Covering(rs)
    ensures i < |rs| && (rs[i].end == [] || Less(k, rs[i].end))
    ensures forall j :: 0 <= j < i ==> rs[j].end != [] && !Less(k, rs[j].end)
  {
    ShardFrom(rs, k, 0)
  }

  function ShardFrom(rs: seq<Route>, k: Bytes, i: nat): (r: nat)
    requires Covering(rs) && i < |rs|
    requires forall j :: 0 <= j < i ==> rs[j].end != [] && !Less(k, rs[j].end)
    ensures r < |rs| && (rs[r].end == [] || Less(k, rs[r].end))
    ensures forall j :: 0 <= j < r ==> rs[j].end != [] && !Less(k, rs[j].end)
    decreases |rs| - i
  {
    if rs[i].end == [] || Less(k, rs[i].end) then i else ShardFrom(rs, k, i + 1)
  }

  /** Boundaries never decrease. */
  lemma {:induction false} BoundariesAscend(rs: seq<Route>, i: int, j: int)
    requires Covering(rs) && 0 <= i < j < |rs|
    ensures rs[i].end != [] && !Less(rs[j].start, rs[i].end)
  {
    LessIrreflexive(rs[i].end);
    if j == i + 1 {
      assert rs[j - 1].end == rs[j].start;
    } else {
      BoundariesAscend(rs, i, j - 1);
      assert rs[j - 1].end == rs[j].start && Less(rs[j - 1].start, rs[j - 1].end);
      if Less(rs[j].start, rs[i].end) {
        LessTransitive(rs[j - 1].start, rs[j].start, rs[i].end);
      }
    }
  }

  /** The shards partition the whole keyspace: `shard` returns the one owner of
      every key, so its panic is never reached. */
  lemma ShardIsUniqueOwner(rs: seq<Route>, k: Bytes)
    requires Covering(rs)
    ensures forall i :: 0 <= i < |rs| ==> (Owns(rs, i, k) <==> i == Shard(rs, k))
  {
    var h := Shard(rs, k);
    forall i | 0 <= i < |rs| ensures Owns(rs, i, k) <==> i == h {
      if i == h {
        if h > 0 { assert rs[h - 1].end == rs[h].start; }
      } else if h < i {
        BoundariesAscend(rs, h, i);
        LessMixed(k, rs[h].end, rs[i].start);
      }
    }
  }

  /** The source's loop over the shards. */
  method FindShard(rs: seq<Route>, k: Bytes) returns (i: nat)
    requires Covering(rs)
    ensures i < |rs| && Owns(rs, i, k)
    ensures forall j :: 0 <= j < |rs| && Owns(rs, j, k) ==> j == i
  {
    ShardIsUniqueOwner(rs, k);
    i := 0;
    while i < |rs|
      invariant i <= |rs|
      invariant forall j :: 0 <= j < i ==> rs[j].end != [] && !Less(k, rs[j].end)
    {
      if rs[i].end == [] || Less(k, rs[i].end) {
        return;
      }
      i := i + 1;
    }
    assert false;
  }

  function MutationShard(rs: seq<Route>, key: Bytes, end: Bytes): Result<nat, Status>
    requires Covering(rs)
  {
    if key == [] then Err(InvalidArgument)
    else
      var i := Shard(rs, key);
      if end != [] && rs[i].end != [] && (end == NO_END || Less(rs[i].end, end)) then Err(InvalidArgument)
      else Ok(i)
  }

  /** A mutation of a non-empty key is accepted exactly when every key of its
      range has the same owner as the key itself. */
  lemma MutationShardExact(rs: seq<Route>, key: Bytes, end: Bytes)
    requires Covering(rs) && key != []
    ensures MutationShard(rs, key, end).Ok? <==>
              forall u :: InRange(key, end, u) ==> Shard(rs, u) == Shard(rs, key)
    ensures MutationShard(rs, key, end).Ok? ==> MutationShard(rs, key, end).value == Shard(rs, key)
    ensures MutationShard(rs, key, end).Err? ==>
              var b := rs[Shard(rs, key)].end;
              InRange(key, end, b) && Shard(rs, b) != Shard(rs, key)
  {
    var h := Shard(rs, key);
    ShardIsUniqueOwner(rs, key);
    if MutationShard(rs, key, end).Ok? {
      forall u | InRange(key, end, u) ensures Shard(rs, u) == h {
        ShardIsUniqueOwner(rs, u);
        InRangeStaysInShard(rs, h, key, end, u);
      }
    } else {
      LessIrreflexive(rs[h].end);
      LessAsymmetric(key, rs[h].end);
      assert InRange(key, end, rs[h].end);
    }
  }

  lemma InRangeStaysInShard(rs: seq<Route>, h: nat, key: Bytes, end: Bytes, u: Bytes)
    requires Covering(rs) && h < |rs| && Owns(rs, h, key) && InRange(key, end, u)
    requires end == [] || rs[h].end == [] || (end != NO_END && !Less(rs[h].end, end))
    ensures Owns(rs, h, u)
  {
    if end != [] {
      if Less(u, rs[h].start) { LessMixed(u, rs[h].start, key); }
      if rs[h].end != [] { LessMixed(u, end, rs[h].end); }
    }
  }

  // ---- Configuration ----

  /** One configured shard. The byte fields count only where the text field is empty. */
  datatype ShardConf = ShardConf(
    start: Bytes, startBytes: Bytes, end: Bytes, endBytes: Bytes, address: Bytes, tls: Tls)

  datatype Tls = Tls(
    enabled: bool, certFile: Bytes, keyFile: Bytes, caFile: Bytes, serverName: Bytes, clientCertAuth: bool)

  const NO_TLS: Tls := Tls(false, [], [], [], [], false)

  /** Any option at all switches transport security on. */
  predicate TlsEnabled(t: Tls)
    ensures TlsEnabled(t) <==> t != NO_TLS
  {
    t.enabled || t.certFile != [] || t.keyFile != [] || t.caFile != [] || t.serverName != [] || t.clientCertAuth
  }

  /** The options fit together, for the listener or for a connection to a backend. */
  predicate TlsOk(t: Tls, frontend: bool)
  {
    && (t.certFile == [] <==> t.keyFile == [])
    && (frontend ==>
          t.serverName == [] && (TlsEnabled(t) ==> t.certFile != []) && (t.clientCertAuth ==> t.caFile != []))
    && (!frontend ==> !t.clientCertAuth)
  }

  method ValidateTls(t: Tls, frontend: bool) returns (ok: bool)
    ensures ok <==> TlsOk(t, frontend)
  {
    if (t.certFile == []) != (t.keyFile == []) { return false; }
    if frontend && TlsEnabled(t) && t.certFile == [] { return false; }
    if frontend && t.clientCertAuth && t.caFile == [] { return false; }
    if frontend && t.serverName != [] { return false; }
    if !frontend && t.clientCertAuth { return false; }
    return true;
  }

  datatype Backend = Backend(endpoint: Bytes, tls: Tls)

  datatype Configurations = Configurations(
    tls: Tls, backend: Option<Backend>, coordinator: Option<Backend>, shards: seq<ShardConf>)

  function ConfStart(c: ShardConf): Bytes
  {
    if c.start != [] then c.start else c.startBytes
  }

  function ConfEnd(c: ShardConf): Bytes
  {
    if c.end != [] then c.end else c.endBytes
  }

  /** What `Validate` promises about the boundaries: the first start and the last
      end are ignored, each other start is the previous end, and each end but the
      last is a proper boundary above its start and not the "no end" sentinel. */
  predicate ValidConfig(cs: seq<ShardConf>)
  {
    && |cs| > 0
    && (forall i :: 0 <= i < |cs| ==> cs[i].address != [])
    && (forall i :: 0 < i < |cs| ==> ConfStart(cs[i]) == ConfEnd(cs[i - 1]))
    && (forall i :: 0 <= i < |cs| - 1 ==>
          && ConfEnd(cs[i]) != [] && ConfEnd(cs[i]) != NO_END
          && Less(if i == 0 then [] else ConfStart(cs[i]), ConfEnd(cs[i])))
  }

  /** Shards use transport security only in coordinated mode, and then sensibly. */
  predicate SecureShards(coordinated: bool, cs: seq<ShardConf>)
  {
    forall i :: 0 <= i < |cs| ==> TlsOk(cs[i].tls, false) && (coordinated || !TlsEnabled(cs[i].tls))
  }

  /** One mode is configured: a single backend, or shards with or without a coordinator. */
  predicate ValidSetup(c: Configurations)
  {
    && TlsOk(c.tls, true)
    && (c.backend.Some? ==>
          && c.backend.value.endpoint != [] && TlsOk(c.backend.value.tls, false)
          && c.shards == [] && c.coordinator.None?)
    && (c.backend.None? ==> ValidConfig(c.shards) && SecureShards(c.coordinator.Some?, c.shards))
    && (c.coordinator.Some? ==> c.coordinator.value.endpoint != [] && TlsOk(c.coordinator.value.tls, false))
  }

  /** Iteration i of the loop finds nothing to refuse. */
  predicate ConfOk(coordinated: bool, cs: seq<ShardConf>, i: int)
    requires 0 <= i < |cs|
  {
    var start, end := if i == 0 then [] else ConfStart(cs[i]), ConfEnd(cs[i]);
    && cs[i].address != []
    && TlsOk(cs[i].tls, false) && (coordinated || !TlsEnabled(cs[i].tls))
    && (i > 0 ==> start == ConfEnd(cs[i - 1]))
    && (i < |cs| - 1 ==> end != [] && end != NO_END && Less(start, end))
  }

  lemma ValidShardByShard(coordinated: bool, cs: seq<ShardConf>)
    requires |cs| > 0
    ensures ValidConfig(cs) && SecureShards(coordinated, cs) <==>
              forall i :: 0 <= i < |cs| ==> ConfOk(coordinated, cs, i)
  {
    if forall i :: 0 <= i < |cs| ==> ConfOk(coordinated, cs, i) {
      forall i | 0 <= i < |cs|
        ensures cs[i].address != [] && (i > 0 ==> ConfStart(cs[i]) == ConfEnd(cs[i - 1]))
        ensures TlsOk(cs[i].tls, false) && (coordinated || !TlsEnabled(cs[i].tls))
        ensures i < |cs| - 1 ==> ConfEnd(cs[i]) != [] && ConfEnd(cs[i]) != NO_END
        ensures i < |cs| - 1 ==> Less(if i == 0 then [] else ConfStart(cs[i]), ConfEnd(cs[i]))
      {
        assert ConfOk(coordinated, cs, i);
      }
    }
  }

  method Validate(c: Configurations) returns (ok: bool)
    ensures ok <==> ValidSetup(c)
  {
    ok := ValidateTls(c.tls, true);
    if !ok { return; }
    if c.backend.Some? {
      if c.backend.value.endpoint == [] { return false; }
      if |c.shards| != 0 || c.coordinator.Some? { return false; }
      ok := ValidateTls(c.backend.value.tls, false);
      return;
    }
    if c.coordinator.Some? {
      if c.coordinator.value.endpoint == [] { return false; }
      ok := ValidateTls(c.coordinator.value.tls, false);
      if !ok { return; }
    }
    ok := ValidateShards(c.coordinator.Some?, c.shards);
  }

  /** The loop over the shards. */
  method ValidateShards(coordinated: bool, cs: seq<ShardConf>) returns (ok: bool)
    ensures ok <==> ValidConfig(cs) && SecureShards(coordinated, cs)
  {
    if |cs| == 0 { return false; }
    ValidShardByShard(coordinated, cs);
    var previousEnd: Bytes := [];
    var i := 0;
    while i < |cs|
      invariant 0 <= i <= |cs|
      invariant i > 0 ==> previousEnd == ConfEnd(cs[i - 1])
      invariant forall j :: 0 <= j < i ==> ConfOk(coordinated, cs, j)
    {
      var secure := ValidateTls(cs[i].tls, false);
      if cs[i].address == [] || !secure || (!coordinated && TlsEnabled(cs[i].tls)) {
        assert !ConfOk(coordinated, cs, i);
        return false;
      }
      var start, end := cs[i].startBytes, cs[i].endBytes;
      if cs[i].start != [] { start := cs[i].start; }
      if cs[i].end != [] { end := cs[i].end; }
      if i == 0 { start := []; }
      if i > 0 && start != previousEnd { assert !ConfOk(coordinated, cs, i); return false; }
      if i < |cs| - 1 && (end == [] || end == NO_END || !Less(start, end)) {
        assert !ConfOk(coordinated, cs, i);
        return false;
      }
      previousEnd := end;
      assert ConfOk(coordinated, cs, i);
      i := i + 1;
    }
    return true;
  }

  /** The routes `buildBackends` hands to the constructor. */
  function BuiltRoute(cs: seq<ShardConf>, i: int): Route
    requires 0 <= i < |cs|
  {
    Route(if i == 0 then [] else ConfStart(cs[i]),
          if i == |cs| - 1 then [] else ConfEnd(cs[i]),
          cs[i].address)
  }

  function BuiltRoutes(cs: seq<ShardConf>): seq<Route>
  {
    seq(|cs|, i requires 0 <= i < |cs| => BuiltRoute(cs, i))
  }

  /** A validated configuration passes every range check of the constructor, so
      it is accepted exactly when its addresses differ from one another and from
      the coordinator's. */
  lemma ConfigChain(cs: seq<ShardConf>, coordinator: Bytes)
    requires ValidConfig(cs)
    ensures Covering(BuiltRoutes(cs))
    ensures ValidRoutes(BuiltRoutes(cs), coordinator) <==>
              && (forall i :: 0 <= i < |cs| ==> cs[i].address != coordinator)
              && (forall i, j :: 0 <= i < j < |cs| ==> cs[i].address != cs[j].address)
  {
    var rs := BuiltRoutes(cs);
    assert forall i :: 0 <= i < |cs| ==> rs[i].endpoint == cs[i].address;
  }

  /** Validation alone is not enough: two shards of one address pass it, and no
      coordinator accepts their routes. */
  lemma SharedAddressRefused(address: Bytes, coordinator: Bytes) returns (cs: seq<ShardConf>)
    requires address != []
    ensures ValidConfig(cs) && SecureShards(true, cs) && !ValidRoutes(BuiltRoutes(cs), coordinator)
  {
    cs := [ShardConf([], [], [109], [], address, NO_TLS), ShardConf([109], [], [], [], address, NO_TLS)];
    assert BuiltRoutes(cs)[0].endpoint == BuiltRoutes(cs)[1].endpoint;
  }

  // ---- The constructor's checks ----

  /** A connection: which object it is, and its target. */
  datatype Conn = Conn(handle: int, target: Bytes)

  /** A shard as passed to the constructor, perhaps without a connection. */
  datatype ShardArg = ShardArg(start: Bytes, end: Bytes, endpoint: Bytes, conn: Option<Conn>)

  function ArgEndpoint(a: ShardArg): Bytes
    requires a.conn.Some?
  {
    if a.endpoint == [] then a.conn.value.target else a.endpoint
  }

  function ArgRoute(a: ShardArg): Route
    requires a.conn.Some?
  {
    Route(a.start, a.end, ArgEndpoint(a))
  }

  function ArgRoutes(shards: seq<ShardArg>): seq<Route>
    requires forall i :: 0 <= i < |shards| ==> shards[i].conn.Some?
  {
    seq(|shards|, i requires 0 <= i < |shards| => ArgRoute(shards[i]))
  }

  /** Iteration i of the constructor's loop finds nothing to refuse. */
  predicate StepOk(coordinator: Conn, shards: seq<ShardArg>, i: int)
    requires 0 <= i < |shards|
  {
    var s := shards[i];
    && s.conn.Some? && s.conn.value.handle != coordinator.handle
    && (i == 0 ==> s.start == [])
    && (i > 0 ==> shards[i - 1].end == s.start)
    && (i < |shards| - 1 ==> s.end != [] && Less(s.start, s.end))
    && (i == |shards| - 1 ==> s.end == [])
    && ArgEndpoint(s) != coordinator.target
    && (forall j :: 0 <= j < i && shards[j].conn.Some? ==> ArgEndpoint(shards[j]) != ArgEndpoint(s))
  }

  /** There is a coordinator and every shard has a connection, not the coordinator's
      own, and the routes are valid. */
  predicate Accepted(coordinator: Option<Conn>, shards: seq<ShardArg>)
  {
    && coordinator.Some?
    && (forall i :: 0 <= i < |shards| ==>
          shards[i].conn.Some? && shards[i].conn.value.handle != coordinator.value.handle)
    && ValidRoutes(ArgRoutes(shards), coordinator.value.target)
  }

  lemma AcceptedSteps(coordinator: Conn, shards: seq<ShardArg>, i: int)
    requires Accepted(Some(coordinator), shards) && 0 <= i < |shards|
    ensures StepOk(coordinator, shards, i)
  {
    var rs := ArgRoutes(shards);
    assert rs[i] == ArgRoute(shards[i]);
    assert i > 0 ==> rs[i - 1] == ArgRoute(shards[i - 1]);
    forall j | 0 <= j < i ensures ArgEndpoint(shards[j]) != ArgEndpoint(shards[i]) {
      assert rs[j] == ArgRoute(shards[j]);
    }
  }

  lemma StepsAccept(coordinator: Conn, shards: seq<ShardArg>)
    requires |shards| > 0
    requires forall i :: 0 <= i < |shards| ==> StepOk(coordinator, shards, i)
    ensures Accepted(Some(coordinator), shards)
  {
    forall i | 0 <= i < |shards| ensures shards[i].conn.Some? && shards[i].conn.value.handle != coordinator.handle {
      assert StepOk(coordinator, shards, i);
    }
    var rs := ArgRoutes(shards);
    forall i | 0 <= i < |rs|
      ensures i == 0 ==> rs[i].start == []
      ensures i > 0 ==> rs[i - 1].end == rs[i].start
      ensures i < |rs| - 1 ==> rs[i].end != [] && Less(rs[i].start, rs[i].end)
      ensures i == |rs| - 1 ==> rs[i].end == []
    {
      assert StepOk(coordinator, shards, i);
    }
    forall j | 0 <= j < |rs|
      ensures rs[j].endpoint != coordinator.target
      ensures forall i :: 0 <= i < j ==> rs[i].endpoint != rs[j].endpoint
    {
      assert StepOk(coordinator, shards, j);
    }
  }

  /** The constructor's checks, up to the fingerprint transaction. */
  method CheckTopology(coordinator: Option<Conn>, shards: seq<ShardArg>) returns (r: Result<seq<Route>, Status>)
    ensures r.Ok? <==> Accepted(coordinator, shards)
    ensures r.Ok? ==> r.value == ArgRoutes(shards)
  {
    if coordinator.None? || |shards| == 0 { return Err(InvalidArgument); }
    var center := coordinator.value;
    var seen: set<Bytes> := {};
    var routes: seq<Route> := [];
    var i := 0;
    while i < |shards|
      invariant 0 <= i <= |shards| && |routes| == i
      invariant forall j :: 0 <= j < i ==> StepOk(center, shards, j)
      invariant forall j :: 0 <= j < i ==> shards[j].conn.Some? && routes[j] == ArgRoute(shards[j])
      invariant seen == set j | 0 <= j < i && shards[j].conn.Some? :: ArgEndpoint(shards[j])
    {
      var s := shards[i];
      if s.conn.None? || (i == 0 && s.start != []) || (i > 0 && shards[i - 1].end != s.start)
        || (i < |shards| - 1 && (s.end == [] || !Less(s.start, s.end)))
        || (i == |shards| - 1 && s.end != []) {
        if Accepted(coordinator, shards) { AcceptedSteps(center, shards, i); }
        return Err(InvalidArgument);
      }
      var endpoint := s.endpoint;
      if endpoint == [] { endpoint := s.conn.value.target; }
      if endpoint == center.target || s.conn.value.handle == center.handle || endpoint in seen {
        if Accepted(coordinator, shards) { AcceptedSteps(center, shards, i); }
        return Err(InvalidArgument);
      }
      seen := seen + {endpoint};
      routes := routes + [Route(s.start, s.end, endpoint)];
      assert StepOk(center, shards, i);
      i := i + 1;
    }
    StepsAccept(center, shards);
    assert routes == ArgRoutes(shards);
    return Ok(routes);
  }

  // ---- From configuration to constructor ----

  /** The shards `buildBackends` hands to the constructor, given their connections. */
  function BuiltArg(cs: seq<ShardConf>, conns: seq<Option<Conn>>, i: int): ShardArg
    requires 0 <= i < |cs| == |conns|
  {
    var r := BuiltRoute(cs, i);
    ShardArg(r.start, r.end, r.endpoint, conns[i])
  }

  function BuiltArgs(cs: seq<ShardConf>, conns: seq<Option<Conn>>): seq<ShardArg>
    requires |cs| == |conns|
  {
    seq(|cs|, i requires 0 <= i < |cs| => BuiltArg(cs, conns, i))
  }

  /** The loop of `buildBackends`; conns[i] is what dialing shard i gives. */
  method BuildShards(cs: seq<ShardConf>, conns: seq<Option<Conn>>) returns (ok: bool, shards: array<ShardArg>)
    requires |cs| == |conns|
    ensures fresh(shards)
    ensures ok <==> forall i :: 0 <= i < |conns| ==> conns[i].Some?
    ensures ok ==> shards[..] == BuiltArgs(cs, conns)
  {
    shards := new ShardArg[|cs|](_ => ShardArg([], [], [], None));
    var i := 0;
    while i < |cs|
      invariant 0 <= i <= |cs| == shards.Length
      invariant forall j :: 0 <= j < i ==> conns[j].Some? && shards[j] == BuiltArg(cs, conns, j)
    {
      if conns[i].None? { return false, shards; }
      var start, end := cs[i].startBytes, cs[i].endBytes;
      if cs[i].start != [] { start := cs[i].start; }
      if cs[i].end != [] { end := cs[i].end; }
      if i == 0 { start := []; }
      if i == shards.Length - 1 { end := []; }
      shards[i] := ShardArg(start, end, cs[i].address, conns[i]);
      i := i + 1;
    }
    return true, shards;
  }

  /** The whole chain: shards built from a validated configuration, each with a connection
      of its own, pass the constructor's checks exactly when their addresses differ from one
      another and from the coordinator's, and they carry the configured routes. */
  lemma ConfigAccepted(cs: seq<ShardConf>, coordinator: Conn, conns: seq<Option<Conn>>)
    requires ValidConfig(cs) && |cs| == |conns|
    requires forall i :: 0 <= i < |conns| ==> conns[i].Some? && conns[i].value.handle != coordinator.handle
    ensures var shards := BuiltArgs(cs, conns);
            && (forall i :: 0 <= i < |shards| ==> shards[i].conn.Some?) && ArgRoutes(shards) == BuiltRoutes(cs)
    ensures Accepted(Some(coordinator), BuiltArgs(cs, conns)) <==>
              && (forall i :: 0 <= i < |cs| ==> cs[i].address != coordinator.target)
              && (forall i, j :: 0 <= i < j < |cs| ==> cs[i].address != cs[j].address)
  {
    var shards := BuiltArgs(cs, conns);
    forall i | 0 <= i < |cs| ensures shards[i].conn.Some? && ArgRoute(shards[i]) == BuiltRoute(cs, i) {
      assert shards[i] == BuiltArg(cs, conns, i);
    }
    assert ArgRoutes(shards) == BuiltRoutes(cs);
    ConfigChain(cs, coordinator.target);
  }

  // ---- The legacy router ----

  datatype LegacyShard = LegacyShard(start: Bytes, end: Bytes)

  /** NewShardImpl's boundary normalisation. */
  function NewShard(i: int, n: int, c: ShardConf): LegacyShard
  {
    LegacyShard(if i == 0 then [] else ConfStart(c), if i == n - 1 then NO_END else ConfEnd(c))
  }

  function LegacyShards(cs: seq<ShardConf>): seq<LegacyShard>
  {
    seq(|cs|, i requires 0 <= i < |cs| => NewShard(i, |cs|, cs[i]))
  }

  predicate Contains(s: LegacyShard, key: Bytes, end: Bytes)
  {
    && (s.end == NO_END || Less(key, s.end))
    && (!Less(key, s.start) || (end != [] && (end == NO_END || Less(s.start, end))))
  }

  /** The indices of the shards that contain some of the range, without any early exit. */
  function AllContaining(ss: seq<LegacyShard>, key: Bytes, end: Bytes, n: nat): seq<nat>
    requires n <= |ss|
  {
    if n == 0 then []
    else AllContaining(ss, key, end, n - 1) + (if Contains(ss[n - 1], key, end) then [n - 1] else [])
  }

  /** The consecutive numbers lo, lo + 1, ..., hi - 1. */
  function Run(lo: nat, hi: nat): seq<nat>
    requires lo <= hi
  {
    seq(hi - lo, i requires 0 <= i < hi - lo => lo + i)
  }

  lemma RunSnoc(lo: nat, hi: nat)
    requires lo <= hi
    ensures Run(lo, hi + 1) == Run(lo, hi) + [hi]
  {}

  /** Between two shards that contain some of the range every shard does. */
  predicate Gapless(ss: seq<LegacyShard>, key: Bytes, end: Bytes)
  {
    forall i, j, k :: 0 <= i < j < k < |ss| && Contains(ss[i], key, end) && Contains(ss[k], key, end) ==>
      Contains(ss[j], key, end)
  }

  /** Among the first n shards those that contain some of the range are lo, lo + 1, ..., hi - 1. */
  predicate ContainingRun(ss: seq<LegacyShard>, key: Bytes, end: Bytes, lo: nat, hi: nat, n: nat)
    requires n <= |ss|
  {
    forall i :: 0 <= i < n ==> (Contains(ss[i], key, end) <==> lo <= i < hi)
  }

  lemma RunGapless(ss: seq<LegacyShard>, key: Bytes, end: Bytes, lo: nat, hi: nat)
    requires ContainingRun(ss, key, end, lo, hi, |ss|)
    ensures Gapless(ss, key, end)
  {}

  /** The scan with its early exit, on indices instead of clients: it loses nothing
      exactly when the shards to be found leave no gap. */
  method GetShardClis(ss: seq<LegacyShard>, key: Bytes, end: Bytes) returns (ret: seq<nat>)
    ensures ret == AllContaining(ss, key, end, |ss|) <==> Gapless(ss, key, end)
    ensures ret <= AllContaining(ss, key, end, |ss|)
  {
    ret := [];
    var findStart := false;
    ghost var lo := 0;
    var i := 0;
    while i < |ss|
      invariant 0 <= i <= |ss| && lo <= i
      invariant ret == AllContaining(ss, key, end, i)
      invariant findStart <==> lo < i
      invariant ContainingRun(ss, key, end, lo, i, i)
    {
      if Contains(ss[i], key, end) {
        ret := ret + [i];
        findStart := true;
      } else if findStart {
        ExitExact(ss, key, end, lo, i);
        return;
      } else {
        lo := i + 1;
      }
      i := i + 1;
    }
    RunGapless(ss, key, end, lo, i);
  }

  /** Stopping at the first miss after a hit loses something exactly when there is a gap. */
  lemma ExitExact(ss: seq<LegacyShard>, key: Bytes, end: Bytes, lo: nat, i: nat)
    requires lo < i < |ss| && !Contains(ss[i], key, end) && ContainingRun(ss, key, end, lo, i, i)
    ensures var found, all := AllContaining(ss, key, end, i), AllContaining(ss, key, end, |ss|);
            found <= all && (found == all <==> Gapless(ss, key, end))
  {
    assert Contains(ss[lo], key, end);
    FilterGrows(ss, key, end, i, |ss|);
    if k :| i <= k < |ss| && Contains(ss[k], key, end) {
      GapShown(ss, key, end, lo, i, k);
    } else {
      NothingAfter(ss, key, end, i, |ss|);
      RunGapless(ss, key, end, lo, i);
    }
  }

  lemma GapShown(ss: seq<LegacyShard>, key: Bytes, end: Bytes, i: nat, j: nat, k: nat)
    requires i < j <= k < |ss| && Contains(ss[i], key, end) && !Contains(ss[j], key, end) && Contains(ss[k], key, end)
    ensures !Gapless(ss, key, end)
  {
    assert j != k;
  }

  lemma {:induction false} FilterGrows(ss: seq<LegacyShard>, key: Bytes, end: Bytes, i: nat, n: nat)
    requires i <= n <= |ss|
    ensures AllContaining(ss, key, end, i) <= AllContaining(ss, key, end, n)
    ensures (exists k :: i <= k < n && Contains(ss[k], key, end)) ==>
              |AllContaining(ss, key, end, i)| < |AllContaining(ss, key, end, n)|
  {
    if i < n { FilterGrows(ss, key, end, i, n - 1); }
  }

  lemma {:induction false} NothingAfter(ss: seq<LegacyShard>, key: Bytes, end: Bytes, i: nat, n: nat)
    requires i <= n <= |ss| && forall j :: i <= j < n ==> !Contains(ss[j], key, end)
    ensures AllContaining(ss, key, end, n) == AllContaining(ss, key, end, i)
  {
    if i < n { NothingAfter(ss, key, end, i, n - 1); }
  }

  lemma {:induction false} RunIsFilter(ss: seq<LegacyShard>, key: Bytes, end: Bytes, lo: nat, hi: nat, n: nat)
    requires lo <= hi && n <= |ss|
    requires forall i :: 0 <= i < n ==> (Contains(ss[i], key, end) <==> lo <= i < hi)
    ensures AllContaining(ss, key, end, n) ==
              (if n <= lo then [] else Run(lo, if n < hi then n else hi))
  {
    if n > 0 {
      RunIsFilter(ss, key, end, lo, hi, n - 1);
      if lo < n <= hi { RunSnoc(lo, n - 1); }
    }
  }

  /** On a validated configuration a legacy shard contains part of a request's range
      exactly when it is the home of the key or owns some key of the range, and
      these shards are the run from the home shard up to `hi`. */
  lemma LegacyScan(cs: seq<ShardConf>, key: Bytes, end: Bytes) returns (hi: nat)
    requires ValidConfig(cs)
    ensures Covering(BuiltRoutes(cs)) && |LegacyShards(cs)| == |cs|
    ensures var h := Shard(BuiltRoutes(cs), key);
            && h < hi <= |cs|
            && (forall i :: 0 <= i < |cs| ==> (Contains(LegacyShards(cs)[i], key, end) <==> h <= i < hi))
            && (forall i :: 0 <= i < |cs| ==>
                  (h <= i < hi <==> i == h || OwnsSome(BuiltRoutes(cs), i, key, end)))
            && AllContaining(LegacyShards(cs), key, end, |cs|) == Run(h, hi)
    ensures Gapless(LegacyShards(cs), key, end)
  {
    ConfigChain(cs, []);
    hi := ScanRun(cs, key, end);
    var rs, ss := BuiltRoutes(cs), LegacyShards(cs);
    var h := Shard(rs, key);
    forall i | 0 <= i < |cs| ensures h <= i < hi <==> i == h || OwnsSome(rs, i, key, end) {
      ContainsExact(cs, key, end, i);
    }
    RunIsFilter(ss, key, end, h, hi, |cs|);
    RunGapless(ss, key, end, h, hi);
  }

  lemma ScanRun(cs: seq<ShardConf>, key: Bytes, end: Bytes) returns (hi: nat)
    requires ValidConfig(cs) && Covering(BuiltRoutes(cs))
    ensures Shard(BuiltRoutes(cs), key) < hi <= |cs| == |LegacyShards(cs)|
    ensures ContainingRun(LegacyShards(cs), key, end, Shard(BuiltRoutes(cs), key), hi, |cs|)
  {
    var ss, h := LegacyShards(cs), Shard(BuiltRoutes(cs), key);
    hi := h + 1;
    ContainsExact(cs, key, end, h);
    while hi < |cs| && Contains(ss[hi], key, end)
      invariant h < hi <= |cs|
      invariant forall i :: h <= i < hi ==> Contains(ss[i], key, end)
    {
      hi := hi + 1;
    }
    forall i | 0 <= i < |cs| ensures Contains(ss[i], key, end) <==> h <= i < hi {
      if i < h { ContainsExact(cs, key, end, i); }
      if hi < i { MissesStay(cs, key, end, hi, i); }
    }
  }

  /** Above the home shard, a shard beyond one that misses the range misses it too. */
  lemma MissesStay(cs: seq<ShardConf>, key: Bytes, end: Bytes, i: nat, j: nat)
    requires ValidConfig(cs) && Covering(BuiltRoutes(cs)) && Shard(BuiltRoutes(cs), key) < i < j < |cs|
    requires !Contains(LegacyShards(cs)[i], key, end)
    ensures !Contains(LegacyShards(cs)[j], key, end)
  {
    var rs := BuiltRoutes(cs);
    ContainsExact(cs, key, end, i);
    ContainsExact(cs, key, end, j);
    StartsAscend(rs, i, j);
    if Less(rs[j].start, end) { LessTransitive(rs[i].start, rs[j].start, end); }
  }

  lemma StartsAscend(rs: seq<Route>, i: int, j: int)
    requires Covering(rs) && 0 <= i < j < |rs|
    ensures Less(rs[i].start, rs[j].start)
  {
    BoundariesAscend(rs, i, j);
    LessMixed(rs[i].start, rs[i].end, rs[j].start);
  }

  lemma ContainsExact(cs: seq<ShardConf>, key: Bytes, end: Bytes, i: nat)
    requires ValidConfig(cs) && Covering(BuiltRoutes(cs)) && i < |cs|
    ensures var rs, h := BuiltRoutes(cs), Shard(BuiltRoutes(cs), key);
            && (Contains(LegacyShards(cs)[i], key, end) <==>
                  i == h || (h < i && end != [] && (end == NO_END || Less(rs[i].start, end))))
            && (Contains(LegacyShards(cs)[i], key, end) <==>
                  i == h || OwnsSome(rs, i, key, end))
  {
    var rs, s := BuiltRoutes(cs), LegacyShards(cs)[i];
    var h := Shard(rs, key);
    ShardIsUniqueOwner(rs, key);
    assert s.start == rs[i].start;
    assert i < |cs| - 1 ==> s.end == rs[i].end;
    if i < h {
      assert rs[i].end != [] && !Less(key, rs[i].end);
      assert !Contains(s, key, end);
      forall u | InRange(key, end, u) ensures !Owns(rs, i, u) {
        if Less(u, rs[i].end) && end != [] { LessMixed(u, rs[i].end, key); }
      }
    } else if h < i {
      BoundariesAscend(rs, h, i);
      LessMixed(key, rs[h].end, rs[i].start);
      LessAsymmetric(key, rs[i].start);
      assert i < |cs| - 1 ==> Less(key, rs[i].end) by {
        if i < |cs| - 1 { LessTransitive(key, rs[i].start, rs[i].end); }
      }
      if Contains(s, key, end) {
        LessIrreflexive(rs[i].start);
        assert InRange(key, end, rs[i].start) && Owns(rs, i, rs[i].start);
      } else {
        forall u | InRange(key, end, u) ensures !Owns(rs, i, u) {
          if end != [] { LessMixed(u, end, rs[i].start); }
        }
      }
    } else {
      assert Owns(rs, h, key);
      assert Contains(s, key, end);
    }
  }

  /** The two routers agree: the legacy scan of a single key is exactly the shard
      the coordinated router names, and the scan of a range reaches a single shard
      exactly when the coordinated proxy accepts the range as one mutation. */
  lemma RoutersAgree(cs: seq<ShardConf>, key: Bytes, end: Bytes)
    requires ValidConfig(cs)
    ensures Covering(BuiltRoutes(cs)) && |LegacyShards(cs)| == |cs|
    ensures AllContaining(LegacyShards(cs), key, [], |cs|) == [Shard(BuiltRoutes(cs), key)]
    ensures key != [] ==>
              (|AllContaining(LegacyShards(cs), key, end, |cs|)| == 1 <==>
                 MutationShard(BuiltRoutes(cs), key, end).Ok?)
  {
    var rs := BuiltRoutes(cs);
    var one := LegacyScan(cs, key, []);
    var h := Shard(rs, key);
    if one > h + 1 { ContainsExact(cs, key, [], h + 1); }
    assert Run(h, h + 1) == [h];
    var hi := LegacyScan(cs, key, end);
    if h + 1 < |cs| {
      ContainsExact(cs, key, end, h + 1);
      assert rs[h].end == rs[h + 1].start;
      assert rs[h].end != [];
    } else {
      assert rs[h].end == [];
    }
  }
}
