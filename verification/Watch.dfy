/** The coordinated watch stream: `forwardBidi` with translated watch requests and
    decoded events. */
module Watch {
  import opened Wrappers
  import opened ByteStrings
  import opened Keys
  import opened Mvcc
  import opened Simulation
  import opened Abstraction
  import opened Protocol
  import opened Refinement
  import opened MvccFacts
  import opened Semantics
  import R = Runs
  import F = Forwarding

  datatype WatchRequest = Create(key: Bytes, end: Bytes, id: int, start: int, prevKv: bool) | Other(id: int)

  /** A response without events is a progress notification or an acknowledgement. */
  datatype WatchResponse = WatchResponse(rev: int, id: int, events: seq<Event>)

  function TranslateWatch(r: WatchRequest): Option<WatchRequest>
  {
    if r.Create? then
      match CoordinatedKeys(r.key, r.end)
      case Ok((k, e)) => Some(r.(key := k, end := e))
      case Err(_) => None
    else Some(r)
  }

  function DecodeEvents(env: Env, es: seq<Event>): Option<seq<Event>>
  {
    if es == [] then Some([])
    else
      match (DecodeEvent(env, es[0]), DecodeEvents(env, es[1..]))
      case (Ok(e), Some(rest)) => Some([e] + rest)
      case _ => None
  }

  /** One event, its pair and its previous pair fetched at different moments. */
  function DecodeEventAt(env: Env, env': Env, e: Event): Result<Event, Status>
  {
    match DecodeKV(env, e.kv, e.delete)
    case Err(s) => Err(s)
    case Ok(kv) =>
      match e.prev
      case None => Ok(e.(kv := kv))
      case Some(p) =>
        match DecodeKV(env', p, false)
        case Err(s) => Err(s)
        case Ok(q) => Ok(e.(kv := kv, prev := Some(q)))
  }

  /** The loop over the events of one response. Fetch m of the loop sees the routes and
      blobs of envs(m); event number `at` makes fetches 2 * at and 2 * at + 1. */
  function DecodeEventsAt(envs: nat -> Env, at: nat, es: seq<Event>): Option<seq<Event>>
    decreases es
  {
    if es == [] then Some([])
    else
      match (DecodeEventAt(envs(2 * at), envs(2 * at + 1), es[0]), DecodeEventsAt(envs, at + 1, es[1..]))
      case (Ok(e), Some(rest)) => Some([e] + rest)
      case _ => None
  }

  function DecodeWatch(envs: nat -> Env, r: WatchResponse): Option<WatchResponse>
  {
    match DecodeEventsAt(envs, 0, r.events)
    case Some(es) => Some(r.(events := es))
    case None => None
  }

  /** The codec of a watch stream in which fetch m of the response read at step k sees
      the routes and blobs of envs(k, m). */
  function WatchCodec(envs: (nat, nat) -> Env): F.Codec<WatchRequest, WatchResponse>
  {
    F.Codec(TranslateWatch, (k: nat, r: WatchResponse) => DecodeWatch((m: nat) => envs(k, m), r))
  }

  /** A reported change: a revision, a user key, and whether the previous pair is shown,
      which depends on the watch and on what is already compacted. */
  datatype Change = Change(rev: int, key: Bytes, prevKv: bool)

  function StoreKey(meta: bool, u: Bytes): Bytes
  {
    if meta then MetaKey(u) else u
  }

  predicate EventIs(s: Store, meta: bool, h: Change, e: Event)
  {
    && 0 < h.rev < |s.hist|
    && var x := EventAt(s, h.rev, StoreKey(meta, h.key));
       x.Some? && e == Shown(h.prevKv, x.value)
  }

  /** The store's events at these changes, each with or without the previous pair. */
  predicate EventsOf(s: Store, meta: bool, cs: seq<Change>, es: seq<Event>)
  {
    |es| == |cs| && forall i :: 0 <= i < |cs| ==> EventIs(s, meta, cs[i], es[i])
  }

  function Shown(prevKv: bool, e: Event): Event
  {
    if prevKv then e else e.(prev := None)
  }

  /** The coordinator's events decode, to exactly the logical store's events. */
  lemma {:induction false} EventsDecode(env: Env, c: Store, l: Store, cs: seq<Change>, es: seq<Event>)
    requires RelStore(env, c, l) && EventsOf(c, true, cs, es)
    ensures DecodeEvents(env, es).Some? && EventsOf(l, false, cs, DecodeEvents(env, es).value)
  {
    if cs != [] {
      FirstDecodes(env, c, l, cs[0], es[0]);
      EventsDecode(env, c, l, cs[1..], es[1..]);
      EventsCons(l, cs, DecodeEvent(env, es[0]).value, DecodeEvents(env, es[1..]).value);
    }
  }

  lemma FirstDecodes(env: Env, c: Store, l: Store, h: Change, e: Event)
    requires RelStore(env, c, l) && EventIs(c, true, h, e)
    ensures DecodeEvent(env, e).Ok? && EventIs(l, false, h, DecodeEvent(env, e).value)
  {
    EventDecodes(env, c, l, h.rev, h.key);
  }

  lemma EventsCons(l: Store, cs: seq<Change>, e: Event, rest: seq<Event>)
    requires cs != [] && EventIs(l, false, cs[0], e) && EventsOf(l, false, cs[1..], rest)
    ensures EventsOf(l, false, cs, [e] + rest)
  {
    forall i | 0 < i < |cs| ensures EventIs(l, false, cs[i], ([e] + rest)[i]) {
      assert cs[1..][i - 1] == cs[i];
    }
  }

  // ---- Decoding is timeless ----

  /** What decodes under env decodes to the same under env'. */
  ghost predicate DecodesAlike(env: Env, env': Env)
  {
    forall kv, keysOnly :: DecodeKV(env, kv, keysOnly).Ok? ==>
      DecodeKV(env', kv, keysOnly) == DecodeKV(env, kv, keysOnly)
  }

  lemma LaterDecodesAlike(ss: seq<State>, ls: seq<Label>, i: nat, j: nat)
    requires R.IsRun(ss, ls) && i <= j < |ss|
    ensures DecodesAlike(ss[i].View(), ss[j].View())
  {
    R.PastKept(ss, ls, i, j);
    forall kv: KeyValue, keysOnly: bool | DecodeKV(ss[i].View(), kv, keysOnly).Ok?
      ensures DecodeKV(ss[j].View(), kv, keysOnly) == DecodeKV(ss[i].View(), kv, keysOnly)
    {
      if !keysOnly { ResolveStable(ss[i].View(), ss[j].View(), kv.value); }
    }
  }

  /** Fetches at any later moments give what one look at the first moment would give. */
  lemma {:induction false} FetchesAgree(env: Env, envs: nat -> Env, at: nat, es: seq<Event>)
    requires DecodeEvents(env, es).Some? && forall m: nat :: DecodesAlike(env, envs(m))
    ensures DecodeEventsAt(envs, at, es) == DecodeEvents(env, es)
    decreases es
  {
    if es != [] {
      assert DecodesAlike(env, envs(2 * at)) && DecodesAlike(env, envs(2 * at + 1));
      assert DecodeEventAt(envs(2 * at), envs(2 * at + 1), es[0]) == DecodeEvent(env, es[0]);
      FetchesAgree(env, envs, at + 1, es[1..]);
    }
  }

  lemma EventsLater(s: Store, t: Store, meta: bool, cs: seq<Change>, es: seq<Event>)
    requires s.hist <= t.hist && EventsOf(s, meta, cs, es)
    ensures EventsOf(t, meta, cs, es)
  {
    forall i | 0 <= i < |cs| ensures EventIs(t, meta, cs[i], es[i]) {
      EventLater(s, t, meta, cs[i], es[i]);
    }
  }

  lemma EventLater(s: Store, t: Store, meta: bool, h: Change, e: Event)
    requires s.hist <= t.hist && EventIs(s, meta, h, e)
    ensures EventIs(t, meta, h, e)
  {
    assert t.hist[h.rev] == s.hist[h.rev] && t.hist[h.rev - 1] == s.hist[h.rev - 1];
  }

  /** Events of the coordinator at one moment of a protocol run decode to the logical
      store's events, the same however much later each single blob is fetched, whatever
      was overwritten, deleted or compacted meanwhile. */
  lemma DecodeTimeless(ss: seq<State>, ls: seq<Label>, i: nat, n: nat, fetch: nat -> nat, cs: seq<Change>,
                       es: seq<Event>)
    requires R.IsRun(ss, ls) && i <= n < |ss| && EventsOf(ss[i].coord, true, cs, es)
    requires forall m: nat :: i <= fetch(m) <= n
    ensures var d := DecodeEventsAt((m: nat) => if fetch(m) < |ss| then ss[fetch(m)].View() else ss[i].View(), 0, es);
            d.Some? && EventsOf(ss[n].Logical(), false, cs, d.value)
  {
    var env := ss[i].View();
    var envs := (m: nat) => if fetch(m) < |ss| then ss[fetch(m)].View() else ss[i].View();
    R.Reachable(ss, ls, i);
    SoundRelated(env, ss[i].coord);
    EventsDecode(env, ss[i].coord, ss[i].Logical(), cs, es);
    forall m: nat ensures DecodesAlike(env, envs(m)) {
      LaterDecodesAlike(ss, ls, i, fetch(m));
    }
    FetchesAgree(env, envs, 0, es);
    R.LogicalPastKept(ss, ls, i, n);
    EventsLater(ss[i].Logical(), ss[n].Logical(), false, cs, DecodeEvents(env, es).value);
  }

  // ---- Requests on their way ----

  /** What the coordinator is asked for r: the same watch, on a range that contains exactly
      the coordinator keys of the user's range. Other requests pass unchanged. */
  ghost predicate Forwarded(r: WatchRequest, t: WatchRequest)
  {
    if r.Create? then
      && r.key != [] && t.Create? && t.id == r.id && t.start == r.start && t.prevKv == r.prevKv
      && (forall u :: InRange(t.key, t.end, MetaKey(u)) <==> InRange(r.key, r.end, u))
      && (forall k :: InRange(t.key, t.end, k) ==> IsMetaKey(k))
    else t == r
  }

  lemma TranslateExact(r: WatchRequest)
    ensures TranslateWatch(r).None? <==> r.Create? && r.key == []
    ensures TranslateWatch(r).Some? ==> Forwarded(r, TranslateWatch(r).value)
  {
    if r.Create? && r.key != [] {
      forall u ensures InRange(MetaKey(r.key), MetaEnd(r.end), MetaKey(u)) <==> InRange(r.key, r.end, u) {
        RangeEmbedding(r.key, r.end, u);
      }
      forall k | InRange(MetaKey(r.key), MetaEnd(r.end), k) ensures IsMetaKey(k) {
        RangeConfined(r.key, r.end, k);
      }
    }
  }

  /** In every run the coordinator gets the client's requests in order, each asking for what
      the client asked for. */
  lemma RequestsForwarded(envs: (nat, nat) -> Env, ss: seq<StreamState>, ls: seq<StreamLabel>, n: nat)
    requires F.IsRun(WatchCodec(envs), ss, ls) && n < |ss|
    ensures |ss[n].up.forwarded| <= |ss[n].up.sent|
    ensures forall i :: 0 <= i < |ss[n].up.forwarded| ==> Forwarded(ss[n].up.sent[i], ss[n].up.forwarded[i])
  {
    F.Forwards(WatchCodec(envs), ss, ls, n);
    forall i | 0 <= i < |ss[n].up.forwarded| ensures Forwarded(ss[n].up.sent[i], ss[n].up.forwarded[i]) {
      TranslateExact(ss[n].up.sent[i]);
    }
  }

  /** A create request with an empty key ends the pump with an error and is not forwarded,
      nor is anything after it. */
  lemma EmptyKeyStops(envs: (nat, nat) -> Env, ss: seq<StreamState>, ls: seq<StreamLabel>, t: nat, n: nat)
    requires F.IsRun(WatchCodec(envs), ss, ls) && t < n < |ss| && ls[t].Ups? && ls[t].up.PumpSends?
    requires ss[t].up.pump.Sending? && ss[t].up.pump.req.Create? && ss[t].up.pump.req.key == []
    ensures F.PumpOver(ss[n].up.pump) && |ss[n].up.forwarded| == ss[t].up.got - 1
    ensures ss[n].signals.raised == Some(F.BadMessage)
  {
    TranslateExact(ss[t].up.pump.req);
    F.UnwritableStops(WatchCodec(envs), ss, ls, t, n);
  }

  /** The watch forwarded for a create request sees exactly the changes of user keys in the
      user's range: it misses none, and sees nothing else of the coordinator. */
  lemma WatchScopeExact(env: Env, c: Store, l: Store, q: WatchRequest, t: WatchRequest, r: int)
    requires RelStore(env, c, l) && q.Create? && TranslateWatch(q) == Some(t) && 0 < r < |c.hist|
    ensures t.Create?
    ensures forall k :: InRange(t.key, t.end, k) && EventAt(c, r, k).Some? ==>
              IsMetaKey(k) && InRange(q.key, q.end, UserKey(k)) && EventAt(l, r, UserKey(k)).Some?
    ensures forall u :: InRange(q.key, q.end, u) && EventAt(l, r, u).Some? ==>
              InRange(t.key, t.end, MetaKey(u)) && EventAt(c, r, MetaKey(u)).Some?
  {
    TranslateExact(q);
    forall k | InRange(t.key, t.end, k) && EventAt(c, r, k).Some?
      ensures IsMetaKey(k) && InRange(q.key, q.end, UserKey(k)) && EventAt(l, r, UserKey(k)).Some?
    {
      UserKeyRoundTrip(k);
      EventDecodes(env, c, l, r, UserKey(k));
    }
    forall u | InRange(q.key, q.end, u) && EventAt(l, r, u).Some?
      ensures InRange(t.key, t.end, MetaKey(u)) && EventAt(c, r, MetaKey(u)).Some?
    {
      EventDecodes(env, c, l, r, u);
    }
  }

  // ---- A stream beside the protocol ----

  type StreamState = F.State<WatchRequest, WatchResponse>
  type StreamLabel = F.Label<WatchRequest, WatchResponse>

  /** When things happen: stream step k at moment step(k) of the protocol run, and fetch m
      of the response it reads, if it reads one, at moment fetch(k, m). */
  datatype Clock = Clock(step: nat -> nat, fetch: (nat, nat) -> nat)

  ghost predicate Timed(ps: seq<State>, w: Clock, n: nat)
  {
    && (forall k: nat :: k <= n ==> w.step(k) < |ps|)
    && (forall j: nat, k: nat :: j <= k <= n ==> w.step(j) <= w.step(k))
    && (forall k: nat, m: nat :: k < n ==> w.step(k) <= w.fetch(k, m) <= w.step(k + 1))
  }

  function Blobs(ps: seq<State>, w: Clock): (nat, nat) -> Env
  {
    (k: nat, m: nat) => if w.fetch(k, m) < |ps| then ps[w.fetch(k, m)].View() else Env([], map[])
  }

  /** If step k emits response i, it holds events of the coordinator as it is then, at the
      changes batches[i]. A progress notification holds none. */
  ghost predicate Genuine(ps: seq<State>, w: Clock, batches: seq<seq<Change>>,
                          ss: seq<StreamState>, ls: seq<StreamLabel>, k: nat)
    requires k < |ls| < |ss| && w.step(k) < |ps|
  {
    ls[k].Downs? && ls[k].down.BackendEmits? ==>
      var i := |ss[k].down.emitted|;
      i < |batches| && EventsOf(ps[w.step(k)].coord, true, batches[i], ls[k].down.resp.events)
  }

  /** A protocol run and a watch stream beside it, up to stream step n: other proxies
      stage, commit, delete, compact and let leases expire between any two stream steps
      and between any two fetches of one response. */
  ghost predicate Beside(ps: seq<State>, pls: seq<Label>, w: Clock, batches: seq<seq<Change>>,
                         ss: seq<StreamState>, ls: seq<StreamLabel>, n: nat)
  {
    && R.IsRun(ps, pls) && F.IsRun(WatchCodec(Blobs(ps, w)), ss, ls) && n < |ss| && Timed(ps, w, n)
    && forall k: nat :: k < n ==> Genuine(ps, w, batches, ss, ls, k)
  }

  /** The step that emitted response i. */
  lemma {:induction false} EmissionStep(c: F.Codec<WatchRequest, WatchResponse>, ss: seq<StreamState>,
                                        ls: seq<StreamLabel>, n: nat, i: nat)
    returns (k: nat)
    requires F.IsRun(c, ss, ls) && n < |ss| && i < |ss[n].down.emitted|
    ensures k < n && |ss[k].down.emitted| == i && ls[k] == F.Downs(F.BackendEmits(ss[n].down.emitted[i]))
  {
    assert ss[0].down.emitted == [];
    assert F.StepAt(c, ss, ls, n - 1);
    if i < |ss[n - 1].down.emitted| { k := EmissionStep(c, ss, ls, n - 1, i); } else { k := n - 1; }
  }

  lemma EmittedWithin(ps: seq<State>, pls: seq<Label>, w: Clock, batches: seq<seq<Change>>,
                      ss: seq<StreamState>, ls: seq<StreamLabel>, n: nat)
    requires Beside(ps, pls, w, batches, ss, ls, n)
    ensures |ss[n].down.emitted| <= |batches|
  {
    var i := |ss[n].down.emitted| - 1;
    if i >= 0 {
      var k := EmissionStep(WatchCodec(Blobs(ps, w)), ss, ls, n, i);
      assert Genuine(ps, w, batches, ss, ls, k);
    }
  }

  /** A response read at step t decodes, to the logical store's events at its changes. */
  lemma ReadDecodes(ps: seq<State>, pls: seq<Label>, w: Clock, batches: seq<seq<Change>>,
                    ss: seq<StreamState>, ls: seq<StreamLabel>, t: nat, n: nat, i: nat)
    requires Beside(ps, pls, w, batches, ss, ls, n) && t < n && i < |ss[t].down.emitted|
    ensures i < |batches|
    ensures var r, d := ss[t].down.emitted[i], WatchCodec(Blobs(ps, w)).decode(t, ss[t].down.emitted[i]);
            && d.Some? && d.value.rev == r.rev && d.value.id == r.id
            && EventsOf(ps[w.step(n)].Logical(), false, batches[i], d.value.events)
  {
    var c, r := WatchCodec(Blobs(ps, w)), ss[t].down.emitted[i];
    var k := EmissionStep(c, ss, ls, t, i);
    assert Genuine(ps, w, batches, ss, ls, k);
    var fetch := (m: nat) => w.fetch(t, m);
    forall m: nat ensures w.step(k) <= fetch(m) <= w.step(n) {
      assert w.step(k) <= w.step(t) <= w.fetch(t, m) <= w.step(t + 1) <= w.step(n);
    }
    DecodeTimeless(ps, pls, w.step(k), w.step(n), fetch, batches[i], r.events);
    var envs := (m: nat) => if fetch(m) < |ps| then ps[fetch(m)].View() else ps[w.step(k)].View();
    SameFetches((m: nat) => Blobs(ps, w)(t, m), envs, 0, r.events);
    assert c.decode(t, r) == DecodeWatch((m: nat) => Blobs(ps, w)(t, m), r);
  }

  lemma {:induction false} SameFetches(envs: nat -> Env, envs': nat -> Env, at: nat, es: seq<Event>)
    requires forall m: nat :: envs(m) == envs'(m)
    ensures DecodeEventsAt(envs, at, es) == DecodeEventsAt(envs', at, es)
    decreases es
  {
    if es != [] { SameFetches(envs, envs', at + 1, es[1..]); }
  }

  /** Watch delivery: whatever happens to the store while the stream runs, at every moment
      the client has received a gap-free prefix of the coordinator's responses, in order,
      each holding the logical store's events at the same changes. In particular a
      progress notification, which is a response among the others, is delivered after
      every event emitted before it. */
  lemma WatchDelivers(ps: seq<State>, pls: seq<Label>, w: Clock, batches: seq<seq<Change>>,
                      ss: seq<StreamState>, ls: seq<StreamLabel>, n: nat)
    requires Beside(ps, pls, w, batches, ss, ls, n)
    ensures |ss[n].down.delivered| <= |ss[n].down.emitted| <= |batches|
    ensures forall i :: 0 <= i < |ss[n].down.delivered| ==>
              && ss[n].down.delivered[i].rev == ss[n].down.emitted[i].rev
              && ss[n].down.delivered[i].id == ss[n].down.emitted[i].id
              && EventsOf(ps[w.step(n)].Logical(), false, batches[i], ss[n].down.delivered[i].events)
  {
    var c, d := WatchCodec(Blobs(ps, w)), ss[n].down;
    F.Forwards(c, ss, ls, n);
    EmittedWithin(ps, pls, w, batches, ss, ls, n);
    forall i | 0 <= i < |d.delivered|
      ensures d.delivered[i].rev == d.emitted[i].rev && d.delivered[i].id == d.emitted[i].id
      ensures EventsOf(ps[w.step(n)].Logical(), false, batches[i], d.delivered[i].events)
    {
      assert F.TakenBefore(c, ss, ls, n, i, d.delivered[i]);
      var t :| t < n && F.Took(c, ss, ls, t, i, d.delivered[i]);
      F.EmittedGrows(c, ss, ls, t, n);
      ReadDecodes(ps, pls, w, batches, ss, ls, t, n, i);
    }
  }

  /** Genuine events are never undecodable: if the data shards can be reached, a response
      read is on its way to the client. */
  lemma WatchNeverSticks(ps: seq<State>, pls: seq<Label>, w: Clock, batches: seq<seq<Change>>,
                         ss: seq<StreamState>, ls: seq<StreamLabel>, n: nat)
    requires Beside(ps, pls, w, batches, ss, ls, n + 1) && ls[n] == F.Downs(F.LoopReads(true))
    ensures ss[n + 1].down.loop.Writing?
  {
    assert F.StepAt(WatchCodec(Blobs(ps, w)), ss, ls, n);
    ReadDecodes(ps, pls, w, batches, ss, ls, n, n + 1, ss[n].down.taken);
  }

  /** An event that cannot be decoded when its response is read ends the stream before the
      response is sent: the client has exactly the responses before it, now and later. */
  lemma BadEventStops(envs: (nat, nat) -> Env, ss: seq<StreamState>, ls: seq<StreamLabel>, t: nat, n: nat,
                      available: bool)
    requires F.IsRun(WatchCodec(envs), ss, ls) && t < n < |ss| && ls[t] == F.Downs(F.LoopReads(available))
    requires var d := ss[t].down; d.taken < |d.emitted| && WatchCodec(envs).decode(t, d.emitted[d.taken]).None?
    ensures F.Over(ss[n].down.loop) && |ss[n].down.delivered| == ss[t].down.taken
    ensures ss[n].down.loop != F.Returned(None)
  {
    F.UndecodableStops(WatchCodec(envs), ss, ls, t, n);
  }

  // ---- One watch, from end to end ----

  /** A place in the history of a store: a revision and a key of the store. */
  datatype Spot = Spot(rev: int, key: Bytes)

  function Spots(meta: bool, cs: seq<Change>): seq<Spot>
  {
    seq(|cs|, i requires 0 <= i < |cs| => Spot(cs[i].rev, StoreKey(meta, cs[i].key)))
  }

  /** Something happens in the range at the spot, at or after the start revision. */
  predicate Watched(s: Store, key: Bytes, end: Bytes, start: int, p: Spot)
  {
    start <= p.rev && 0 < p.rev < |s.hist| && InRange(key, end, p.key) && EventAt(s, p.rev, p.key).Some?
  }

  /** The spots are events of the range from the start revision on, in order of revision,
      none twice, and below the revision of the last one none missing. */
  ghost predicate InOrder(s: Store, key: Bytes, end: Bytes, start: int, ps: seq<Spot>)
  {
    && AllWatched(s, key, end, start, ps) && Chronological(ps)
    && (ps != [] ==> CompleteBelow(s, key, end, start, ps, ps[|ps| - 1].rev))
  }

  predicate AllWatched(s: Store, key: Bytes, end: Bytes, start: int, ps: seq<Spot>)
  {
    forall i :: 0 <= i < |ps| ==> Watched(s, key, end, start, ps[i])
  }

  predicate Chronological(ps: seq<Spot>)
  {
    forall i, j :: 0 <= i < j < |ps| ==> ps[i].rev <= ps[j].rev && ps[i] != ps[j]
  }

  /** Every event of the range from the start revision on and below rev is there. */
  ghost predicate CompleteBelow(s: Store, key: Bytes, end: Bytes, start: int, ps: seq<Spot>, rev: int)
  {
    forall p :: Watched(s, key, end, start, p) && p.rev < rev ==> p in ps
  }

  /** The coordinator's range sees what the user's range sees logically. */
  ghost predicate SeeAlike(c: Store, l: Store, t: WatchRequest, q: WatchRequest)
    requires t.Create? && q.Create?
  {
    forall r, u :: Watched(c, t.key, t.end, t.start, Spot(r, MetaKey(u))) <==>
                   Watched(l, q.key, q.end, q.start, Spot(r, u))
  }

  lemma RelatedSeeAlike(env: Env, c: Store, l: Store, t: WatchRequest, q: WatchRequest)
    requires RelStore(env, c, l) && q.Create? && Forwarded(q, t)
    ensures SeeAlike(c, l, t, q)
  {
    forall r, u ensures Watched(c, t.key, t.end, t.start, Spot(r, MetaKey(u))) <==>
                        Watched(l, q.key, q.end, q.start, Spot(r, u))
    {
      if 0 < r < |c.hist| { EventDecodes(env, c, l, r, u); }
    }
  }

  lemma SpotMembers(cs: seq<Change>, r: int, u: Bytes)
    ensures Spot(r, MetaKey(u)) in Spots(true, cs) <==> Spot(r, u) in Spots(false, cs)
  {
    if Spot(r, MetaKey(u)) in Spots(true, cs) {
      var i :| 0 <= i < |cs| && Spots(true, cs)[i] == Spot(r, MetaKey(u));
      MetaKeyOrder(u, cs[i].key);
      assert Spots(false, cs)[i] == Spot(r, u);
    }
    if Spot(r, u) in Spots(false, cs) {
      var i :| 0 <= i < |cs| && Spots(false, cs)[i] == Spot(r, u);
      assert Spots(true, cs)[i] == Spot(r, MetaKey(u));
    }
  }

  lemma CompleteAlike(c: Store, l: Store, t: WatchRequest, q: WatchRequest, cs: seq<Change>, rev: int)
    requires t.Create? && q.Create? && SeeAlike(c, l, t, q)
    requires CompleteBelow(c, t.key, t.end, t.start, Spots(true, cs), rev)
    ensures CompleteBelow(l, q.key, q.end, q.start, Spots(false, cs), rev)
  {
    forall p | Watched(l, q.key, q.end, q.start, p) && p.rev < rev ensures p in Spots(false, cs) {
      assert Watched(l, q.key, q.end, q.start, Spot(p.rev, p.key));
      SpotMembers(cs, p.rev, p.key);
    }
  }

  lemma AllWatchedAlike(c: Store, l: Store, t: WatchRequest, q: WatchRequest, cs: seq<Change>)
    requires t.Create? && q.Create? && SeeAlike(c, l, t, q)
    requires AllWatched(c, t.key, t.end, t.start, Spots(true, cs))
    ensures AllWatched(l, q.key, q.end, q.start, Spots(false, cs))
  {
    forall i | 0 <= i < |cs| ensures Watched(l, q.key, q.end, q.start, Spots(false, cs)[i]) {
      assert Watched(c, t.key, t.end, t.start, Spots(true, cs)[i]);
    }
  }

  /** Being in order carries over from the coordinator, with the range it was asked for, to
      the logical store, with the user's. */
  lemma InOrderAlike(c: Store, l: Store, t: WatchRequest, q: WatchRequest, cs: seq<Change>)
    requires t.Create? && q.Create? && SeeAlike(c, l, t, q)
    requires InOrder(c, t.key, t.end, t.start, Spots(true, cs))
    ensures InOrder(l, q.key, q.end, q.start, Spots(false, cs))
  {
    AllWatchedAlike(c, l, t, q, cs);
    ChronologicalAlike(cs);
    if cs != [] { CompleteAlike(c, l, t, q, cs, cs[|cs| - 1].rev); }
  }

  lemma ChronologicalAlike(cs: seq<Change>)
    requires Chronological(Spots(true, cs))
    ensures Chronological(Spots(false, cs))
  {
    var a, b := Spots(true, cs), Spots(false, cs);
    forall i, j | 0 <= i < j < |cs| ensures b[i].rev <= b[j].rev && b[i] != b[j] {
      assert a[i].rev <= a[j].rev && a[i] != a[j];
    }
  }

  /** A prefix of spots in order is in order. */
  lemma InOrderPrefix(s: Store, key: Bytes, end: Bytes, start: int, ps: seq<Spot>, qs: seq<Spot>)
    requires InOrder(s, key, end, start, ps) && qs <= ps
    ensures InOrder(s, key, end, start, qs)
  {
    if qs != [] {
      var last := qs[|qs| - 1];
      forall p | Watched(s, key, end, start, p) && p.rev < last.rev ensures p in qs {
        assert last == ps[|qs| - 1] && last.rev <= ps[|ps| - 1].rev;
        var i :| 0 <= i < |ps| && ps[i] == p;
        assert i < |qs|;
        assert qs[i] == p;
      }
    }
  }

  /** The changes, and the events, that the responses of one watch report. */
  function ChangesOf(id: int, rs: seq<WatchResponse>, batches: seq<seq<Change>>): seq<Change>
    requires |rs| <= |batches|
  {
    if rs == [] then []
    else
      ChangesOf(id, rs[..|rs| - 1], batches) + (if rs[|rs| - 1].id == id then batches[|rs| - 1] else [])
  }

  function EventsFor(id: int, rs: seq<WatchResponse>): seq<Event>
  {
    if rs == [] then [] else EventsFor(id, rs[..|rs| - 1]) + (if rs[|rs| - 1].id == id then rs[|rs| - 1].events else [])
  }

  ghost predicate SameIds(ds: seq<WatchResponse>, es: seq<WatchResponse>)
  {
    |ds| <= |es| && forall i :: 0 <= i < |ds| ==> ds[i].id == es[i].id
  }

  lemma {:induction false} ChangesPrefix(id: int, ds: seq<WatchResponse>, es: seq<WatchResponse>,
                                         batches: seq<seq<Change>>)
    requires |es| <= |batches| && SameIds(ds, es)
    ensures ChangesOf(id, ds, batches) <= ChangesOf(id, es, batches)
    decreases |es|
  {
    if |ds| < |es| {
      ChangesPrefix(id, ds, es[..|es| - 1], batches);
    } else if ds != [] {
      ChangesPrefix(id, ds[..|ds| - 1], es[..|es| - 1], batches);
      ChangesSame(id, ds[..|ds| - 1], es[..|es| - 1], batches);
    }
  }

  lemma {:induction false} ChangesSame(id: int, ds: seq<WatchResponse>, es: seq<WatchResponse>,
                                       batches: seq<seq<Change>>)
    requires |ds| == |es| <= |batches| && SameIds(ds, es)
    ensures ChangesOf(id, ds, batches) == ChangesOf(id, es, batches)
  {
    if ds != [] { ChangesSame(id, ds[..|ds| - 1], es[..|es| - 1], batches); }
  }

  lemma {:induction false} EventsForWatch(l: Store, id: int, ds: seq<WatchResponse>, batches: seq<seq<Change>>)
    requires |ds| <= |batches| && forall i :: 0 <= i < |ds| ==> EventsOf(l, false, batches[i], ds[i].events)
    ensures EventsOf(l, false, ChangesOf(id, ds, batches), EventsFor(id, ds))
  {
    if ds != [] {
      EventsForWatch(l, id, ds[..|ds| - 1], batches);
      EventsJoin(l, ChangesOf(id, ds[..|ds| - 1], batches), EventsFor(id, ds[..|ds| - 1]),
                 batches[|ds| - 1], ds[|ds| - 1].events);
    }
  }

  lemma EventsJoin(l: Store, cs: seq<Change>, es: seq<Event>, ds: seq<Change>, fs: seq<Event>)
    requires EventsOf(l, false, cs, es) && EventsOf(l, false, ds, fs)
    ensures EventsOf(l, false, cs + ds, es + fs)
  {}

  // ---- What the client is told ----

  /** Everything that happened in the range from the start revision on and below rev is there. */
  ghost predicate TellsBelow(l: Store, q: WatchRequest, cs: seq<Change>, rev: int)
    requires q.Create?
  {
    forall r, u :: q.start <= r < rev && 0 < r < |l.hist| && InRange(q.key, q.end, u) && Happened(l.hist, r, u) ==>
      Spot(r, u) in Spots(false, cs)
  }

  /** The event reports what happened at the change. */
  predicate Tells(l: Store, h: Change, e: Event)
  {
    0 < h.rev < |l.hist| && Reports(l.hist, h.rev, h.key, h.prevKv, e)
  }

  predicate TellsEach(l: Store, cs: seq<Change>, es: seq<Event>)
  {
    |es| == |cs| && forall i :: 0 <= i < |cs| ==> Tells(l, cs[i], es[i])
  }

  /** These events tell the client of the watch what happened in its range, from its start
      revision on: each what happened to one key at one revision, in order of revision,
      none twice, and below the revision of the last one nothing left out. */
  ghost predicate TellsAll(l: Store, q: WatchRequest, cs: seq<Change>, es: seq<Event>)
    requires q.Create?
  {
    && TellsEach(l, cs, es) && Chronological(Spots(false, cs))
    && (forall i :: 0 <= i < |cs| ==> q.start <= cs[i].rev && InRange(q.key, q.end, cs[i].key))
    && (cs != [] ==> TellsBelow(l, q, cs, cs[|cs| - 1].rev))
  }

  lemma EventsTell(l: Store, cs: seq<Change>, es: seq<Event>)
    requires Chronicle(l.hist) && EventsOf(l, false, cs, es)
    ensures TellsEach(l, cs, es)
  {
    forall i | 0 <= i < |cs| ensures Tells(l, cs[i], es[i]) {
      assert EventIs(l, false, cs[i], es[i]);
      EventKept(l, cs[i].rev, cs[i].key);
    }
  }

  lemma CompleteTells(l: Store, q: WatchRequest, cs: seq<Change>, rev: int)
    requires q.Create? && Chronicle(l.hist) && CompleteBelow(l, q.key, q.end, q.start, Spots(false, cs), rev)
    ensures TellsBelow(l, q, cs, rev)
  {
    forall r, u | q.start <= r < rev && 0 < r < |l.hist| && InRange(q.key, q.end, u) && Happened(l.hist, r, u)
      ensures Spot(r, u) in Spots(false, cs)
    {
      EventKept(l, r, u);
      assert Watched(l, q.key, q.end, q.start, Spot(r, u));
    }
  }

  lemma InOrderTells(l: Store, q: WatchRequest, cs: seq<Change>, es: seq<Event>)
    requires q.Create? && Chronicle(l.hist) && EventsOf(l, false, cs, es)
    requires InOrder(l, q.key, q.end, q.start, Spots(false, cs))
    ensures TellsAll(l, q, cs, es)
  {
    EventsTell(l, cs, es);
    if cs != [] { CompleteTells(l, q, cs, cs[|cs| - 1].rev); }
    forall i | 0 <= i < |cs| ensures q.start <= cs[i].rev && InRange(q.key, q.end, cs[i].key) {
      assert Watched(l, q.key, q.end, q.start, Spots(false, cs)[i]);
    }
  }

  /** Create request j of the client has been forwarded. */
  predicate Asked(ss: seq<StreamState>, n: nat, j: nat)
  {
    && n < |ss| && j < |ss[n].up.sent| && j < |ss[n].up.forwarded|
    && ss[n].up.sent[j].Create? && ss[n].up.forwarded[j].Create?
  }

  lemma AskedAlike(ps: seq<State>, pls: seq<Label>, w: Clock, batches: seq<seq<Change>>,
                   ss: seq<StreamState>, ls: seq<StreamLabel>, n: nat, j: nat)
    requires Beside(ps, pls, w, batches, ss, ls, n) && Asked(ss, n, j)
    ensures SeeAlike(ps[w.step(n)].coord, ps[w.step(n)].Logical(), ss[n].up.forwarded[j], ss[n].up.sent[j])
    ensures Chronicle(ps[w.step(n)].Logical().hist)
  {
    var s := ps[w.step(n)];
    RequestsForwarded(Blobs(ps, w), ss, ls, n);
    R.Reachable(ps, pls, w.step(n));
    R.UserMetadataTrue(ps, pls, w.step(n));
    SoundRelated(s.View(), s.coord);
    RelatedSeeAlike(s.View(), s.coord, s.Logical(), ss[n].up.forwarded[j], ss[n].up.sent[j]);
  }

  /** End to end: if the coordinator reports, as watch `id`, the events of the range that it
      was asked for on behalf of the client's request j, from its start revision on, in order
      of revision, none twice and none missing, then at every moment what the client has
      received for that watch is a prefix of that report, and it tells the client everything
      that happened logically in the range of request j, likewise in order, none twice and
      none missing. */
  lemma WatchComplete(ps: seq<State>, pls: seq<Label>, w: Clock, batches: seq<seq<Change>>,
                      ss: seq<StreamState>, ls: seq<StreamLabel>, n: nat, id: int, j: nat)
    requires Beside(ps, pls, w, batches, ss, ls, n) && Asked(ss, n, j) && |ss[n].down.emitted| <= |batches|
    requires var t := ss[n].up.forwarded[j];
             InOrder(ps[w.step(n)].coord, t.key, t.end, t.start,
                     Spots(true, ChangesOf(id, ss[n].down.emitted, batches)))
    ensures |ss[n].down.delivered| <= |batches|
    ensures var cs := ChangesOf(id, ss[n].down.delivered, batches);
            && cs <= ChangesOf(id, ss[n].down.emitted, batches)
            && TellsAll(ps[w.step(n)].Logical(), ss[n].up.sent[j], cs, EventsFor(id, ss[n].down.delivered))
  {
    var s, d, t, q := ps[w.step(n)], ss[n].down, ss[n].up.forwarded[j], ss[n].up.sent[j];
    WatchDelivers(ps, pls, w, batches, ss, ls, n);
    ChangesPrefix(id, d.delivered, d.emitted, batches);
    AskedAlike(ps, pls, w, batches, ss, ls, n, j);
    var cs := ChangesOf(id, d.delivered, batches);
    InOrderPrefix(s.coord, t.key, t.end, t.start, Spots(true, ChangesOf(id, d.emitted, batches)), Spots(true, cs));
    InOrderAlike(s.coord, s.Logical(), t, q, cs);
    EventsForWatch(s.Logical(), id, d.delivered, batches);
    InOrderTells(s.Logical(), q, cs, EventsFor(id, d.delivered));
  }

  /** Progress is honest: if the coordinator, by the time it emits response i, has reported
      every event of the range it was asked for up to revision rev, then a client that has
      received response i has been told before it everything that happened in its own range
      up to rev. */
  lemma ProgressHonest(ps: seq<State>, pls: seq<Label>, w: Clock, batches: seq<seq<Change>>,
                       ss: seq<StreamState>, ls: seq<StreamLabel>, n: nat, id: int, j: nat, i: nat, rev: int)
    requires Beside(ps, pls, w, batches, ss, ls, n) && Asked(ss, n, j) && i < |ss[n].down.delivered|
    requires i <= |ss[n].down.emitted| <= |batches|
    requires var t := ss[n].up.forwarded[j];
             CompleteBelow(ps[w.step(n)].coord, t.key, t.end, t.start,
                           Spots(true, ChangesOf(id, ss[n].down.emitted[..i], batches)), rev + 1)
    ensures var cs := ChangesOf(id, ss[n].down.delivered[..i], batches);
            && TellsBelow(ps[w.step(n)].Logical(), ss[n].up.sent[j], cs, rev + 1)
            && TellsEach(ps[w.step(n)].Logical(), cs, EventsFor(id, ss[n].down.delivered[..i]))
  {
    var s, d, t, q := ps[w.step(n)], ss[n].down, ss[n].up.forwarded[j], ss[n].up.sent[j];
    WatchDelivers(ps, pls, w, batches, ss, ls, n);
    ChangesSame(id, d.delivered[..i], d.emitted[..i], batches);
    AskedAlike(ps, pls, w, batches, ss, ls, n, j);
    var cs := ChangesOf(id, d.delivered[..i], batches);
    CompleteAlike(s.coord, s.Logical(), t, q, cs, rev + 1);
    CompleteTells(s.Logical(), q, cs, rev + 1);
    EventsForWatch(s.Logical(), id, d.delivered[..i], batches);
    EventsTell(s.Logical(), cs, EventsFor(id, d.delivered[..i]));
  }
}
