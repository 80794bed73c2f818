/** `forwardBidi`: a request pump and a response loop that share a one-slot error
    channel and a cancel signal, over all interleavings. Requests are rewritten on
    their way to the backend and responses decoded on their way back, as the watch
    stream does; for the plain proxy both are the identity. */
module Forwarding {
  import opened Wrappers

  /** Errors other than io.EOF. */
  datatype Error = Canceled | BadMessage | Other(code: int)

  datatype Ending = Eof | Failed(error: Error)

  /** The goroutine that moves requests. `Raising` is at `sendError <- err`, `Canceling`
      right after it at `cancel()`. */
  datatype Pump<Req> = Receiving | Sending(req: Req) | Closing | Raising(error: Error) | Canceling | Stopped

  /** The handler that moves responses; `Ended` is at the final select. */
  datatype Loop<Resp> =
    | Reading | Writing(resp: Resp) | Ended(error: Option<Error>) | Returned(error: Option<Error>)

  /** The request direction: what the client has sent, whether it has half-closed, how
      many requests the pump has taken, what the backend has been given, and whether the
      half-close has been passed on to it. */
  datatype Up<Req> = Up(
    sent: seq<Req>, closed: bool, got: nat, forwarded: seq<Req>, shut: bool, pump: Pump<Req>)

  /** The response direction: what the backend has sent and how it ended, how many
      responses the loop has taken, and what the client has been given. */
  datatype Down<Resp> = Down(
    emitted: seq<Resp>, ending: Option<Ending>, taken: nat, delivered: seq<Resp>, loop: Loop<Resp>)

  /** The error channel, cancellation by the pump and cancellation from outside. `raised`,
      the error the pump failed with, and `cut`, whether the pump had canceled when the
      response loop ended, are history variables. */
  datatype Signals = Signals(slot: Option<Error>, canceled: bool, severed: bool, raised: Option<Error>, cut: bool)

  datatype State<Req, Resp> = State(up: Up<Req>, down: Down<Resp>, signals: Signals)

  datatype SendOutcome = Sent | SendEof | SendFails(error: Error)

  datatype UpLabel<Req> =
    | ClientSends(req: Req) | ClientCloses
    | PumpReceives | PumpSeesEof | PumpReceiveFails(error: Error)
    | PumpSends(outcome: SendOutcome) | PumpCloses(result: Option<Error>) | PumpRaises | PumpCancels

  datatype DownLabel<Resp> =
    | BackendEmits(resp: Resp) | BackendEnds(ending: Ending)
    | LoopReads(available: bool) | LoopSeesEof | LoopReadFails(error: Error) | LoopHeaderFails(error: Error)
    | LoopWrites(result: Option<Error>) | LoopSelects

  datatype Label<Req, Resp> = Ups(up: UpLabel<Req>) | Downs(down: DownLabel<Resp>) | Sever

  function Initial<Req, Resp>(): State<Req, Resp>
  {
    State(Up([], false, 0, [], false, Receiving), Down([], None, 0, [], Reading),
          Signals(None, false, false, None, false))
  }

  /** Rewriting of requests (SendMsg) and decoding of responses (RecvMsg). What a response
      decodes to may depend on the step at which it is read. */
  datatype Codec<!Req, !Resp> = Codec(rewrite: Req -> Option<Req>, decode: (nat, Resp) -> Option<Resp>)

  // ---- The request direction ----

  predicate UpEnabled<Req>(u: Up<Req>, g: Signals, a: UpLabel<Req>)
  {
    match a
    case ClientSends(_) => !u.closed
    case ClientCloses => !u.closed
    case PumpReceives => u.pump.Receiving? && u.got < |u.sent|
    case PumpSeesEof => u.pump.Receiving? && u.closed && u.got == |u.sent|
    case PumpReceiveFails(_) => u.pump.Receiving?
    case PumpSends(_) => u.pump.Sending?
    case PumpCloses(_) => u.pump.Closing?
    case PumpRaises => u.pump.Raising? && g.slot.None?
    case PumpCancels => u.pump.Canceling?
  }

  function UpStep<Req>(rewrite: Req -> Option<Req>, u: Up<Req>, g: Signals, a: UpLabel<Req>): Up<Req>
    requires UpEnabled(u, g, a)
  {
    match a
    case ClientSends(r) => u.(sent := u.sent + [r])
    case ClientCloses => u.(closed := true)
    case PumpReceives => u.(pump := Sending(u.sent[u.got]), got := u.got + 1)
    case PumpSeesEof => u.(pump := Closing)
    case PumpReceiveFails(e) => u.(pump := Raising(e))
    case PumpSends(outcome) =>
      (match rewrite(u.pump.req)
       case None => u.(pump := Raising(BadMessage))
       case Some(r) =>
         match outcome
         case Sent => u.(pump := Receiving, forwarded := u.forwarded + [r])
         case SendEof => u.(pump := Stopped)
         case SendFails(e) => u.(pump := Raising(e)))
    case PumpCloses(e) => if e.Some? then u.(pump := Raising(e.value)) else u.(pump := Stopped, shut := true)
    case PumpRaises => u.(pump := Canceling)
    case PumpCancels => u.(pump := Stopped)
  }

  /** The signals after a step of the request direction from u to v. */
  function UpSignals<Req>(u: Up<Req>, v: Up<Req>, g: Signals, a: UpLabel<Req>): Signals
  {
    if a.PumpRaises? && u.pump.Raising? then g.(slot := Some(u.pump.error))
    else if a.PumpCancels? then g.(canceled := true)
    else if v.pump.Raising? && !u.pump.Raising? then g.(raised := Some(v.pump.error))
    else g
  }

  // ---- The response direction ----

  predicate DownEnabled<Resp>(d: Down<Resp>, g: Signals, a: DownLabel<Resp>)
  {
    match a
    case BackendEmits(_) => d.ending.None?
    case BackendEnds(_) => d.ending.None?
    case LoopReads(_) => d.loop.Reading? && d.taken < |d.emitted|
    case LoopSeesEof => d.loop.Reading? && d.ending == Some(Eof) && d.taken == |d.emitted|
    case LoopReadFails(e) =>
      && d.loop.Reading?
      && ((d.ending == Some(Failed(e)) && d.taken == |d.emitted|) || (e == Canceled && (g.canceled || g.severed)))
    case LoopHeaderFails(_) => d.loop.Reading? && d.taken == 0
    case LoopWrites(_) => d.loop.Writing?
    case LoopSelects => d.loop.Ended?
  }

  /** Step k of a run, when it is one of the response direction. */
  function DownStep<Resp>(decode: (nat, Resp) -> Option<Resp>, k: nat, d: Down<Resp>, g: Signals,
                          a: DownLabel<Resp>): Down<Resp>
    requires DownEnabled(d, g, a)
  {
    match a
    case BackendEmits(r) => d.(emitted := d.emitted + [r])
    case BackendEnds(e) => d.(ending := Some(e))
    case LoopReads(available) =>
      var taken := d.(taken := d.taken + 1);
      (match decode(k, d.emitted[d.taken])
       case Some(r) => if available then taken.(loop := Writing(r)) else taken.(loop := Ended(Some(Other(0))))
       case None => taken.(loop := Ended(Some(BadMessage))))
    case LoopSeesEof => d.(loop := Ended(None))
    case LoopReadFails(e) => d.(loop := Ended(Some(e)))
    case LoopHeaderFails(e) => d.(loop := Ended(Some(e)))
    case LoopWrites(e) =>
      if e.Some? then d.(loop := Ended(e)) else d.(loop := Reading, delivered := d.delivered + [d.loop.resp])
    case LoopSelects => d.(loop := Returned(if g.slot.Some? then g.slot else d.loop.error))
  }

  function DownSignals<Resp>(d: Down<Resp>, e: Down<Resp>, g: Signals, a: DownLabel<Resp>): Signals
  {
    if a.LoopSelects? then g.(slot := None)
    else if e.loop.Ended? && !d.loop.Ended? then g.(cut := g.canceled)
    else g
  }

  // ---- Both together ----

  predicate Enabled<Req, Resp>(s: State<Req, Resp>, a: Label<Req, Resp>)
  {
    match a
    case Ups(u) => UpEnabled(s.up, s.signals, u)
    case Downs(d) => DownEnabled(s.down, s.signals, d)
    case Sever => true
  }

  function Apply<Req, Resp>(c: Codec<Req, Resp>, k: nat, s: State<Req, Resp>, a: Label<Req, Resp>): State<Req, Resp>
    requires Enabled(s, a)
  {
    match a
    case Ups(u) =>
      var v := UpStep(c.rewrite, s.up, s.signals, u);
      State(v, s.down, UpSignals(s.up, v, s.signals, u))
    case Downs(d) =>
      var e := DownStep(c.decode, k, s.down, s.signals, d);
      State(s.up, e, DownSignals(s.down, e, s.signals, d))
    case Sever => s.(signals := s.signals.(severed := true))
  }

  // ---- Invariants ----

  /** What reached the backend is a prefix of the client's requests, rewritten, in order. */
  ghost predicate RequestsInOrder<Req>(rewrite: Req -> Option<Req>, u: Up<Req>)
  {
    && |u.forwarded| <= u.got <= |u.sent|
    && (forall i :: 0 <= i < |u.forwarded| ==> rewrite(u.sent[i]) == Some(u.forwarded[i]))
    && (u.pump.Receiving? ==> u.got == |u.forwarded|)
    && (u.pump.Sending? ==> u.got == |u.forwarded| + 1 && u.pump.req == u.sent[u.got - 1])
    && (u.pump.Closing? ==> u.closed && |u.forwarded| == |u.sent|)
    && (u.shut ==> u.pump.Stopped? && u.closed && |u.forwarded| == |u.sent|)
  }

  /** Responses are taken one by one, and each is delivered before the next is taken. */
  predicate ResponsesInOrder<Resp>(d: Down<Resp>)
  {
    && |d.delivered| <= d.taken <= |d.emitted|
    && (d.loop.Reading? ==> d.taken == |d.delivered|)
    && (d.loop.Writing? ==> d.taken == |d.delivered| + 1)
    && (d.loop == Ended(None) || d.loop == Returned(None) ==> d.ending == Some(Eof) && |d.delivered| == |d.emitted|)
  }

  ghost predicate ErrorsAttributed<Req, Resp>(p: Pump<Req>, l: Loop<Resp>, g: Signals)
  {
    && (p.Raising? ==> g.slot.None? && g.raised == Some(p.error))
    && (p.Canceling? ==> g.raised.Some?)
    && (g.raised.Some? ==> p.Raising? || p.Canceling? || p.Stopped?)
    && (g.slot.Some? ==> g.slot == g.raised)
    && (g.raised.Some? && !p.Raising? && !l.Returned? ==> g.slot == g.raised)
    && (g.canceled <==> g.raised.Some? && p.Stopped?)
    && (g.cut && l.Ended? ==> g.canceled)
    && (g.cut && l.Returned? ==> g.raised.Some? && l.error == g.raised)
  }

  ghost predicate Inv<Req, Resp>(c: Codec<Req, Resp>, s: State<Req, Resp>)
  {
    && RequestsInOrder(c.rewrite, s.up) && ResponsesInOrder(s.down)
    && ErrorsAttributed(s.up.pump, s.down.loop, s.signals)
  }

  lemma UpKeepsOrder<Req>(rewrite: Req -> Option<Req>, u: Up<Req>, g: Signals, a: UpLabel<Req>)
    requires RequestsInOrder(rewrite, u) && UpEnabled(u, g, a)
    ensures RequestsInOrder(rewrite, UpStep(rewrite, u, g, a))
  {}

  lemma DownKeepsOrder<Resp>(decode: (nat, Resp) -> Option<Resp>, k: nat, d: Down<Resp>, g: Signals, a: DownLabel<Resp>)
    requires ResponsesInOrder(d) && DownEnabled(d, g, a)
    ensures ResponsesInOrder(DownStep(decode, k, d, g, a))
  {}

  lemma UpKeepsErrors<Req, Resp>(rewrite: Req -> Option<Req>, u: Up<Req>, l: Loop<Resp>, g: Signals, a: UpLabel<Req>)
    requires ErrorsAttributed(u.pump, l, g) && UpEnabled(u, g, a)
    ensures var v := UpStep(rewrite, u, g, a); ErrorsAttributed(v.pump, l, UpSignals(u, v, g, a))
  {}

  lemma DownKeepsErrors<Req, Resp>(decode: (nat, Resp) -> Option<Resp>, k: nat, p: Pump<Req>, d: Down<Resp>,
                                   g: Signals, a: DownLabel<Resp>)
    requires ErrorsAttributed(p, d.loop, g) && DownEnabled(d, g, a)
    ensures var e := DownStep(decode, k, d, g, a); ErrorsAttributed(p, e.loop, DownSignals(d, e, g, a))
  {}

  lemma StepKeepsInv<Req, Resp>(c: Codec<Req, Resp>, k: nat, s: State<Req, Resp>, a: Label<Req, Resp>)
    requires Inv(c, s) && Enabled(s, a)
    ensures Inv(c, Apply(c, k, s, a))
  {
    match a
    case Ups(u) =>
      UpKeepsOrder(c.rewrite, s.up, s.signals, u);
      UpKeepsErrors(c.rewrite, s.up, s.down.loop, s.signals, u);
    case Downs(d) =>
      DownKeepsOrder(c.decode, k, s.down, s.signals, d);
      DownKeepsErrors(c.decode, k, s.up.pump, s.down, s.signals, d);
    case Sever =>
  }

  // ---- Runs ----

  ghost predicate StepAt<Req, Resp>(c: Codec<Req, Resp>, ss: seq<State<Req, Resp>>, ls: seq<Label<Req, Resp>>, i: int)
    requires 0 <= i < |ls| && |ss| == |ls| + 1
  {
    Enabled(ss[i], ls[i]) && ss[i + 1] == Apply(c, i, ss[i], ls[i])
  }

  ghost predicate IsRun<Req, Resp>(c: Codec<Req, Resp>, ss: seq<State<Req, Resp>>, ls: seq<Label<Req, Resp>>)
  {
    |ss| == |ls| + 1 && ss[0] == Initial() && forall i :: 0 <= i < |ls| ==> StepAt(c, ss, ls, i)
  }

  lemma {:induction false} Reachable<Req, Resp>(c: Codec<Req, Resp>, ss: seq<State<Req, Resp>>,
                                                ls: seq<Label<Req, Resp>>, n: nat)
    requires IsRun(c, ss, ls) && n < |ss|
    ensures Inv(c, ss[n])
  {
    if n > 0 {
      Reachable(c, ss, ls, n - 1);
      assert StepAt(c, ss, ls, n - 1);
      StepKeepsInv(c, n - 1, ss[n - 1], ls[n - 1]);
    }
  }

  lemma {:induction false} EmittedGrows<Req, Resp>(c: Codec<Req, Resp>, ss: seq<State<Req, Resp>>,
                                                   ls: seq<Label<Req, Resp>>, m: nat, n: nat)
    requires IsRun(c, ss, ls) && m <= n < |ss|
    ensures ss[m].down.emitted <= ss[n].down.emitted
  {
    if m < n {
      EmittedGrows(c, ss, ls, m, n - 1);
      assert StepAt(c, ss, ls, n - 1);
    }
  }

  /** Step t read response i, by then emitted, and decoded it to r. */
  ghost predicate Took<Req, Resp>(c: Codec<Req, Resp>, ss: seq<State<Req, Resp>>, ls: seq<Label<Req, Resp>>, t: int,
                                  i: int, r: Resp)
  {
    && 0 <= t < |ls| && t < |ss| && ls[t] == Downs(LoopReads(true))
    && 0 <= i == ss[t].down.taken < |ss[t].down.emitted| && c.decode(t, ss[t].down.emitted[i]) == Some(r)
  }

  ghost predicate TakenBefore<Req, Resp>(c: Codec<Req, Resp>, ss: seq<State<Req, Resp>>, ls: seq<Label<Req, Resp>>,
                                         n: int, i: int, r: Resp)
  {
    exists t :: t < n && Took(c, ss, ls, t, i, r)
  }

  /** The response on its way to the client, if any, and those already there come
      from the responses at the same places. */
  ghost predicate Accounted<Req, Resp>(c: Codec<Req, Resp>, ss: seq<State<Req, Resp>>, ls: seq<Label<Req, Resp>>,
                                       n: int)
    requires 0 <= n < |ss|
  {
    var d := ss[n].down;
    && (forall i :: 0 <= i < |d.delivered| ==> TakenBefore(c, ss, ls, n, i, d.delivered[i]))
    && (d.loop.Writing? ==> TakenBefore(c, ss, ls, n, d.taken - 1, d.loop.resp))
  }

  lemma {:induction false} AllAccounted<Req, Resp>(c: Codec<Req, Resp>, ss: seq<State<Req, Resp>>,
                                                   ls: seq<Label<Req, Resp>>, n: nat)
    requires IsRun(c, ss, ls) && n < |ss|
    ensures Accounted(c, ss, ls, n)
  {
    if n > 0 {
      AllAccounted(c, ss, ls, n - 1);
      Reachable(c, ss, ls, n - 1);
      StepAccounts(c, ss, ls, n - 1);
    }
  }

  lemma StepAccounts<Req, Resp>(c: Codec<Req, Resp>, ss: seq<State<Req, Resp>>, ls: seq<Label<Req, Resp>>, n: nat)
    requires |ss| == |ls| + 1 && n < |ls| && StepAt(c, ss, ls, n) && Inv(c, ss[n]) && Accounted(c, ss, ls, n)
    ensures Accounted(c, ss, ls, n + 1)
  {
    var d, e := ss[n].down, ss[n + 1].down;
    if e.loop.Writing? && !d.loop.Writing? { assert Took(c, ss, ls, n, e.taken - 1, e.loop.resp); }
    forall i | 0 <= i < |e.delivered| ensures TakenBefore(c, ss, ls, n + 1, i, e.delivered[i]) {
      if i < |d.delivered| { assert TakenBefore(c, ss, ls, n, i, d.delivered[i]); }
      else { assert TakenBefore(c, ss, ls, n, d.taken - 1, d.loop.resp); }
    }
  }

  /** In every reachable state: both directions are in order and gap-free, each response
      delivered being what the response at the same place decoded to when it was read;
      the pump is never blocked on the error channel; a nil return means the backend
      ended the stream and every response was delivered; and if the pump had canceled
      when the response loop ended, the pump's own error is what the handler returns. */
  lemma Forwards<Req, Resp>(c: Codec<Req, Resp>, ss: seq<State<Req, Resp>>, ls: seq<Label<Req, Resp>>, n: nat)
    requires IsRun(c, ss, ls) && n < |ss|
    ensures var u, d, g := ss[n].up, ss[n].down, ss[n].signals;
            && |u.forwarded| <= |u.sent| && |d.delivered| <= |d.emitted|
            && (forall i :: 0 <= i < |u.forwarded| ==> c.rewrite(u.sent[i]) == Some(u.forwarded[i]))
            && (forall i :: 0 <= i < |d.delivered| ==> TakenBefore(c, ss, ls, n, i, d.delivered[i]))
            && (u.pump.Raising? ==> UpEnabled(u, g, PumpRaises))
            && (u.pump.Stopped? && g.raised.Some? ==> g.canceled)
            && (u.shut ==> u.closed && |u.forwarded| == |u.sent|)
            && (d.loop == Returned(None) ==> d.ending == Some(Eof) && |d.delivered| == |d.emitted|)
            && (d.loop.Returned? && g.cut ==> g.raised.Some? && d.loop.error == g.raised)
  {
    Reachable(c, ss, ls, n);
    AllAccounted(c, ss, ls, n);
  }

  predicate Over<Resp>(l: Loop<Resp>)
  {
    l.Ended? || l.Returned?
  }

  /** Once the response loop is over nothing more is delivered. */
  lemma {:induction false} OverStays<Req, Resp>(c: Codec<Req, Resp>, ss: seq<State<Req, Resp>>,
                                                ls: seq<Label<Req, Resp>>, m: nat, n: nat)
    requires IsRun(c, ss, ls) && m <= n < |ss| && Over(ss[m].down.loop)
    ensures Over(ss[n].down.loop) && ss[n].down.delivered == ss[m].down.delivered
  {
    if m < n {
      OverStays(c, ss, ls, m, n - 1);
      assert StepAt(c, ss, ls, n - 1);
    }
  }

  /** A response that cannot be decoded when it is read ends the stream: from then on the
      client has exactly the responses before it. */
  lemma UndecodableStops<Req, Resp>(c: Codec<Req, Resp>, ss: seq<State<Req, Resp>>, ls: seq<Label<Req, Resp>>,
                                    t: nat, n: nat)
    requires IsRun(c, ss, ls) && t < n < |ss| && FailedRead(c, t, ss[t], ls[t])
    ensures Over(ss[n].down.loop) && |ss[n].down.delivered| == ss[t].down.taken
    ensures ss[n].down.loop != Returned(None)
  {
    Reachable(c, ss, ls, t);
    assert StepAt(c, ss, ls, t);
    OverStays(c, ss, ls, t + 1, n);
    EmittedGrows(c, ss, ls, t, n);
    Reachable(c, ss, ls, n);
  }

  predicate PumpOver<Req>(p: Pump<Req>)
  {
    p.Raising? || p.Canceling? || p.Stopped?
  }

  /** Once the pump is over nothing more is forwarded. */
  lemma {:induction false} PumpOverStays<Req, Resp>(c: Codec<Req, Resp>, ss: seq<State<Req, Resp>>,
                                                    ls: seq<Label<Req, Resp>>, m: nat, n: nat)
    requires IsRun(c, ss, ls) && m <= n < |ss| && PumpOver(ss[m].up.pump)
    ensures PumpOver(ss[n].up.pump) && ss[n].up.forwarded == ss[m].up.forwarded
    ensures ss[n].signals.raised == ss[m].signals.raised
  {
    if m < n {
      PumpOverStays(c, ss, ls, m, n - 1);
      assert StepAt(c, ss, ls, n - 1);
    }
  }

  /** A request that cannot be rewritten ends the pump with an error: the backend gets
      exactly the requests before it. */
  lemma UnwritableStops<Req, Resp>(c: Codec<Req, Resp>, ss: seq<State<Req, Resp>>, ls: seq<Label<Req, Resp>>,
                                   t: nat, n: nat)
    requires IsRun(c, ss, ls) && t < n < |ss| && ls[t].Ups? && ls[t].up.PumpSends?
    requires ss[t].up.pump.Sending? && c.rewrite(ss[t].up.pump.req).None?
    ensures PumpOver(ss[n].up.pump) && |ss[n].up.forwarded| == ss[t].up.got - 1
    ensures ss[n].signals.raised == Some(BadMessage)
  {
    Reachable(c, ss, ls, t);
    assert StepAt(c, ss, ls, t);
    PumpOverStays(c, ss, ls, t + 1, n);
  }

  // ---- Half-close ----

  /** The step reads a response that cannot be decoded, or whose data is out of reach. */
  predicate FailedRead<Req, Resp>(c: Codec<Req, Resp>, k: nat, s: State<Req, Resp>, a: Label<Req, Resp>)
  {
    && a.Downs? && a.down.LoopReads? && s.down.taken < |s.down.emitted|
    && (!a.down.available || c.decode(k, s.down.emitted[s.down.taken]).None?)
  }

  /** The step is something that may end the stream: the backend ends it, a header or a
      write to the client fails, a response cannot be decoded, moving requests fails, or
      the call is canceled from outside. A half-close is none of these. */
  predicate Disturbs<Req, Resp>(c: Codec<Req, Resp>, k: nat, s: State<Req, Resp>, a: Label<Req, Resp>)
  {
    match a
    case Sever => true
    case Ups(PumpReceiveFails(_)) => true
    case Ups(PumpSends(o)) => o.SendFails? || (s.up.pump.Sending? && c.rewrite(s.up.pump.req).None?)
    case Ups(PumpCloses(e)) => e.Some?
    case Ups(_) => false
    case Downs(BackendEnds(_)) => true
    case Downs(LoopHeaderFails(_)) => true
    case Downs(LoopWrites(e)) => e.Some?
    case Downs(LoopReads(_)) => FailedRead(c, k, s, a)
    case Downs(_) => false
  }

  ghost predicate Undisturbed<Req, Resp>(c: Codec<Req, Resp>, ss: seq<State<Req, Resp>>, ls: seq<Label<Req, Resp>>,
                                         n: int)
    requires 0 <= n <= |ls| < |ss|
  {
    forall k :: 0 <= k < n ==> !Disturbs(c, k, ss[k], ls[k])
  }

  lemma {:induction false} UndisturbedRuns<Req, Resp>(c: Codec<Req, Resp>, ss: seq<State<Req, Resp>>,
                                                      ls: seq<Label<Req, Resp>>, n: nat)
    requires IsRun(c, ss, ls) && n < |ss| && Undisturbed(c, ss, ls, n)
    ensures !Over(ss[n].down.loop) && ss[n].down.ending.None? && ss[n].signals.raised.None? && !ss[n].signals.severed
  {
    if n > 0 {
      UndisturbedRuns(c, ss, ls, n - 1);
      Reachable(c, ss, ls, n - 1);
      assert StepAt(c, ss, ls, n - 1);
      assert !Disturbs(c, n - 1, ss[n - 1], ls[n - 1]);
    }
  }

  /** Nothing ends the response loop by itself: if it is over, something disturbed the stream before. */
  lemma OverHasCause<Req, Resp>(c: Codec<Req, Resp>, ss: seq<State<Req, Resp>>, ls: seq<Label<Req, Resp>>, n: nat)
    requires IsRun(c, ss, ls) && n < |ss| && Over(ss[n].down.loop)
    ensures exists k :: 0 <= k < n && Disturbs(c, k, ss[k], ls[k])
  {
    if Undisturbed(c, ss, ls, n) { UndisturbedRuns(c, ss, ls, n); }
  }

  /** The pump closed the backend's send direction without error at step h. */
  predicate HalfClosed<Req, Resp>(ls: seq<Label<Req, Resp>>, h: int)
  {
    0 <= h < |ls| && ls[h] == Ups(PumpCloses(None))
  }

  lemma {:induction false} ClosedStays<Req, Resp>(c: Codec<Req, Resp>, ss: seq<State<Req, Resp>>,
                                                  ls: seq<Label<Req, Resp>>, h: nat, n: nat)
    requires IsRun(c, ss, ls) && h < n < |ss| && HalfClosed(ls, h)
    ensures var u := ss[n].up; u.shut && u.closed && u.pump.Stopped? && |u.forwarded| == |u.sent|
  {
    assert StepAt(c, ss, ls, n - 1);
    if h < n - 1 { ClosedStays(c, ss, ls, h, n - 1); } else { Reachable(c, ss, ls, h); }
  }

  /** After a clean half-close the backend has all requests of the client, in order, and
      as long as nothing disturbs the stream the response loop goes on: every response
      taken is delivered or being written. */
  lemma HalfCloseKeepsResponses<Req, Resp>(c: Codec<Req, Resp>, ss: seq<State<Req, Resp>>,
                                           ls: seq<Label<Req, Resp>>, h: nat, n: nat)
    requires IsRun(c, ss, ls) && h < n < |ss| && HalfClosed(ls, h) && Undisturbed(c, ss, ls, n)
    ensures var u := ss[n].up;
            && u.shut && |u.forwarded| == |u.sent|
            && forall i :: 0 <= i < |u.sent| ==> c.rewrite(u.sent[i]) == Some(u.forwarded[i])
    ensures var d := ss[n].down;
            || (d.loop.Reading? && |d.delivered| == d.taken)
            || (d.loop.Writing? && |d.delivered| == d.taken - 1
                && TakenBefore(c, ss, ls, n, d.taken - 1, d.loop.resp))
  {
    ClosedStays(c, ss, ls, h, n);
    UndisturbedRuns(c, ss, ls, n);
    Reachable(c, ss, ls, n);
    AllAccounted(c, ss, ls, n);
  }

  lemma Extended<Req, Resp>(c: Codec<Req, Resp>, ss: seq<State<Req, Resp>>, ls: seq<Label<Req, Resp>>,
                            a: Label<Req, Resp>)
    requires IsRun(c, ss, ls) && Enabled(ss[|ls|], a)
    ensures IsRun(c, ss + [Apply(c, |ls|, ss[|ls|], a)], ls + [a])
  {
    var s2, l2 := ss + [Apply(c, |ls|, ss[|ls|], a)], ls + [a];
    forall i | 0 <= i < |l2| ensures StepAt(c, s2, l2, i) {
      if i < |ls| { assert StepAt(c, ss, ls, i); }
    }
  }

  /** No response is stranded: a run whose loop is not over can go on, by steps of the loop
      alone, to one in which every decodable response emitted so far is delivered, whether
      the client has half-closed or not. */
  lemma {:induction false} Drains<Req, Resp>(c: Codec<Req, Resp>, ss: seq<State<Req, Resp>>, ls: seq<Label<Req, Resp>>)
    returns (ss': seq<State<Req, Resp>>, ls': seq<Label<Req, Resp>>)
    requires IsRun(c, ss, ls) && !Over(ss[|ls|].down.loop)
    requires forall k: nat, i :: 0 <= i < |ss[|ls|].down.emitted| ==> c.decode(k, ss[|ls|].down.emitted[i]).Some?
    ensures IsRun(c, ss', ls') && ss <= ss' && ls <= ls'
    ensures var d := ss'[|ls'|].down;
            d.loop.Reading? && d.emitted == ss[|ls|].down.emitted && |d.delivered| == |d.emitted|
    ensures ss'[|ls'|].up == ss[|ls|].up
    decreases |ss[|ls|].down.emitted| - |ss[|ls|].down.delivered|, ss[|ls|].down.loop.Reading?
  {
    Reachable(c, ss, ls, |ls|);
    var s := ss[|ls|];
    if s.down.loop.Reading? && s.down.taken == |s.down.emitted| { return ss, ls; }
    var a: Label<Req, Resp> := Downs(if s.down.loop.Reading? then LoopReads(true) else LoopWrites(None));
    assert Enabled(s, a);
    Extended(c, ss, ls, a);
    ss', ls' := Drains(c, ss + [Apply(c, |ls|, s, a)], ls + [a]);
  }

  // ---- What the call returns ----

  /** Step k ends the response loop with this outcome: nil at the backend's own end, after
      everything was delivered; the backend's failure, or the cancellation, that the read
      met; the failure of a header or of a write to the client; or a failed decoding. */
  predicate EndsWith<Req, Resp>(c: Codec<Req, Resp>, k: nat, s: State<Req, Resp>, a: Label<Req, Resp>, e: Option<Error>)
  {
    var d := s.down;
    match a
    case Downs(LoopSeesEof) => e.None? && d.ending == Some(Eof) && |d.delivered| == d.taken == |d.emitted|
    case Downs(LoopReadFails(x)) =>
      && e == Some(x)
      && ((d.ending == Some(Failed(x)) && |d.delivered| == d.taken == |d.emitted|)
          || (x == Canceled && (s.signals.canceled || s.signals.severed)))
    case Downs(LoopHeaderFails(x)) => e == Some(x) && d.taken == 0
    case Downs(LoopWrites(x)) => x.Some? && e == x
    case Downs(LoopReads(available)) =>
      && FailedRead(c, k, s, a)
      && e == Some(if c.decode(k, d.emitted[d.taken]).None? then BadMessage else Other(0))
    case _ => false
  }

  /** Moving requests fails with e at this step: receiving from the client, rewriting,
      sending to the backend or closing. An EOF from the backend is no failure. */
  predicate PumpFails<Req, Resp>(c: Codec<Req, Resp>, s: State<Req, Resp>, a: Label<Req, Resp>, e: Error)
  {
    match a
    case Ups(PumpReceiveFails(x)) => e == x
    case Ups(PumpSends(o)) =>
      s.up.pump.Sending? && if c.rewrite(s.up.pump.req).None? then e == BadMessage else o == SendFails(e)
    case Ups(PumpCloses(x)) => x == Some(e)
    case _ => false
  }

  ghost predicate EndedBefore<Req, Resp>(c: Codec<Req, Resp>, ss: seq<State<Req, Resp>>, ls: seq<Label<Req, Resp>>,
                                         n: int, e: Option<Error>)
  {
    exists k: nat :: k < n && k < |ls| && k < |ss| && EndsWith(c, k, ss[k], ls[k], e)
  }

  ghost predicate RaisedBefore<Req, Resp>(c: Codec<Req, Resp>, ss: seq<State<Req, Resp>>, ls: seq<Label<Req, Resp>>,
                                          n: int, e: Error)
  {
    exists k: nat :: k < n && k < |ls| && k < |ss| && PumpFails(c, ss[k], ls[k], e)
  }

  lemma {:induction false} EndedHow<Req, Resp>(c: Codec<Req, Resp>, ss: seq<State<Req, Resp>>,
                                               ls: seq<Label<Req, Resp>>, n: nat)
    requires IsRun(c, ss, ls) && n < |ss| && ss[n].down.loop.Ended?
    ensures EndedBefore(c, ss, ls, n, ss[n].down.loop.error)
  {
    Reachable(c, ss, ls, n - 1);
    assert StepAt(c, ss, ls, n - 1);
    if ss[n - 1].down.loop.Ended? {
      EndedHow(c, ss, ls, n - 1);
    } else {
      assert EndsWith(c, n - 1, ss[n - 1], ls[n - 1], ss[n].down.loop.error);
    }
  }

  lemma {:induction false} RaisedHow<Req, Resp>(c: Codec<Req, Resp>, ss: seq<State<Req, Resp>>,
                                                ls: seq<Label<Req, Resp>>, n: nat)
    requires IsRun(c, ss, ls) && n < |ss| && ss[n].signals.raised.Some?
    ensures RaisedBefore(c, ss, ls, n, ss[n].signals.raised.value)
  {
    Reachable(c, ss, ls, n - 1);
    assert StepAt(c, ss, ls, n - 1);
    if ss[n - 1].signals.raised == ss[n].signals.raised {
      RaisedHow(c, ss, ls, n - 1);
    } else {
      assert PumpFails(c, ss[n - 1], ls[n - 1], ss[n].signals.raised.value);
    }
  }

  /** The pump rests without an error only if it has passed on the client's half-close, or the
      backend has ended the stream, which the response loop will see. */
  lemma {:induction false} RestsHow<Req, Resp>(c: Codec<Req, Resp>, ss: seq<State<Req, Resp>>,
                                               ls: seq<Label<Req, Resp>>, n: nat)
    requires IsRun(c, ss, ls) && n < |ss| && ss[n].up.pump.Stopped? && ss[n].signals.raised.None?
    ensures ss[n].up.shut || exists k: nat :: k < n && ls[k] == Ups(PumpSends(SendEof))
  {
    Reachable(c, ss, ls, n - 1);
    assert StepAt(c, ss, ls, n - 1);
    if ss[n - 1].up.pump.Stopped? {
      RestsHow(c, ss, ls, n - 1);
    } else if !ss[n].up.shut {
      assert ls[n - 1] == Ups(PumpSends(SendEof));
    }
  }

  /** A failure of the pump is never forgotten, and whatever ends the loop ends it at once. */
  lemma FailuresCount<Req, Resp>(c: Codec<Req, Resp>, ss: seq<State<Req, Resp>>, ls: seq<Label<Req, Resp>>,
                                 k: nat, n: nat)
    requires IsRun(c, ss, ls) && k < n < |ss|
    ensures forall e :: PumpFails(c, ss[k], ls[k], e) ==> ss[n].signals.raised == Some(e)
    ensures forall e :: EndsWith(c, k, ss[k], ls[k], e) ==> ss[k + 1].down.loop == Ended(e) && Over(ss[n].down.loop)
  {
    assert StepAt(c, ss, ls, k);
    if PumpOver(ss[k + 1].up.pump) { PumpOverStays(c, ss, ls, k + 1, n); }
    if Over(ss[k + 1].down.loop) { OverStays(c, ss, ls, k + 1, n); }
  }

  /** The pump has failed and put its error into the channel. */
  predicate PumpReported<Req, Resp>(s: State<Req, Resp>)
  {
    s.signals.raised.Some? && !s.up.pump.Raising?
  }

  /** What the call returned: at its select, step m, the pump's own failure if the pump had
      reported one by then, and otherwise exactly what ended the response loop. So it is
      nil just when the backend ended the stream, everything was delivered, and the pump
      had reported nothing. */
  lemma {:induction false} ReturnExact<Req, Resp>(c: Codec<Req, Resp>, ss: seq<State<Req, Resp>>,
                                                  ls: seq<Label<Req, Resp>>, n: nat)
    returns (m: nat)
    requires IsRun(c, ss, ls) && n < |ss| && ss[n].down.loop.Returned?
    ensures m < n && ls[m] == Downs(LoopSelects) && ss[m].down.loop.Ended?
    ensures EndedBefore(c, ss, ls, m, ss[m].down.loop.error)
    ensures if PumpReported(ss[m])
            then ss[n].down.loop.error == ss[m].signals.raised && RaisedBefore(c, ss, ls, m, ss[m].signals.raised.value)
            else ss[n].down.loop.error == ss[m].down.loop.error
  {
    Reachable(c, ss, ls, n - 1);
    assert StepAt(c, ss, ls, n - 1);
    if ss[n - 1].down.loop.Returned? {
      m := ReturnExact(c, ss, ls, n - 1);
    } else {
      m := n - 1;
      EndedHow(c, ss, ls, m);
      if PumpReported(ss[m]) { RaisedHow(c, ss, ls, m); }
    }
  }

  lemma NilMeansEof<Req, Resp>(c: Codec<Req, Resp>, ss: seq<State<Req, Resp>>, ls: seq<Label<Req, Resp>>, n: nat)
    returns (m: nat)
    requires IsRun(c, ss, ls) && n < |ss| && ss[n].down.loop.Returned?
    ensures m < n && ls[m] == Downs(LoopSelects)
    ensures ss[n].down.loop.error.None? <==>
              !PumpReported(ss[m]) && exists k: nat :: k < m && ls[k] == Downs(LoopSeesEof)
  {
    m := ReturnExact(c, ss, ls, n);
    if k: nat :| k < m && ls[k] == Downs(LoopSeesEof) {
      assert StepAt(c, ss, ls, k);
      EofStays(c, ss, ls, k + 1, m);
    }
  }

  lemma {:induction false} EofStays<Req, Resp>(c: Codec<Req, Resp>, ss: seq<State<Req, Resp>>,
                                               ls: seq<Label<Req, Resp>>, k: nat, m: nat)
    requires IsRun(c, ss, ls) && k <= m < |ss| && ss[k].down.loop == Ended(None) && ss[m].down.loop.Ended?
    ensures ss[m].down.loop == Ended(None)
  {
    if k < m {
      assert StepAt(c, ss, ls, m - 1);
      OverStays(c, ss, ls, k, m - 1);
      EofStays(c, ss, ls, k, m - 1);
    }
  }
}
