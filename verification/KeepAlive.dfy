/** The legacy lease keep-alive: a reader goroutine hands requests to a loop that
    renews every shard before it waits for any of them, and answers with the
    shortest remaining time. */
module KeepAlive {
  import opened Wrappers

  // ---- The loop ----

  datatype Incoming = Request(id: int) | ClientEof | ClientFails(code: int)

  datatype Reply = Reply(id: int, ttl: int)

  datatype Received = Got(reply: Reply) | Eof | RecvFails(code: int)

  datatype SendOutcome = Sent | SendEof | SendFails(code: int)

  /** How the call ends; `Done` is a nil error. `ShardClosed` and `WrongID` are the
      statuses Unavailable and Internal that the proxy makes itself. */
  datatype Outcome = Done | Canceled | Failed(code: int) | NoShards | ShardClosed | WrongID

  /** The environment of one call: the error, if any, of opening shard i's stream, what
      its n-th send and n-th receive give, and the error of sending response n. */
  datatype Script = Script(
    open: nat -> Option<int>, send: (nat, nat) -> SendOutcome, recv: (nat, nat) -> Received,
    deliver: nat -> Option<int>)

  /** The answer to request n: the same ID, and the least TTL of all shards' n-th replies. */
  ghost predicate Answers(e: Script, shards: nat, n: nat, id: int, r: Reply)
  {
    && r.id == id
    && (forall i :: 0 <= i < shards ==>
          e.recv(i, n).Got? && e.recv(i, n).reply.id == id && r.ttl <= e.recv(i, n).reply.ttl)
    && (exists i :: 0 <= i < shards && e.recv(i, n) == Got(r))
  }

  /** Round n of request id goes through on every shard and to the client. */
  ghost predicate RoundSucceeds(e: Script, shards: nat, n: nat, id: int)
  {
    && (forall i :: 0 <= i < shards ==> e.open(i).None? && e.send(i, n).Sent?)
    && (forall i :: 0 <= i < shards ==> e.recv(i, n).Got? && e.recv(i, n).reply.id == id)
    && e.deliver(n).None?
  }

  /** Sending request n to shard i goes wrong, with this outcome for the call: its stream
      cannot be opened; or the send fails; or the stream has ended, and then the shard's
      own last status is what counts, if it has one. */
  predicate SendFailsWith(e: Script, i: nat, n: nat, outcome: Outcome)
  {
    if e.open(i).Some? then outcome == Failed(e.open(i).value)
    else
      match e.send(i, n)
      case Sent => false
      case SendFails(code) => outcome == Failed(code)
      case SendEof => outcome == if e.recv(i, n).RecvFails? then Failed(e.recv(i, n).code) else ShardClosed
  }

  /** Receiving shard i's n-th reply goes wrong, with this outcome for the call. */
  predicate RecvFailsWith(e: Script, i: nat, n: nat, id: int, outcome: Outcome)
  {
    match e.recv(i, n)
    case Eof => outcome == ShardClosed
    case RecvFails(code) => outcome == Failed(code)
    case Got(reply) => reply.id != id && outcome == WrongID
  }

  predicate SendsUpTo(e: Script, i: nat, n: nat)
  {
    forall j :: 0 <= j < i ==> e.open(j).None? && e.send(j, n).Sent?
  }

  predicate RepliesUpTo(e: Script, i: nat, n: nat, id: int)
  {
    forall j :: 0 <= j < i ==> e.recv(j, n).Got? && e.recv(j, n).reply.id == id
  }

  /** Round n fails with this outcome: that of the first shard whose send goes wrong; or,
      all sends done, of the first whose reply does; or, all replies there, of the client
      who cannot be answered. */
  ghost predicate RoundFailsWith(e: Script, shards: nat, n: nat, id: int, outcome: Outcome)
  {
    || (exists i: nat :: i < shards && SendsUpTo(e, i, n) && SendFailsWith(e, i, n, outcome))
    || (SendsUpTo(e, shards, n) &&
        exists i: nat :: i < shards && RepliesUpTo(e, i, n, id) && RecvFailsWith(e, i, n, id, outcome))
    || (SendsUpTo(e, shards, n) && RepliesUpTo(e, shards, n, id)
        && e.deliver(n).Some? && outcome == Failed(e.deliver(n).value))
  }

  /** Response n answers request n and reached the client, for every response. */
  ghost predicate Answered(e: Script, shards: nat, requests: seq<Incoming>, out: seq<Reply>)
  {
    && |out| <= |requests|
    && forall n :: 0 <= n < |out| ==>
         requests[n].Request? && Answers(e, shards, n, requests[n].id, out[n]) && e.deliver(n).None?
  }

  class KeepAliveProxy {
    const shards: nat
    const streams: array<bool>
    const sends: array<nat>
    const recvs: array<nat>
    var out: seq<Reply>

    ghost predicate Shape()
      reads this
    {
      && streams.Length == sends.Length == recvs.Length == shards && sends != recvs
    }

    /** Every stream has had as many receives as sends, one per response sent. */
    ghost predicate Lockstep()
      requires Shape()
      reads this, sends, recvs
    {
      forall i :: 0 <= i < shards ==> sends[i] == recvs[i] == |out|
    }

    /** Streams are open only to shards whose stream could be opened. */
    ghost predicate Opened(e: Script)
      requires Shape()
      reads this, streams
    {
      forall i :: 0 <= i < shards && streams[i] ==> e.open(i).None?
    }

    constructor (shards: nat)
      ensures Shape() && this.shards == shards && out == []
      ensures (forall i :: 0 <= i < shards ==> !streams[i]) && fresh(streams) && fresh(sends) && fresh(recvs)
      ensures Lockstep()
    {
      this.shards := shards;
      streams := new bool[shards](_ => false);
      sends := new nat[shards](_ => 0);
      recvs := new nat[shards](_ => 0);
      out := [];
    }

    /** Sends request n to every shard, opening streams on first use. */
    method SendAll(e: Script) returns (failed: Option<Outcome>)
      requires Shape() && Lockstep() && Opened(e)
      modifies streams, sends, recvs
      ensures failed.None? ==> forall i :: 0 <= i < shards ==> sends[i] == |out| + 1 && recvs[i] == |out|
      ensures forall i :: 0 <= i < shards ==> |out| <= sends[i] <= |out| + 1 && |out| <= recvs[i] <= |out| + 1
      ensures Opened(e)
      ensures failed.None? ==> SendsUpTo(e, shards, |out|)
      ensures failed.Some? ==> failed.value.Failed? || failed.value.ShardClosed?
      ensures failed.Some? ==>
                exists i: nat :: i < shards && SendsUpTo(e, i, |out|) && SendFailsWith(e, i, |out|, failed.value)
      ensures failed.Some? ==> forall id :: !RoundSucceeds(e, shards, |out|, id)
    {
      var i := 0;
      while i < shards
        invariant 0 <= i <= shards
        invariant Opened(e) && SendsUpTo(e, i, |out|)
        invariant forall j :: 0 <= j < i ==> sends[j] == |out| + 1
        invariant forall j :: i <= j < shards ==> sends[j] == |out|
        invariant forall j :: 0 <= j < shards ==> recvs[j] == |out|
      {
        if !streams[i] {
          var error := e.open(i);
          if error.Some? {
            assert SendFailsWith(e, i, |out|, Failed(error.value));
            return Some(Failed(error.value));
          }
          streams[i] := true;
        }
        var outcome := e.send(i, sends[i]);
        if outcome != Sent {
          if outcome == SendEof {
            var last := e.recv(i, recvs[i]);
            recvs[i] := recvs[i] + 1;
            failed := Some(if last.RecvFails? then Failed(last.code) else ShardClosed);
          } else {
            failed := Some(Failed(outcome.code));
          }
          assert SendFailsWith(e, i, |out|, failed.value);
          return;
        }
        sends[i] := sends[i] + 1;
        i := i + 1;
      }
      return None;
    }

    /** Receives every shard's reply to request n and keeps the shortest-lived one. */
    method ReceiveAll(e: Script, id: int) returns (r: Result<Reply, Outcome>)
      requires Shape() && shards > 0
      requires forall i :: 0 <= i < shards ==> sends[i] == |out| + 1 && recvs[i] == |out|
      modifies recvs
      ensures r.Ok? ==> Answers(e, shards, |out|, id, r.value)
      ensures r.Ok? ==> forall i :: 0 <= i < shards ==> recvs[i] == |out| + 1
      ensures forall i :: 0 <= i < shards ==> |out| <= recvs[i] <= |out| + 1
      ensures forall i :: 0 <= i < shards ==> sends[i] == |out| + 1
      ensures r.Err? ==> r.error.Failed? || r.error.ShardClosed? || r.error.WrongID?
      ensures r.Err? ==> !RoundSucceeds(e, shards, |out|, id)
      ensures r.Ok? ==> RepliesUpTo(e, shards, |out|, id)
      ensures r.Err? ==>
                exists i: nat :: i < shards && RepliesUpTo(e, i, |out|, id) && RecvFailsWith(e, i, |out|, id, r.error)
    {
      var response: Option<Reply> := None;
      var i := 0;
      while i < shards
        invariant 0 <= i <= shards
        invariant forall j :: 0 <= j < i ==> recvs[j] == |out| + 1
        invariant forall j :: i <= j < shards ==> recvs[j] == |out|
        invariant forall j :: 0 <= j < shards ==> sends[j] == |out| + 1
        invariant response.Some? <==> i > 0
        invariant response.Some? ==>
                    response.value.id == id && exists j :: 0 <= j < i && e.recv(j, |out|) == Got(response.value)
        invariant forall j :: 0 <= j < i ==>
                    && e.recv(j, |out|).Got? && e.recv(j, |out|).reply.id == id
                    && response.value.ttl <= e.recv(j, |out|).reply.ttl
      {
        var got := e.recv(i, recvs[i]);
        recvs[i] := recvs[i] + 1;
        assert RepliesUpTo(e, i, |out|, id);
        if got.Eof? { assert RecvFailsWith(e, i, |out|, id, ShardClosed); return Err(ShardClosed); }
        if got.RecvFails? { assert RecvFailsWith(e, i, |out|, id, Failed(got.code)); return Err(Failed(got.code)); }
        if got.reply.id != id { assert RecvFailsWith(e, i, |out|, id, WrongID); return Err(WrongID); }
        if response.None? || got.reply.ttl < response.value.ttl { response := Some(got.reply); }
        i := i + 1;
      }
      return Ok(response.value);
    }

    /** The whole call, over the requests the reader hands over. */
    method Run(e: Script, incoming: seq<Incoming>) returns (result: Outcome)
      requires Shape() && Lockstep() && out == [] && forall i :: 0 <= i < shards ==> !streams[i]
      modifies this, streams, sends, recvs
      ensures Answered(e, shards, incoming, out)
      ensures result == Done <==> shards > 0 && |out| < |incoming| && incoming[|out|] == ClientEof
      ensures result == Canceled <==> shards > 0 && |out| == |incoming|
      ensures shards > 0 && |out| < |incoming| && incoming[|out|].Request? ==>
                && !RoundSucceeds(e, shards, |out|, incoming[|out|].id)
                && RoundFailsWith(e, shards, |out|, incoming[|out|].id, result)
      ensures shards > 0 && |out| < |incoming| && incoming[|out|].ClientFails? ==>
                result == Failed(incoming[|out|].code)
      ensures shards == 0 <==> result == NoShards
      ensures result == Done || result == Canceled ==> Lockstep()
      ensures forall i :: 0 <= i < shards ==> |out| <= recvs[i] <= |out| + 1 && |out| <= sends[i] <= |out| + 1
    {
      if shards == 0 { return NoShards; }
      var n := 0;
      while n < |incoming|
        invariant 0 <= n <= |incoming| && |out| == n
        invariant Lockstep() && Opened(e)
        invariant Answered(e, shards, incoming, out)
      {
        if incoming[n].ClientEof? { return Done; }
        if incoming[n].ClientFails? { return Failed(incoming[n].code); }
        var failed := SendAll(e);
        if failed.Some? { return failed.value; }
        var r := ReceiveAll(e, incoming[n].id);
        if r.Err? { return r.error; }
        var refused := e.deliver(n);
        if refused.Some? { return Failed(refused.value); }
        out := out + [r.value];
        n := n + 1;
      }
      return Canceled;
    }
  }

  // ---- The reader ----

  datatype Reader<T> = Reading | Offering(item: T) | Stopped

  /** `sent` is what the client has sent; `taken` what the loop has been handed over
      the unbuffered channel; `got` how many items the reader has received. */
  datatype HandOff<T> = HandOff(sent: seq<T>, got: nat, taken: seq<T>, reader: Reader<T>, done: bool)

  datatype Move<T> = ClientSends(item: T) | ReaderReceives | Hands | ContextDone | ReaderQuits

  predicate Possible<T>(h: HandOff<T>, m: Move<T>)
  {
    match m
    case ClientSends(_) => true
    case ReaderReceives => h.reader.Reading? && h.got < |h.sent|
    case Hands => h.reader.Offering?
    case ContextDone => true
    case ReaderQuits => h.done && h.reader.Offering?
  }

  function After<T>(last: T -> bool, h: HandOff<T>, m: Move<T>): HandOff<T>
    requires Possible(h, m)
  {
    match m
    case ClientSends(x) => h.(sent := h.sent + [x])
    case ReaderReceives => h.(reader := Offering(h.sent[h.got]), got := h.got + 1)
    case Hands => h.(taken := h.taken + [h.reader.item], reader := if last(h.reader.item) then Stopped else Reading)
    case ContextDone => h.(done := true)
    case ReaderQuits => h.(reader := Stopped)
  }

  /** Nothing is lost or reordered on the way: what the loop has been handed is a
      prefix of what the client sent, short by at most the item on offer, and the reader
      stops after an end or an error of the client. */
  ghost predicate NothingLost<T>(last: T -> bool, h: HandOff<T>)
  {
    && (forall i :: 0 <= i < |h.taken| && last(h.taken[i]) ==> i == |h.taken| - 1 && h.reader.Stopped?)
    && |h.taken| <= h.got <= |h.sent| && h.taken == h.sent[..|h.taken|]
    && (h.reader.Offering? ==> h.got == |h.taken| + 1 && h.reader.item == h.sent[|h.taken|])
    && (h.reader.Reading? ==> h.got == |h.taken|)
    && (h.got > |h.taken| ==> h.reader.Offering? || h.done)
  }

  ghost predicate HandOffRun<T>(last: T -> bool, hs: seq<HandOff<T>>, ms: seq<Move<T>>)
  {
    && |hs| == |ms| + 1 && hs[0] == HandOff([], 0, [], Reading, false)
    && forall i :: 0 <= i < |ms| ==> HandOffStep(last, hs, ms, i)
  }

  ghost predicate HandOffStep<T>(last: T -> bool, hs: seq<HandOff<T>>, ms: seq<Move<T>>, i: int)
    requires 0 <= i < |ms| && |hs| == |ms| + 1
  {
    Possible(hs[i], ms[i]) && hs[i + 1] == After(last, hs[i], ms[i])
  }

  lemma {:induction false} HandOffKeepsOrder<T>(last: T -> bool, hs: seq<HandOff<T>>, ms: seq<Move<T>>, n: nat)
    requires HandOffRun(last, hs, ms) && n < |hs|
    ensures NothingLost(last, hs[n])
  {
    if n > 0 {
      HandOffKeepsOrder(last, hs, ms, n - 1);
      assert HandOffStep(last, hs, ms, n - 1);
    }
  }

  /** The whole call: if the loop ran on what the reader handed over, response n answers
      the n-th request the client sent, and a clean end means that the client half-closed
      right after the requests answered. */
  lemma ClientAnswered(e: Script, shards: nat, hs: seq<HandOff<Incoming>>, ms: seq<Move<Incoming>>, n: nat,
                       out: seq<Reply>)
    requires HandOffRun((m: Incoming) => !m.Request?, hs, ms) && n < |hs| && Answered(e, shards, hs[n].taken, out)
    ensures Answered(e, shards, hs[n].sent, out)
    ensures |out| < |hs[n].taken| ==> |out| < |hs[n].sent| && hs[n].taken[|out|] == hs[n].sent[|out|]
  {
    HandOffKeepsOrder((m: Incoming) => !m.Request?, hs, ms, n);
    assert forall k :: 0 <= k < |hs[n].taken| ==> hs[n].taken[k] == hs[n].sent[k];
  }
}
