/** What the coordinator stores besides user metadata: blob references and the
    routing fingerprint. The concrete bytes stand for the source's JSON reference
    and its SHA-256 digest; what is used of them is only that the reference
    round-trips and that different routes have different fingerprints. */
module Codec {
  import opened Wrappers
  import opened ByteStrings
  import opened Routing

  function EncodeRef(shard: nat, key: Bytes): Bytes
  {
    if shard == 0 then [0] + key else [1] + EncodeRef(shard - 1, key)
  }

  function DecodeRef(v: Bytes): Option<(nat, Bytes)>
  {
    if v == [] then None
    else if v[0] == 0 then Some((0, v[1..]))
    else if v[0] == 1 then
      match DecodeRef(v[1..])
      case Some((i, key)) => Some((i + 1, key))
      case None => None
    else None
  }

  lemma {:induction false} RefRoundTrip(shard: nat, key: Bytes)
    ensures DecodeRef(EncodeRef(shard, key)) == Some((shard, key))
  {
    if shard == 0 {
      assert ([0] + key)[1..] == key;
    } else {
      RefRoundTrip(shard - 1, key);
      var rest := EncodeRef(shard - 1, key);
      assert ([1] + rest)[1..] == rest;
    }
  }

  function Text(s: Bytes): Bytes
  {
    if s == [] then [0] else [1, s[0]] + Text(s[1..])
  }

  lemma {:induction false} TextInjective(a: Bytes, b: Bytes, x: Bytes, y: Bytes)
    requires Text(a) + x == Text(b) + y
    ensures a == b && x == y
  {
    assert (Text(a) + x)[0] == Text(a)[0] && (Text(b) + y)[0] == Text(b)[0];
    if a == [] {
      assert x == (Text(a) + x)[1..] && y == (Text(b) + y)[1..];
    } else {
      assert (Text(a) + x)[1] == a[0] && (Text(b) + y)[1] == b[0];
      assert (Text(a) + x)[2..] == Text(a[1..]) + x && (Text(b) + y)[2..] == Text(b[1..]) + y;
      TextInjective(a[1..], b[1..], x, y);
      assert a == [a[0]] + a[1..] && b == [b[0]] + b[1..];
    }
  }

  function Fingerprint(rs: seq<Route>): Bytes
  {
    if rs == [] then [0]
    else [1] + (Text(rs[0].start) + (Text(rs[0].end) + (Text(rs[0].endpoint) + Fingerprint(rs[1..]))))
  }

  lemma {:induction false} FingerprintInjective(rs: seq<Route>, qs: seq<Route>)
    requires Fingerprint(rs) == Fingerprint(qs)
    ensures rs == qs
  {
    if rs != [] && qs != [] {
      assert Fingerprint(rs)[1..] == Fingerprint(qs)[1..];
      var r, q := rs[0], qs[0];
      var fr, fq := Fingerprint(rs[1..]), Fingerprint(qs[1..]);
      TextInjective(r.start, q.start, Text(r.end) + (Text(r.endpoint) + fr), Text(q.end) + (Text(q.endpoint) + fq));
      TextInjective(r.end, q.end, Text(r.endpoint) + fr, Text(q.endpoint) + fq);
      TextInjective(r.endpoint, q.endpoint, fr, fq);
      FingerprintInjective(rs[1..], qs[1..]);
      assert rs == [r] + rs[1..] && qs == [q] + qs[1..];
    }
  }
}
