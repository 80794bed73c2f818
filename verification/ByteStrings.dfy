/** Byte strings in the order of Go's `bytes.Compare`, and the half-open key
    ranges of the etcd v3 Key-Value API with their two sentinels. */
module ByteStrings {

  type Byte = x: int | 0 <= x < 256
  type Bytes = seq<Byte>

  /** The `range_end` that stands for "every key from `key` on". */
  const NO_END: Bytes := [0]

  /** bytes.Compare(a, b) < 0 */
  predicate Less(a: Bytes, b: Bytes)
  {
    b != [] && (a == [] || a[0] < b[0] || (a[0] == b[0] && Less(a[1..], b[1..])))
  }

  lemma {:induction false} LessIrreflexive(a: Bytes)
    ensures !Less(a, a)
  {
    if a != [] { LessIrreflexive(a[1..]); }
  }

  lemma {:induction false} LessTransitive(a: Bytes, b: Bytes, c: Bytes)
    requires Less(a, b) && Less(b, c)
    ensures Less(a, c)
  {
    if a != [] && a[0] == b[0] && b[0] == c[0] {
      LessTransitive(a[1..], b[1..], c[1..]);
    }
  }

  lemma {:induction false} LessTotal(a: Bytes, b: Bytes)
    ensures a == b || Less(a, b) || Less(b, a)
  {
    if a != [] && b != [] {
      LessTotal(a[1..], b[1..]);
      assert a == [a[0]] + a[1..] && b == [b[0]] + b[1..];
    }
  }

  lemma LessAsymmetric(a: Bytes, b: Bytes)
    requires Less(a, b)
    ensures !Less(b, a) && a != b
  {
    LessIrreflexive(a);
    if Less(b, a) { LessTransitive(a, b, a); }
  }

  /** a <= b and b < c, or a < b and b <= c, give a < c. */
  lemma LessMixed(a: Bytes, b: Bytes, c: Bytes)
    requires (!Less(b, a) && Less(b, c)) || (Less(a, b) && !Less(c, b))
    ensures Less(a, c)
  {
    LessTotal(a, b);
    LessTotal(b, c);
    if Less(a, b) && Less(b, c) { LessTransitive(a, b, c); }
  }

  /** A common prefix does not change the order. */
  lemma {:induction false} LessPrefix(p: Bytes, a: Bytes, b: Bytes)
    ensures Less(p + a, p + b) <==> Less(a, b)
  {
    if p == [] {
      assert p + a == a && p + b == b;
    } else {
      LessPrefix(p[1..], a, b);
      assert (p + a)[1..] == p[1..] + a && (p + b)[1..] == p[1..] + b;
    }
  }

  predicate HasPrefix(x: Bytes, p: Bytes)
  {
    |p| <= |x| && x[..|p|] == p
  }

  /** Everything between two strings that share a prefix has that prefix. */
  lemma {:induction false} PrefixConvex(p: Bytes, a: Bytes, b: Bytes, x: Bytes)
    requires !Less(x, p + a) && Less(x, p + b)
    ensures HasPrefix(x, p)
  {
    if p != [] {
      assert (p + a)[0] == p[0] == (p + b)[0];
      assert (p + a)[1..] == p[1..] + a && (p + b)[1..] == p[1..] + b;
      PrefixConvex(p[1..], a, b, x[1..]);
      assert x == [x[0]] + x[1..];
    }
  }

  /** q + [c + 1] is the least string above every string that starts with q + [c]. */
  lemma {:induction false} PrefixEnd(q: Bytes, c: int, x: Bytes)
    requires 0 <= c < 255
    ensures HasPrefix(x, q + [c]) ==> Less(x, q + [c + 1])
    ensures !Less(x, q + [c]) && Less(x, q + [c + 1]) ==> HasPrefix(x, q + [c])
  {
    if q == [] {
      assert q + [c] == [c] && q + [c + 1] == [c + 1];
      assert [c + 1][1..] == [] && [c][1..] == [];
      if x != [] {
        assert x[..1] == [x[0]];
        assert !Less(x[1..], []);
      }
    } else if x != [] {
      assert (q + [c])[1..] == q[1..] + [c] && (q + [c + 1])[1..] == q[1..] + [c + 1];
      PrefixEnd(q[1..], c, x[1..]);
      assert HasPrefix(x, q + [c]) <==> x[0] == q[0] && HasPrefix(x[1..], q[1..] + [c]) by {
        var p := q + [c];
        assert p == [p[0]] + p[1..];
        if |p| <= |x| { assert x[..|p|] == [x[0]] + x[1..][..|p| - 1]; }
      }
    }
  }

  /** The keys an etcd request with `key` and `range_end` ranges over. */
  predicate InRange(key: Bytes, end: Bytes, u: Bytes)
  {
    if end == [] then u == key
    else !Less(u, key) && (end == NO_END || Less(u, end))
  }

  // ---- The elements of a set of keys, in ascending order ----

  predicate Ascending(s: seq<Bytes>)
  {
    forall i, j :: 0 <= i < j < |s| ==> Less(s[i], s[j])
  }

  lemma LeastExists(s: set<Bytes>)
    requires s != {}
    ensures exists m :: m in s && forall x :: x in s ==> !Less(x, m)
  {
    var m :| m in s;
    if s == {m} {
      LessIrreflexive(m);
      assert forall x :: x in s ==> x == m;
    } else {
      assert s == {m} + (s - {m});
      LeastExists(s - {m});
      var n :| n in s - {m} && forall x :: x in s - {m} ==> !Less(x, n);
      var w := if Less(m, n) then m else n;
      forall x | x in s ensures !Less(x, w) {
        LessIrreflexive(m);
        if x != m && w == m {
          if Less(x, m) { LessTransitive(x, m, n); }
        }
      }
    }
  }

  lemma LeastUnique(s: set<Bytes>)
    ensures forall m, n ::
              && (m in s && forall x :: x in s ==> !Less(x, m))
              && (n in s && forall x :: x in s ==> !Less(x, n))
              ==> m == n
  {
    forall m, n | (m in s && forall x :: x in s ==> !Less(x, m)) && (n in s && forall x :: x in s ==> !Less(x, n))
      ensures m == n
    {
      LessTotal(m, n);
    }
  }

  function Least(s: set<Bytes>): (m: Bytes)
    requires s != {}
    ensures m in s && forall x :: x in s ==> !Less(x, m)
  {
    LeastExists(s);
    LeastUnique(s);
    var m :| m in s && forall x :: x in s ==> !Less(x, m);
    m
  }

  /** Enumerates a set of keys in ascending order, without repetition. */
  function Sorted(s: set<Bytes>): (r: seq<Bytes>)
    ensures forall x :: x in r <==> x in s
    ensures Ascending(r)
  {
    if s == {} then []
    else
      var m := Least(s);
      var rest := Sorted(s - {m});
      assert forall x :: x in rest ==> Less(m, x) by {
        forall x | x in rest ensures Less(m, x) { LessTotal(m, x); }
      }
      [m] + rest
  }

  lemma NonEmptyHasMember(s: seq<Bytes>)
    ensures s != [] ==> exists x :: x in s
  {
    if s != [] { assert s[0] in s; }
  }

  /** There is only one ascending enumeration of a set. */
  lemma {:induction false} AscendingUnique(a: seq<Bytes>, b: seq<Bytes>)
    requires Ascending(a) && Ascending(b)
    requires forall x :: x in a <==> x in b
    ensures a == b
  {
    if a == [] {
      NonEmptyHasMember(b);
    } else {
      assert a[0] in b;
      assert b[0] in a;
      var i :| 0 <= i < |b| && b[i] == a[0];
      var j :| 0 <= j < |a| && a[j] == b[0];
      if i > 0 && j > 0 { LessAsymmetric(a[0], b[0]); }
      assert a[0] == b[0];
      forall x ensures x in a[1..] <==> x in b[1..] {
        AscendingTail(a, x);
        AscendingTail(b, x);
      }
      AscendingUnique(a[1..], b[1..]);
      assert a == [a[0]] + a[1..] && b == [b[0]] + b[1..];
    }
  }

  lemma AscendingTail(a: seq<Bytes>, x: Bytes)
    requires a != [] && Ascending(a)
    ensures x in a[1..] <==> x in a && x != a[0]
  {
    if x in a[1..] {
      var i :| 0 <= i < |a[1..]| && a[1..][i] == x;
      LessAsymmetric(a[0], a[i + 1]);
    }
    if x in a && x != a[0] {
      var i :| 0 <= i < |a| && a[i] == x;
      assert a[1..][i - 1] == x;
    }
  }
}
