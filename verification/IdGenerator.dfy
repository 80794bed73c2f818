/** Lease IDs: a 16-bit member prefix over a 48-bit counter seeded with the time. */
module IdGenerator {

  const SUFFIX_SIZE := 0x1_0000_0000_0000      // 2^48
  const TIME_SIZE := 0x100_0000_0000           // 2^40
  const WORD_SIZE := 0x1_0000_0000_0000_0000   // 2^64
  const SIGN := 0x8000_0000_0000_0000          // 2^63

  type Word = x: int | 0 <= x < WORD_SIZE

  // ---- Bit operations ----

  function Pow2(n: nat): (p: nat)
    ensures p > 0
  {
    if n == 0 then 1 else 2 * Pow2(n - 1)
  }

  /** Bitwise `and` and `or`, bit by bit from the lowest. */
  function And(x: nat, y: nat): nat
  {
    if x == 0 || y == 0 then 0 else (x % 2) * (y % 2) + 2 * And(x / 2, y / 2)
  }

  function Or(x: nat, y: nat): nat
    decreases x + y
  {
    if x == 0 then y else if y == 0 then x
    else (if x % 2 == 1 || y % 2 == 1 then 1 else 0) + 2 * Or(x / 2, y / 2)
  }

  /** The low n bits of a word of w bits: its ones, shifted right until n remain, as a mask. */
  function Masked(x: nat, w: nat, n: nat): nat
    requires n <= w
  {
    And(x, (Pow2(w) - 1) / Pow2(w - n))
  }

  function LowBit(x: nat, n: nat): nat
    requires n <= 64
  {
    Masked(x, 64, n)
  }

  lemma {:induction false} Pow2Sum(a: nat, b: nat)
    ensures Pow2(a + b) == Pow2(a) * Pow2(b)
  {
    if a > 0 { Pow2Sum(a - 1, b); }
  }

  lemma Power16()
    ensures Pow2(8) == 256 && Pow2(16) == 0x1_0000
  {}

  lemma Power32()
    ensures Pow2(32) == 0x1_0000_0000
  {
    Power16();
    Pow2Sum(16, 16);
  }

  lemma Power40()
    ensures Pow2(40) == TIME_SIZE
  {
    Power16();
    Power32();
    Pow2Sum(32, 8);
  }

  lemma Power48()
    ensures Pow2(48) == SUFFIX_SIZE
  {
    Power16();
    Power32();
    Pow2Sum(32, 16);
  }

  lemma Power63()
    ensures Pow2(63) == SIGN
  {
    Power32();
    assert Pow2(32) == 2 * Pow2(31);
    Pow2Sum(32, 31);
  }

  lemma Multiples(d: int, m: int)
    requires m > 0
    ensures (d > 0 ==> d * m >= m) && (d < 0 ==> d * m <= -m)
  {}

  lemma RemainderIs(x: int, m: int, q: int, r: int)
    requires m > 0 && x == q * m + r && 0 <= r < m
    ensures x % m == r && x / m == q
  {
    var d := x / m - q;
    assert x == (x / m) * m + x % m;
    assert d * m == r - x % m;
    Multiples(d, m);
  }

  /** x mod 2m, one bit at a time. */
  lemma HalveRemainder(x: nat, m: nat)
    requires m > 0
    ensures x % (2 * m) == x % 2 + 2 * ((x / 2) % m)
  {
    var h := x / 2;
    var q, r := h / m, h % m;
    assert h == q * m + r;
    RemainderIs(x, 2 * m, q, x % 2 + 2 * r);
  }

  lemma MaskStep(x: nat, m: nat)
    requires m > 0
    ensures And(x, 2 * m - 1) == x % 2 + 2 * And(x / 2, m - 1)
  {
    assert (2 * m - 1) % 2 == 1 && (2 * m - 1) / 2 == m - 1;
  }

  /** Masking with n ones keeps the remainder modulo 2^n. */
  lemma {:induction false} MaskIsRemainder(x: nat, n: nat)
    ensures And(x, Pow2(n) - 1) == x % Pow2(n)
  {
    if n > 0 {
      MaskIsRemainder(x / 2, n - 1);
      MaskStep(x, Pow2(n - 1));
      HalveRemainder(x, Pow2(n - 1));
    }
  }

  /** a * p ones, shifted right until a remain. */
  lemma ShiftOnes(a: nat, p: nat)
    requires a > 0 && p > 0
    ensures a * p > 0 && (a * p - 1) / p == a - 1
  {
    assert a * p - 1 == (a - 1) * p + (p - 1);
    Multiples(a, p);
    RemainderIs(a * p - 1, p, a - 1, p - 1);
  }

  lemma MaskedIsRemainder(x: nat, w: nat, n: nat)
    requires n <= w
    ensures Masked(x, w, n) == x % Pow2(n)
  {
    Pow2Sum(n, w - n);
    ShiftOnes(Pow2(n), Pow2(w - n));
    MaskIsRemainder(x, n);
  }

  /** `lowbit` is the remainder modulo 2^n. */
  lemma LowBitIsRemainder(x: nat, n: nat)
    requires n <= 64
    ensures LowBit(x, n) == x % Pow2(n)
  {
    MaskedIsRemainder(x, 64, n);
  }

  /** Without a common bit `or` adds: a prefix with no bit below 2^n, and n low bits. */
  lemma {:induction false} OrIsSum(prefix: nat, low: nat, n: nat)
    requires prefix % Pow2(n) == 0 && low < Pow2(n)
    ensures Or(prefix, low) == prefix + low
  {
    if prefix > 0 && low > 0 {
      HalveRemainder(prefix, Pow2(n - 1));
      OrIsSum(prefix / 2, low / 2, n - 1);
    }
  }

  /** The source's expression for an ID, in numbers. */
  lemma IdIsSum(prefix: nat, suffix: nat)
    requires prefix % SUFFIX_SIZE == 0
    ensures Or(prefix, LowBit(suffix, 48)) == prefix + suffix % SUFFIX_SIZE
  {
    Power48();
    LowBitIsRemainder(suffix, 48);
    OrIsSum(prefix, LowBit(suffix, 48), 48);
  }

  // ---- The generator ----

  /** The i-th ID of a generator with this prefix and initial suffix: the prefix over the
      low 48 bits of the counter, which wraps at 2^64. */
  function Id(prefix: int, suffix: int, i: nat): int
  {
    prefix + (suffix + i) % WORD_SIZE % SUFFIX_SIZE
  }

  function InitialSuffix(milliseconds: nat): int
  {
    milliseconds % TIME_SIZE * 256
  }

  lemma SuffixIs(milliseconds: nat)
    ensures LowBit(milliseconds, 40) * Pow2(8) == InitialSuffix(milliseconds)
  {
    Power16();
    Power40();
    LowBitIsRemainder(milliseconds, 40);
  }

  lemma SuffixFits(milliseconds: nat)
    ensures 0 <= InitialSuffix(milliseconds) == InitialSuffix(milliseconds) % WORD_SIZE
  {}

  lemma PrefixIs(memberID: int)
    requires 0 <= memberID < 0x1_0000
    ensures 0 <= memberID * SUFFIX_SIZE < WORD_SIZE && (memberID * SUFFIX_SIZE) % SUFFIX_SIZE == 0
  {}

  class Generator {
    const prefix: Word
    var suffix: Word
    ghost var issued: seq<int>
    ghost const start: int

    ghost predicate Valid()
      reads this
    {
      && prefix % SUFFIX_SIZE == 0
      && suffix == (start + |issued|) % WORD_SIZE
      && forall i :: 0 <= i < |issued| ==> issued[i] == Id(prefix, start, i + 1)
    }

    constructor (memberID: int, milliseconds: nat)
      requires 0 <= memberID < 0x1_0000
      ensures Valid() && issued == [] && prefix == memberID * SUFFIX_SIZE && start == InitialSuffix(milliseconds)
    {
      PrefixIs(memberID);
      prefix := memberID * SUFFIX_SIZE;
      SuffixIs(milliseconds);
      SuffixFits(milliseconds);
      suffix := LowBit(milliseconds, 40) * Pow2(8);
      start := InitialSuffix(milliseconds);
      issued := [];
    }

    method Next() returns (id: Word)
      requires Valid()
      modifies this`suffix, this`issued
      ensures Valid() && issued == old(issued) + [id]
    {
      NextIs(prefix, suffix, start, |issued|);
      suffix := (suffix + 1) % WORD_SIZE;
      IdIsSum(prefix, suffix);
      id := Or(prefix, LowBit(suffix, 48));
      issued := issued + [id];
    }

    /** The low 63 bits of the next ID, as a signed number. */
    method NextInt64() returns (id: int)
      requires Valid()
      modifies this`suffix, this`issued
      ensures Valid() && |issued| == |old(issued)| + 1 && issued[..|issued| - 1] == old(issued)
      ensures 0 <= id < SIGN && id == issued[|issued| - 1] % SIGN
    {
      var next := Next();
      Power63();
      MaskIsRemainder(next, 63);
      id := And(next, Pow2(63) - 1);
    }
  }

  lemma NextIs(prefix: Word, suffix: Word, start: int, n: nat)
    requires prefix % SUFFIX_SIZE == 0 && suffix == (start + n) % WORD_SIZE
    ensures var s := (suffix + 1) % WORD_SIZE;
            s == (start + n + 1) % WORD_SIZE && prefix + s % SUFFIX_SIZE == Id(prefix, start, n + 1) < WORD_SIZE
  {
    SuccessorWraps(start + n);
    PrefixFits(prefix, (suffix + 1) % WORD_SIZE % SUFFIX_SIZE);
  }

  lemma PrefixFits(prefix: Word, low: nat)
    requires prefix % SUFFIX_SIZE == 0 && low < SUFFIX_SIZE
    ensures prefix + low < WORD_SIZE
  {}

  lemma SuccessorWraps(n: int)
    ensures (n % WORD_SIZE + 1) % WORD_SIZE == (n + 1) % WORD_SIZE
  {}

  /** The wrap of the 64-bit counter is invisible in its low 48 bits. */
  lemma WrapInvisible(n: int)
    ensures (n % WORD_SIZE) % SUFFIX_SIZE == n % SUFFIX_SIZE
  {
    assert WORD_SIZE == 65536 * SUFFIX_SIZE;
    var q := n / WORD_SIZE;
    assert n == (65536 * q) * SUFFIX_SIZE + n % WORD_SIZE;
    ModShift(n % WORD_SIZE, 65536 * q);
  }

  lemma ModShift(x: int, k: int)
    ensures (k * SUFFIX_SIZE + x) % SUFFIX_SIZE == x % SUFFIX_SIZE
  {}

  lemma NearNumbersDiffer(a: int, d: int)
    requires 0 < d < SUFFIX_SIZE
    ensures (a + d) % SUFFIX_SIZE != a % SUFFIX_SIZE
  {}

  /** Any 2^48 consecutive IDs are pairwise distinct, also after masking to 63 bits. */
  lemma ConsecutiveDistinct(prefix: int, suffix: int, i: nat, j: nat)
    requires prefix % SUFFIX_SIZE == 0 && i < j < i + SUFFIX_SIZE
    ensures Id(prefix, suffix, i) != Id(prefix, suffix, j)
    ensures Id(prefix, suffix, i) % SIGN != Id(prefix, suffix, j) % SIGN
  {
    WrapInvisible(suffix + i);
    WrapInvisible(suffix + j);
    NearNumbersDiffer(suffix + i, j - i);
    SignKeepsSuffix(prefix, Id(prefix, suffix, i) - prefix);
    SignKeepsSuffix(prefix, Id(prefix, suffix, j) - prefix);
  }

  lemma SignKeepsSuffix(prefix: int, low: int)
    requires prefix % SUFFIX_SIZE == 0 && 0 <= low < SUFFIX_SIZE
    ensures ((prefix + low) % SIGN) % SUFFIX_SIZE == low
  {
    assert SIGN == 32768 * SUFFIX_SIZE;
    var n := prefix + low;
    var q := n / SIGN;
    assert n == (32768 * q) * SUFFIX_SIZE + n % SIGN;
    ModShift(n % SIGN, 32768 * q);
    assert prefix == (prefix / SUFFIX_SIZE) * SUFFIX_SIZE;
    ModShift(low, prefix / SUFFIX_SIZE);
  }

  /** id is among the first n IDs of a generator. */
  ghost predicate Issued(prefix: int, suffix: int, n: nat, id: int)
  {
    exists i: nat :: 1 <= i <= n && Id(prefix, suffix, i) == id
  }

  /** A generator restarted d milliseconds later, with neither run wrapping its
      48-bit suffix, repeats an earlier ID exactly when the first run issued more
      than 256 IDs per millisecond of the gap (and the second issued any at all). */
  lemma RestartRepeats(prefix: int, ms: nat, d: nat, n: nat, m: nat)
    requires ms % TIME_SIZE + d < TIME_SIZE
    requires InitialSuffix(ms) + n < SUFFIX_SIZE && InitialSuffix(ms + d) + m < SUFFIX_SIZE
    ensures (exists id :: Issued(prefix, InitialSuffix(ms), n, id) && Issued(prefix, InitialSuffix(ms + d), m, id))
            <==> m > 0 && n > 256 * d
  {
    var a, b := InitialSuffix(ms), InitialSuffix(ms + d);
    assert (ms + d) % TIME_SIZE == ms % TIME_SIZE + d;
    assert b == a + 256 * d;
    assert forall i: nat :: i <= n ==> Id(prefix, a, i) == prefix + a + i;
    assert forall j: nat :: j <= m ==> Id(prefix, b, j) == prefix + b + j;
    if m > 0 && n > 256 * d {
      var id := Id(prefix, b, 1);
      assert Id(prefix, a, 256 * d + 1) == id;
      assert Issued(prefix, a, n, id) && Issued(prefix, b, m, id);
    }
  }

  /** A generator that issues 257 IDs and is restarted after one millisecond starts by
      repeating the last of them. */
  lemma RestartRepeatsOne() returns (ms: nat, id: int)
    ensures Issued(0, InitialSuffix(ms), 257, id) && Id(0, InitialSuffix(ms + 1), 1) == id
  {
    ms := 1_700_000_000_000;
    id := Id(0, InitialSuffix(ms), 257);
    assert Issued(0, InitialSuffix(ms), 257, id);
  }
}
