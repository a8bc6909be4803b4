/**
 Table sizes of the dictionary: the bit-smearing dict_real_size, the mask used for
 bucket indices, and the powers of two both rely on. Machine words are naturals with
 bitwise operations written out.
 */
module PowerOfTwo {

  function Pow2(k: nat): (p: nat)
    ensures p >= 1
  {
    if k == 0 then 1 else 2 * Pow2(k - 1)
  }

  ghost predicate IsPow2(n: nat) {
    exists k: nat :: n == Pow2(k)
  }

  lemma {:induction false} Pow2Add(j: nat, k: nat)
    ensures Pow2(j + k) == Pow2(j) * Pow2(k)
    decreases j
  {
    if j > 0 {
      Pow2Add(j - 1, k);
    }
  }

  lemma {:induction false} Pow2Monotone(j: nat, k: nat)
    requires j < k
    ensures 2 * Pow2(j) <= Pow2(k)
    decreases k
  {
    if j < k - 1 {
      Pow2Monotone(j, k - 1);
    }
  }

  // ----- bitwise operations

  function Or(a: nat, b: nat): (r: nat)
    decreases a + b
  {
    if a == 0 then b
    else if b == 0 then a
    else 2 * Or(a / 2, b / 2) + (if a % 2 == 1 || b % 2 == 1 then 1 else 0)
  }

  function And(a: nat, b: nat): (r: nat)
    ensures r <= b
    decreases a + b
  {
    if a == 0 || b == 0 then 0
    else 2 * And(a / 2, b / 2) + (if a % 2 == 1 && b % 2 == 1 then 1 else 0)
  }

  function ShiftRight(a: nat, j: nat): nat
    decreases j
  {
    if j == 0 then a else ShiftRight(a / 2, j - 1)
  }

  lemma {:induction false} ShiftIsQuotient(a: nat, j: nat)
    ensures ShiftRight(a, j) == a / Pow2(j)
    decreases j
  {
    if j > 0 {
      ShiftIsQuotient(a / 2, j - 1);
      HalfDivides(a, Pow2(j - 1));
    }
  }

  /** hash & sizemask is hash mod size when size is a power of two. */
  lemma {:induction false} MaskIsModulo(hash: nat, k: nat)
    ensures And(hash, Pow2(k) - 1) == hash % Pow2(k)
    decreases k
  {
    if k > 0 {
      MaskIsModulo(hash / 2, k - 1);
      var p := Pow2(k - 1);
      AndOdd(hash, p - 1);
      ModuloStep(hash, p, (hash / 2) % p);
    }
  }

  lemma HalveOdd(n: nat)
    ensures (2 * n + 1) / 2 == n && (2 * n + 1) % 2 == 1
  {
  }

  lemma AndOdd(h: nat, n: nat)
    ensures And(h, 2 * n + 1) == 2 * And(h / 2, n) + h % 2
  {
    HalveOdd(n);
    if h == 0 {
      assert h / 2 == 0;
    }
  }

  lemma ModuloStep(h: nat, p: nat, r: nat)
    requires p >= 1 && r == (h / 2) % p
    ensures h % (2 * p) == 2 * r + h % 2
  {
    var q := (h / 2) / p;
    assert h / 2 == q * p + r;
    assert h == 2 * (h / 2) + h % 2;
    assert h == q * (2 * p) + (2 * r + h % 2);
    DivisionUnique(h, 2 * p, q, 2 * r + h % 2);
  }

  lemma TimesMonotone(t: nat, x: int, y: int)
    requires x <= y
    ensures t * x <= t * y
  {
  }

  lemma QuotientAtLeast(a: nat, t: nat, x: int)
    requires t >= 1 && a >= t * x
    ensures a / t >= x
  {
    if x > a / t {
      TimesMonotone(t, a / t + 1, x);
    }
  }

  lemma DivisionUnique(h: nat, d: nat, q: nat, r: nat)
    requires h == q * d + r && r < d
    ensures h / d == q && h % d == r
  {
    assert q * d == d * q;
    QuotientAtLeast(h, d, q);
    if h / d > q {
      TimesMonotone(d, q + 1, h / d);
    }
  }

  // ----- dict_real_size

  const LONG_MAX: nat := 0x7FFF_FFFF_FFFF_FFFF

  /** One smearing statement: size |= size >> j. */
  function Smear(size: nat, j: nat): nat {
    Or(size, ShiftRight(size, j))
  }

  /** dict_real_size on a 64-bit machine; the decrement of zero wraps to the all-ones word. */
  function DictRealSize(size: nat): nat {
    if size >= LONG_MAX then LONG_MAX
    else if size == 0 then 0
    else Smear(Smear(Smear(Smear(Smear(Smear(size - 1, 1), 2), 4), 8), 16), 32) + 1
  }

  lemma {:induction false} OrBounds(a: nat, b: nat, l: nat)
    requires a < Pow2(l) && b < Pow2(l)
    ensures a <= Or(a, b) < Pow2(l) && b <= Or(a, b)
    decreases l
  {
    if a != 0 && b != 0 {
      OrBounds(a / 2, b / 2, l - 1);
    }
  }

  /** The high part of an or, when the other operand only reaches the low s bits. */
  lemma {:induction false} OrHigh(a: nat, b: nat, s: nat)
    requires b < Pow2(s)
    ensures Or(a, b) >= a / Pow2(s) * Pow2(s) + b
    decreases s
  {
    if s == 0 || a == 0 || b == 0 {
      QuotientTimes(a, Pow2(s));
    } else {
      OrHigh(a / 2, b / 2, s - 1);
      HighDoubles(a, Pow2(s - 1));
    }
  }

  lemma QuotientTimes(a: nat, p: nat)
    requires p >= 1
    ensures 0 <= a / p * p <= a
  {
    assert a == p * (a / p) + a % p;
  }

  lemma HighDoubles(a: nat, h: nat)
    requires h >= 1
    ensures a / (2 * h) * (2 * h) == 2 * ((a / 2) / h * h)
  {
    HalfDivides(a, h);
  }

  lemma HalfDivides(a: nat, h: nat)
    requires h >= 1
    ensures a / (2 * h) == (a / 2) / h
  {
    var q, r := (a / 2) / h, (a / 2) % h;
    assert a / 2 == q * h + r;
    assert a == q * (2 * h) + (2 * r + a % 2);
    DivisionUnique(a, 2 * h, q, 2 * r + a % 2);
  }

  /** The j top bits of an l-bit number are set. */
  predicate TopSet(a: nat, l: nat, j: nat) {
    && a < Pow2(l)
    && (if j <= l then a >= Pow2(l) - Pow2(l - j) else a == Pow2(l) - 1)
  }

  /** Each smearing statement doubles the run of ones at the top. */
  lemma SmearDoubles(a: nat, l: nat, j: nat)
    requires j > 0 && TopSet(a, l, j)
    ensures TopSet(Smear(a, j), l, 2 * j)
  {
    ShiftIsQuotient(a, j);
    ShiftShrinks(a, Pow2(j));
    OrBounds(a, ShiftRight(a, j), l);
    if j <= l {
      Pow2Add(j, l - j);
      if 2 * j <= l {
        Pow2Add(j, l - 2 * j);
        SmearedRun(a, j, l - j, Pow2(l - 2 * j));
      } else {
        Pow2Monotone(l - j, j);
        SmearedRun(a, j, l - j, 1);
      }
    }
  }

  lemma ShiftShrinks(a: nat, t: nat)
    requires t >= 1
    ensures a / t <= a
  {
    TimesMonotone(a / t, 1, t);
  }

  /** With j ones on top of s further bits, a >> j puts its own ones right below them. */
  lemma SmearedRun(a: nat, j: nat, s: nat, u: nat)
    requires var t, p := Pow2(j), Pow2(s);
             && t * p - p <= a < t * p
             && (p == t * u || (u == 1 && p < t))
    ensures Smear(a, j) >= Pow2(j) * Pow2(s) - u
  {
    QuotientHigh(a, Pow2(j), Pow2(s));
    QuotientLow(a, Pow2(j), Pow2(s), u);
    ShiftIsQuotient(a, j);
    OrHigh(a, ShiftRight(a, j), s);
  }

  lemma QuotientHigh(a: nat, t: nat, p: nat)
    requires t >= 1 && p >= 1 && t * p - p <= a < t * p
    ensures a / p * p == t * p - p
    ensures a / t < p
  {
    assert t * p - p == (t - 1) * p;
    DivisionUnique(a, p, t - 1, a - (t - 1) * p);
    if a / t >= p {
      TimesMonotone(t, p, a / t);
    }
  }

  lemma QuotientLow(a: nat, t: nat, p: nat, u: nat)
    requires t >= 1 && p >= 1 && t * p - p <= a
    requires p == t * u || (u == 1 && p < t)
    ensures a / t >= p - u
  {
    if p == t * u {
      assert t * (p - u) == t * p - t * u;
      QuotientAtLeast(a, t, p - u);
    } else {
      assert t * (p - 1) == t * p - t;
      QuotientAtLeast(a, t, p - 1);
    }
  }

  /** The number of bits of n. */
  function BitLength(n: nat): (l: nat)
    ensures n < Pow2(l) && (l > 0 ==> Pow2(l - 1) <= n)
  {
    if n == 0 then 0 else BitLength(n / 2) + 1
  }

  /** The size of a new table, for sizes of any magnitude. */
  function RealSize(size: nat): (r: nat)
    requires size >= 1
    ensures r >= size
  {
    Pow2(BitLength(size - 1))
  }

  lemma RealSizeIsLeast(size: nat, k: nat)
    requires size >= 1
    ensures IsPow2(RealSize(size))
    ensures Pow2(k) >= size ==> Pow2(k) >= RealSize(size)
  {
    var l := BitLength(size - 1);
    if k + 1 < l {
      Pow2Monotone(k, l - 1);
    } else if k > l {
      Pow2Monotone(l, k);
    }
  }

  /** dict_real_size computes the least power of two that is at least size; near 2^63 it stays at 2^63 - 1, and at 0 it wraps to 0. */
  lemma DictRealSizeIs(size: nat)
    ensures DictRealSize(size)
         == if size == 0 then 0 else if size < Pow2(63) - 1 then RealSize(size) else Pow2(63) - 1
  {
    SixtyThreeBits();
    if 1 <= size < LONG_MAX {
      DictRealSizeIsRealSize(size);
    }
  }

  lemma DictRealSizeIsRealSize(size: nat)
    requires 1 <= size < LONG_MAX
    ensures DictRealSize(size) == RealSize(size)
  {
    var n, l := size - 1, BitLength(size - 1);
    SmearDoubles(n, l, 1);
    var n1 := Smear(n, 1);
    SmearDoubles(n1, l, 2);
    var n2 := Smear(n1, 2);
    SmearDoubles(n2, l, 4);
    var n4 := Smear(n2, 4);
    SmearDoubles(n4, l, 8);
    var n8 := Smear(n4, 8);
    SmearDoubles(n8, l, 16);
    var n16 := Smear(n8, 16);
    SmearDoubles(n16, l, 32);
    SixtyThreeBits();
    if l > 63 {
      Pow2Monotone(62, l - 1);
    }
  }

  lemma SixtyThreeBits()
    ensures Pow2(63) == LONG_MAX + 1
  {
    assert Pow2(16) == 0x1_0000;
    Pow2Add(16, 16);
    Pow2Add(32, 31);
    assert Pow2(15) == 0x8000;
    Pow2Add(16, 15);
  }

  /** Expanding a full table of power-of-two size exactly doubles it. */
  lemma RealSizeDoubles(size: nat)
    requires size >= 1 && IsPow2(size)
    ensures RealSize(2 * size) == 2 * size
  {
    var k: nat :| size == Pow2(k);
    RealSizeIsLeast(2 * size, k + 1);
  }
}
