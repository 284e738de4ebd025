/** Rounding addresses up with a mask (alignTo and isPowerOfTwo, libraries/zc/core/arena.cc).
    The operators `&` and `~` are defined on the bits of 64-bit words. */
module Alignment {

  const WORD_BITS: nat := 64

  function Pow2(k: nat): (p: nat)
    ensures p > 0
  {
    if k == 0 then 1 else 2 * Pow2(k - 1)
  }

  function BitAnd(a: nat, b: nat): nat
    decreases a
  {
    if a == 0 || b == 0 then 0 else 2 * BitAnd(a / 2, b / 2) + (if a % 2 == 1 && b % 2 == 1 then 1 else 0)
  }

  /** `~m` in words of `bits` bits. */
  function BitNot(m: nat, bits: nat): nat
    requires m < Pow2(bits)
  {
    Pow2(bits) - 1 - m
  }

  predicate IsPowerOfTwo(value: nat) {
    BitAnd(value, if value == 0 then Pow2(WORD_BITS) - 1 else value - 1) == 0
  }

  /** `(p + mask) & ~mask`, with an addition that wraps around. */
  function AlignTo(p: nat, alignment: nat): nat
    requires 0 < alignment <= Pow2(WORD_BITS)
  {
    var mask := alignment - 1;
    BitAnd((p + mask) % Pow2(WORD_BITS), BitNot(mask, WORD_BITS))
  }

  /** The least multiple of `a` from `p` on. */
  function RoundUp(p: nat, a: nat): nat
    requires a > 0
  {
    (p + a - 1) / a * a
  }

  // ---------------------------------------------------------------------------

  lemma {:induction false} AndAllOnes(x: nat, w: nat)
    requires x < Pow2(w)
    ensures BitAnd(x, Pow2(w) - 1) == x
  {
    if w > 0 && x > 0 {
      AndAllOnes(x / 2, w - 1);
      var y: nat := Pow2(w) - 1;
      assert y / 2 == Pow2(w - 1) - 1 && y % 2 == 1;
    }
  }

  /** Remainders modulo twice a number, one bit at a time. */
  lemma HalfMod(x: nat, p: nat)
    requires p > 0
    ensures x % (2 * p) == 2 * ((x / 2) % p) + x % 2
  {
    var h := x / 2;
    var q, r := h / p, h % p;
    assert x == 2 * h + x % 2;
    assert h == q * p + r;
    assert x == q * (2 * p) + (2 * r + x % 2);
    assert 0 <= 2 * r + x % 2 < 2 * p;
    DivModUnique(x, 2 * p, q, 2 * r + x % 2);
  }

  lemma MulSign(e: int, d: int)
    requires d >= 0
    ensures e >= 1 ==> e * d >= d
    ensures e <= -1 ==> e * d <= -d
  {
    if e >= 1 {
      assert e * d == (e - 1) * d + d && (e - 1) * d >= 0;
    } else if e <= -1 {
      assert e * d == (e + 1) * d - d && (e + 1) * d <= 0;
    }
  }

  lemma DivModUnique(x: nat, d: nat, q: nat, r: nat)
    requires d > 0 && x == q * d + r && r < d
    ensures x / d == q && x % d == r
  {
    var e := x / d - q;
    assert x == x / d * d + x % d;
    assert e * d == r - x % d;
    MulSign(e, d);
  }

  lemma {:induction false} Pow2Order(j: nat, k: nat)
    requires j <= k
    ensures Pow2(j) <= Pow2(k) && Pow2(k) % Pow2(j) == 0
  {
    if j == k {
    } else {
      Pow2Order(j, k - 1);
      var q := Pow2(k - 1) / Pow2(j);
      assert Pow2(k) == (2 * q) * Pow2(j);
      DivModUnique(Pow2(k), Pow2(j), 2 * q, 0);
    }
  }

  /** Masking off the low bits is subtracting the remainder. */
  lemma {:induction false} MaskIsFloor(x: nat, k: nat, w: nat)
    requires k <= w && x < Pow2(w)
    ensures Pow2(k) <= Pow2(w) && BitAnd(x, Pow2(w) - Pow2(k)) == x - x % Pow2(k)
  {
    Pow2Order(k, w);
    if k == 0 {
      AndAllOnes(x, w);
    } else if k == w {
      SmallMod(x, Pow2(k));
    } else {
      MaskIsFloor(x / 2, k - 1, w - 1);
      HalfMod(x, Pow2(k - 1));
      MaskStep(x, Pow2(k - 1), Pow2(w - 1), (x / 2) % Pow2(k - 1));
    }
  }

  lemma MaskStep(x: nat, p: nat, q: nat, r: nat)
    requires p <= q && BitAnd(x / 2, q - p) == x / 2 - r
    ensures BitAnd(x, 2 * q - 2 * p) == x - (2 * r + x % 2)
  {
    hide BitAnd;
    var m: nat := 2 * q - 2 * p;
    assert m == 2 * (q - p);
    assert m / 2 == q - p && m % 2 == 0;
    AndEven(x, m);
  }

  lemma AndEven(x: nat, m: nat)
    requires m % 2 == 0
    ensures BitAnd(x, m) == 2 * BitAnd(x / 2, m / 2)
  {
  }

  lemma SmallMod(x: nat, d: nat)
    requires x < d
    ensures x % d == x
  {
  }

  /** Rounding up by division gives a multiple, at or above `p`, and nothing smaller does. */
  lemma RoundUpIsLeast(p: nat, a: nat)
    requires a > 0
    ensures RoundUp(p, a) % a == 0 && p <= RoundUp(p, a) < p + a
    ensures forall m: nat | p <= m && m % a == 0 :: RoundUp(p, a) <= m
  {
    var n := p + a - 1;
    var q := n / a;
    assert n == q * a + n % a;
    DivModUnique(q * a, a, q, 0);
    forall m: nat | p <= m && m % a == 0 ensures RoundUp(p, a) <= m {
      NextMultiple(m / a, q, a);
    }
  }

  lemma NextMultiple(e: nat, q: nat, a: nat)
    ensures e * a <= q * a - a || q * a <= e * a
  {
    MulSign(q - e, a);
    assert (q - e) * a == q * a - e * a;
    MulSign(e - q, a);
  }

  lemma FloorOfSum(p: nat, a: nat)
    requires a > 0
    ensures (p + a - 1) - (p + a - 1) % a == RoundUp(p, a)
  {
  }

  /** For every power of two, and if the sum does not wrap around, the mask rounds up. */
  lemma AlignToRoundsUp(p: nat, k: nat)
    requires k < WORD_BITS && p + Pow2(k) - 1 < Pow2(WORD_BITS)
    ensures Pow2(k) <= Pow2(WORD_BITS)
    ensures AlignTo(p, Pow2(k)) == RoundUp(p, Pow2(k))
    ensures AlignTo(p, Pow2(k)) % Pow2(k) == 0 && p <= AlignTo(p, Pow2(k)) < p + Pow2(k)
  {
    hide Pow2;
    Pow2Order(k, WORD_BITS);
    var mask := Pow2(k) - 1;
    SmallMod(p + mask, Pow2(WORD_BITS));
    MaskIsFloor(p + mask, k, WORD_BITS);
    FloorOfSum(p, Pow2(k));
    RoundUpIsLeast(p, Pow2(k));
    hide BitAnd, RoundUp;
  }

  ghost predicate PowerOfTwo(v: nat) {
    exists k: nat :: v == Pow2(k)
  }

  lemma {:induction false} AndPrevious(v: nat)
    requires v > 0
    ensures BitAnd(v, v - 1) == 0 <==> PowerOfTwo(v)
  {
    if v == 1 {
      assert Pow2(0) == 1;
    } else if v % 2 == 0 {
      AndPrevious(v / 2);
      assert (v - 1) / 2 == v / 2 - 1;
      if PowerOfTwo(v) {
        var k: nat :| v == Pow2(k);
        assert v / 2 == Pow2(k - 1);
      } else if PowerOfTwo(v / 2) {
        var k: nat :| v / 2 == Pow2(k);
        assert v == Pow2(k + 1);
      }
    } else {
      AndSame(v / 2);
      OddIsNoPower(v);
    }
  }

  lemma OddIsNoPower(v: nat)
    requires v > 1 && v % 2 == 1
    ensures !PowerOfTwo(v)
  {
    forall k: nat ensures v != Pow2(k) {
      assert k > 0 ==> Pow2(k) == 2 * Pow2(k - 1);
    }
  }

  lemma {:induction false} AndSame(v: nat)
    ensures BitAnd(v, v) == v
  {
    if v > 0 { AndSame(v / 2); }
  }

  /** The check accepts exactly the powers of two, and 0. */
  lemma IsPowerOfTwoExact(v: nat)
    ensures IsPowerOfTwo(v) <==> v == 0 || PowerOfTwo(v)
  {
    hide Pow2;
    if v > 0 { AndPrevious(v); }
  }
}
