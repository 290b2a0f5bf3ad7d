/** The software floating-point type of to_chars.hpp: a 64-bit significand with
    a binary exponent.  A uint64_t is the type Word, so every sum, product and
    shift stored in one carries the obligation that it does not wrap. */
module Diyfps {
  import opened Powers

  type Word = x: int | 0 <= x < TWO64

  datatype Diyfp = Diyfp(f: Word, e: int)

  function Sub(x: Diyfp, y: Diyfp): (r: Diyfp)
    requires x.e == y.e && x.f >= y.f
    ensures r.f + y.f == x.f && r.e == y.e
  {
    Diyfp(x.f - y.f, x.e)
  }

  /** Schoolbook multiplication on 32-bit halves, keeping the upper word. */
  function Mul(x: Diyfp, y: Diyfp): (r: Diyfp)
    ensures r.f == (x.f * y.f + TWO63) / TWO64
    ensures r.e == x.e + y.e + 64
  {
    MulWordsExact(x.f, y.f);
    Diyfp(MulWords(x.f, y.f), x.e + y.e + 64)
  }

  function MulWords(u: Word, v: Word): (h: Word)
  {
    var p0, p1 := (u % TWO32) * (v % TWO32), (u % TWO32) * (v / TWO32);
    var p2, p3 := (u / TWO32) * (v % TWO32), (u / TWO32) * (v / TWO32);
    SplitProduct(u, v, p0, p1, p2, p3);
    UpperWord(p0, p1, p2, p3)
  }

  /** Adds up the four partial products and rounds, ties up. */
  function UpperWord(p0: Word, p1: Word, p2: Word, p3: Word): Word
    requires HalfProduct(p0) && HalfProduct(p1) && HalfProduct(p2) && HalfProduct(p3)
  {
    var q: Word := p0 / TWO32 + p1 % TWO32 + p2 % TWO32;
    var q': Word := q + TWO32 / 2;
    p3 + p2 / TWO32 + p1 / TWO32 + q' / TWO32
  }

  lemma MulWordsExact(u: Word, v: Word)
    ensures MulWords(u, v) == (u * v + TWO63) / TWO64
  {
    var p0, p1 := (u % TWO32) * (v % TWO32), (u % TWO32) * (v / TWO32);
    var p2, p3 := (u / TWO32) * (v % TWO32), (u / TWO32) * (v / TWO32);
    SplitProduct(u, v, p0, p1, p2, p3);
    RoundUpperWord(p0, p1, p2, p3);
  }

  lemma HalfProductBound(u: int, v: int)
    requires 0 <= u < TWO32 && 0 <= v < TWO32
    ensures 0 <= u * v <= (TWO32 - 1) * (TWO32 - 1)
  {
    MulLe(u, TWO32 - 1, v);
    MulLe(v, TWO32 - 1, TWO32 - 1);
    MulLe(0, u, v);
  }

  lemma SplitProduct(x: Word, y: Word, p0: int, p1: int, p2: int, p3: int)
    requires p0 == (x % TWO32) * (y % TWO32) && p1 == (x % TWO32) * (y / TWO32)
    requires p2 == (x / TWO32) * (y % TWO32) && p3 == (x / TWO32) * (y / TWO32)
    ensures HalfProduct(p0) && HalfProduct(p1) && HalfProduct(p2) && HalfProduct(p3)
    ensures x * y == p0 + TWO32 * (p1 + p2) + TWO64 * p3
  {
    var ulo, uhi := x % TWO32, x / TWO32;
    var vlo, vhi := y % TWO32, y / TWO32;
    HalfProductBound(ulo, vlo);
    HalfProductBound(ulo, vhi);
    HalfProductBound(uhi, vlo);
    HalfProductBound(uhi, vhi);
    SplitFactors(x, uhi, ulo, y, vhi, vlo);
  }

  lemma SplitFactors(x: int, uhi: int, ulo: int, y: int, vhi: int, vlo: int)
    requires x == uhi * TWO32 + ulo && y == vhi * TWO32 + vlo
    ensures x * y == ulo * vlo + TWO32 * (ulo * vhi + uhi * vlo) + TWO64 * (uhi * vhi)
  {
  }

  predicate HalfProduct(p: int) {
    0 <= p <= (TWO32 - 1) * (TWO32 - 1)
  }

  lemma RoundUpperWord(p0: int, p1: int, p2: int, p3: int)
    requires HalfProduct(p0) && HalfProduct(p1) && HalfProduct(p2) && HalfProduct(p3)
    ensures (p0 + TWO32 * (p1 + p2) + TWO64 * p3 + TWO63) / TWO64 == UpperWord(p0, p1, p2, p3)
  {
    var q := p0 / TWO32 + p1 % TWO32 + p2 % TWO32 + TWO32 / 2;
    var h := p3 + p2 / TWO32 + p1 / TWO32 + q / TWO32;
    var low := TWO32 * (q % TWO32) + p0 % TWO32;
    assert p0 + TWO32 * (p1 + p2) + TWO64 * p3 + TWO63 == TWO64 * h + low;
    assert 0 <= low < TWO64;
  }

  /** f << s without any loss. */
  function Shl(f: int, s: nat): int
    decreases s
  {
    if s == 0 then f else Shl(2 * f, s - 1)
  }

  lemma {:induction false} ShlIsProduct(f: int, s: nat)
    ensures Shl(f, s) == f * Pow(2, s)
    decreases s
  {
    if s == 0 {
    } else {
      ShlIsProduct(2 * f, s - 1);
      MulAssoc(f, 2, Pow(2, s - 1));
    }
  }

  /** How far normalize shifts a non-zero significand. */
  function NormShift(f: int): (s: nat)
    requires 0 < f < TWO64
    ensures TWO63 <= Shl(f, s) < TWO64
    decreases TWO64 - f
  {
    if f >= TWO63 then 0 else NormShift(2 * f) + 1
  }

  lemma NormShiftUnique(f: int, s: nat)
    requires 0 < f < TWO64 && TWO63 <= Shl(f, s) < TWO64
    ensures s == NormShift(f)
  {
    var t := NormShift(f);
    ShlIsProduct(f, s);
    ShlIsProduct(f, t);
    if s < t {
      TwiceAtLeast(f, s, t);
    } else if t < s {
      TwiceAtLeast(f, t, s);
    }
  }

  lemma TwiceAtLeast(f: int, s: nat, t: nat)
    requires 0 < f && s < t
    ensures 2 * (f * Pow(2, s)) <= f * Pow(2, t)
  {
    PowMonotone(2, s + 1, t);
    MulAssoc(f, Pow(2, s), 2);
    MulLe(Pow(2, s + 1), Pow(2, t), f);
  }

  method Normalize(x: Diyfp) returns (r: Diyfp)
    requires x.f != 0
    ensures r.f == Shl(x.f, NormShift(x.f)) && r.e == x.e - NormShift(x.f)
    ensures TWO63 <= r.f
  {
    r := x;
    while r.f / TWO63 == 0
      invariant 0 < r.f
      invariant Shl(r.f, NormShift(r.f)) == Shl(x.f, NormShift(x.f))
      invariant r.e - NormShift(r.f) == x.e - NormShift(x.f)
      decreases TWO64 - r.f
    {
      r := Diyfp(2 * r.f, r.e - 1);
    }
  }

  /** The shifts of a machine word: bits that leave it are lost. */
  function ShlWord(f: Word, d: nat): Word {
    f * Pow(2, d) % TWO64
  }

  function ShrWord(f: Word, d: nat): Word {
    Quotient(f, Pow(2, d));
    f / Pow(2, d)
  }

  lemma Quotient(f: int, p: int)
    requires 0 <= f < TWO64 && 0 < p
    ensures 0 <= f / p < TWO64
  {
  }

  /** Shifts x to a given exponent.  What the source asserts, that shifting back gives
      x again, makes the shift an exact multiplication. */
  function NormalizeTo(x: Diyfp, target: int): (r: Diyfp)
    requires x.e >= target
    requires ShrWord(ShlWord(x.f, x.e - target), x.e - target) == x.f
    ensures r.f == x.f * Pow(2, x.e - target) && r.e == target
  {
    ShiftedBack(x.f, x.e - target);
    Diyfp(ShlWord(x.f, x.e - target), target)
  }

  /** A shift loses nothing exactly if it can be undone, and exactly if it fits. */
  lemma ShiftedBack(f: Word, d: nat)
    ensures ShrWord(ShlWord(f, d), d) == f <==> f * Pow(2, d) < TWO64
    ensures f * Pow(2, d) < TWO64 ==> ShlWord(f, d) == f * Pow(2, d)
  {
    var p := Pow(2, d);
    var n := f * p;
    MulLe(0, f, p);
    if n < TWO64 {
      ModOf(0, n, TWO64);
      DivisionUnique(n / p, n % p, f, 0, p);
    }
  }

  // ---------------------------------------------------------------- doubles

  const HIDDEN: int := 0x10_0000_0000_0000
  const BIAS: int := 1075

  /** The exponent and fraction fields of a positive finite binary64 number. */
  datatype Double = Double(E: nat, F: nat) {
    predicate Positive() {
      E < 2047 && F < HIDDEN && (E > 0 || F > 0)
    }

    function Significand(): nat {
      if E == 0 then F else F + HIDDEN
    }

    function Exponent(): int {
      if E == 0 then 1 - BIAS else E - BIAS
    }

    /** The predecessor is only half as far away as the successor. */
    predicate LowerBoundaryIsCloser() {
      F == 0 && E > 1
    }
  }

  datatype Boundaries = Boundaries(w: Diyfp, minus: Diyfp, plus: Diyfp)

  /** What compute_boundaries must deliver for f * 2^e: the number itself and the
      midpoints to its two neighbours, scaled to one common exponent. */
  ghost predicate AreBoundaries(f: int, e: int, closer: bool, b: Boundaries, s: nat) {
    && s >= 10
    && b.w.e == b.minus.e == b.plus.e == e - 1 - s
    && b.plus.f == Shl(2 * f + 1, s)
    && b.w.f == Shl(2 * f, s)
    && b.minus.f == (if closer then Shl(4 * f - 1, s - 1) else Shl(2 * f - 1, s))
    && TWO63 <= b.w.f
    && TWO63 <= b.plus.f
  }

  /** m+ = (2f + 1) * 2^(e-1) and v = f * 2^e are normalized to the same exponent,
      and m- can be shifted to that exponent without losing a bit. */
  lemma ShiftOfBoundary(f: int)
    requires 0 < f < 2 * HIDDEN
    ensures var s := NormShift(2 * f + 1);
      && 10 <= s <= 62
      && NormShift(f) == s + 1
      && Shl(f, NormShift(f)) == Shl(2 * f, s)
      && Shl(2 * f - 1, s) < TWO64
      && Shl(4 * f - 1, s - 1) < TWO64
  {
    var s := NormShift(2 * f + 1);
    var p := Pow(2, s);
    BoundaryShift(f, s);
    ShlIsProduct(2 * f + 1, s);
    ShlIsProduct(2 * f, s);
    PowAdd(2, s, 62 - s);
    PowersOfTwo();
    EvenSplit(f, p, Pow(2, 62 - s));
    NormShiftUnique(f, s + 1);
    ShlIsProduct(2 * f - 1, s);
    MulLe(2 * f - 1, 2 * f + 1, p);
    ShlIsProduct(4 * f + 2, s - 1);
    ShlIsProduct(4 * f - 1, s - 1);
    MulLe(4 * f - 1, 4 * f + 2, Pow(2, s - 1));
  }

  /** A significand of at most 54 bits is shifted by ten places at least. */
  lemma BoundaryShift(f: int, s: nat)
    requires 0 < f < 2 * HIDDEN && TWO63 <= Shl(2 * f + 1, s) < TWO64
    ensures 10 <= s <= 62
  {
    var p := Pow(2, s);
    ShlIsProduct(2 * f + 1, s);
    if s > 62 {
      PowMonotone(2, 63, s);
      PowersOfTwo();
      MulLe(3, 2 * f + 1, p);
    }
    if s < 10 {
      PowMonotone(2, s, 9);
      assert Pow(2, 9) == 512;
      MulLe(2 * f + 1, 4 * HIDDEN - 1, p);
      MulLe(p, 512, 4 * HIDDEN - 1);
    }
  }

  /** Since 2f + 1 is odd, dropping the one cannot cross the power of two. */
  lemma EvenSplit(f: int, p: int, h: int)
    requires 0 < f && 0 < p && p * h == TWO63 / 2
    requires TWO63 <= (2 * f + 1) * p < TWO64
    ensures TWO63 <= 2 * f * p < TWO64
  {
    assert 2 * h * p == TWO63 by { MulAssoc(2, h, p); }
    CancelLe(2 * h, 2 * f + 1, p);
    MulLe(2 * h, 2 * f, p);
    MulLe(2 * f, 2 * f + 1, p);
  }

  method ComputeBoundaries(v: Double) returns (b: Boundaries)
    requires v.Positive()
    ensures AreBoundaries(v.Significand(), v.Exponent(), v.LowerBoundaryIsCloser(), b,
                          NormShift(2 * v.Significand() + 1))
  {
    b := NeighbourMidpoints(Diyfp(v.Significand(), v.Exponent()), v.LowerBoundaryIsCloser());
  }

  method NeighbourMidpoints(v: Diyfp, closer: bool) returns (b: Boundaries)
    requires 0 < v.f < 2 * HIDDEN
    ensures AreBoundaries(v.f, v.e, closer, b, NormShift(2 * v.f + 1))
  {
    ShiftOfBoundary(v.f);
    var mPlus := Diyfp(2 * v.f + 1, v.e - 1);
    var mMinus := if closer then Diyfp(4 * v.f - 1, v.e - 2)
                  else Diyfp(2 * v.f - 1, v.e - 1);
    var wPlus := Normalize(mPlus);
    ShlIsProduct(mMinus.f, mMinus.e - wPlus.e);
    ShiftedBack(mMinus.f, mMinus.e - wPlus.e);
    var wMinus := NormalizeTo(mMinus, wPlus.e);
    var w := Normalize(v);
    b := Boundaries(w, wMinus, wPlus);
  }
}
