/** Grisu2 as a whole: from a positive double to the digits of a decimal number
    that no other double is as close to. */
module Grisu {
  import opened Powers
  import opened Diyfps
  import opened DigitGen
  import CP = CachedPowers

  // ------------------------------------- comparing decimals with binary numbers

  /** digits * 10^x < m * 2^e, with all powers moved to the sides they do not divide. */
  ghost predicate DecimalBelow(digits: int, x: int, m: int, e: int) {
    digits * (Up(10, x) * Down(2, e)) < m * (Up(2, e) * Down(10, x))
  }

  /** digits * 10^x > m * 2^e */
  ghost predicate DecimalAbove(digits: int, x: int, m: int, e: int) {
    DecimalBelow(-digits, x, -m, e)
  }

  /** What a reader may round to: any finite double, zero, and 2^1024, where
      overflow to infinity begins. */
  predicate Candidate(u: Double) {
    (u.E < 2047 && u.F < HIDDEN) || (u.E == 2047 && u.F == 0)
  }

  predicate Before(u: Double, v: Double) {
    u.E < v.E || (u.E == v.E && u.F < v.F)
  }

  /** u counted in units of 2^e. */
  function Counted(u: Double, e: int): int
    requires e <= u.Exponent()
  {
    u.Significand() * Pow(2, u.Exponent() - e)
  }

  /** The field order is the numerical order. */
  lemma BeforeIsLess(u: Double, v: Double)
    requires Candidate(u) && Candidate(v) && Before(u, v)
    ensures u.Exponent() <= v.Exponent() && Counted(u, u.Exponent()) < Counted(v, u.Exponent())
  {
    var d := v.Exponent() - u.Exponent();
    if d > 0 {
      PowMonotone(2, 1, d);
      MulLe(2, Pow(2, d), v.Significand());
    }
  }

  /** digits * 10^x is strictly nearer to v than to any other candidate: it lies on
      v's side of every midpoint. */
  ghost predicate ReadsBackAs(digits: int, x: int, v: Double) {
    && (forall u: Double :: Candidate(u) && Before(v, u) ==>
          u.Exponent() >= v.Exponent() &&
          DecimalBelow(digits, x, v.Significand() + Counted(u, v.Exponent()), v.Exponent() - 1))
    && (forall u: Double :: Candidate(u) && Before(u, v) ==>
          u.Exponent() <= v.Exponent() &&
          DecimalAbove(digits, x, u.Significand() + Counted(v, u.Exponent()), u.Exponent() - 1))
  }

  /** The upper and the lower boundary of v. */
  ghost predicate BetweenBoundaries(digits: int, x: int, v: Double) {
    var f, e := v.Significand(), v.Exponent();
    && DecimalBelow(digits, x, 2 * f + 1, e - 1)
    && (if v.LowerBoundaryIsCloser() then DecimalAbove(digits, x, 4 * f - 1, e - 2)
        else DecimalAbove(digits, x, 2 * f - 1, e - 1))
  }

  /** A comparison survives making the binary number larger. */
  lemma BelowLarger(digits: int, x: int, m: int, e: int, m': int, e': int)
    requires DecimalBelow(digits, x, m, e) && e' <= e && m * Pow(2, e - e') <= m'
    ensures DecimalBelow(digits, x, m', e')
  {
    UpDownAdd(2, e', e - e');
    Rescale(digits, Up(10, x), Down(10, x), m, Up(2, e), Down(2, e), m', Up(2, e'), Down(2, e'), Pow(2, e - e'));
  }

  lemma Rescale(d: int, xu: int, xd: int, m: int, eu: int, ed: int, m': int, eu': int, ed': int, p: int)
    requires xu > 0 && xd > 0 && eu > 0 && ed > 0 && eu' > 0 && ed' > 0 && p > 0
    requires d * (xu * ed) < m * (eu * xd) && m * p <= m' && eu' * p * ed == ed' * 1 * eu
    ensures d * (xu * ed') < m' * (eu' * xd)
  {
    // multiply by ed', trade ed' * eu for eu' * p * ed, and cancel ed
    MulLt(d * (xu * ed), m * (eu * xd), ed');
    assert m * (eu * xd) * ed' == m * xd * (ed' * 1 * eu);
    assert m * xd * (eu' * p * ed) == m * p * (eu' * xd) * ed;
    MulLe(m * p, m', eu' * xd * ed);
    assert d * (xu * ed) * ed' == d * (xu * ed') * ed;
    assert m' * (eu' * xd * ed) == m' * (eu' * xd) * ed;
    assert m * p * (eu' * xd * ed) == m * p * (eu' * xd) * ed;
    CancelLt(d * (xu * ed'), m' * (eu' * xd), ed);
  }

  /** Everything strictly between the boundaries is nearer to v than to any other
      candidate, however the reader breaks ties. */
  lemma BoundariesReadBack(digits: int, x: int, v: Double)
    requires v.Positive() && BetweenBoundaries(digits, x, v)
    ensures ReadsBackAs(digits, x, v)
  {
    forall u: Double | Candidate(u) && Before(v, u)
      ensures u.Exponent() >= v.Exponent() &&
        DecimalBelow(digits, x, v.Significand() + Counted(u, v.Exponent()), v.Exponent() - 1)
    {
      BelowUpperMidpoint(digits, x, v, u);
    }
    forall u: Double | Candidate(u) && Before(u, v)
      ensures u.Exponent() <= v.Exponent() &&
        DecimalAbove(digits, x, u.Significand() + Counted(v, u.Exponent()), u.Exponent() - 1)
    {
      AboveLowerMidpoint(digits, x, v, u);
    }
  }

  lemma BelowUpperMidpoint(digits: int, x: int, v: Double, u: Double)
    requires v.Positive() && BetweenBoundaries(digits, x, v) && Candidate(u) && Before(v, u)
    ensures u.Exponent() >= v.Exponent()
    ensures DecimalBelow(digits, x, v.Significand() + Counted(u, v.Exponent()), v.Exponent() - 1)
  {
    var f, e := v.Significand(), v.Exponent();
    BeforeIsLess(v, u);
    BelowLarger(digits, x, 2 * f + 1, e - 1, f + Counted(u, e), e - 1);
  }

  lemma AboveLowerMidpoint(digits: int, x: int, v: Double, u: Double)
    requires v.Positive() && BetweenBoundaries(digits, x, v) && Candidate(u) && Before(u, v)
    ensures u.Exponent() <= v.Exponent()
    ensures DecimalAbove(digits, x, u.Significand() + Counted(v, u.Exponent()), u.Exponent() - 1)
  {
    var f, e, e' := v.Significand(), v.Exponent(), u.Exponent();
    LowerNeighbourGap(u, v);
    LowerMidpoint(digits, x, f, e, e', u.Significand() + f * Pow(2, e - e'), v.LowerBoundaryIsCloser());
  }

  lemma LowerMidpoint(digits: int, x: int, f: int, e: int, e': int, m: int, closer: bool)
    requires closer ==> e > e' && DecimalAbove(digits, x, 4 * f - 1, e - 2)
    requires closer ==> -((4 * f - 1) * Pow(2, e - e' - 1)) <= -m
    requires !closer ==> e >= e' && DecimalAbove(digits, x, 2 * f - 1, e - 1)
    requires !closer ==> -((2 * f - 1) * Pow(2, e - e')) <= -m
    ensures DecimalAbove(digits, x, m, e' - 1)
  {
    if closer {
      AboveSmaller(digits, x, 4 * f - 1, e - 2, e - e' - 1, m, e' - 1);
    } else {
      AboveSmaller(digits, x, 2 * f - 1, e - 1, e - e', m, e' - 1);
    }
  }

  /** A comparison survives making the binary number smaller. */
  lemma AboveSmaller(digits: int, x: int, m: int, e: int, d: nat, m': int, e': int)
    requires DecimalAbove(digits, x, m, e) && e' == e - d && -(m * Pow(2, d)) <= -m'
    ensures DecimalAbove(digits, x, m', e')
  {
    Negate(m, Pow(2, d));
    BelowLarger(-digits, x, -m, e, -m', e');
  }

  /** No predecessor of v comes closer than the lower boundary allows. */
  lemma LowerNeighbourGap(u: Double, v: Double)
    requires Candidate(u) && v.Positive() && Before(u, v)
    ensures u.Exponent() <= v.Exponent()
    ensures var f, g, d := v.Significand(), u.Significand(), v.Exponent() - u.Exponent();
      if v.LowerBoundaryIsCloser() then d >= 1 && -((4 * f - 1) * Pow(2, d - 1)) <= -(g + f * Pow(2, d))
      else -((2 * f - 1) * Pow(2, d)) <= -(g + f * Pow(2, d))
  {
    var f, g, d := v.Significand(), u.Significand(), v.Exponent() - u.Exponent();
    BeforeIsLess(u, v);
    if v.LowerBoundaryIsCloser() {
      var h := Pow(2, d - 1);
      assert Pow(2, d) == 2 * h && h >= 1;
      GapAtPowerOfTwo(f, g, h);
    } else if d == 0 {
      assert Pow(2, d) == 1;
    } else {
      PowMonotone(2, 1, d);
      GapElsewhere(f, g, Pow(2, d));
    }
  }

  lemma GapAtPowerOfTwo(f: int, g: int, h: int)
    requires f == HIDDEN && g <= 2 * HIDDEN - 1 && h >= 1
    ensures -((4 * f - 1) * h) <= -(g + f * (2 * h))
  {
  }

  lemma GapElsewhere(f: int, g: int, p: int)
    requires HIDDEN < f && g <= 2 * HIDDEN - 1 && p >= 2
    ensures -((2 * f - 1) * p) <= -(g + f * p)
  {
    MulLe(HIDDEN, f - 1, p);
    MulLe(2, p, HIDDEN);
  }

  // ------------------------------------------------- scaling by a cached power

  /** Rounding the product and the cached power costs less than one unit. */
  lemma ScaledWithinOneUnit(a: Word, cf: Word, u: int, b: int)
    requires u > 0 && CP.Within(cf, u, b)
    ensures var h := (a * cf + TWO63) / TWO64;
      && a * b < (h + 1) * TWO64 * u
      && (h - 1) * TWO64 * u < a * b
  {
    var h, err := (a * cf + TWO63) / TWO64, cf * u - b;
    assert h * TWO64 <= a * cf + TWO63 < h * TWO64 + TWO64;
    ErrorBound(a, err, u);
    Expand(a, cf, u, b, err);
    MulLt(a * cf + TWO63, (h + 1) * TWO64, u);
    MulLe(h * TWO64, a * cf + TWO63, u);
    Distribute(a * cf, TWO63, u);
    Distribute((h - 1) * TWO64, TWO64, u);
  }

  lemma ErrorBound(a: Word, err: int, u: int)
    requires u > 0 && 0 - u <= 2 * err <= u
    ensures -(TWO63 * u) < a * err < TWO63 * u
  {
    MulLe(2 * err, u, a);
    MulLe(0 - u, 2 * err, a);
    MulLt(a, TWO64, u);
    assert 2 * err * a == 2 * (a * err);
    assert (0 - u) * a == -(a * u);
  }

  lemma Expand(a: int, cf: int, u: int, b: int, err: int)
    requires err == cf * u - b
    ensures a * b == a * cf * u - a * err
  {
  }

  lemma Distribute(x: int, y: int, c: int)
    ensures (x + y) * c == x * c + y * c
  {
  }

  /** Undoes the scaling: a bound on the scaled significand becomes a bound on the
      printed decimal.  The capital letters are the powers involved; the first two
      lemmas remove the powers of two, the last one those of ten. */
  lemma JoinBounds(digits: int, T: int, t: int, one: int, M: int, Z: int, Uc: int, B: int, Km: int, a: int)
    requires t > 0 && Z > 0 && Uc > 0 && Km > 0
    requires M * t <= digits * (T * one)
    requires a * B < M * Z * (Uc * Km)
    ensures a * B * t < digits * (T * one) * (Z * Uc * Km)
  {
    var c := Z * Uc * Km;
    MulLt(a * B, M * Z * (Uc * Km), t);
    MulLe(M * t, digits * (T * one), c);
    assert M * t * c == M * Z * (Uc * Km) * t;
  }

  lemma UnscaleBinary(digits: int, T: int, t: int, one: int, Z: int, Uc: int, Dc: int, Kp: int, Km: int,
                      a: int, Ue: int, De: int)
    requires Dc > 0 && Ue > 0
    requires a * (Kp * Dc) * t < digits * (T * one) * (Z * Uc * Km)
    requires one * Z * Uc * Ue == De * Dc
    ensures a * Kp * t * Ue < digits * T * Km * De
  {
    var l, r := a * Kp * t * Ue, digits * T * Km * De;
    MulLt(a * (Kp * Dc) * t, digits * (T * one) * (Z * Uc * Km), Ue);
    assert a * (Kp * Dc) * t * Ue == l * Dc;
    assert digits * (T * one) * (Z * Uc * Km) * Ue == digits * T * Km * (one * Z * Uc * Ue);
    assert digits * T * Km * (De * Dc) == r * Dc;
    CancelLt(l, r, Dc);
  }

  lemma UnscaleDecimal(digits: int, T: int, t: int, Kp: int, Km: int, a: int, Ue: int, De: int, Xp: int, Xm: int)
    requires t > 0 && Kp > 0 && Xm > 0
    requires a * Kp * t * Ue < digits * T * Km * De
    requires Xp * Kp * t == Xm * Km * T
    ensures a * (Ue * Xm) < digits * (Xp * De)
  {
    var l, r := a * Kp * t * Ue, digits * T * Km * De;
    MulLt(l, r, Xm);
    assert l * Xm == a * (Ue * Xm) * (Kp * t);
    assert r * Xm == digits * De * (Xm * Km * T);
    assert digits * De * (Xp * Kp * t) == digits * (Xp * De) * (Kp * t);
    CancelLt(a * (Ue * Xm), digits * (Xp * De), Kp * t);
  }

  /** The binary exponents of the boundary, the cached power and the product. */
  lemma BinaryExponents(e: int, ec: int)
    requires e + ec + 64 < 0
    ensures Pow(2, -(e + ec + 64)) * TWO64 * Up(2, ec) * Up(2, e) == Down(2, e) * Down(2, ec)
  {
    var g := e + ec;
    UpDownAdd(2, e, ec);
    UpDownAdd(2, g, 64);
    PowersOfTwo();
    var one := Pow(2, -(g + 64));
    assert Up(2, g) * TWO64 * one == Down(2, g) * 1 * 1;
    CombineExponents(Up(2, e), Down(2, e), Up(2, ec), Down(2, ec), Up(2, g), Down(2, g), one);
  }

  lemma CombineExponents(eu: int, ed: int, cu: int, cd: int, gu: int, gd: int, one: int)
    requires gu > 0 && gd > 0
    requires eu * cu * gd == ed * cd * gu && gu * TWO64 * one == gd
    ensures one * TWO64 * cu * eu == ed * cd
  {
    var l, r := one * TWO64 * cu * eu, ed * cd;
    assert l * gd == one * TWO64 * (eu * cu * gd);
    assert one * TWO64 * (ed * cd * gu) == r * (gu * TWO64 * one);
    if l < r { MulLt(l, r, gd); }
    if r < l { MulLt(r, l, gd); }
  }

  /** The printed decimal lies above the binary number a * 2^e whenever its digits
      lie above a * 2^e scaled by the cached power c and enlarged by one unit. */
  lemma PrintedAbove(digits: int, q: int, a: Word, e: int, c: CP.CachedPower, M: int)
    requires 0 <= c.f < TWO64 && CP.Accurate(c) && e + c.e + 64 < 0
    requires a * CP.Exact(c) < M * (TWO64 * CP.Unit(c))
    requires M * Down(10, q) <= digits * (Up(10, q) * Pow(2, -(e + c.e + 64)))
    ensures DecimalAbove(digits, q - c.k, a, e)
  {
    Printed(digits, q, a, e, c, M);
  }

  lemma PrintedBelow(digits: int, q: int, a: Word, e: int, c: CP.CachedPower, M: int)
    requires 0 <= c.f < TWO64 && CP.Accurate(c) && e + c.e + 64 < 0
    requires M * (TWO64 * CP.Unit(c)) < a * CP.Exact(c)
    requires digits * (Up(10, q) * Pow(2, -(e + c.e + 64))) <= M * Down(10, q)
    ensures DecimalBelow(digits, q - c.k, a, e)
  {
    Negate(a, CP.Exact(c));
    Negate(M, TWO64 * CP.Unit(c));
    Negate(M, Down(10, q));
    Negate(digits, Up(10, q) * Pow(2, -(e + c.e + 64)));
    Printed(0 - digits, q, 0 - a, e, c, 0 - M);
  }

  lemma Negate(x: int, y: int)
    ensures (0 - x) * y == 0 - x * y
  {
  }

  lemma Printed(digits: int, q: int, a: int, e: int, c: CP.CachedPower, M: int)
    requires e + c.e + 64 < 0
    requires a * CP.Exact(c) < M * (TWO64 * CP.Unit(c))
    requires M * Down(10, q) <= digits * (Up(10, q) * Pow(2, -(e + c.e + 64)))
    ensures DecimalAbove(digits, q - c.k, a, e)
  {
    var one := Pow(2, -(e + c.e + 64));
    var T, t, Uc, Dc := Up(10, q), Down(10, q), Up(2, c.e), Down(2, c.e);
    var Kp, Km, Ue, De := Up(10, c.k), Down(10, c.k), Up(2, e), Down(2, e);
    var x := q - c.k;
    assert M * (TWO64 * CP.Unit(c)) == M * TWO64 * (Uc * Km) by { MulAssoc(M, TWO64, Uc * Km); }
    JoinBounds(digits, T, t, one, M, TWO64, Uc, Kp * Dc, Km, a);
    assert one * TWO64 * Uc * Ue == De * Dc by { BinaryExponents(e, c.e); }
    UnscaleBinary(digits, T, t, one, TWO64, Uc, Dc, Kp, Km, a, Ue, De);
    assert Up(10, x) * Kp * t == Down(10, x) * Km * T by { UpDownAdd(10, x, c.k); assert x + c.k == q; }
    UnscaleDecimal(digits, T, t, Kp, Km, a, Ue, De, Up(10, x), Down(10, x));
    Negate(a, Ue * Down(10, x));
    Negate(digits, Up(10, x) * De);
  }

  // ------------------------------------------------------------------- grisu2

  /** The significands handed to digit generation, before the safety unit. */
  lemma ScaledBoundaries(f: int, closer: bool, s: nat, p: int, m: int, a: int, cf: int)
    requires 0 < f < 2 * HIDDEN && (closer ==> f == HIDDEN) && s >= 10
    requires p == Shl(2 * f + 1, s) && m == Shl(2 * f, s) && TWO63 <= p && TWO63 <= m
    requires a == (if closer then Shl(4 * f - 1, s - 1) else Shl(2 * f - 1, s))
    requires TWO63 <= cf < TWO64
    ensures var g := Pow(2, s) * cf;
      && g >= 1024 * TWO63
      && p * cf == m * cf + g
      && 2 * (p * cf - a * cf) == (if closer then 3 * g else 4 * g)
      && p * cf <= (if closer then 2 * HIDDEN + 1 else 4 * HIDDEN) * g
      && TWO63 * TWO63 <= m * cf
  {
    var b, h := Pow(2, s), Pow(2, s - 1);
    assert p == (2 * f + 1) * b by { ShlIsProduct(2 * f + 1, s); }
    assert m == 2 * f * b by { ShlIsProduct(2 * f, s); }
    assert a == (if closer then (4 * f - 1) * h else (2 * f - 1) * b) by {
      ShlIsProduct(2 * f - 1, s);
      ShlIsProduct(4 * f - 1, s - 1);
    }
    assert b == 2 * h && b >= 1024 by { assert Pow(2, 10) == 1024; PowMonotone(2, 10, s); }
    ScaledProducts(f, closer, b, h, p, m, a, cf);
  }

  lemma ScaledProducts(f: int, closer: bool, b: int, h: int, p: int, m: int, a: int, cf: int)
    requires 0 < f < 2 * HIDDEN && (closer ==> f == HIDDEN) && b == 2 * h && b >= 1024
    requires p == (2 * f + 1) * b && m == 2 * f * b && TWO63 <= m && TWO63 <= cf
    requires a == if closer then (4 * f - 1) * h else (2 * f - 1) * b
    ensures var g := b * cf;
      && g >= 1024 * TWO63
      && p * cf == m * cf + g
      && 2 * (p * cf - a * cf) == (if closer then 3 * g else 4 * g)
      && p * cf <= (if closer then 2 * HIDDEN + 1 else 4 * HIDDEN) * g
      && TWO63 * TWO63 <= m * cf
  {
    LowerProductBounds(b, m, cf);
    ProductsWith(f, b, h, cf);
    MulLe(2 * f + 1, if closer then 2 * HIDDEN + 1 else 4 * HIDDEN, b * cf);
  }

  lemma LowerProductBounds(b: int, m: int, cf: int)
    requires b >= 1024 && TWO63 <= m && TWO63 <= cf
    ensures b * cf >= 1024 * TWO63 && TWO63 * TWO63 <= m * cf
  {
    MulLe(1024, b, cf);
    MulLe(TWO63, m, cf);
    MulLe(TWO63, cf, TWO63);
  }

  lemma ProductsWith(f: int, b: int, h: int, cf: int)
    requires b == 2 * h
    ensures var g := b * cf;
      && (2 * f + 1) * b * cf == (2 * f + 1) * g
      && 2 * f * b * cf == (2 * f + 1) * g - g
      && (2 * f - 1) * b * cf == (2 * f + 1) * g - 2 * g
      && 2 * ((4 * f - 1) * h * cf) == 2 * (2 * f + 1) * g - 3 * g
  {
  }

  ghost predicate IsRounded(h: int, product: int) {
    h * TWO64 <= product + TWO63 < h * TWO64 + TWO64
  }

  /** After rounding and the safety units, M- <= w <= M+ still holds, M+ stays
      large, and the interval is wide enough for seventeen digits. */
  lemma SafeInterval(closer: bool, g: int, pc: int, mc: int, ac: int, hp: int, hm: int, ha: int)
    requires g >= 1024 * TWO63 && pc == mc + g && TWO63 * TWO63 <= mc
    requires 2 * (pc - ac) == (if closer then 3 * g else 4 * g)
    requires pc <= (if closer then 2 * HIDDEN + 1 else 4 * HIDDEN) * g
    requires IsRounded(hp, pc) && IsRounded(hm, mc) && IsRounded(ha, ac)
    ensures ha + 1 < hm < hp - 1 && hp - 1 >= TWO63 / 8
    ensures 10 * (hp - 1) <= 100000000000000000 * (hp - 1 - (ha + 1))
  {
    if closer {
      assert pc <= (2 * HIDDEN + 1) * g;
    } else {
      assert pc <= (4 * HIDDEN) * g;
    }
  }

  lemma MulIsRounded(x: Diyfp, y: Diyfp)
    ensures IsRounded(Mul(x, y).f, x.f * y.f)
  {
    DivBounds(x.f * y.f + TWO63);
  }

  lemma DivBounds(x: int)
    ensures (x / TWO64) * TWO64 <= x < (x / TWO64) * TWO64 + TWO64
  {
  }

  /** The exponents compute_boundaries produces are those the table covers. */
  lemma BoundaryExponentRange(v: Double, s: nat)
    requires v.Positive() && s == NormShift(2 * v.Significand() + 1)
    ensures -1137 <= v.Exponent() - 1 - s <= 960
  {
    var f := v.Significand();
    ShiftOfBoundary(f);
    if v.E > 0 && s > 10 {
      ShlIsProduct(2 * f + 1, s);
      assert Pow(2, 11) == 2048;
      PowMonotone(2, 11, s);
      MulLe(2048, Pow(2, s), 2 * f + 1);
      assert false;
    }
  }

  lemma ReadyForDigits(v: Double, b: Boundaries, c: Diyfp)
    requires v.Positive() && TWO63 <= c.f
    requires AreBoundaries(v.Significand(), v.Exponent(), v.LowerBoundaryIsCloser(), b,
                           NormShift(2 * v.Significand() + 1))
    ensures var low, high := Mul(b.minus, c).f + 1, Mul(b.plus, c).f - 1;
      && low < Mul(b.w, c).f < high && high >= TWO63 / 8
      && 10 * high <= 100000000000000000 * (high - low)
  {
    var s := NormShift(2 * v.Significand() + 1);
    ScaledBoundaries(v.Significand(), v.LowerBoundaryIsCloser(), s, b.plus.f, b.w.f, b.minus.f, c.f);
    MulIsRounded(b.w, c);
    MulIsRounded(b.minus, c);
    MulIsRounded(b.plus, c);
    SafeInterval(v.LowerBoundaryIsCloser(), Pow(2, s) * c.f, b.plus.f * c.f, b.w.f * c.f, b.minus.f * c.f,
                 Mul(b.plus, c).f, Mul(b.w, c).f, Mul(b.minus, c).f);
  }

  /** Scales the boundaries, gives up one unit on each side and generates digits. */
  method Grisu2Scaled(buf: array<char>, b: Boundaries, ghost v: Double)
    returns (len: nat, decimalExponent: int)
    requires buf.Length >= 17 && v.Positive()
    requires AreBoundaries(v.Significand(), v.Exponent(), v.LowerBoundaryIsCloser(), b,
                           NormShift(2 * v.Significand() + 1))
    modifies buf
    ensures 1 <= len <= 17 && IsDigits(buf[..len]) && buf[0] != '0' && buf[len - 1] != '0'
    ensures PrintedBetween(ValueOf(buf[..len]), decimalExponent, b)
  {
    BoundaryExponentRange(v, NormShift(2 * v.Significand() + 1));
    var cached := CP.CachedPowerFor(b.plus.e);
    CP.AccurateEntry(CP.IndexFor(b.plus.e));
    var c := Diyfp(cached.f, cached.e);
    ReadyForDigits(v, b, c);
    var w, wMinus, wPlus := Mul(b.w, c), Mul(b.minus, c), Mul(b.plus, c);
    var mMinus := Diyfp(wMinus.f + 1, wMinus.e);
    var mPlus := Diyfp(wPlus.f - 1, wPlus.e);
    UnitBounds(-mPlus.e);
    len, decimalExponent := Grisu2DigitGen(buf, -cached.k, mMinus, w, mPlus);
    FinishedIsPrinted(buf[..len], decimalExponent, b, cached, mMinus.f, w.f, mPlus.f);
  }

  lemma FinishedIsPrinted(s: seq<char>, x: int, b: Boundaries, c: CP.CachedPower, low: int, centre: int, high: int)
    requires b.minus.e == b.plus.e && b.plus.e + c.e + 64 < 0
    requires 0 <= c.f < TWO64 && CP.Accurate(c)
    requires low == (b.minus.f * c.f + TWO63) / TWO64 + 1 && high == (b.plus.f * c.f + TWO63) / TWO64 - 1
    requires var q, one := x + c.k, Pow(2, -(b.plus.e + c.e + 64));
      Finished(s, Up(10, q) * one, low * Down(10, q), centre * Down(10, q), high * Down(10, q))
    ensures 1 <= |s| <= 17 && IsDigits(s) && s[0] != '0' && s[|s| - 1] != '0'
    ensures PrintedBetween(ValueOf(s), x, b)
  {
    PrintedBetweenBoundaries(ValueOf(s), x, b, c, low, high);
  }

  ghost predicate PrintedBetween(digits: int, x: int, b: Boundaries) {
    DecimalAbove(digits, x, b.minus.f, b.minus.e) && DecimalBelow(digits, x, b.plus.f, b.plus.e)
  }

  lemma PrintedBetweenBoundaries(digits: int, x: int, b: Boundaries, c: CP.CachedPower, low: int, high: int)
    requires b.minus.e == b.plus.e && b.plus.e + c.e + 64 < 0
    requires 0 <= c.f < TWO64 && CP.Accurate(c)
    requires low == (b.minus.f * c.f + TWO63) / TWO64 + 1 && high == (b.plus.f * c.f + TWO63) / TWO64 - 1
    requires var q, one := x + c.k, Pow(2, -(b.plus.e + c.e + 64));
      low * Down(10, q) <= digits * (Up(10, q) * one) <= high * Down(10, q)
    ensures PrintedBetween(digits, x, b)
  {
    ScaledWithinOneUnit(b.minus.f, c.f, CP.Unit(c), CP.Exact(c));
    ScaledWithinOneUnit(b.plus.f, c.f, CP.Unit(c), CP.Exact(c));
    MulAssoc(low, TWO64, CP.Unit(c));
    MulAssoc(high, TWO64, CP.Unit(c));
    PrintedAbove(digits, x + c.k, b.minus.f, b.minus.e, c, low);
    PrintedBelow(digits, x + c.k, b.plus.f, b.plus.e, c, high);
  }

  /** Shifting a common power of two back into the exponent. */
  lemma BelowNormalized(digits: int, x: int, m: int, e: int, d: nat)
    requires DecimalBelow(digits, x, m * Pow(2, d), e)
    ensures DecimalBelow(digits, x, m, e + d)
  {
    UpDownAdd(2, e, d);
    ShiftBack(digits, Up(10, x), Down(10, x), m, Pow(2, d), Up(2, e), Down(2, e), Up(2, e + d), Down(2, e + d));
  }

  lemma ShiftBack(d: int, xu: int, xd: int, m: int, p: int, eu: int, ed: int, eu': int, ed': int)
    requires ed > 0 && ed' > 0
    requires d * (xu * ed) < m * p * (eu * xd) && eu * p * ed' == ed * 1 * eu'
    ensures d * (xu * ed') < m * (eu' * xd)
  {
    MulLt(d * (xu * ed), m * p * (eu * xd), ed');
    assert d * (xu * ed) * ed' == d * (xu * ed') * ed;
    assert m * p * (eu * xd) * ed' == m * xd * (eu * p * ed');
    assert m * xd * (ed * 1 * eu') == m * (eu' * xd) * ed;
    CancelLt(d * (xu * ed'), m * (eu' * xd), ed);
  }

  lemma BelowShifted(digits: int, x: int, m: nat, e: int, d: nat)
    requires DecimalBelow(digits, x, Shl(m, d), e)
    ensures DecimalBelow(digits, x, m, e + d)
  {
    ShlIsProduct(m, d);
    BelowNormalized(digits, x, m, e, d);
  }

  lemma AboveShifted(digits: int, x: int, m: nat, e: int, d: nat)
    requires DecimalAbove(digits, x, Shl(m, d), e)
    ensures DecimalAbove(digits, x, m, e + d)
  {
    ShlIsProduct(m, d);
    Negate(m, Pow(2, d));
    BelowNormalized(-digits, x, 0 - m, e, d);
  }

  lemma BoundariesOfDouble(digits: int, x: int, v: Double, b: Boundaries)
    requires v.Positive() && PrintedBetween(digits, x, b)
    requires AreBoundaries(v.Significand(), v.Exponent(), v.LowerBoundaryIsCloser(), b,
                           NormShift(2 * v.Significand() + 1))
    ensures BetweenBoundaries(digits, x, v)
  {
    var f, e, s := v.Significand(), v.Exponent(), NormShift(2 * v.Significand() + 1);
    var e' := e - 1 - s;
    assert e' + s == e - 1 && e' + (s - 1) == e - 2;
    BelowShifted(digits, x, 2 * f + 1, e', s);
    if v.LowerBoundaryIsCloser() {
      AboveShifted(digits, x, 4 * f - 1, e', s - 1);
    } else {
      AboveShifted(digits, x, 2 * f - 1, e', s);
    }
  }

  /** Prints a positive finite double: at most seventeen digits, without leading or
      trailing zero, from which every correct reader recovers the same double. */
  method Grisu2(buf: array<char>, v: Double) returns (len: nat, decimalExponent: int)
    requires buf.Length >= 17 && v.Positive()
    modifies buf
    ensures 1 <= len <= 17 && IsDigits(buf[..len]) && buf[0] != '0' && buf[len - 1] != '0'
    ensures BetweenBoundaries(ValueOf(buf[..len]), decimalExponent, v)
    ensures ReadsBackAs(ValueOf(buf[..len]), decimalExponent, v)
  {
    var b := ComputeBoundaries(v);
    len, decimalExponent := Grisu2Scaled(buf, b, v);
    BoundariesOfDouble(ValueOf(buf[..len]), decimalExponent, v, b);
    BoundariesReadBack(ValueOf(buf[..len]), decimalExponent, v);
  }
}
