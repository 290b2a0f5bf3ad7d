/** When operator== is transitive. */
module JsonEquality {
  import opened Powers
  import opened Diyfps
  import opened Jsons

  /** Every integer inside is representable as a double, and the unsigned ones also as
      a signed integer. */
  predicate Exact(j: Json) {
    match j
    case Integer(i) => NearestDouble(i) == i
    case Unsigned(u) => u < TWO63 && NearestDouble(u) == u
    case Array(x) => forall i :: 0 <= i < |x| ==> Exact(x[i])
    case Object(x) => forall k :: k in x ==> Exact(x[k])
    case _ => true
  }

  // --------------------------------------------------- a double has one form

  /** One double at most has a given value, and a double at most one value. */
  lemma ValueUnique(x: Float, m: int, n: int)
    requires HasValue(x, m) && HasValue(x, n)
    ensures m == n
  {
    var d := Down(2, x.magnitude.Exponent());
    if m < n { MulLt(m, n, d); }
    if n < m { MulLt(n, m, d); }
  }

  /** The same value in two forms, with the powers of two written out. */
  lemma SameScale(a: nat, au: int, ad: int, b: nat, bu: int, bd: int, n: int, p: int)
    requires au > 0 && ad > 0 && bu > 0 && bd > 0 && p > 0
    requires a * au == n * ad && b * bu == n * bd
    requires au * p * bd == ad * 1 * bu
    ensures a == b * p
  {
    // a * au * bd == n * ad * bd == b * bu * ad == b * p * au * bd
    assert a * (au * bd) == n * ad * bd;
    assert b * p * (au * bd) == b * (au * p * bd) == b * bu * ad == n * bd * ad;
    if a < b * p { MulLt(a, b * p, au * bd); }
    if b * p < a { MulLt(b * p, a, au * bd); }
  }

  lemma ForwardOrder(a: FiniteDouble, b: FiniteDouble, n: nat)
    requires a.Significand() * Up(2, a.Exponent()) == n * Down(2, a.Exponent())
    requires b.Significand() * Up(2, b.Exponent()) == n * Down(2, b.Exponent())
    requires a.Exponent() <= b.Exponent()
    ensures a.Exponent() == b.Exponent() && a.Significand() == b.Significand()
  {
    var d := b.Exponent() - a.Exponent();
    UpDownAdd(2, a.Exponent(), d);
    SameScale(a.Significand(), Up(2, a.Exponent()), Down(2, a.Exponent()),
              b.Significand(), Up(2, b.Exponent()), Down(2, b.Exponent()), n, Pow(2, d));
    if d > 0 {
      PowMonotone(2, 1, d);
      MulLe(2, Pow(2, d), b.Significand());
    } else {
      assert Pow(2, d) == 1;
    }
  }

  lemma MagnitudeUnique(a: FiniteDouble, b: FiniteDouble, n: nat)
    requires a.Significand() * Up(2, a.Exponent()) == n * Down(2, a.Exponent())
    requires b.Significand() * Up(2, b.Exponent()) == n * Down(2, b.Exponent())
    ensures a == b
  {
    if a.Exponent() <= b.Exponent() {
      ForwardOrder(a, b, n);
    } else {
      ForwardOrder(b, a, n);
    }
    SameFields(a, b);
  }

  lemma ZeroForm(a: FiniteDouble)
    requires a.Significand() * Up(2, a.Exponent()) == 0
    ensures a == Double(0, 0)
  {
    if a.Significand() > 0 {
      MulLe(1, a.Significand(), Up(2, a.Exponent()));
    }
  }

  lemma SameFields(a: FiniteDouble, b: FiniteDouble)
    requires a.Exponent() == b.Exponent() && a.Significand() == b.Significand()
    ensures a == b
  {
  }

  /** Two doubles with the same integer value are equal. */
  lemma FloatsOf(x: Float, y: Float, n: int)
    requires HasValue(x, n) && HasValue(y, n)
    ensures FloatEqual(x, y)
  {
    var a, b := x.magnitude, y.magnitude;
    SignOf(x, n);
    SignOf(y, n);
    MagnitudeUnique(a, b, if n < 0 then -n else n);
  }

  lemma SignOf(x: Float, n: int)
    requires HasValue(x, n)
    ensures var m := if n < 0 then -n else n;
      x.magnitude.Significand() * Up(2, x.magnitude.Exponent()) == m * Down(2, x.magnitude.Exponent())
    ensures n != 0 ==> (x.negative <==> n < 0)
    ensures n == 0 ==> x.magnitude.Significand() == 0
  {
    var v, d := x.magnitude.Significand() * Up(2, x.magnitude.Exponent()), Down(2, x.magnitude.Exponent());
    if n > 0 { MulLe(1, n, d); }
    if n < 0 { MulLe(n, -1, d); }
    MulLe(0, x.magnitude.Significand(), Up(2, x.magnitude.Exponent()));
    assert (-n) * d == -(n * d);
    if n == 0 { ZeroForm(x.magnitude); }
  }

  lemma ValueOfEqual(x: Float, y: Float, n: int)
    requires FloatEqual(x, y) && HasValue(y, n)
    ensures HasValue(x, n)
  {
  }

  // --------------------------------------------- what equality says of values

  /** No doubles and no unsigned numbers; or else, as in parsed text without -0, no doubles,
      unsigned numbers below 2^63, and signed ones only below zero.  Nothing discarded. */
  predicate Plain(j: Json, parsed: bool) {
    match j
    case Integer(i) => parsed ==> i < 0
    case Unsigned(u) => parsed && u < TWO63
    case Floating(_) => false
    case Discarded => false
    case Array(x) => forall i :: 0 <= i < |x| ==> Plain(x[i], parsed)
    case Object(x) => forall k :: k in x ==> Plain(x[k], parsed)
    case _ => true
  }

  /** Among either kind of values, equal ones are identical. */
  lemma {:induction false} EqualIsIdentity(a: Json, b: Json, parsed: bool)
    requires Plain(a, parsed) && Plain(b, parsed)
    ensures Equal(a, b) <==> a == b
    decreases b
  {
    match (a, b)
    case (Array(x), Array(y)) =>
      if |x| == |y| {
        forall i | 0 <= i < |x| ensures Equal(x[i], y[i]) <==> x[i] == y[i] { EqualIsIdentity(x[i], y[i], parsed); }
      }
    case (Object(x), Object(y)) =>
      forall k | k in x && k in y ensures Equal(x[k], y[k]) <==> x[k] == y[k] {
        EqualIsIdentity(x[k], y[k], parsed);
      }
      assert Equal(a, b) ==> x == y;
    case _ =>
  }

  /** Of the nine kinds only the three of numbers are ever equal across kinds, and
      containers are equal exactly if their children are. */
  lemma EqualByKind(a: Json, b: Json)
    ensures Equal(a, b) ==> SameKind(a, b) || (IsNumber(a) && IsNumber(b))
    ensures a.Array? && b.Array? ==> (Equal(a, b) <==>
      |a.elements| == |b.elements| && forall i :: 0 <= i < |a.elements| ==> Equal(a.elements[i], b.elements[i]))
    ensures a.Object? && b.Object? ==> (Equal(a, b) <==>
      a.members.Keys == b.members.Keys && forall k :: k in a.members ==> Equal(a.members[k], b.members[k]))
  {
  }

  predicate SameKind(a: Json, b: Json) {
    && (a.Null? <==> b.Null?) && (a.Boolean? <==> b.Boolean?) && (a.Str? <==> b.Str?)
    && (a.Binary? <==> b.Binary?) && (a.Array? <==> b.Array?) && (a.Object? <==> b.Object?)
    && (IsNumber(a) <==> IsNumber(b)) && !a.Discarded? && !b.Discarded?
  }

  predicate IsNumber(j: Json) {
    IsInteger(j) || j.Floating?
  }

  /** Two finite doubles denote the same real number, with the denominators cleared. */
  predicate SameReal(x: Float, y: Float)
    requires x.Finite? && y.Finite?
  {
    var e, d := x.magnitude.Exponent(), y.magnitude.Exponent();
    (if x.negative then -1 else 1) * x.magnitude.Significand() * (Up(2, e) * Down(2, d))
      == (if y.negative then -1 else 1) * y.magnitude.Significand() * (Up(2, d) * Down(2, e))
  }

  lemma OrderedMagnitudes(a: FiniteDouble, b: FiniteDouble)
    requires a.Exponent() <= b.Exponent()
    requires a.Significand() * (Up(2, a.Exponent()) * Down(2, b.Exponent()))
      == b.Significand() * (Up(2, b.Exponent()) * Down(2, a.Exponent()))
    ensures a == b
  {
    var d, au, ad, bu, bd := b.Exponent() - a.Exponent(), Up(2, a.Exponent()), Down(2, a.Exponent()),
      Up(2, b.Exponent()), Down(2, b.Exponent());
    UpDownAdd(2, a.Exponent(), d);
    ScaleApart(a.Significand(), au, ad, b.Significand(), bu, bd, Pow(2, d));
    if d > 0 {
      PowMonotone(2, 1, d);
      MulLe(2, Pow(2, d), b.Significand());
      assert false;
    }
    assert Pow(2, 0) == 1;
    SameFields(a, b);
  }

  lemma ScaleApart(a: nat, au: int, ad: int, b: nat, bu: int, bd: int, p: int)
    requires au > 0 && bd > 0 && p > 0 && a * (au * bd) == b * (bu * ad) && au * p * bd == ad * 1 * bu
    ensures a == b * p
  {
    assert b * p * (au * bd) == b * (au * p * bd) == b * (bu * ad);
    if a < b * p { MulLt(a, b * p, au * bd); }
    if b * p < a { MulLt(b * p, a, au * bd); }
  }

  lemma SignedProducts(s: int, a: nat, u: int, t: int, b: nat, v: int)
    requires (s == 1 || s == -1) && (t == 1 || t == -1) && u > 0 && v > 0
    ensures s * a * u == t * b * v <==> a * u == b * v && (s == t || a == 0)
  {
    MulLe(0, a, u);
    MulLe(0, b, v);
    if a > 0 { MulLe(1, a, u); }
    if b > 0 { MulLe(1, b, v); }
  }

  /** operator== on doubles is equality of the reals they denote; an infinity equals
      itself, NaN nothing. */
  lemma FloatsByValue(x: Float, y: Float)
    ensures Equal(Floating(x), Floating(y)) <==> match (x, y)
      case (Finite(_, _), Finite(_, _)) => SameReal(x, y)
      case (Infinity(m), Infinity(n)) => m == n
      case _ => false
  {
    if x.Finite? && y.Finite? {
      var a, b := x.magnitude, y.magnitude;
      SignedProducts(if x.negative then -1 else 1, a.Significand(), Up(2, a.Exponent()) * Down(2, b.Exponent()),
                     if y.negative then -1 else 1, b.Significand(), Up(2, b.Exponent()) * Down(2, a.Exponent()));
      if a.Significand() * (Up(2, a.Exponent()) * Down(2, b.Exponent()))
        == b.Significand() * (Up(2, b.Exponent()) * Down(2, a.Exponent())) {
        if a.Exponent() <= b.Exponent() { OrderedMagnitudes(a, b); } else { OrderedMagnitudes(b, a); }
      }
    }
  }

  /** An unsigned number equals a signed one modulo 2^64, and itself only below 2^63. */
  lemma IntegersByValue(u: Word, i: Int64)
    ensures Equal(Unsigned(u), Integer(i)) <==> (u - i) % TWO64 == 0
    ensures u < TWO63 ==> (Equal(Unsigned(u), Integer(i)) <==> u == i)
    ensures u >= TWO63 ==> (Equal(Unsigned(u), Integer(i)) <==> u - TWO64 == i)
  {
  }

  /** A double equals the integers that are rounded to it, among them itself if it is one. */
  lemma DoublesByValue(j: Json, x: Float)
    requires IsInteger(j)
    ensures Equal(j, Floating(x)) <==> HasValue(x, NearestDouble(IntegerOf(j)))
    ensures Equal(Floating(x), j) <==> HasValue(x, NearestDouble(IntegerOf(j)))
  {
  }

  // ---------------------------------------------------------------- rounding

  function Gap(m: int, n: int): (d: nat) {
    if m < n then n - m else m - n
  }

  /** The rounded value is a double, no other is nearer, and of two equally near ones it is
      the one with the even significand. */
  lemma NearestIsNearest(n: int, q: nat, e: nat, negative: bool)
    requires -TWO64 <= n <= TWO64 && q <= 2 * HIDDEN
    ensures var m := if negative then 0 - q * Pow(2, e) else q * Pow(2, e);
      Gap(NearestDouble(n), n) <= Gap(m, n)
  {
    var k: nat, m := if n < 0 then -n else n, q * Pow(2, e);
    MulLe(0, q, Pow(2, e));
    RoundedIsNearest(k, 1, 0, q, e);
  }

  /** Within the unit at hand: half a unit away at most, and even in the middle. */
  lemma RoundedInUnit(n: nat, unit: nat)
    requires unit > 0
    ensures var q := n / unit + RoundUp(n / unit, n % unit, unit);
      && 2 * Gap(q * unit, n) <= unit
      && (2 * Gap(q * unit, n) == unit ==> q % 2 == 0)
      && forall t: nat :: Gap(q * unit, n) <= Gap(Times(t, unit), n)
  {
    var c, r := n / unit, n % unit;
    var q := c + RoundUp(c, r, unit);
    assert n == c * unit + r;
    assert (c + 1) * unit == c * unit + unit;
    forall t: nat ensures Gap(q * unit, n) <= Gap(Times(t, unit), n) {
      if t <= c { MulLe(t, c, unit); } else { MulLe(c + 1, t, unit); }
    }
  }

  function Times(t: nat, unit: nat): nat {
    t * unit
  }

  lemma {:induction false} RoundedIsNearest(n: nat, unit: nat, k: nat, q: nat, e: nat)
    requires n <= TWO64 && k <= 12 && unit == Pow(2, k) && q <= 2 * HIDDEN
    requires k > 0 ==> HIDDEN * unit <= n
    ensures Gap(RoundedToUnit(n, unit), n) <= Gap(q * Pow(2, e), n)
    decreases 12 - k
  {
    if n / unit < 2 * HIDDEN {
      NearestInUnit(n, unit, k, q, e);
    } else {
      MoreThan53Bits(n, unit, k);
      RoundedIsNearest(n, 2 * unit, k + 1, q, e);
    }
  }

  lemma MoreThan53Bits(n: nat, unit: nat, k: nat)
    requires n <= TWO64 && k <= 12 && unit == Pow(2, k) && n / unit >= 2 * HIDDEN
    ensures HIDDEN * (2 * unit) <= n && k < 12
  {
    assert Pow(2, 12) == 4096;
    assert n == n / unit * unit + n % unit;
    MulLe(2 * HIDDEN, n / unit, unit);
    MulAssoc(HIDDEN, 2, unit);
  }

  lemma NearestInUnit(n: nat, unit: nat, k: nat, q: nat, e: nat)
    requires unit == Pow(2, k) && q <= 2 * HIDDEN && n / unit < 2 * HIDDEN && (k > 0 ==> HIDDEN * unit <= n)
    ensures Gap(RoundedToUnit(n, unit), n) <= Gap(q * Pow(2, e), n)
  {
    var m := q * Pow(2, e);
    if e >= k {
      var p := Pow(2, e - k);
      PowAdd(2, e - k, k);
      MulAssoc(q, p, unit);
      InUnits(n, unit, m, q * p);
    } else {
      FinerIsBelow(q, e, unit, k);
      InUnits(n, unit, HIDDEN * unit, HIDDEN);
    }
  }

  lemma InUnits(n: nat, unit: nat, m: nat, t: nat)
    requires unit > 0 && m == t * unit && n / unit < 2 * HIDDEN
    ensures Gap(RoundedToUnit(n, unit), n) <= Gap(m, n)
  {
    RoundedInUnit(n, unit);
    assert m == Times(t, unit);
  }

  /** A double with a finer unit is at most 2^53 of half units. */
  lemma FinerIsBelow(q: nat, e: nat, unit: nat, k: nat)
    requires q <= 2 * HIDDEN && e < k && unit == Pow(2, k)
    ensures q * Pow(2, e) <= HIDDEN * unit
  {
    var half := Pow(2, k - 1);
    PowMonotone(2, e, k - 1);
    MulLe(Pow(2, e), half, q);
    MulLe(q, 2 * HIDDEN, half);
    MulAssoc(HIDDEN, 2, half);
  }

  /** Ties go to an even significand. */
  lemma {:induction false} TiesToEven(n: nat, unit: nat, k: nat) returns (q: nat, e: nat)
    requires n <= TWO64 && k <= 12 && unit == Pow(2, k)
    ensures e <= 12 && q <= 2 * HIDDEN && RoundedToUnit(n, unit) == q * Pow(2, e)
    ensures 2 * Gap(q * Pow(2, e), n) <= Pow(2, e)
    ensures 2 * Gap(q * Pow(2, e), n) == Pow(2, e) ==> q % 2 == 0
    decreases 12 - k
  {
    assert Pow(2, 12) == 4096;
    if n / unit < 2 * HIDDEN {
      RoundedInUnit(n, unit);
      q, e := n / unit + RoundUp(n / unit, n % unit, unit), k;
    } else {
      q, e := TiesToEven(n, 2 * unit, k + 1);
    }
  }

  // ----------------------------------------------------------- transitivity

  predicate IsInteger(j: Json) {
    j.Integer? || j.Unsigned?
  }

  function IntegerOf(j: Json): int
    requires IsInteger(j)
  {
    if j.Integer? then j.i else j.u
  }

  lemma NumbersTransitive(a: Json, b: Json, c: Json)
    requires (IsInteger(a) || a.Floating?) && (IsInteger(b) || b.Floating?) && (IsInteger(c) || c.Floating?)
    requires Exact(a) && Exact(b) && Exact(c) && Equal(a, b) && Equal(b, c)
    ensures Equal(a, c)
  {
    if IsInteger(b) {
      assert IsInteger(a) ==> IntegerOf(a) == IntegerOf(b);
      assert IsInteger(c) ==> IntegerOf(c) == IntegerOf(b);
      if a.Floating? && c.Floating? {
        FloatsOf(a.x, c.x, IntegerOf(b));
      }
    } else if IsInteger(a) && IsInteger(c) {
      ValueUnique(b.x, IntegerOf(a), IntegerOf(c));
    } else if IsInteger(a) {
      ValueOfEqual(c.x, b.x, IntegerOf(a));
    } else if IsInteger(c) {
      ValueOfEqual(a.x, b.x, IntegerOf(c));
    }
  }

  /** An integer as it is compared with one of the other signedness. */
  function SignedOf(j: Json): int
    requires IsInteger(j)
  {
    if j.Integer? then j.i else ToSigned(j.u)
  }

  /** A chain of two equalities closes: integers on both sides of a double have the same
      signed form, and an integer in the middle is rounded like one facing a double. */
  predicate Closes(a: Json, b: Json, c: Json) {
    match b
    case Array(y) =>
      a.Array? && c.Array? && |a.elements| == |y| == |c.elements|
      && forall i :: 0 <= i < |y| ==> Closes(a.elements[i], y[i], c.elements[i])
    case Object(y) =>
      a.Object? && c.Object? && a.members.Keys == y.Keys == c.members.Keys
      && forall k :: k in y ==> Closes(a.members[k], y[k], c.members[k])
    case Floating(_) => IsInteger(a) && IsInteger(c) ==> SignedOf(a) == SignedOf(c)
    case Integer(_) => ClosesAround(a, b, c)
    case Unsigned(_) => ClosesAround(a, b, c)
    case _ => true
  }

  predicate ClosesAround(a: Json, b: Json, c: Json)
    requires IsInteger(b)
  {
    && (IsInteger(a) && c.Floating? ==> NearestDouble(IntegerOf(a)) == NearestDouble(IntegerOf(b)))
    && (a.Floating? && IsInteger(c) ==> NearestDouble(IntegerOf(c)) == NearestDouble(IntegerOf(b)))
  }

  lemma NumbersClose(a: Json, b: Json, c: Json)
    requires (IsInteger(a) || a.Floating?) && (IsInteger(b) || b.Floating?) && (IsInteger(c) || c.Floating?)
    requires Equal(a, b) && Equal(b, c)
    ensures Equal(a, c) <==> Closes(a, b, c)
  {
    if IsInteger(b) {
      if a.Floating? && c.Floating? {
        FloatsOf(a.x, c.x, NearestDouble(IntegerOf(b)));
      } else if a.Floating? && Equal(a, c) {
        ValueUnique(a.x, NearestDouble(IntegerOf(c)), NearestDouble(IntegerOf(b)));
      } else if c.Floating? && Equal(a, c) {
        ValueUnique(c.x, NearestDouble(IntegerOf(a)), NearestDouble(IntegerOf(b)));
      }
    } else if IsInteger(a) && c.Floating? {
      ValueOfEqual(c.x, b.x, NearestDouble(IntegerOf(a)));
    } else if a.Floating? && IsInteger(c) {
      ValueOfEqual(a.x, b.x, NearestDouble(IntegerOf(c)));
    }
  }

  /** For all values, two equalities in a row give a third exactly if the chain closes. */
  lemma {:induction false} EqualTransitiveIff(a: Json, b: Json, c: Json)
    requires Equal(a, b) && Equal(b, c)
    ensures Equal(a, c) <==> Closes(a, b, c)
    decreases b
  {
    if b.Array? {
      var x, y, z := a.elements, b.elements, c.elements;
      forall i | 0 <= i < |y| ensures Equal(x[i], z[i]) <==> Closes(x[i], y[i], z[i]) {
        EqualTransitiveIff(x[i], y[i], z[i]);
      }
    } else if b.Object? {
      var x, y, z := a.members, b.members, c.members;
      forall k | k in y ensures Equal(x[k], z[k]) <==> Closes(x[k], y[k], z[k]) {
        EqualTransitiveIff(x[k], y[k], z[k]);
      }
    } else if IsInteger(b) || b.Floating? {
      NumbersClose(a, b, c);
    }
  }

  /** Among values whose integers are exact, equality is transitive. */
  lemma {:induction false} EqualTransitive(a: Json, b: Json, c: Json)
    requires Exact(a) && Exact(b) && Exact(c) && Equal(a, b) && Equal(b, c)
    ensures Equal(a, c)
    decreases b
  {
    if b.Array? {
      var x, y, z := a.elements, b.elements, c.elements;
      forall i | 0 <= i < |x| ensures Equal(x[i], z[i]) {
        EqualTransitive(x[i], y[i], z[i]);
      }
    } else if b.Object? {
      var x, y, z := a.members, b.members, c.members;
      forall k | k in y ensures Equal(x[k], z[k]) {
        EqualTransitive(x[k], y[k], z[k]);
      }
    } else if IsInteger(b) || b.Floating? {
      NumbersTransitive(a, b, c);
    }
  }

  // ----------------------------------------------- outside, it always fails

  /** Rounding gives a multiple of a power of two that 53 bits can hold. */
  lemma {:induction false} RoundedForm(n: nat, unit: nat, k: nat) returns (q: nat, e: nat)
    requires n <= TWO64 && k <= 12 && unit == Pow(2, k)
    ensures RoundedToUnit(n, unit) == q * Pow(2, e) && q <= 2 * HIDDEN && e <= 12
    decreases 12 - k
  {
    assert Pow(2, 12) == 4096;
    if n / unit < 2 * HIDDEN {
      q, e := n / unit + RoundUp(n / unit, n % unit, unit), k;
    } else {
      q, e := RoundedForm(n, 2 * unit, k + 1);
    }
  }

  /** Such a multiple is not rounded again. */
  lemma {:induction false} KeptWhenRounded(q: nat, e: nat, unit: nat, k: nat)
    requires q < 2 * HIDDEN && k <= e && unit == Pow(2, k)
    ensures RoundedToUnit(q * Pow(2, e), unit) == q * Pow(2, e)
    decreases e - k
  {
    var n, p := q * Pow(2, e), Pow(2, e - k);
    PowAdd(2, e - k, k);
    MulAssoc(q, p, unit);
    DivisionUnique(n / unit, n % unit, q * p, 0, unit);
    if n / unit >= 2 * HIDDEN {
      assert k < e;
      KeptWhenRounded(q, e, 2 * unit, k + 1);
    }
  }

  lemma RoundedTwice(n: nat)
    requires n <= TWO64
    ensures RoundedToUnit(RoundedToUnit(n, 1), 1) == RoundedToUnit(n, 1)
  {
    var q, e := RoundedForm(n, 1, 0);
    FullQuotient(q, e);
    KeptWhenRounded(if q == 2 * HIDDEN then HIDDEN else q, if q == 2 * HIDDEN then e + 1 else e, 1, 0);
  }

  lemma FullQuotient(q: nat, e: nat)
    ensures q == 2 * HIDDEN ==> q * Pow(2, e) == HIDDEN * Pow(2, e + 1)
  {
    MulAssoc(HIDDEN, 2, Pow(2, e));
  }

  lemma {:induction false} RoundedAtMost(n: nat, unit: nat, k: nat)
    requires n <= TWO63 && k <= 12 && unit == Pow(2, k)
    ensures RoundedToUnit(n, unit) <= TWO63
    decreases 12 - k
  {
    assert Pow(2, 12) == 4096;
    if n / unit < 2 * HIDDEN {
      PowAdd(2, 63 - k, k);
      PowersOfTwo();
      RoundedBelow(n, unit, Pow(2, 63 - k));
    } else {
      RoundedAtMost(n, 2 * unit, k + 1);
    }
  }

  lemma RoundedBelow(n: nat, unit: nat, c: nat)
    requires unit > 0 && n <= c * unit
    ensures (n / unit + RoundUp(n / unit, n % unit, unit)) * unit <= c * unit
  {
    var q, r := n / unit, n % unit;
    assert n == q * unit + r;
    if c < q {
      MulLe(c + 1, q, unit);
    } else if c == q {
      assert r == 0;
    } else {
      MulLe(q + RoundUp(q, r, unit), c, unit);
    }
  }

  /** The double with value q * 2^e. */
  lemma {:induction false} DoubleFor(q: nat, e: int) returns (d: FiniteDouble)
    requires 0 < q <= 2 * HIDDEN && e <= 12 && Down(2, e) <= q
    ensures d.Significand() * Up(2, d.Exponent()) * Down(2, e) == q * Up(2, e) * Down(2, d.Exponent())
    decreases 2 * HIDDEN - q
  {
    if e < -53 {
      PowMonotone(2, 54, -e);
      assert Pow(2, 54) == 4 * HIDDEN by { FiftyFour(); }
      assert false;
    }
    if q == 2 * HIDDEN {
      d := Double(e + 1 + BIAS, 0);
      UpDownAdd(2, e, 1);
      Carried(HIDDEN, Up(2, e + 1), Down(2, e + 1), Up(2, e), Down(2, e));
    } else if q >= HIDDEN {
      d := Double(e + BIAS, q - HIDDEN);
    } else {
      UpDownAdd(2, e - 1, 1);
      HalvedDown(e, q);
      d := DoubleFor(2 * q, e - 1);
      Halved(q, d.Significand() * Up(2, d.Exponent()), Down(2, d.Exponent()),
             Up(2, e), Down(2, e), Up(2, e - 1), Down(2, e - 1));
    }
  }

  lemma FiftyFour()
    ensures Pow(2, 54) == 4 * HIDDEN && Pow(2, 52) == HIDDEN
  {
    PowersOfTwo();
    PowAdd(2, 52, 8);
    assert Pow(2, 8) == 256;
    PowAdd(2, 52, 2);
    assert Pow(2, 2) == 4;
  }

  lemma HalvedDown(e: int, q: nat)
    requires q > 0 && Down(2, e) <= q
    ensures Down(2, e - 1) <= 2 * q
  {
  }

  lemma Carried(h: int, nu: int, nd: int, u: int, d: int)
    requires u * 2 * nd == d * 1 * nu
    ensures h * nu * d == 2 * h * u * nd
  {
    assert h * (u * 2 * nd) == h * (d * 1 * nu);
  }

  lemma Halved(q: int, v: int, vd: int, u: int, d: int, hu: int, hd: int)
    requires hu > 0 && hd > 0 && d > 0 && u > 0
    requires hu * 2 * d == hd * 1 * u && v * hd == 2 * q * hu * vd
    ensures v * d == q * u * vd
  {
    var l, r := v * d, q * u * vd;
    assert l * hd == d * (v * hd) == d * (2 * q * hu * vd);
    assert r * hd == q * vd * (hd * 1 * u) == q * vd * (hu * 2 * d);
    assert d * (2 * q * hu * vd) == q * vd * (hu * 2 * d);
    if l < r { MulLt(l, r, hd); }
    if r < l { MulLt(r, l, hd); }
  }

  /** Some double has the value an integer is rounded to. */
  lemma FloatFor(n: int) returns (x: Float)
    requires -TWO64 <= n <= TWO64
    ensures HasValue(x, NearestDouble(n))
  {
    var m: nat := if n < 0 then -n else n;
    var q, e := RoundedForm(m, 1, 0);
    if q == 0 {
      x := Finite(false, Double(0, 0));
    } else {
      var d := DoubleFor(q, e);
      assert Down(2, e) == 1 && Up(2, e) == Pow(2, e);
      x := Finite(n < 0, d);
      Signed(n < 0, d.Significand() * Up(2, d.Exponent()), q * Pow(2, e), Down(2, d.Exponent()));
    }
  }

  lemma Signed(negative: bool, v: int, m: int, d: int)
    requires v * 1 == m * d
    ensures (if negative then -1 else 1) * v == (if negative then 0 - m else m) * d
  {
    assert (0 - m) * d == 0 - m * d;
  }

  /** Every number outside stands first in a chain of equalities whose ends differ. */
  lemma NumberFails(j: Json) returns (b: Json, c: Json)
    requires IsInteger(j) && !Exact(j)
    ensures Equal(j, b) && Equal(b, c) && !Equal(j, c)
  {
    var n := IntegerOf(j);
    if j.Unsigned? && TWO63 <= n {
      var x := FloatFor(ToSigned(j.u));
      b, c := Integer(ToSigned(j.u)), Floating(x);
      assert NearestDouble(ToSigned(j.u)) <= 0;
      if Equal(j, c) {
        ValueUnique(x, NearestDouble(ToSigned(j.u)), NearestDouble(n));
        RoundedPositive(n, 1);
        assert false;
      }
    } else {
      var x := FloatFor(n);
      var r := NearestDouble(n);
      RoundedTwice(if n < 0 then -n else n);
      RoundedAtMost(if n < 0 then -n else n, 1, 0);
      b, c := Floating(x), if n < 0 then Integer(r) else Unsigned(r);
      assert NearestDouble(r) == r;
    }
  }

  lemma {:induction false} RoundedPositive(n: nat, unit: nat)
    requires unit > 0 && HIDDEN * unit <= n
    ensures RoundedToUnit(n, unit) > 0
    decreases if n > unit then n - unit else 0
  {
    var q := n / unit;
    assert n == q * unit + n % unit;
    if q <= 0 {
      MulLe(q, 0, unit);
      MulLe(1, HIDDEN, unit);
      assert false;
    }
    if q < 2 * HIDDEN {
      MulLe(1, q + RoundUp(q, n % unit, unit), unit);
    } else {
      MulLe(2 * HIDDEN, q, unit);
      RoundedPositive(n, 2 * unit);
    }
  }

  // the same for values of any kind

  /** Whatever is not exact starts such a chain. */
  lemma {:induction false} OutsideFails(j: Json) returns (b: Json, c: Json)
    requires Clean(j) && !Exact(j)
    ensures Equal(j, b) && Equal(b, c) && !Equal(j, c)
  {
    match j
    case Array(x) =>
      var i :| 0 <= i < |x| && !Exact(x[i]);
      var y, z := OutsideFails(x[i]);
      forall k | 0 <= k < |x| ensures Equal(x[k], x[k]) { EqualReflexive(x[k]); }
      b, c := Array(x[i := y]), Array(x[i := z]);
      assert c.elements[i] == z;
    case Object(x) =>
      var key :| key in x && !Exact(x[key]);
      var y, z := OutsideFails(x[key]);
      forall k | k in x ensures Equal(x[k], x[k]) { EqualReflexive(x[k]); }
      b, c := Object(x[key := y]), Object(x[key := z]);
      assert c.members[key] == z;
    case _ => b, c := NumberFails(j);
  }

  /** One way to leave the class: 2^64 - 1 equals -1 after the cast to signed, and -1
      equals -1.0, but the ends differ. */
  lemma EqualIsNotTransitive()
    ensures var minusOne := Floating(Finite(true, Double(1023, 0)));
      && Equal(Unsigned(TWO64 - 1), Integer(-1))
      && Equal(Integer(-1), minusOne)
      && !Equal(Unsigned(TWO64 - 1), minusOne)
  {
    var x := Double(1023, 0);
    assert x.Exponent() == -52 && x.Significand() == HIDDEN;
    FiftyFour();
    assert NearestDouble(-1) == -1;
    assert NearestDouble(TWO64 - 1) >= 0;
  }

  /** The other: 2^53 + 1 is rounded to 2^53, signed or not, and nothing wraps. */
  lemma RoundingIsNotTransitive()
    ensures var n, x := 2 * HIDDEN, Floating(Finite(false, Double(1076, 0)));
      && Equal(Integer(n + 1), x) && Equal(x, Integer(n)) && !Equal(Integer(n + 1), Integer(n))
      && Equal(Unsigned(n + 1), x) && Equal(x, Unsigned(n)) && !Equal(Unsigned(n + 1), Unsigned(n))
  {
    var y, n := Double(1076, 0), 2 * HIDDEN;
    assert y.Exponent() == 1 && y.Significand() == HIDDEN && Pow(2, 1) == 2;
    assert (n + 1) / 1 == n + 1 && (n + 1) / 2 == HIDDEN && (n + 1) % 2 == 1 && HIDDEN % 2 == 0;
    assert RoundedToUnit(n + 1, 1) == RoundedToUnit(n + 1, 2) == n;
    assert n / 1 == n && n / 2 == HIDDEN && n % 2 == 0;
    assert RoundedToUnit(n, 1) == RoundedToUnit(n, 2) == n;
  }
}
