/** What the text of a number denotes: a sign, a whole mantissa and a power of ten. */
module NumberValues {
  import opened Powers
  import opened Sequences
  import opened Diyfps
  import opened Jsons
  import opened Decimals
  import opened NumberGrammar
  import opened ScanString
  import opened Lexers
  import G = Grisu

  /** The digits of the integer and the fraction, read as one whole number. */
  function Mantissa(n: Number): (m: int)
    requires LegalNumber(n)
    ensures m >= 0
  {
    DigitsValue(n.integer + if n.frac.Some? then n.frac.value else [])
  }

  function ExponentValue(e: Exponent): int
    requires LegalExponent(e)
  {
    if e.sign == Some(MINUS) then 0 - DigitsValue(e.digits) else DigitsValue(e.digits)
  }

  /** The power of ten that belongs to the mantissa. */
  function Scale10(n: Number): int
    requires LegalNumber(n)
  {
    (if n.exp.Some? then ExponentValue(n.exp.value) else 0) - if n.frac.Some? then |n.frac.value| else 0
  }

  // ------------------------------------------------- a text spells one number

  predicate NoDigitFirst(s: seq<Byte>) {
    s == [] || !IsDigitCode(s[0])
  }

  lemma DigitsReach(a: seq<Byte>, r: seq<Byte>, b: seq<Byte>, q: seq<Byte>)
    requires AllDigits(b) && NoDigitFirst(r) && a + r == b + q
    ensures |b| <= |a|
  {
    var s := a + r;
    assert forall k :: 0 <= k < |b| ==> IsDigitCode(s[k]);
    assert |a| < |s| ==> s[|a|] == r[0];
  }

  lemma DigitsEnd(a: seq<Byte>, r: seq<Byte>, b: seq<Byte>, q: seq<Byte>)
    requires AllDigits(a) && AllDigits(b) && NoDigitFirst(r) && NoDigitFirst(q) && a + r == b + q
    ensures a == b && r == q
  {
    DigitsReach(a, r, b, q);
    DigitsReach(b, q, a, r);
    Parts(a, r);
    Parts(b, q);
  }

  function PointAnd(frac: Option<seq<Byte>>): (s: seq<Byte>) {
    if frac.Some? then [POINT] + frac.value else []
  }

  function FractionText(n: Number): (s: seq<Byte>) {
    PointAnd(n.frac)
  }

  function ExponentPart(n: Number): (s: seq<Byte>) {
    if n.exp.Some? then SpellExponent(n.exp.value) else []
  }

  lemma SignFirst(n: Number)
    requires LegalNumber(n)
    ensures Spell(n) == (if n.minus then [MINUS] else []) + (n.integer + (FractionText(n) + ExponentPart(n)))
    ensures Spell(n)[0] == MINUS <==> n.minus
  {
    var sign: seq<Byte> := if n.minus then [MINUS] else [];
    Assoc(sign, n.integer, FractionText(n));
    Assoc(sign + n.integer, FractionText(n), ExponentPart(n));
    Assoc(sign, n.integer, FractionText(n) + ExponentPart(n));
    assert IsDigitCode(n.integer[0]);
  }

  lemma ExponentUnique(a: Exponent, b: Exponent)
    requires LegalExponent(a) && LegalExponent(b) && SpellExponent(a) == SpellExponent(b)
    ensures a == b
  {
    var s, t := SpellExponent(a), SpellExponent(b);
    assert IsDigitCode(a.digits[0]) && IsDigitCode(b.digits[0]);
    assert s[0] == a.letter && t[0] == b.letter;
    assert s[1] == if a.sign.Some? then a.sign.value else a.digits[0];
    assert t[1] == if b.sign.Some? then b.sign.value else b.digits[0];
    var k := if a.sign.Some? then 2 else 1;
    assert s[k..] == a.digits && t[k..] == b.digits;
  }

  lemma ExponentHasLetterFirst(n: Number)
    requires LegalNumber(n)
    ensures NoDigitFirst(ExponentPart(n)) && (ExponentPart(n) != [] ==> ExponentPart(n)[0] != POINT)
    ensures n.exp.Some? <==> ExponentPart(n) != []
    ensures NoDigitFirst(FractionText(n) + ExponentPart(n))
  {
  }

  /** A fraction behind the integer shows in the first character. */
  lemma FractionsUnique(f: Option<seq<Byte>>, x: seq<Byte>, g: Option<seq<Byte>>, y: seq<Byte>)
    requires (f.Some? ==> AllDigits(f.value)) && (g.Some? ==> AllDigits(g.value))
    requires NoDigitFirst(x) && (x != [] ==> x[0] != POINT) && NoDigitFirst(y) && (y != [] ==> y[0] != POINT)
    requires PointAnd(f) + x == PointAnd(g) + y
    ensures f == g && x == y
  {
    var s := PointAnd(f) + x;
    assert f.Some? <==> s != [] && s[0] == POINT;
    assert g.Some? <==> s != [] && s[0] == POINT;
    if f.Some? {
      Assoc([POINT], f.value, x);
      Assoc([POINT], g.value, y);
      Parts([POINT], f.value + x);
      Parts([POINT], g.value + y);
      DigitsEnd(f.value, x, g.value, y);
    } else {
      assert s == x == y;
    }
  }

  lemma TailUnique(a: Number, b: Number)
    requires LegalNumber(a) && LegalNumber(b)
    requires FractionText(a) + ExponentPart(a) == FractionText(b) + ExponentPart(b)
    ensures a.frac == b.frac && a.exp == b.exp
  {
    ExponentHasLetterFirst(a);
    ExponentHasLetterFirst(b);
    FractionsUnique(a.frac, ExponentPart(a), b.frac, ExponentPart(b));
    if a.exp.Some? {
      ExponentUnique(a.exp.value, b.exp.value);
    }
  }

  /** No text spells two numbers, so what a text denotes is well defined. */
  lemma SpellUnique(a: Number, b: Number)
    requires LegalNumber(a) && LegalNumber(b) && Spell(a) == Spell(b)
    ensures a == b
  {
    SignFirst(a);
    SignFirst(b);
    var sign: seq<Byte> := if a.minus then [MINUS] else [];
    var r, q := FractionText(a) + ExponentPart(a), FractionText(b) + ExponentPart(b);
    Parts(sign, a.integer + r);
    Parts(sign, b.integer + q);
    ExponentHasLetterFirst(a);
    ExponentHasLetterFirst(b);
    DigitsEnd(a.integer, r, b.integer, q);
    TailUnique(a, b);
  }

  // ------------------------------------------------------------ scanned whole

  /** Characters no number goes on with. */
  predicate EndsNumber(c: int) {
    !IsDigitCode(c) && c != POINT && !IsExponentLetter(c)
  }

  /** A number with something behind it that ends it is scanned up to its end, and a
      fraction or an exponent makes it a floating-point token. */
  lemma ScannedWhole(input: seq<Byte>, i: nat, n: Number)
    requires LegalNumber(n) && i + |Spell(n)| <= |input| && input[i..i + |Spell(n)|] == Spell(n)
    requires EndsNumber(At(input, i + |Spell(n)|))
    ensures Taken(input, i, Init) == |Spell(n)| && Accepting(Stopped(input, i, Init))
    ensures RunFrom(Init, Spell(n)) == Some(Stopped(input, i, Init)) && Spell(n) != []
    ensures n.frac.Some? || n.exp.Some? ==> TokenOf(Spell(n), Stopped(input, i, Init)) == FloatToken(Spell(n))
  {
    SignFirst(n);
    NumberAccepted(n);
    StopsAt(input, i, Spell(n), RunFrom(Init, Spell(n)).value);
    StoppedRuns(input, i, Init);
  }

  /** What the token of an integer is: the number itself if it fits its type, else the
      text for conversion to a double. */
  lemma IntegerTokens(n: Number)
    requires LegalNumber(n) && n.frac.None? && n.exp.None?
    ensures Spell(n) != [] && RunFrom(Init, Spell(n)).Some? && Accepting(RunFrom(Init, Spell(n)).value)
    ensures var v, token := DigitsValue(n.integer), TokenOf(Spell(n), RunFrom(Init, Spell(n)).value);
      token == if n.minus && v <= TWO63 then IntegerToken(0 - v)
        else if !n.minus && v < TWO64 then UnsignedToken(v) else FloatToken(Spell(n))
  {
    SignFirst(n);
    NumberAccepted(n);
    PlainText(n);
    var text, s := Spell(n), RunFrom(Init, Spell(n)).value;
    if n.minus {
      NegativeToken(text, s);
    } else {
      PositiveToken(text, s);
    }
  }

  lemma PlainText(n: Number)
    requires LegalNumber(n) && n.frac.None? && n.exp.None?
    ensures Spell(n) == (if n.minus then [MINUS] else []) + n.integer && n.integer != [] && n.integer[0] != MINUS
    ensures if n.minus then Spell(n)[0] == MINUS && Spell(n)[1..] == n.integer else Spell(n) == n.integer
  {
    assert IsDigitCode(n.integer[0]);
    assert Spell(n) == (if n.minus then [MINUS] else []) + n.integer;
  }

  lemma NegativeToken(text: seq<Byte>, s: State)
    requires text != [] && RunFrom(Init, text) == Some(s) && (s.Zero? || s.Any1?) && text[0] == MINUS
    ensures AllDigits(text[1..])
    ensures var v := DigitsValue(text[1..]);
      TokenOf(text, s) == if v <= TWO63 then IntegerToken(0 - v) else FloatToken(text)
  {
    IntegerDigits(text, s);
  }

  lemma PositiveToken(text: seq<Byte>, s: State)
    requires text != [] && RunFrom(Init, text) == Some(s) && (s.Zero? || s.Any1?) && text[0] != MINUS
    ensures AllDigits(text)
    ensures var v := DigitsValue(text);
      TokenOf(text, s) == if v < TWO64 then UnsignedToken(v) else FloatToken(text)
  {
    IntegerDigits(text, s);
  }

  /** A negative text gives the negative number. */
  lemma MinusFive()
    ensures RunFrom(Init, [MINUS, 0x35]) == Some(Any1) && TokenOf([MINUS, 0x35], Any1) == IntegerToken(-5)
  {
    var n := Number(true, [0x35], None, None);
    assert [0x35][..0] == [] && Spell(n) == [MINUS, 0x35];
    NumberAccepted(n);
    IntegerTokens(n);
    assert DigitsValue([0x35]) == 5;
  }

  lemma StopsAt(input: seq<Byte>, i: nat, text: seq<Byte>, s: State)
    requires i + |text| <= |input| && input[i..i + |text|] == text
    requires RunFrom(Init, text) == Some(s) && Accepting(s) && EndsNumber(At(input, i + |text|))
    ensures Taken(input, i, Init) == |text|
  {
    TakenRuns(input, i, Init, |text|);
    if i + |text| < |input| {
      var c := input[i + |text|];
      SliceGrows(input, i, |text|);
      RunSplit(Init, text, [c]);
      RunOne(s, c);
      TakenRuns(input, i, Init, |text| + 1);
    }
  }

  // -------------------------------------------------------------- arithmetic

  lemma TenTimes(x: int, p: int)
    ensures x * (10 * p) == 10 * (x * p)
  {
  }

  /** The same decimal with a smaller power of ten compares alike. */
  lemma BelowRescaled(digits: int, x: int, m: int, e: int, s: int, mantissa: int)
    requires s <= x && mantissa == digits * Pow(10, x - s) && G.DecimalBelow(digits, x, m, e)
    ensures G.DecimalBelow(mantissa, s, m, e)
  {
    UpDownAdd(10, s, x - s);
    Regauge(digits, Up(10, x), Down(10, x), Pow(10, x - s), Up(10, s), Down(10, s), m, Up(2, e), Down(2, e));
  }

  lemma Regauge(d: int, xu: int, xd: int, p: int, su: int, sd: int, m: int, eu: int, ed: int)
    requires xd > 0 && sd > 0 && su * p * xd == sd * 1 * xu
    requires d * (xu * ed) < m * (eu * xd)
    ensures d * p * (su * ed) < m * (eu * sd)
  {
    MulLt(d * (xu * ed), m * (eu * xd), sd);
    assert d * (xu * ed) * sd == d * ed * (sd * 1 * xu);
    assert d * ed * (su * p * xd) == d * p * (su * ed) * xd;
    assert m * (eu * xd) * sd == m * (eu * sd) * xd;
    CancelLt(d * p * (su * ed), m * (eu * sd), xd);
  }

  lemma ReadsBackRescaled(digits: int, x: int, v: Double, s: int, mantissa: int)
    requires s <= x && mantissa == digits * Pow(10, x - s) && G.ReadsBackAs(digits, x, v)
    ensures G.ReadsBackAs(mantissa, s, v)
  {
    forall u: Double | G.Candidate(u) && G.Before(v, u)
      ensures u.Exponent() >= v.Exponent()
      ensures G.DecimalBelow(mantissa, s, v.Significand() + G.Counted(u, v.Exponent()), v.Exponent() - 1)
    {
      BelowRescaled(digits, x, v.Significand() + G.Counted(u, v.Exponent()), v.Exponent() - 1, s, mantissa);
    }
    forall u: Double | G.Candidate(u) && G.Before(u, v)
      ensures u.Exponent() <= v.Exponent()
      ensures G.DecimalAbove(mantissa, s, u.Significand() + G.Counted(v, u.Exponent()), u.Exponent() - 1)
    {
      G.Negate(digits, Pow(10, x - s));
      BelowRescaled(-digits, x, -(u.Significand() + G.Counted(v, u.Exponent())), u.Exponent() - 1, s, -mantissa);
    }
  }
}
