/** Numbers: the grammar of section 6 of RFC 8259, and the scanner's state machine. */
module NumberGrammar {
  import opened Sequences
  import opened Jsons
  import opened Decimals

  const MINUS: Byte := 0x2D
  const PLUS: Byte := 0x2B
  const POINT: Byte := 0x2E
  const ZERO: Byte := 0x30

  predicate IsExponentLetter(c: int) {
    c == 0x65 || c == 0x45
  }

  // ------------------------------------------------------------ the grammar

  /** number = [ minus ] int [ frac ] [ exp ]; an exponent has a letter and perhaps a
      sign in front of its digits. */
  datatype Number = Number(minus: bool, integer: seq<Byte>, frac: Option<seq<Byte>>, exp: Option<Exponent>)

  datatype Exponent = Exponent(letter: Byte, sign: Option<Byte>, digits: seq<Byte>)

  predicate IsInt(s: seq<Byte>) {
    s != [] && AllDigits(s) && (s[0] == ZERO ==> |s| == 1)
  }

  predicate LegalExponent(e: Exponent) {
    && IsExponentLetter(e.letter) && (e.sign.Some? ==> e.sign.value == PLUS || e.sign.value == MINUS)
    && e.digits != [] && AllDigits(e.digits)
  }

  predicate LegalNumber(n: Number) {
    && IsInt(n.integer)
    && (n.frac.Some? ==> n.frac.value != [] && AllDigits(n.frac.value))
    && (n.exp.Some? ==> LegalExponent(n.exp.value))
  }

  function SpellExponent(e: Exponent): seq<Byte> {
    [e.letter] + (if e.sign.Some? then [e.sign.value] else []) + e.digits
  }

  function SpellFraction(n: Number): seq<Byte> {
    (if n.minus then [MINUS] else []) + n.integer + if n.frac.Some? then [POINT] + n.frac.value else []
  }

  function Spell(n: Number): seq<Byte> {
    SpellFraction(n) + if n.exp.Some? then SpellExponent(n.exp.value) else []
  }

  ghost predicate IsNumber(s: seq<Byte>) {
    exists n :: LegalNumber(n) && s == Spell(n)
  }

  /** Some number begins with s. */
  ghost predicate Viable(s: seq<Byte>) {
    exists t :: IsNumber(s + t)
  }

  // ------------------------------------------------------------- the machine

  datatype State = Init | Minus | Zero | Any1 | Decimal1 | Decimal2 | Exp | Sign | Any2

  function Delta(s: State, c: int): Option<State> {
    match s
    case Init =>
      if c == 0x2D then Some(Minus) else if c == 0x30 then Some(Zero)
      else if IsDigitCode(c) then Some(Any1) else None
    case Minus => if c == 0x30 then Some(Zero) else if IsDigitCode(c) then Some(Any1) else None
    case Zero => if c == 0x2E then Some(Decimal1) else if IsExponentLetter(c) then Some(Exp) else None
    case Any1 =>
      if IsDigitCode(c) then Some(Any1) else if c == 0x2E then Some(Decimal1)
      else if IsExponentLetter(c) then Some(Exp) else None
    case Decimal1 => if IsDigitCode(c) then Some(Decimal2) else None
    case Decimal2 => if IsDigitCode(c) then Some(Decimal2) else if IsExponentLetter(c) then Some(Exp) else None
    case Exp => if c == 0x2B || c == 0x2D then Some(Sign) else if IsDigitCode(c) then Some(Any2) else None
    case Sign => if IsDigitCode(c) then Some(Any2) else None
    case Any2 => if IsDigitCode(c) then Some(Any2) else None
  }

  /** The states from which label done is reached. */
  predicate Accepting(s: State) {
    s.Zero? || s.Any1? || s.Decimal2? || s.Any2?
  }

  function RunFrom(s: State, text: seq<Byte>): Option<State> {
    if text == [] then Some(s) else
      match RunFrom(s, text[..|text| - 1])
      case None => None
      case Some(t) => Delta(t, text[|text| - 1])
  }

  lemma {:induction false} RunSplit(s: State, a: seq<Byte>, b: seq<Byte>)
    ensures RunFrom(s, a + b) == match RunFrom(s, a) case Some(t) => RunFrom(t, b) case None => None
  {
    if b == [] {
      assert a + b == a;
    } else {
      RunSplit(s, a, b[..|b| - 1]);
      assert (a + b)[..|a + b| - 1] == a + b[..|b| - 1];
    }
  }

  lemma RunOne(s: State, c: Byte)
    ensures RunFrom(s, [c]) == Delta(s, c)
  {
    assert [c][..0] == [];
  }

  // ------------------------------------------------- numbers are accepted

  /** Digits keep the states that collect digits. */
  lemma {:induction false} RunDigits(s: State, digits: seq<Byte>)
    requires AllDigits(digits) && (s.Any1? || s.Decimal2? || s.Any2?)
    ensures RunFrom(s, digits) == Some(s)
  {
    if digits != [] {
      RunDigits(s, digits[..|digits| - 1]);
    }
  }

  lemma RunFirstDigit(s: State, digits: seq<Byte>, t: State)
    requires AllDigits(digits) && digits != [] && Delta(s, digits[0]) == Some(t) && (t.Any1? || t.Decimal2? || t.Any2?)
    ensures RunFrom(s, digits) == Some(t)
  {
    HeadTail(digits);
    RunSplit(s, [digits[0]], digits[1..]);
    RunOne(s, digits[0]);
    RunDigits(t, digits[1..]);
  }

  lemma RunInt(s: State, digits: seq<Byte>)
    requires IsInt(digits) && (s.Init? || s.Minus?)
    ensures RunFrom(s, digits) == Some(if digits[0] == ZERO then Zero else Any1)
  {
    if digits[0] == ZERO {
      assert digits == [ZERO];
      RunOne(s, ZERO);
    } else {
      assert IsDigitCode(digits[0]);
      RunFirstDigit(s, digits, Any1);
    }
  }

  lemma RunExponent(s: State, e: Exponent)
    requires LegalExponent(e) && (s.Zero? || s.Any1? || s.Decimal2?)
    ensures RunFrom(s, SpellExponent(e)) == Some(Any2)
  {
    var sign := if e.sign.Some? then [e.sign.value] else [];
    RunSplit(s, [e.letter] + sign, e.digits);
    RunSplit(s, [e.letter], sign);
    RunOne(s, e.letter);
    if e.sign.Some? {
      RunOne(Exp, e.sign.value);
    }
    assert IsDigitCode(e.digits[0]);
    RunFirstDigit(if e.sign.Some? then Sign else Exp, e.digits, Any2);
  }

  lemma RunFraction(n: Number)
    requires LegalNumber(n)
    ensures var s := RunFrom(Init, SpellFraction(n));
      s == Some(if n.frac.Some? then Decimal2 else if n.integer[0] == ZERO then Zero else Any1)
  {
    var sign := if n.minus then [MINUS] else [];
    var frac := if n.frac.Some? then [POINT] + n.frac.value else [];
    RunSplit(Init, sign + n.integer, frac);
    RunSplit(Init, sign, n.integer);
    RunOne(Init, MINUS);
    RunInt(if n.minus then Minus else Init, n.integer);
    if n.frac.Some? {
      var s := if n.integer[0] == ZERO then Zero else Any1;
      RunSplit(s, [POINT], n.frac.value);
      RunOne(s, POINT);
      assert IsDigitCode(n.frac.value[0]);
      RunFirstDigit(Decimal1, n.frac.value, Decimal2);
    }
  }

  lemma NumberAccepted(n: Number)
    requires LegalNumber(n)
    ensures RunFrom(Init, Spell(n)) == Some(
      if n.exp.Some? then Any2 else if n.frac.Some? then Decimal2 else if n.integer[0] == ZERO then Zero else Any1)
  {
    RunFraction(n);
    var s := RunFrom(Init, SpellFraction(n)).value;
    if n.exp.Some? {
      RunSplit(Init, SpellFraction(n), SpellExponent(n.exp.value));
      RunExponent(s, n.exp.value);
    } else {
      assert Spell(n) == SpellFraction(n);
    }
  }

  // ------------------------------------------- what is accepted is a number

  /** What has been read in state s: a number, or one with its last part unfinished. */
  predicate Shape(n: Number, s: State) {
    match s
    case Init => false
    case Minus => n == Number(true, [], None, None)
    case Zero => n.integer == [ZERO] && n.frac.None? && n.exp.None?
    case Any1 => IsInt(n.integer) && n.integer[0] != ZERO && n.frac.None? && n.exp.None?
    case Decimal1 => IsInt(n.integer) && n.frac == Some([]) && n.exp.None?
    case Decimal2 => LegalNumber(n) && n.frac.Some? && n.exp.None?
    case Exp => LegalNumber(n.(exp := None)) && n.exp.Some? && IsExponentLetter(n.exp.value.letter)
        && n.exp.value.sign.None? && n.exp.value.digits == []
    case Sign => LegalNumber(n.(exp := None)) && n.exp.Some? && IsExponentLetter(n.exp.value.letter)
        && n.exp.value.sign.Some? && (n.exp.value.sign.value == PLUS || n.exp.value.sign.value == MINUS)
        && n.exp.value.digits == []
    case Any2 => LegalNumber(n) && n.exp.Some?
  }

  lemma FirstByte(c: Byte) returns (n: Number)
    requires Delta(Init, c).Some?
    ensures Shape(n, Delta(Init, c).value) && Spell(n) == [c]
  {
    n := if c == MINUS then Number(true, [], None, None) else Number(false, [c], None, None);
  }

  /** One more digit of the integer part. */
  lemma MoreInteger(n: Number, s: State, c: Byte) returns (n': Number)
    requires Shape(n, s) && IsDigitCode(c) && ((s.Minus? && Delta(s, c).Some?) || s.Any1?)
    ensures Shape(n', Delta(s, c).value) && Spell(n') == Spell(n) + [c]
  {
    n' := n.(integer := n.integer + [c]);
    Assoc(if n.minus then [MINUS] else [], n.integer, [c]);
  }

  /** The decimal point, or one more digit behind it. */
  lemma MoreFraction(n: Number, s: State, c: Byte) returns (n': Number)
    requires Shape(n, s) && ((c == POINT && (s.Zero? || s.Any1?)) || (IsDigitCode(c) && (s.Decimal1? || s.Decimal2?)))
    ensures Shape(n', Delta(s, c).value) && Spell(n') == Spell(n) + [c]
  {
    var head := (if n.minus then [MINUS] else []) + n.integer;
    if c == POINT {
      n' := n.(frac := Some([]));
      assert [POINT] + [] == [c];
      assert Spell(n) == head && Spell(n') == head + [c];
    } else {
      n' := n.(frac := Some(n.frac.value + [c]));
      Assoc([POINT], n.frac.value, [c]);
      Assoc(head, [POINT] + n.frac.value, [c]);
    }
  }

  /** The exponent's letter, its sign, or one more of its digits. */
  lemma MoreExponent(n: Number, s: State, c: Byte) returns (n': Number)
    requires Shape(n, s) && Delta(s, c).Some?
    requires ((s.Zero? || s.Any1? || s.Decimal2?) && IsExponentLetter(c)) || s.Exp? || s.Sign? || s.Any2?
    ensures Shape(n', Delta(s, c).value) && Spell(n') == Spell(n) + [c]
  {
    if n.exp.None? {
      n' := n.(exp := Some(Exponent(c, None, [])));
      assert SpellExponent(n'.exp.value) == [c];
      assert Spell(n) == SpellFraction(n);
    } else {
      var e := n.exp.value;
      var e' := if s.Exp? && !IsDigitCode(c) then e.(sign := Some(c)) else e.(digits := e.digits + [c]);
      n' := n.(exp := Some(e'));
      assert SpellExponent(e') == SpellExponent(e) + [c];
      Assoc(SpellFraction(n), SpellExponent(e), [c]);
    }
  }

  lemma {:induction false} ShapeOf(text: seq<Byte>) returns (n: Number)
    requires text != [] && RunFrom(Init, text).Some?
    ensures Shape(n, RunFrom(Init, text).value) && Spell(n) == text
    decreases |text|
  {
    var front, c := text[..|text| - 1], text[|text| - 1];
    FrontLast(text);
    if front == [] {
      RunOne(Init, c);
      n := FirstByte(c);
    } else {
      n := ShapeOf(front);
      var s := RunFrom(Init, front).value;
      NotInit(front);
      if c == POINT || s.Decimal1? || (s.Decimal2? && IsDigitCode(c)) {
        n := MoreFraction(n, s, c);
      } else if s.Minus? || (s.Any1? && IsDigitCode(c)) {
        n := MoreInteger(n, s, c);
      } else {
        n := MoreExponent(n, s, c);
      }
    }
  }

  lemma NotInit(text: seq<Byte>)
    requires text != [] && RunFrom(Init, text).Some?
    ensures RunFrom(Init, text).value != Init
  {
  }

  /** The machine accepts exactly the numbers. */
  lemma AcceptsNumbers(s: seq<Byte>)
    ensures IsNumber(s) <==> RunFrom(Init, s).Some? && Accepting(RunFrom(Init, s).value)
  {
    if IsNumber(s) {
      var n :| LegalNumber(n) && s == Spell(n);
      NumberAccepted(n);
    }
    if RunFrom(Init, s).Some? && Accepting(RunFrom(Init, s).value) {
      assert s != [];
      var n := ShapeOf(s);
      assert LegalNumber(n);
    }
  }

  /** One digit turns what was read in any state into a number. */
  lemma AnyStateGoesOn(s: seq<Byte>) returns (t: seq<Byte>)
    requires RunFrom(Init, s).Some?
    ensures IsNumber(s + t)
  {
    var state := RunFrom(Init, s).value;
    t := if Accepting(state) then [] else [ZERO];
    RunSplit(Init, s, t);
    RunOne(state, ZERO);
    AcceptsNumbers(s + t);
  }

  /** The machine is in some state exactly after the beginnings of numbers. */
  lemma RunsOnViable(s: seq<Byte>)
    ensures Viable(s) <==> RunFrom(Init, s).Some?
  {
    if RunFrom(Init, s).Some? {
      var t := AnyStateGoesOn(s);
    }
    if Viable(s) {
      var t :| IsNumber(s + t);
      AcceptsNumbers(s + t);
      RunSplit(Init, s, t);
    }
  }
}
