/** to_chars: laying out the digits of a double as text, in place. */
module FormatNumber {
  import opened Powers
  import opened Sequences
  import opened Diyfps
  import opened Jsons
  import opened Decimals
  import D = DigitGen
  import opened NumberGrammar
  import opened ScanString
  import opened Lexers
  import opened NumberValues

  const MIN_EXP := -4
  const MAX_EXP := 15

  function Zeros(n: nat): (s: string)
    ensures |s| == n && D.IsDigits(s) && forall i :: 0 <= i < n ==> s[i] == '0'
  {
    seq(n, _ => '0')
  }

  /** At least two digits. */
  function ExponentDigits(k: int): (s: string)
    requires 0 <= k < 1000
    ensures D.IsDigits(s) && 2 <= |s| <= 3
  {
    if k < 100 then [D.ToDigit(k / 10), D.ToDigit(k % 10)]
    else [D.ToDigit(k / 100), D.ToDigit(k % 100 / 10), D.ToDigit(k % 10)]
  }

  function ExponentText(e: int): string
    requires -1000 < e < 1000
  {
    [if e < 0 then '-' else '+'] + ExponentDigits(if e < 0 then -e else e)
  }

  function ScientificHead(d: string): string
    requires d != []
  {
    if |d| == 1 then d else d[..1] + "." + d[1..]
  }

  /** The four layouts of digits * 10^x. */
  function Layout(d: string, x: int): string
    requires d != [] && -999 < |d| + x <= 1000
  {
    var n := |d| + x;
    if |d| <= n <= MAX_EXP then d + Zeros(n - |d|) + ".0"
    else if 0 < n <= MAX_EXP then d[..n] + "." + d[n..]
    else if MIN_EXP < n <= 0 then "0." + Zeros(-n) + d
    else ScientificHead(d) + "e" + ExponentText(n - 1)
  }

  // ------------------------------------------------------------ working in place

  /** memmove to the right, whose regions may overlap. */
  method MemMove(buf: array<char>, to: nat, from: nat, count: nat)
    requires from <= to && to + count <= buf.Length
    modifies buf
    ensures forall k :: to <= k < to + count ==> buf[k] == old(buf[k - to + from])
    ensures forall k :: 0 <= k < buf.Length && !(to <= k < to + count) ==> buf[k] == old(buf[k])
  {
    var i := count;
    while i > 0
      invariant 0 <= i <= count
      invariant forall k :: to + i <= k < to + count ==> buf[k] == old(buf[k - to + from])
      invariant forall k :: 0 <= k < buf.Length && !(to + i <= k < to + count) ==> buf[k] == old(buf[k])
    {
      i := i - 1;
      buf[to + i] := buf[from + i];
    }
  }

  method MemSet(buf: array<char>, at: nat, c: char, count: nat)
    requires at + count <= buf.Length
    modifies buf
    ensures forall i :: at <= i < at + count ==> buf[i] == c
    ensures forall i :: 0 <= i < buf.Length && !(at <= i < at + count) ==> buf[i] == old(buf[i])
  {
    for i := 0 to count
      invariant forall k :: at <= k < at + i ==> buf[k] == c
      invariant forall k :: 0 <= k < buf.Length && !(at <= k < at + i) ==> buf[k] == old(buf[k])
    {
      buf[at + i] := c;
    }
  }

  method AppendExponent(buf: array<char>, at: nat, e: int) returns (end: nat)
    requires -1000 < e < 1000 && at + 4 <= buf.Length
    modifies buf
    ensures end == at + |ExponentText(e)| && end <= buf.Length && buf[at..end] == ExponentText(e)
    ensures forall i :: 0 <= i < at ==> buf[i] == old(buf[i])
  {
    var k := e;
    if e < 0 {
      k := -e;
      buf[at] := '-';
    } else {
      buf[at] := '+';
    }
    end := AppendDigits(buf, at + 1, k);
    assert buf[at..end] == [buf[at]] + buf[at + 1..end];
  }

  method AppendDigits(buf: array<char>, at: nat, k: int) returns (end: nat)
    requires 0 <= k < 1000 && at + 3 <= buf.Length
    modifies buf
    ensures end == at + |ExponentDigits(k)| && end <= buf.Length && buf[at..end] == ExponentDigits(k)
    ensures forall i :: 0 <= i < at ==> buf[i] == old(buf[i])
  {
    if k < 10 {
      buf[at] := '0';
      buf[at + 1] := D.ToDigit(k);
      return at + 2;
    }
    if k < 100 {
      buf[at] := D.ToDigit(k / 10);
      buf[at + 1] := D.ToDigit(k % 10);
      return at + 2;
    }
    var r := k % 100;
    assert r % 10 == k % 10;
    buf[at] := D.ToDigit(k / 100);
    buf[at + 1] := D.ToDigit(r / 10);
    buf[at + 2] := D.ToDigit(r % 10);
    return at + 3;
  }

  /** digits[000].0 */
  method WholeLayout(buf: array<char>, first: nat, k: nat, n: nat, ghost d: string) returns (end: nat)
    requires 1 <= k <= n && first + n + 2 <= buf.Length && d == buf[first..first + k]
    modifies buf
    ensures end == first + n + 2 && buf[first..end] == d + Zeros(n - k) + ".0"
    ensures forall i :: 0 <= i < first ==> buf[i] == old(buf[i])
  {
    MemSet(buf, first + k, '0', n - k);
    buf[first + n] := '.';
    buf[first + n + 1] := '0';
    end := first + n + 2;
  }

  /** dig.its */
  method PointLayout(buf: array<char>, first: nat, k: nat, n: nat, ghost d: string) returns (end: nat)
    requires n <= k && first + k + 1 <= buf.Length && d == buf[first..first + k]
    modifies buf
    ensures end == first + k + 1 && buf[first..end] == d[..n] + "." + d[n..]
    ensures forall i :: 0 <= i < first ==> buf[i] == old(buf[i])
  {
    MemMove(buf, first + n + 1, first + n, k - n);
    buf[first + n] := '.';
    end := first + k + 1;
    ghost var s, was := buf[first..end], old(buf[first..first + k]);
    forall i | 0 <= i < n ensures s[i] == was[i] {
      assert s[i] == buf[first + i];
    }
    forall i | n < i <= k ensures s[i] == was[i - 1] {
      assert s[i] == buf[first + i];
    }
    PointInside(s, d, n);
  }

  lemma PointInside(s: string, d: string, n: nat)
    requires |s| == |d| + 1 && n <= |d| && s[n] == '.'
    requires forall i :: 0 <= i < n ==> s[i] == d[i]
    requires forall i :: n < i <= |d| ==> s[i] == d[i - 1]
    ensures s == d[..n] + "." + d[n..]
  {
  }

  /** 0.[000]digits */
  method FractionLayout(buf: array<char>, first: nat, k: nat, zeros: nat, ghost d: string) returns (end: nat)
    requires first + 2 + zeros + k <= buf.Length && d == buf[first..first + k]
    modifies buf
    ensures end == first + 2 + zeros + k && buf[first..end] == "0." + Zeros(zeros) + d
    ensures forall i :: 0 <= i < first ==> buf[i] == old(buf[i])
  {
    MemMove(buf, first + 2 + zeros, first, k);
    buf[first] := '0';
    buf[first + 1] := '.';
    MemSet(buf, first + 2, '0', zeros);
    end := first + 2 + zeros + k;
    PaddedFraction(buf[first..end], d, zeros);
  }

  lemma PaddedFraction(s: string, d: string, zeros: nat)
    requires |s| == 2 + zeros + |d| && s[0] == '0' && s[1] == '.'
    requires forall i :: 2 <= i < 2 + zeros ==> s[i] == '0'
    requires forall i :: 2 + zeros <= i < |s| ==> s[i] == d[i - 2 - zeros]
    ensures s == "0." + Zeros(zeros) + d
  {
  }

  /** d.igitse+123 */
  method ScientificLayout(buf: array<char>, first: nat, k: nat, e: int, ghost d: string) returns (end: nat)
    requires 1 <= k && -1000 < e < 1000 && first + k + 6 <= buf.Length && d == buf[first..first + k]
    modifies buf
    ensures first <= end <= buf.Length
    ensures buf[first..end] == ScientificHead(d) + "e" + ExponentText(e)
    ensures forall i :: 0 <= i < first ==> buf[i] == old(buf[i])
  {
    var at := first + 1;
    if k > 1 {
      at := PointLayout(buf, first, k, 1, d);
    }
    ghost var head := buf[first..at];
    buf[at] := 'e';
    assert buf[first..at + 1] == head + "e";
    ghost var before := buf[first..at + 1];
    end := AppendExponent(buf, at + 1, e);
    assert buf[first..at + 1] == before;
    assert buf[first..end] == buf[first..at + 1] + buf[at + 1..end];
  }

  /** Rewrites the digits that stand at first, in place. */
  method FormatBuffer(buf: array<char>, first: nat, len: nat, decimalExponent: int, ghost d: string) returns (end: nat)
    requires 1 <= len <= 17 && first + 23 <= buf.Length && -999 < len + decimalExponent <= 1000
    requires d == buf[first..first + len]
    modifies buf
    ensures first <= end <= buf.Length && buf[first..end] == Layout(d, decimalExponent)
    ensures forall i :: 0 <= i < first ==> buf[i] == old(buf[i])
  {
    var k, n := len, len + decimalExponent;
    if k <= n && n <= MAX_EXP {
      end := WholeLayout(buf, first, k, n, d);
    } else if 0 < n && n <= MAX_EXP {
      end := PointLayout(buf, first, k, n, d);
    } else if MIN_EXP < n && n <= 0 {
      end := FractionLayout(buf, first, k, -n, d);
    } else {
      end := ScientificLayout(buf, first, k, n - 1, d);
    }
  }

  // -------------------------------------------------------- the layouts as numbers

  function ByteOf(c: char): Byte {
    c as int % 256
  }

  /** The bytes of a text. */
  function Codes(s: string): (t: seq<Byte>)
    ensures |t| == |s| && forall i :: 0 <= i < |s| ==> t[i] == ByteOf(s[i])
  {
    seq(|s|, i requires 0 <= i < |s| => ByteOf(s[i]))
  }

  lemma CodesConcat(a: string, b: string)
    ensures Codes(a + b) == Codes(a) + Codes(b)
  {
  }

  lemma CodesFront(d: string, n: nat)
    requires n <= |d|
    ensures Codes(d)[..n] == Codes(d[..n])
  {
  }

  lemma {:induction false} DigitCodes(d: string)
    requires D.IsDigits(d)
    ensures AllDigits(Codes(d)) && DigitsValue(Codes(d)) == D.ValueOf(d)
  {
    if d != [] {
      var n := |d| - 1;
      DigitCodes(d[..n]);
      CodesFront(d, n);
      assert Codes(d)[n] == ByteOf(d[n]);
    }
  }

  lemma {:induction false} ValueConcat(a: string, b: string)
    requires D.IsDigits(a) && D.IsDigits(b)
    ensures D.ValueOf(a + b) == D.ValueOf(a) * Pow(10, |b|) + D.ValueOf(b)
    decreases |b|
  {
    if b == [] {
      assert a + b == a;
    } else {
      ValueConcat(a, b[..|b| - 1]);
      assert (a + b)[..|a + b| - 1] == a + b[..|b| - 1];
      TenTimes(D.ValueOf(a), Pow(10, |b| - 1));
    }
  }

  lemma {:induction false} ZerosAreZero(n: nat)
    ensures D.ValueOf(Zeros(n)) == 0
  {
    if n > 0 {
      ZerosAreZero(n - 1);
      assert Zeros(n)[..n - 1] == Zeros(n - 1);
    }
  }

  function SignText(negative: bool): string {
    if negative then "-" else ""
  }

  /** n is a floating-point number equal to (-1)^negative * v * 10^x. */
  predicate Denotes(n: Number, negative: bool, v: int, x: int) {
    && LegalNumber(n) && (n.frac.Some? || n.exp.Some?)
    && n.minus == negative
    && Scale10(n) <= x && Mantissa(n) == v * Pow(10, x - Scale10(n))
  }

  predicate Printable(d: string) {
    d != [] && D.IsDigits(d) && d[0] != '0'
  }

  predicate IsIntText(s: string) {
    s != [] && D.IsDigits(s) && (s[0] == '0' ==> |s| == 1)
  }

  function FixedNumber(negative: bool, a: string, b: string): Number {
    Number(negative, Codes(a), Some(Codes(b)), None)
  }

  function ScientificNumber(negative: bool, d: string, e: int): Number
    requires d != [] && -1000 < e < 1000
  {
    Number(negative, Codes(d[..1]), if |d| == 1 then None else Some(Codes(d[1..])), Some(ExponentOf(e)))
  }

  function ExponentOf(e: int): Exponent
    requires -1000 < e < 1000
  {
    Exponent(0x65, Some(if e < 0 then MINUS else PLUS), Codes(ExponentDigits(if e < 0 then -e else e)))
  }

  // the texts

  lemma IntegerSpelled(n: Number, a: string)
    requires n.integer == Codes(a)
    ensures (if n.minus then [MINUS] else []) + n.integer == Codes(SignText(n.minus) + a)
  {
    CodesConcat(SignText(n.minus), a);
    assert Codes("-") == [MINUS];
  }

  lemma FractionSpelled(n: Number, a: string, b: string)
    requires n.integer == Codes(a) && n.frac == Some(Codes(b))
    ensures SpellFraction(n) == Codes(SignText(n.minus) + (a + "." + b))
  {
    IntegerSpelled(n, a);
    assert Codes(".") == [POINT];
    CodesConcat(".", b);
    CodesConcat(SignText(n.minus) + a, "." + b);
    assert SignText(n.minus) + a + ("." + b) == SignText(n.minus) + (a + "." + b);
  }

  lemma FixedSpelled(negative: bool, a: string, b: string)
    ensures Spell(FixedNumber(negative, a, b)) == Codes(SignText(negative) + (a + "." + b))
  {
    var n := FixedNumber(negative, a, b);
    FractionSpelled(n, a, b);
    assert Spell(n) == SpellFraction(n);
  }

  lemma HeadSpelled(n: Number, d: string)
    requires d != [] && n.integer == Codes(d[..1])
    requires n.frac == if |d| == 1 then None else Some(Codes(d[1..]))
    ensures SpellFraction(n) == Codes(SignText(n.minus) + ScientificHead(d))
  {
    if |d| == 1 {
      assert d[..1] == d;
      IntegerSpelled(n, d);
    } else {
      FractionSpelled(n, d[..1], d[1..]);
    }
  }

  lemma ScientificSpelled(negative: bool, d: string, e: int)
    requires d != [] && -1000 < e < 1000
    ensures Spell(ScientificNumber(negative, d, e))
         == Codes(SignText(negative) + (ScientificHead(d) + "e" + ExponentText(e)))
  {
    HeadSpelled(ScientificNumber(negative, d, e), d);
    ExponentSpelled(e);
    JoinCodes(SignText(negative), ScientificHead(d), "e", ExponentText(e));
  }

  lemma JoinCodes(a: string, b: string, c: string, d: string)
    ensures Codes(a + b) + Codes(c + d) == Codes(a + (b + c + d))
  {
    CodesConcat(a + b, c + d);
    assert a + b + (c + d) == a + (b + c + d);
  }

  lemma ExponentSpelled(e: int)
    requires -1000 < e < 1000
    ensures SpellExponent(ExponentOf(e)) == Codes("e" + ExponentText(e))
  {
    var digits := ExponentDigits(if e < 0 then -e else e);
    var mark := if e < 0 then "-" else "+";
    assert ExponentText(e) == mark + digits;
    assert Codes("e" + mark) == [0x65] + [if e < 0 then MINUS else PLUS];
    CodesConcat("e" + mark, digits);
    Assoc("e", mark, digits);
  }

  // the values

  lemma MakeFixed(negative: bool, a: string, b: string, v: int, x: int) returns (n: Number)
    requires IsIntText(a) && D.IsDigits(b) && b != [] && x + |b| >= 0
    requires D.ValueOf(a + b) == v * Pow(10, x + |b|)
    ensures Denotes(n, negative, v, x) && Spell(n) == Codes(SignText(negative) + (a + "." + b))
  {
    FixedValue(a, b);
    FixedSpelled(negative, a, b);
    n := FixedNumber(negative, a, b);
    FixedDenotes(n, Codes(a), Codes(b), v, x);
  }

  lemma FixedValue(a: string, b: string)
    requires IsIntText(a) && D.IsDigits(b)
    ensures IsInt(Codes(a)) && AllDigits(Codes(b)) && AllDigits(Codes(a) + Codes(b))
    ensures DigitsValue(Codes(a) + Codes(b)) == D.ValueOf(a + b)
  {
    DigitCodes(a);
    DigitCodes(b);
    DigitCodes(a + b);
    CodesConcat(a, b);
  }

  lemma FixedDenotes(n: Number, a: seq<Byte>, b: seq<Byte>, v: int, x: int)
    requires IsInt(a) && b != [] && AllDigits(b) && n == Number(n.minus, a, Some(b), None)
    requires x + |b| >= 0 && AllDigits(a + b) && DigitsValue(a + b) == v * Pow(10, x + |b|)
    ensures Denotes(n, n.minus, v, x)
  {
  }

  lemma MakeScientific(negative: bool, d: string, e: int) returns (n: Number)
    requires Printable(d) && -1000 < e < 1000
    ensures Denotes(n, negative, D.ValueOf(d), e - (|d| - 1))
    ensures Spell(n)
         == Codes(SignText(negative) + (ScientificHead(d) + "e" + ExponentText(e)))
  {
    DigitCodes(d[..1]);
    DigitCodes(d[1..]);
    DigitCodes(d);
    CodesConcat(d[..1], d[1..]);
    assert d[..1] + d[1..] == d;
    ExponentDenotes(e);
    ScientificSpelled(negative, d, e);
    n := ScientificNumber(negative, d, e);
    ScientificDenotes(n, Codes(d[..1]), Codes(d[1..]), D.ValueOf(d), e);
  }

  lemma ScientificDenotes(n: Number, a: seq<Byte>, b: seq<Byte>, v: int, e: int)
    requires IsInt(a) && AllDigits(b) && AllDigits(a + b) && DigitsValue(a + b) == v
    requires n == Number(n.minus, a, if b == [] then None else Some(b), n.exp) && n.exp.Some?
    requires LegalExponent(n.exp.value) && ExponentValue(n.exp.value) == e
    ensures Denotes(n, n.minus, v, e - |b|)
  {
    var m, scale := Mantissa(n), Scale10(n);
    assert m == v by {
      assert b == [] ==> a + [] == a + b;
    }
    assert scale == e - |b|;
    assert Pow(10, 0) == 1;
  }

  lemma ExponentDenotes(e: int)
    requires -1000 < e < 1000
    ensures LegalExponent(ExponentOf(e)) && ExponentValue(ExponentOf(e)) == e
  {
    var k := if e < 0 then -e else e;
    DigitCodes(ExponentDigits(k));
    ExponentDigitsValue(k);
  }

  lemma ExponentDigitsValue(k: int)
    requires 0 <= k < 1000
    ensures D.ValueOf(ExponentDigits(k)) == k
  {
    var s := ExponentDigits(k);
    assert s[..1][..0] == [] && D.ValueOf(s[..1]) == D.DigitOf(s[0]);
    assert s[..2][..1] == s[..1] && D.ValueOf(s[..2]) == 10 * D.DigitOf(s[0]) + D.DigitOf(s[1]);
    if k < 100 {
      assert s[..2] == s;
    } else {
      assert s[..3] == s && s[..3][..2] == s[..2];
      assert D.ValueOf(s) == 10 * (10 * (k / 100) + k % 100 / 10) + k % 10;
    }
  }

  lemma WholeNumber(negative: bool, d: string, x: nat) returns (n: Number)
    requires Printable(d)
    ensures Denotes(n, negative, D.ValueOf(d), x) && Spell(n) == Codes(SignText(negative) + (d + Zeros(x) + ".0"))
  {
    var z, v := Zeros(x), D.ValueOf(d);
    ZerosAreZero(x);
    ValueConcat(d, z);
    ZerosAreZero(1);
    assert Zeros(1) == "0" && Pow(10, 1) == 10;
    ValueConcat(d + z, "0");
    TenTimes(v, Pow(10, x));
    n := MakeFixed(negative, d + z, "0", v, x);
    assert d + z + "." + "0" == d + z + ".0";
  }

  lemma PointNumber(negative: bool, d: string, k: nat) returns (n: Number)
    requires Printable(d) && 0 < k < |d|
    ensures Denotes(n, negative, D.ValueOf(d), k - |d|)
    ensures Spell(n) == Codes(SignText(negative) + (d[..k] + "." + d[k..]))
  {
    assert d[..k] + d[k..] == d;
    n := MakeFixed(negative, d[..k], d[k..], D.ValueOf(d), k - |d|);
  }

  lemma FractionNumber(negative: bool, d: string, zeros: nat) returns (n: Number)
    requires Printable(d)
    ensures Denotes(n, negative, D.ValueOf(d), 0 - zeros - |d|)
    ensures Spell(n) == Codes(SignText(negative) + ("0." + Zeros(zeros) + d))
  {
    var z := Zeros(zeros);
    var b := z + d;
    PaddedValue(d, zeros);
    n := MakeFixed(negative, "0", b, D.ValueOf(d), 0 - |b|);
    assert "0" + "." + b == "0." + z + d;
  }

  lemma PaddedValue(d: string, zeros: nat)
    requires D.IsDigits(d)
    ensures D.ValueOf("0" + (Zeros(zeros) + d)) == D.ValueOf(d)
  {
    ZerosAreZero(1 + zeros);
    ValueConcat(Zeros(1 + zeros), d);
    assert "0" + (Zeros(zeros) + d) == Zeros(1 + zeros) + d;
  }

  /** Whatever the layout, the text denotes sign * digits * 10^x. */
  lemma LayoutDenotes(negative: bool, d: string, x: int) returns (n: Number)
    requires Printable(d) && -999 < |d| + x <= 1000
    ensures Denotes(n, negative, D.ValueOf(d), x) && Spell(n) == Codes(SignText(negative) + Layout(d, x))
  {
    var k := |d| + x;
    if |d| <= k <= MAX_EXP {
      n := WholeNumber(negative, d, x);
    } else if 0 < k <= MAX_EXP {
      n := PointNumber(negative, d, k);
    } else if MIN_EXP < k <= 0 {
      n := FractionNumber(negative, d, -k);
    } else {
      n := MakeScientific(negative, d, k - 1);
    }
  }

  /** Every layout is scanned whole as one floating-point token, and however it is
      read as a number, it denotes sign * digits * 10^x. */
  lemma LayoutIsScanned(negative: bool, d: string, x: int, input: seq<Byte>, i: nat, text: seq<Byte>)
    requires Printable(d) && -999 < |d| + x <= 1000 && text == Codes(SignText(negative) + Layout(d, x))
    requires i + |text| <= |input| && input[i..i + |text|] == text && EndsNumber(At(input, i + |text|))
    ensures Taken(input, i, Init) == |text| > 0 && Accepting(Stopped(input, i, Init))
    ensures RunFrom(Init, text) == Some(Stopped(input, i, Init))
    ensures TokenOf(text, Stopped(input, i, Init)) == FloatToken(text)
    ensures forall n :: LegalNumber(n) && Spell(n) == text ==> Denotes(n, negative, D.ValueOf(d), x)
  {
    var m := LayoutDenotes(negative, d, x);
    ScannedWhole(input, i, m);
    forall n | LegalNumber(n) && Spell(n) == text ensures Denotes(n, negative, D.ValueOf(d), x) {
      SpellUnique(n, m);
    }
  }

  // --------------------------------------------------- which layout is printed

  /** digits * 10^x < 10^k */
  predicate BelowPower(digits: int, x: int, k: int) {
    digits * (Up(10, x) * Down(10, k)) < Up(10, k) * Down(10, x)
  }

  lemma DigitsAndPowers(v: nat, n: nat, a: nat, b: nat)
    requires n > 0 && Pow(10, n - 1) <= v < Pow(10, n)
    ensures v * Pow(10, a) < Pow(10, b) <==> n + a <= b
  {
    if n + a <= b {
      MulLt(v, Pow(10, n), Pow(10, a));
      PowAdd(10, n, a);
      PowMonotone(10, n + a, b);
    } else {
      MulLe(Pow(10, n - 1), v, Pow(10, a));
      PowAdd(10, n - 1, a);
      PowMonotone(10, b, n - 1 + a);
    }
  }

  lemma BelowPowerIff(d: string, x: int, k: int)
    requires Printable(d)
    ensures BelowPower(D.ValueOf(d), x, k) <==> |d| + x <= k
  {
    var xu: nat, xd: nat := if x > 0 then x else 0, if x < 0 then -x else 0;
    var ku: nat, kd: nat := if k > 0 then k else 0, if k < 0 then -k else 0;
    PowAdd(10, xu, kd);
    PowAdd(10, ku, xd);
    D.ValueBounds(d);
    DigitsAndPowers(D.ValueOf(d), |d|, xu + kd, ku + xd);
  }

  /** The magnitude alone decides: from 10^-4 up to 10^15 the number is written out, with
      one zero behind the point if it is whole and else just the digits it has there;
      any other number has an exponent, and one digit, not zero, in front of the point. */
  lemma LayoutByMagnitude(d: string, x: int)
    requires Printable(d) && -999 < |d| + x <= 1000
    ensures 'e' in Layout(d, x) <==> BelowPower(D.ValueOf(d), x, -4) || !BelowPower(D.ValueOf(d), x, 15)
    ensures var text, behind := Layout(d, x), if x < 0 then -x else 1;
      'e' !in text ==> |text| > behind && text[|text| - 1 - behind] == '.'
    ensures 'e' in Layout(d, x) ==> Layout(d, x)[0] == d[0] && Layout(d, x)[1] == if |d| > 1 then '.' else 'e'
  {
    BelowPowerIff(d, x, -4);
    BelowPowerIff(d, x, 15);
    var n := |d| + x;
    if MIN_EXP < n <= MAX_EXP {
      FixedLayout(d, x);
    } else {
      var head, tail := ScientificHead(d), ExponentText(n - 1);
      assert (head + "e" + tail)[|head|] == 'e';
      assert |d| > 1 ==> head[1] == '.';
    }
  }

  lemma FixedLayout(d: string, x: int)
    requires Printable(d) && MIN_EXP < |d| + x <= MAX_EXP
    ensures var text, behind := Layout(d, x), if x < 0 then -x else 1;
      'e' !in text && |text| > behind && text[|text| - 1 - behind] == '.'
  {
    assert forall i :: 0 <= i < |d| ==> d[i] != 'e';
  }

  // ------------------------------------------------------------- exponent range

  lemma {:induction false} TenBeatsEight(m: nat)
    ensures Pow(2, 3 * m) <= Pow(10, m)
  {
    if m > 0 {
      TenBeatsEight(m - 1);
      assert Pow(2, 3 * m) == 2 * Pow(2, 3 * m - 1) == 4 * Pow(2, 3 * m - 2) == 8 * Pow(2, 3 * m - 3);
    }
  }

  /** No double is large enough for a fourth digit in the exponent ... */
  lemma NotTooLarge(s: string, x: int, v: Double)
    requires v.Positive() && Printable(s) && |s| <= 17 && G.BetweenBoundaries(D.ValueOf(s), x, v)
    ensures |s| + x < 1000
  {
    var m, e := 2 * v.Significand() + 1, v.Exponent() - 1;
    if |s| + x >= 1000 {
      assert Down(10, x) == 1 && m < TWO64;
      LargeDecimal(s, x, m, e);
      assert false;
    }
  }

  lemma LargeDecimal(s: string, x: int, m: int, e: int)
    requires Printable(s) && x > 0 && |s| + x >= 1000 && 0 < m < TWO64 && e <= 970
    ensures m * Up(2, e) <= D.ValueOf(s) * (Up(10, x) * Down(2, e))
  {
    var n: nat, t: nat := |s| - 1 + x, if e > 0 then e else 0;
    D.ValueBounds(s);
    PowAdd(10, |s| - 1, x);
    TenBeatsEight(n);
    PowMonotone(2, 64 + t, 3 * n);
    PowAdd(2, 64, t);
    PowersOfTwo();
    MulLe(m, TWO64, Pow(2, t));
    Enlarge(Pow(10, |s| - 1), D.ValueOf(s), Pow(10, x), Down(2, e));
  }

  lemma Enlarge(l: int, v: int, t: int, d: int)
    requires 0 <= l <= v && 0 < t && 1 <= d
    ensures l * t <= v * (t * d)
  {
    MulLe(l, v, t);
    MulLe(1, d, v * t);
    MulAssoc(v, t, d);
  }

  /** ... nor small enough. */
  lemma NotTooSmall(s: string, x: int, v: Double)
    requires v.Positive() && Printable(s) && |s| <= 17 && G.BetweenBoundaries(D.ValueOf(s), x, v)
    ensures -999 < |s| + x
  {
    var f, e := v.Significand(), v.Exponent();
    if v.LowerBoundaryIsCloser() {
      NotBelow(s, x, 4 * f - 1, e - 2);
    } else {
      NotBelow(s, x, 2 * f - 1, e - 1);
    }
  }

  lemma NotBelow(s: string, x: int, m: int, e: int)
    requires Printable(s) && m >= 1 && e >= -1076 && G.DecimalAbove(D.ValueOf(s), x, m, e)
    ensures -999 < |s| + x
  {
    var v := D.ValueOf(s);
    G.Negate(v, Up(10, x) * Down(2, e));
    G.Negate(m, Up(2, e) * Down(10, x));
    if |s| + x <= -999 {
      assert Up(10, x) == 1;
      SmallDecimal(s, x, m, e);
      assert false;
    }
  }

  /** value * 2^-e < 10^|s| * 10^(-x - |s|) <= m * 2^e * 10^-x */
  lemma SmallDecimal(s: string, x: int, m: int, e: int)
    requires Printable(s) && m >= 1 && e >= -1076 && |s| + x <= -999
    ensures D.ValueOf(s) * Down(2, e) < m * (Up(2, e) * Down(10, x))
  {
    var n: nat, t: nat := -x - |s|, if e < 0 then -e else 0;
    D.ValueBounds(s);
    TenBeatsEight(n);
    PowMonotone(2, t, 3 * n);
    PowAdd(10, |s|, n);
    ProductLess(D.ValueOf(s), Pow(10, |s|), Pow(2, t), Pow(10, n));
    Enlarge(1, m, Down(10, x), Up(2, e));
  }

  lemma ProductLess(v: int, s: int, t: int, u: int)
    requires 0 <= v < s && 0 < t <= u
    ensures v * t < s * u
  {
    MulLt(v, s, t);
    MulLe(t, u, s);
  }

  // --------------------------------------------------------------------- to_chars

  /** n, read by any correct reader, gives v back. */
  ghost predicate Restores(n: Number, negative: bool, v: Double) {
    && LegalNumber(n) && (n.frac.Some? || n.exp.Some?) && n.minus == negative
    && if v.Positive() then G.ReadsBackAs(Mantissa(n), Scale10(n), v) else Mantissa(n) == 0
  }

  lemma DenotingRestores(n: Number, negative: bool, digits: int, x: int, v: Double)
    requires v.Positive() && Denotes(n, negative, digits, x) && G.ReadsBackAs(digits, x, v)
    ensures Restores(n, negative, v)
  {
    ReadsBackRescaled(digits, x, v, Scale10(n), Mantissa(n));
  }

  /** What was printed is scanned whole as one floating-point token, and however that
      text is read as a number, the double comes back. */
  lemma PrintedIsReadBack(n: Number, negative: bool, v: Double, input: seq<Byte>, i: nat)
    requires Restores(n, negative, v) && i + |Spell(n)| <= |input|
    requires input[i..i + |Spell(n)|] == Spell(n) && EndsNumber(At(input, i + |Spell(n)|))
    ensures Taken(input, i, Init) == |Spell(n)| > 0 && Accepting(Stopped(input, i, Init))
    ensures RunFrom(Init, Spell(n)) == Some(Stopped(input, i, Init))
    ensures TokenOf(Spell(n), Stopped(input, i, Init)) == FloatToken(Spell(n))
    ensures forall m :: LegalNumber(m) && Spell(m) == Spell(n) ==> Restores(m, negative, v)
  {
    ScannedWhole(input, i, n);
    forall m | LegalNumber(m) && Spell(m) == Spell(n) ensures Restores(m, negative, v) {
      SpellUnique(m, n);
    }
  }

  lemma ZeroRestores(negative: bool, v: Double) returns (n: Number)
    requires !v.Positive()
    ensures Restores(n, negative, v) && Spell(n) == Codes(SignText(negative) + "0.0")
  {
    ZerosAreZero(2);
    assert "0" + "0" == Zeros(2);
    n := MakeFixed(negative, "0", "0", 0, 0);
    assert "0" + "." + "0" == "0.0";
  }

  /** The digits of a positive double, laid out from first on. */
  method PrintPositive(buf: array<char>, first: nat, v: Double) returns (end: nat, ghost d: string, ghost x: int)
    requires v.Positive() && first + 23 <= buf.Length
    modifies buf
    ensures first <= end <= buf.Length && Printable(d) && -999 < |d| + x <= 1000
    ensures buf[first..end] == Layout(d, x) && G.ReadsBackAs(D.ValueOf(d), x, v)
    ensures forall i :: 0 <= i < first ==> buf[i] == old(buf[i])
  {
    var digits := new char[17];
    var len, decimalExponent := G.Grisu2(digits, v);
    d, x := digits[..len], decimalExponent;
    forall i | 0 <= i < len {
      buf[first + i] := digits[i];
    }
    assert buf[first..first + len] == d;
    NotTooLarge(d, x, v);
    NotTooSmall(d, x, v);
    end := FormatBuffer(buf, first, len, decimalExponent, d);
  }

  /** Writes a finite double as the text of a floating-point number from which the
      same double is read back, sign of zero included. */
  method ToChars(buf: array<char>, value: Float) returns (end: nat, ghost n: Number)
    requires value.Finite?
    requires buf.Length >= (if value.negative then 1 else 0) + if value.magnitude.Positive() then 23 else 3
    modifies buf
    ensures end <= buf.Length && Codes(buf[..end]) == Spell(n)
    ensures Restores(n, value.negative, value.magnitude)
  {
    var first := 0;
    if value.negative {
      buf[0] := '-';
      first := 1;
    }
    assert buf[..first] == SignText(value.negative);
    if !value.magnitude.Positive() {
      buf[first], buf[first + 1], buf[first + 2] := '0', '.', '0';
      end := first + 3;
      n := ZeroRestores(value.negative, value.magnitude);
      assert buf[..end] == SignText(value.negative) + "0.0";
      return;
    }
    ghost var d, x;
    end, d, x := PrintPositive(buf, first, value.magnitude);
    assert buf[..first] == SignText(value.negative);
    assert buf[..end] == buf[..first] + buf[first..end];
    n := LayoutDenotes(value.negative, d, x);
    DenotingRestores(n, value.negative, D.ValueOf(d), x, value.magnitude);
  }
}
