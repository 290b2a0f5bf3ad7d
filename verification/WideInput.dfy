/** The adapter that turns UTF-16 or UTF-32 text into octets. */
module WideInput {
  import opened Powers
  import opened Sequences
  import opened Jsons
  import opened Utf8
  import opened ScanString

  type Unit = x: int | 0 <= x < 0x1_0000

  predicate IsSurrogate(u: int) {
    0xD800 <= u < 0xE000
  }

  /** The code point of two UTF-16 units as the adapter computes it, keeping ten bits
      of each. */
  function Joined(one: int, two: int): (c: Scalar)
    requires 0 <= one < 0x1_0000 && 0 <= two < 0x1_0000
    ensures 0x1_0000 <= c
  {
    0x1_0000 + one % 0x400 * 0x400 + two % 0x400
  }

  /** What fill_buffer stores, and how many units it reads. */
  datatype Filled = Filled(bytes: seq<int>, units: nat)

  /** UTF-16: the second half of a pair is not looked at. */
  function Fill16(units: seq<Unit>, i: nat): (r: Filled)
    requires i < |units|
    ensures 0 < |r.bytes| <= 4 && r.units > 0 && i + r.units <= |units|
  {
    var wc := units[i];
    if wc < 0x80 then Filled([wc], 1)
    else if wc <= 0x7FF then Filled([0xC0 + wc / 64, 0x80 + wc % 64], 1)
    else if 0xD800 > wc || wc >= 0xE000 then
      Filled([0xE0 + wc / 4096, 0x80 + wc / 64 % 64, 0x80 + wc % 64], 1)
    else if i + 1 < |units| then
      var code := Joined(wc, units[i + 1]);
      Filled([0xF0 + code / 0x4_0000, 0x80 + code / 4096 % 64, 0x80 + code / 64 % 64, 0x80 + code % 64], 2)
    else Filled([wc], 1)
  }

  type Unit32 = x: int | 0 <= x < TWO32

  /** static_cast<int> of a 32-bit unit. */
  function ToInt(wc: Unit32): int {
    if wc < TWO32 / 2 then wc else wc - TWO32
  }

  /** UTF-32: what is no code point is passed on as one int. */
  function Fill32(wc: Unit32): (r: Filled)
    ensures 0 < |r.bytes| <= 4 && r.units == 1
  {
    if wc < 0x80 then Filled([wc], 1)
    else if wc <= 0x7FF then Filled([0xC0 + wc / 64 % 32, 0x80 + wc % 64], 1)
    else if wc <= 0xFFFF then Filled([0xE0 + wc / 4096 % 16, 0x80 + wc / 64 % 64, 0x80 + wc % 64], 1)
    else if wc <= 0x10_FFFF then
      Filled([0xF0 + wc / 0x4_0000 % 8, 0x80 + wc / 4096 % 64, 0x80 + wc / 64 % 64, 0x80 + wc % 64], 1)
    else Filled([ToInt(wc)], 1)
  }

  /** All octets from unit i on. */
  function Stream16(units: seq<Unit>, i: nat): seq<int>
    requires i <= |units|
    decreases |units| - i
  {
    if i == |units| then [] else Fill16(units, i).bytes + Stream16(units, i + Fill16(units, i).units)
  }

  function Stream32(units: seq<Unit32>, i: nat): seq<int>
    requires i <= |units|
    decreases |units| - i
  {
    if i == |units| then [] else Fill32(units[i]).bytes + Stream32(units, i + 1)
  }

  // ----------------------------------------------------------------- decoding

  /** Section 2.2 of RFC 2781, from unit i on. */
  function Decode16(units: seq<Unit>, i: nat): Option<seq<Scalar>>
    requires i <= |units|
    decreases |units| - i
  {
    if i == |units| then Some([])
    else if !IsSurrogate(units[i]) then Prepended(units[i], Decode16(units, i + 1))
    else if IsHigh(units[i]) && i + 1 < |units| && IsLow(units[i + 1]) then
      Prepended(PairValue(units[i], units[i + 1]), Decode16(units, i + 2))
    else None
  }

  function Prepended(c: Scalar, rest: Option<seq<Scalar>>): Option<seq<Scalar>> {
    match rest
    case Some(cs) => Some([c] + cs)
    case None => None
  }

  /** The three formulas for a surrogate pair agree: the adapter's, the scanner's, and
      that of section 2.2 of RFC 2781. */
  lemma PairFormulas(high: int, low: int)
    requires IsHigh(high) && IsLow(low)
    ensures Joined(high, low) == Combined(high, low) == PairValue(high, low)
  {
  }

  lemma FillIsUtf8(units: seq<Unit>, i: nat, c: Scalar)
    requires i < |units|
    requires (!IsSurrogate(units[i]) && c == units[i]) ||
      (IsSurrogate(units[i]) && i + 1 < |units| && c == Joined(units[i], units[i + 1]))
    ensures Fill16(units, i).bytes == Encode(c)
  {
  }

  /** On well-formed text the octets are the UTF-8 form of the decoded code points. */
  lemma {:induction false} StreamIsUtf8(units: seq<Unit>, i: nat)
    requires i <= |units| && Decode16(units, i).Some?
    ensures Stream16(units, i) == Encoded(Decode16(units, i).value)
    decreases |units| - i
  {
    if i < |units| {
      var n := if IsSurrogate(units[i]) then 2 else 1;
      var c := Decode16(units, i).value[0];
      var rest := Decode16(units, i + n).value;
      StreamIsUtf8(units, i + n);
      if n == 2 {
        PairFormulas(units[i], units[i + 1]);
      }
      FillIsUtf8(units, i, c);
      EncodedFirst(c, rest);
    }
  }

  // ------------------------------------------------------- ill-formed UTF-16

  /** Whether filling from unit i on, some fill starts with unit k. */
  predicate StartsFill(units: seq<Unit>, i: nat, k: nat)
    requires i <= |units|
    decreases |units| - i
  {
    i == k || (i < |units| && StartsFill(units, i + Fill16(units, i).units, k))
  }

  /** A surrogate is the last unit, and a fill starts with it. */
  predicate LoneAtEnd(units: seq<Unit>, i: nat)
    requires i <= |units|
  {
    i < |units| && IsSurrogate(units[|units| - 1]) && StartsFill(units, i, |units| - 1)
  }

  /** The code points the adapter encodes, pairing a surrogate with whatever follows. */
  function Read16(units: seq<Unit>, i: nat): seq<Scalar>
    requires i <= |units|
    decreases |units| - i
  {
    if i == |units| then []
    else if !IsSurrogate(units[i]) then [units[i]] + Read16(units, i + 1)
    else if i + 1 < |units| then [Joined(units[i], units[i + 1])] + Read16(units, i + 2)
    else []
  }

  lemma {:induction false} ReadWhole(units: seq<Unit>, i: nat)
    requires i <= |units| && !LoneAtEnd(units, i)
    ensures Stream16(units, i) == Encoded(Read16(units, i))
    decreases |units| - i
  {
    if i < |units| {
      var c := Read16(units, i)[0];
      ReadWhole(units, i + Fill16(units, i).units);
      FillIsUtf8(units, i, c);
      EncodedFirst(c, Read16(units, i + Fill16(units, i).units));
    }
  }

  lemma {:induction false} LoneShows(units: seq<Unit>, i: nat)
    requires i <= |units| && LoneAtEnd(units, i)
    ensures Stream16(units, i) != [] && Stream16(units, i)[|Stream16(units, i)| - 1] >= 0xD800
    decreases |units| - i
  {
    var n := Fill16(units, i).units;
    if i + 1 < |units| {
      PastTheEnd(units, i + n, |units| - 1);
      LoneShows(units, i + n);
    }
  }

  lemma PastTheEnd(units: seq<Unit>, i: nat, k: nat)
    requires i <= |units| && k < |units| && StartsFill(units, i, k)
    ensures i < |units|
  {
  }

  predicate IsEncoded(stream: seq<int>, cs: seq<Scalar>) {
    stream == Encoded(cs)
  }

  /** The octets of any text, well-formed or not, are the UTF-8 form of some code points
      exactly if no surrogate is left over at the end. */
  lemma StreamIsUtf8Iff(units: seq<Unit>)
    ensures (exists cs :: IsEncoded(Stream16(units, 0), cs)) <==> !LoneAtEnd(units, 0)
    ensures !LoneAtEnd(units, 0) ==> IsEncoded(Stream16(units, 0), Read16(units, 0))
  {
    if LoneAtEnd(units, 0) {
      LoneShows(units, 0);
    } else {
      ReadWhole(units, 0);
      assert IsEncoded(Stream16(units, 0), Read16(units, 0));
    }
  }

  /** Unit k is a surrogate without its partner. */
  predicate Unpaired(units: seq<Unit>, k: nat)
    requires k < |units|
  {
    IsSurrogate(units[k]) && !(IsHigh(units[k]) && k + 1 < |units| && IsLow(units[k + 1]))
  }

  /** Text is ill-formed exactly if some fill starts with an unpaired surrogate. */
  lemma {:induction false} IllFormedIff(units: seq<Unit>, i: nat)
    requires i <= |units|
    ensures Decode16(units, i).None? <==> exists k: nat :: k < |units| && Unpaired(units, k) && StartsFill(units, i, k)
    decreases |units| - i
  {
    if i < |units| {
      var n := Fill16(units, i).units;
      IllFormedIff(units, i + n);
      if Unpaired(units, i) {
        assert StartsFill(units, i, i);
      } else {
        assert Decode16(units, i).None? <==> Decode16(units, i + n).None?;
        forall k: nat | k < |units| && Unpaired(units, k)
          ensures StartsFill(units, i, k) <==> StartsFill(units, i + n, k)
        {
          NotBack(units, i + n, i);
        }
      }
    }
  }

  lemma {:induction false} NotBack(units: seq<Unit>, i: nat, k: nat)
    requires i <= |units| && k < i
    ensures !StartsFill(units, i, k)
    decreases |units| - i
  {
    if i < |units| {
      NotBack(units, i + Fill16(units, i).units, k);
    }
  }

  /** So ill-formed text goes unnoticed exactly if every surrogate that a fill starts
      with has a unit behind it, but not always its partner. */
  lemma UnnoticedIff(units: seq<Unit>)
    ensures Decode16(units, 0).None? && (exists cs :: IsEncoded(Stream16(units, 0), cs)) <==>
      !LoneAtEnd(units, 0) && exists k: nat :: k < |units| && Unpaired(units, k) && StartsFill(units, 0, k)
  {
    IllFormedIff(units, 0);
    StreamIsUtf8Iff(units);
  }

  /** A high surrogate in front of a letter becomes one other code point. */
  lemma SurrogateUnchecked()
    ensures Decode16([0xD800, 0x41], 0).None? && Stream16([0xD800, 0x41], 0) == Encoded([0x1_0041])
  {
    var units: seq<Unit>, cs: seq<Scalar> := [0xD800, 0x41], [0x1_0041];
    FillIsUtf8(units, 0, 0x1_0041);
    EncodedFirst(0x1_0041, []);
    assert [0x1_0041] + [] == cs && Stream16(units, 2) == [];
  }

  /** The octets equal what scan_string makes of the same text in escapes. */
  lemma StreamIsScanned(units: seq<Unit>, input: seq<Byte>, i: nat)
    requires Decode16(units, 0).Some? && i <= |input| && SpelledItems(input, i, EscapesOf(Decode16(units, 0).value))
    ensures ScanFrom(input, i).Complete? && ScanFrom(input, i).bytes == Stream16(units, 0)
  {
    StreamIsUtf8(units, 0);
    ScanEscapes(input, i, Decode16(units, 0).value);
  }

  predicate AllScalars(units: seq<Unit32>, i: nat) {
    forall k :: i <= k < |units| ==> IsScalar(units[k])
  }

  predicate IsScalar(c: int) {
    0 <= c < 0xD800 || 0xE000 <= c < 0x11_0000
  }

  function Scalars(units: seq<Unit32>, i: nat): (cs: seq<Scalar>)
    requires i <= |units| && AllScalars(units, i)
    decreases |units| - i
  {
    if i == |units| then [] else [units[i]] + Scalars(units, i + 1)
  }

  /** The UTF-32 adapter gives UTF-8 exactly on texts of scalar values, and then theirs. */
  lemma Stream32IsUtf8(units: seq<Unit32>)
    ensures (exists cs :: IsEncoded(Stream32(units, 0), cs)) <==> AllScalars(units, 0)
    ensures AllScalars(units, 0) ==> IsEncoded(Stream32(units, 0), Scalars(units, 0))
  {
    if AllScalars(units, 0) {
      ScalarsEncoded(units, 0);
      assert IsEncoded(Stream32(units, 0), Scalars(units, 0));
    }
    if cs :| IsEncoded(Stream32(units, 0), cs) {
      EncodedOnlyScalars(units, 0, cs);
    }
  }

  lemma {:induction false} ScalarsEncoded(units: seq<Unit32>, i: nat)
    requires i <= |units| && AllScalars(units, i)
    ensures Stream32(units, i) == Encoded(Scalars(units, i))
    decreases |units| - i
  {
    if i < |units| {
      ScalarsEncoded(units, i + 1);
      Fill32IsUtf8(units[i]);
      EncodedFirst(units[i], Scalars(units, i + 1));
    }
  }

  lemma {:induction false} EncodedOnlyScalars(units: seq<Unit32>, i: nat, cs: seq<Scalar>)
    requires i <= |units| && IsEncoded(Stream32(units, i), cs)
    ensures AllScalars(units, i)
    decreases |units| - i
  {
    if i < |units| {
      var bytes, rest := Fill32(units[i]).bytes, Stream32(units, i + 1);
      var b, q := Encode(cs[0]), Encoded(cs[1..]);
      assert bytes + rest == b + q;
      FirstCode(units[i], rest, cs[0], q);
      Parts(bytes, rest);
      Parts(b, q);
      EncodedOnlyScalars(units, i + 1, cs[1..]);
    }
  }

  /** Octets that begin with a scalar's code begin with no other unit's. */
  lemma FirstCode(wc: Unit32, rest: seq<int>, c: Scalar, q: seq<int>)
    requires Fill32(wc).bytes + rest == Encode(c) + q
    ensures IsScalar(wc) && Fill32(wc).bytes == Encode(c)
  {
    var bytes, b := Fill32(wc).bytes, Encode(c);
    assert bytes[0] == (bytes + rest)[0] == (b + q)[0] == b[0];
    assert |bytes| > 1 && |b| > 1 ==> bytes[1] == (bytes + rest)[1] == (b + q)[1] == b[1];
    NoSurrogate(b, c);
    if IsScalar(wc) {
      Fill32IsUtf8(wc);
      SameLength(Encode(wc), wc, b, c);
      Parts(bytes, rest);
      Parts(b, q);
    } else if wc < 0x11_0000 {
      SurrogateOctets(wc);
      assert false;
    }
  }

  lemma SameLength(a: seq<Byte>, c: int, b: seq<Byte>, d: int)
    requires IsUtf8(a, c) && IsUtf8(b, d) && a[0] == b[0]
    ensures |a| == |b|
  {
  }

  lemma SurrogateOctets(wc: Unit32)
    requires IsSurrogate(wc)
    ensures Fill32(wc).bytes[0] == 0xED && |Fill32(wc).bytes| == 3 && Fill32(wc).bytes[1] >= 0xA0
  {
  }

  lemma NoSurrogate(b: seq<Byte>, c: Scalar)
    requires IsUtf8(b, c)
    ensures b[0] == 0xED ==> |b| == 3 && b[1] < 0xA0
  {
  }

  lemma Fill32IsUtf8(c: Scalar)
    ensures Fill32(c).bytes == Encode(c)
  {
  }

  // --------------------------------------------------------------- the class

  class WideStringInputAdapter {
    const units: seq<Unit>
    var next: nat
    const utf8Bytes: array<int>
    var utf8BytesIndex: nat
    var utf8BytesFilled: nat

    constructor (units: seq<Unit>)
      ensures Valid() && fresh(utf8Bytes) && Pending() == Stream16(units, 0)
    {
      this.units := units;
      next := 0;
      utf8Bytes := new int[4](_ => 0);
      utf8BytesIndex, utf8BytesFilled := 0, 0;
      new;
      assert utf8Bytes[0..0] == [];
    }

    ghost predicate Valid()
      reads this
    {
      utf8Bytes.Length == 4 && next <= |units| && utf8BytesIndex <= utf8BytesFilled <= 4
    }

    /** The octets still to come, before the end of the file. */
    ghost function Pending(): seq<int>
      reads this, utf8Bytes
      requires Valid()
    {
      utf8Bytes[utf8BytesIndex..utf8BytesFilled] + Stream16(units, next)
    }

    method FillBuffer()
      requires Valid() && utf8BytesIndex == utf8BytesFilled
      modifies this, utf8Bytes
      ensures Valid() && utf8BytesIndex == 0 < utf8BytesFilled
      ensures old(next) == |units| ==> next == |units| && utf8Bytes[..utf8BytesFilled] == [EOF]
      ensures old(next) < |units| ==>
        var r := Fill16(units, old(next)); next == old(next) + r.units && utf8Bytes[..utf8BytesFilled] == r.bytes
    {
      utf8BytesIndex := 0;
      if next == |units| {
        utf8Bytes[0] := EOF;
        utf8BytesFilled := 1;
        return;
      }
      var wc := units[next];
      next := next + 1;
      if wc < 0x80 {
        utf8Bytes[0] := wc;
        utf8BytesFilled := 1;
      } else if wc <= 0x7FF {
        utf8Bytes[0], utf8Bytes[1] := 0xC0 + wc / 64, 0x80 + wc % 64;
        utf8BytesFilled := 2;
      } else if 0xD800 > wc || wc >= 0xE000 {
        utf8Bytes[0], utf8Bytes[1], utf8Bytes[2] := 0xE0 + wc / 4096, 0x80 + wc / 64 % 64, 0x80 + wc % 64;
        utf8BytesFilled := 3;
      } else if next < |units| {
        var wc2 := units[next];
        next := next + 1;
        var charcode := Joined(wc, wc2);
        utf8Bytes[0], utf8Bytes[1] := 0xF0 + charcode / 0x4_0000, 0x80 + charcode / 4096 % 64;
        utf8Bytes[2], utf8Bytes[3] := 0x80 + charcode / 64 % 64, 0x80 + charcode % 64;
        utf8BytesFilled := 4;
      } else {
        utf8Bytes[0] := wc;
        utf8BytesFilled := 1;
      }
    }

    /** The next octet, and the end of the file again and again after the last. */
    method GetCharacter() returns (c: int)
      requires Valid()
      modifies this, utf8Bytes
      ensures Valid()
      ensures old(Pending()) == [] ==> c == EOF && Pending() == []
      ensures old(Pending()) != [] ==> c == old(Pending())[0] && Pending() == old(Pending())[1..]
    {
      if utf8BytesIndex == utf8BytesFilled {
        FillBuffer();
      }
      FirstPending(utf8Bytes[..], utf8BytesIndex, utf8BytesFilled, Stream16(units, next));
      c := utf8Bytes[utf8BytesIndex];
      utf8BytesIndex := utf8BytesIndex + 1;
    }
  }

  lemma FirstPending(buffer: seq<int>, i: nat, n: nat, rest: seq<int>)
    requires i < n <= |buffer|
    ensures (buffer[i..n] + rest)[0] == buffer[i] && (buffer[i..n] + rest)[1..] == buffer[i + 1..n] + rest
  {
  }
}
