/** UTF-8 as section 3 of RFC 3629 lays it out. */
module Utf8 {
  import opened Jsons
  import opened Powers

  /** A Unicode scalar value: a code point that is not a surrogate. */
  type Scalar = x: int | 0 <= x < 0xD800 || 0xE000 <= x < 0x11_0000

  /** The value of an octet without its prefix. */
  function Bits(b: Byte, prefix: int): int {
    b - prefix
  }

  predicate Continues(b: Byte) {
    0x80 <= b < 0xC0
  }

  /** The octets b are the UTF-8 form of c: the prefix bits say how many there are,
      the other bits read c, and c needs that many. */
  predicate IsUtf8(b: seq<Byte>, c: int) {
    (|b| == 1 && b[0] < 0x80 && c == b[0])
    || (|b| == 2 && 0xC0 <= b[0] < 0xE0 && Continues(b[1])
        && c == Bits(b[0], 0xC0) * 64 + Bits(b[1], 0x80) && 0x80 <= c)
    || (|b| == 3 && 0xE0 <= b[0] < 0xF0 && Continues(b[1]) && Continues(b[2])
        && c == Bits(b[0], 0xE0) * 4096 + Bits(b[1], 0x80) * 64 + Bits(b[2], 0x80)
        && 0x800 <= c && (c < 0xD800 || 0xE000 <= c))
    || (|b| == 4 && 0xF0 <= b[0] < 0xF8 && Continues(b[1]) && Continues(b[2]) && Continues(b[3])
        && c == Bits(b[0], 0xF0) * 0x4_0000 + Bits(b[1], 0x80) * 4096 + Bits(b[2], 0x80) * 64 + Bits(b[3], 0x80)
        && 0x1_0000 <= c < 0x11_0000)
  }

  /** Cutting a number into groups of six bits. */
  lemma SixBits(c: nat)
    ensures c == c / 64 * 64 + c % 64
    ensures c == c / 4096 * 4096 + c / 64 % 64 * 64 + c % 64
    ensures c == c / 0x4_0000 * 0x4_0000 + c / 4096 % 64 * 4096 + c / 64 % 64 * 64 + c % 64
  {
    DivideTwice(c, 64, 64);
    DivideTwice(c, 4096, 64);
  }

  lemma DivideTwice(c: nat, m: nat, n: nat)
    requires m > 0 && n > 0
    ensures m * n > 0 && c / (m * n) == c / m / n
  {
    var q, r := c / m, c % m;
    assert c == q * m + r;
    var p, s := q / n, q % n;
    assert q == p * n + s;
    MulLe(s + 1, n, m);
    assert c == p * (m * n) + (s * m + r) by { assert (p * n + s) * m == p * (n * m) + s * m; }
    DivisionUnique(c / (m * n), c % (m * n), p, s * m + r, m * n);
  }

  /** Shifting and masking a code point into octets. */
  function Encode(c: Scalar): (b: seq<Byte>)
    ensures IsUtf8(b, c)
  {
    SixBits(c);
    if c < 0x80 then [c]
    else if c <= 0x7FF then [0xC0 + c / 64, 0x80 + c % 64]
    else if c <= 0xFFFF then [0xE0 + c / 4096, 0x80 + c / 64 % 64, 0x80 + c % 64]
    else [0xF0 + c / 0x4_0000, 0x80 + c / 4096 % 64, 0x80 + c / 64 % 64, 0x80 + c % 64]
  }

  /** Each octet sequence is the form of one code point at most, each code point has one. */
  lemma Utf8Unique(b: seq<Byte>, c: int, b': seq<Byte>, c': int)
    requires IsUtf8(b, c) && IsUtf8(b', c')
    ensures c == c' <==> b == b'
    ensures 0 <= c < 0xD800 || 0xE000 <= c < 0x11_0000
  {
    if c == c' {
      assert |b| == |b'|;
      if |b| == 3 {
        ThreeDigits(Bits(b[0], 0xE0), Bits(b[1], 0x80), Bits(b[2], 0x80), Bits(b'[0], 0xE0), Bits(b'[1], 0x80),
                    Bits(b'[2], 0x80));
      } else if |b| == 4 {
        ThreeDigits(Bits(b[0], 0xF0) * 64 + Bits(b[1], 0x80), Bits(b[2], 0x80), Bits(b[3], 0x80),
                    Bits(b'[0], 0xF0) * 64 + Bits(b'[1], 0x80), Bits(b'[2], 0x80), Bits(b'[3], 0x80));
      }
    }
  }

  lemma ThreeDigits(x: int, y: int, z: int, x': int, y': int, z': int)
    requires 0 <= y < 64 && 0 <= z < 64 && 0 <= y' < 64 && 0 <= z' < 64
    requires x * 4096 + y * 64 + z == x' * 4096 + y' * 64 + z'
    ensures x == x' && y == y' && z == z'
  {
  }

  lemma EncodeUnique(b: seq<Byte>, c: Scalar)
    requires IsUtf8(b, c)
    ensures b == Encode(c)
  {
    Utf8Unique(b, c, Encode(c), c);
  }

  /** The form of a text. */
  function Encoded(cs: seq<Scalar>): seq<Byte> {
    if cs == [] then [] else Encode(cs[0]) + Encoded(cs[1..])
  }

  lemma EncodedFirst(c: Scalar, cs: seq<Scalar>)
    ensures Encoded([c] + cs) == Encode(c) + Encoded(cs)
  {
    assert ([c] + cs)[1..] == cs;
  }
}
