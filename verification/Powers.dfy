/** Natural powers and the few order facts the arithmetic modules share. */
module Powers {

  const TWO32: int := 0x1_0000_0000
  const TWO63: int := 0x8000_0000_0000_0000
  const TWO64: int := 0x1_0000_0000_0000_0000

  function Pow(b: nat, n: nat): (r: nat)
    ensures b > 0 ==> r > 0
  {
    if n == 0 then 1 else b * Pow(b, n - 1)
  }

  lemma {:induction false} PowAdd(b: nat, m: nat, n: nat)
    ensures Pow(b, m + n) == Pow(b, m) * Pow(b, n)
  {
    if m == 0 {
    } else {
      PowAdd(b, m - 1, n);
      MulAssoc(b, Pow(b, m - 1), Pow(b, n));
    }
  }

  lemma MulAssoc(x: int, y: int, z: int)
    ensures (x * y) * z == x * (y * z)
  {
  }

  lemma {:induction false} PowMonotone(b: nat, m: nat, n: nat)
    requires b > 0 && m <= n
    ensures Pow(b, m) <= Pow(b, n)
    decreases n
  {
    if m < n {
      PowMonotone(b, m, n - 1);
      MulLe(1, b, Pow(b, n - 1));
    }
  }

  lemma ScaledDifference(x: int, y: int, c: int)
    ensures (x - y) * c == x * c - y * c
  {
  }

  lemma MulLe(x: int, y: int, c: int)
    requires x <= y && 0 <= c
    ensures x * c <= y * c
  {
  }

  lemma MulLt(x: int, y: int, c: int)
    requires x < y && 0 < c
    ensures x * c < y * c
  {
  }

  /** Strict order survives cancelling a positive factor. */
  lemma CancelLt(x: int, y: int, c: int)
    requires 0 < c && x * c < y * c
    ensures x < y
  {
    if y <= x { MulLe(y, x, c); }
  }

  lemma CancelLe(x: int, y: int, c: int)
    requires 0 < c && x * c <= y * c
    ensures x <= y
  {
    if y < x { MulLt(y, x, c); }
  }

  /** Multiplies two powers given as numerals. */
  lemma Scale(b: nat, n: nat, p: int, m: nat, q: int)
    requires p == Pow(b, n) && q == Pow(b, m)
    ensures p * q == Pow(b, n + m)
  {
    PowAdd(b, n, m);
  }

  lemma PowersOfTwo()
    ensures Pow(2, 32) == TWO32 && Pow(2, 60) == TWO63 / 8
    ensures Pow(2, 62) == TWO63 / 2 && Pow(2, 63) == TWO63 && Pow(2, 64) == TWO64
  {
    Scale(2, 4, 0x10, 4, 0x10);
    Scale(2, 8, 0x100, 8, 0x100);
    Scale(2, 16, 0x1_0000, 16, 0x1_0000);
    Scale(2, 16, 0x1_0000, 12, 0x1000);
    Scale(2, 28, 0x1000_0000, 32, TWO32);
    Scale(2, 2, 4, 60, TWO63 / 8);
    Scale(2, 3, 8, 60, TWO63 / 8);
    Scale(2, 4, 16, 60, TWO63 / 8);
  }

  /** The parts of b^e that stand above and below the fraction bar. */
  function Up(b: nat, e: int): (r: nat)
    ensures b > 0 ==> r > 0
  {
    Pow(b, if e > 0 then e else 0)
  }

  function Down(b: nat, e: int): (r: nat)
    ensures b > 0 ==> r > 0
  {
    Pow(b, if e < 0 then -e else 0)
  }

  /** b^x * b^y == b^(x + y), without fractions. */
  lemma UpDownAdd(b: nat, x: int, y: int)
    ensures Up(b, x) * Up(b, y) * Down(b, x + y) == Down(b, x) * Down(b, y) * Up(b, x + y)
  {
    var xu, xd := if x > 0 then x else 0, if x < 0 then -x else 0;
    var yu, yd := if y > 0 then y else 0, if y < 0 then -y else 0;
    var zu, zd := if x + y > 0 then x + y else 0, if x + y < 0 then -(x + y) else 0;
    PowAdd(b, xu, yu);
    PowAdd(b, xu + yu, zd);
    PowAdd(b, xd, yd);
    PowAdd(b, xd + yd, zu);
  }

  /** Quotient and remainder are unique. */
  lemma DivisionUnique(p: int, a: int, q: int, b: int, size: int)
    requires 0 <= a < size && 0 <= b < size && p * size + a == q * size + b
    ensures p == q && a == b
  {
    if p < q {
      MulLe(p + 1, q, size);
    } else if q < p {
      MulLe(q + 1, p, size);
    }
  }

  lemma ModOf(q: int, r: nat, size: nat)
    requires r < size
    ensures (q * size + r) % size == r
  {
    var n := q * size + r;
    DivisionUnique(q, r, n / size, n % size, size);
  }
}
