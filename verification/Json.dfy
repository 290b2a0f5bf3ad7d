/** JSON values and the equality of basic_json. */
module Jsons {
  import opened Powers
  import opened Diyfps

  datatype Option<T> = None | Some(value: T)

  /** A double: NaN, an infinity, or a signed magnitude. */
  datatype Float = NaN | Infinity(negative: bool) | Finite(negative: bool, magnitude: FiniteDouble)

  type FiniteDouble = d: Double | d.E < 2047 && d.F < HIDDEN witness Double(0, 0)

  type Int64 = x: int | -TWO63 <= x < TWO63

  /** Binary values carry the bytes and the optional subtype. */
  datatype Json =
    | Null
    | Boolean(b: bool)
    | Integer(i: Int64)
    | Unsigned(u: Word)
    | Floating(x: Float)
    | Str(s: string)
    | Binary(bytes: seq<Byte>, subtype: Option<Word>)
    | Array(elements: seq<Json>)
    | Object(members: map<string, Json>)
    | Discarded

  type Byte = x: int | 0 <= x < 256

  /** static_cast<double> of an integer below 2^64 in magnitude: an integer again,
      rounded to 53 significant bits with ties to even. */
  function NearestDouble(n: int): (r: int) {
    if n < 0 then 0 - RoundedToUnit(0 - n, 1) else RoundedToUnit(n, 1)
  }

  /** The unit of the last place is the first power of two, from unit on, that
      leaves at most 53 bits. */
  function RoundedToUnit(n: nat, unit: nat): (r: nat)
    requires unit > 0
    decreases if n > unit then n - unit else 0
  {
    if n / unit < 2 * HIDDEN then (n / unit + RoundUp(n / unit, n % unit, unit)) * unit
    else RoundedToUnit(n, 2 * unit)
  }

  function RoundUp(quotient: nat, rest: nat, unit: nat): nat {
    if 2 * rest > unit || (2 * rest == unit && quotient % 2 == 1) then 1 else 0
  }

  /** Whether a double has the integer value n. */
  predicate HasValue(x: Float, n: int) {
    && x.Finite?
    && (if x.negative then -1 else 1) * (x.magnitude.Significand() * Up(2, x.magnitude.Exponent()))
       == n * Down(2, x.magnitude.Exponent())
  }

  /** operator== on doubles: NaN differs from everything, zeros are equal. */
  predicate FloatEqual(x: Float, y: Float) {
    match (x, y)
    case (Infinity(m), Infinity(n)) => m == n
    case (Finite(m, a), Finite(n, b)) => a == b && (m == n || a.Significand() == 0)
    case _ => false
  }

  function ToSigned(u: Word): Int64 {
    if u < TWO63 then u else u - TWO64
  }

  predicate Equal(a: Json, b: Json) {
    match (a, b)
    case (Null, Null) => true
    case (Boolean(x), Boolean(y)) => x == y
    case (Integer(x), Integer(y)) => x == y
    case (Unsigned(x), Unsigned(y)) => x == y
    case (Floating(x), Floating(y)) => FloatEqual(x, y)
    case (Str(x), Str(y)) => x == y
    case (Binary(x, s), Binary(y, t)) => x == y && s == t
    case (Array(x), Array(y)) => |x| == |y| && forall i :: 0 <= i < |x| ==> Equal(x[i], y[i])
    case (Object(x), Object(y)) => x.Keys == y.Keys && forall k :: k in x ==> Equal(x[k], y[k])
    case (Integer(x), Floating(y)) => HasValue(y, NearestDouble(x))
    case (Floating(x), Integer(y)) => HasValue(x, NearestDouble(y))
    case (Unsigned(x), Floating(y)) => HasValue(y, NearestDouble(x))
    case (Floating(x), Unsigned(y)) => HasValue(x, NearestDouble(y))
    case (Unsigned(x), Integer(y)) => ToSigned(x) == y
    case (Integer(x), Unsigned(y)) => x == ToSigned(y)
    case _ => false
  }

  /** Neither NaN nor a discarded value anywhere inside. */
  predicate Clean(j: Json) {
    match j
    case Floating(x) => !x.NaN?
    case Array(x) => forall i :: 0 <= i < |x| ==> Clean(x[i])
    case Object(x) => forall k :: k in x ==> Clean(x[k])
    case Discarded => false
    case _ => true
  }

  /** The values equal to themselves are the clean ones. */
  lemma {:induction false} EqualReflexive(j: Json)
    ensures Equal(j, j) <==> Clean(j)
  {
    match j
    case Array(x) =>
      forall i | 0 <= i < |x| ensures Equal(x[i], x[i]) <==> Clean(x[i]) { EqualReflexive(x[i]); }
    case Object(x) =>
      forall k | k in x ensures Equal(x[k], x[k]) <==> Clean(x[k]) { EqualReflexive(x[k]); }
    case _ =>
  }

  /** Nothing equals a value that is not clean. */
  lemma {:induction false} EqualIsClean(a: Json, b: Json)
    requires Equal(a, b)
    ensures Clean(a) && Clean(b)
    decreases b
  {
    match (a, b)
    case (Array(x), Array(y)) =>
      forall i | 0 <= i < |x| ensures Clean(x[i]) && Clean(y[i]) { EqualIsClean(x[i], y[i]); }
    case (Object(x), Object(y)) =>
      forall k | k in y ensures Clean(x[k]) && Clean(y[k]) { EqualIsClean(x[k], y[k]); }
    case _ =>
  }

  lemma {:induction false} EqualSymmetric(a: Json, b: Json)
    requires Equal(a, b)
    ensures Equal(b, a)
    decreases b
  {
    match (a, b)
    case (Array(x), Array(y)) =>
      forall i | 0 <= i < |x| ensures Equal(y[i], x[i]) { EqualSymmetric(x[i], y[i]); }
    case (Object(x), Object(y)) =>
      forall k | k in y ensures Equal(y[k], x[k]) { EqualSymmetric(x[k], y[k]); }
    case _ =>
  }
}
