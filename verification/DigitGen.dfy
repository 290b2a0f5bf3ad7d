/** Digit generation: the two loops of grisu2_digit_gen and the rounding loop of
    grisu2_round, working in place on the caller's buffer. */
module DigitGen {
  import opened Powers
  import opened Diyfps

  predicate IsDigit(c: char) {
    '0' <= c <= '9'
  }

  predicate IsDigits(s: seq<char>) {
    forall i :: 0 <= i < |s| ==> IsDigit(s[i])
  }

  function DigitOf(c: char): int {
    c as int - '0' as int
  }

  function ToDigit(d: int): (c: char)
    requires 0 <= d <= 9
    ensures IsDigit(c) && DigitOf(c) == d
  {
    ('0' as int + d) as char
  }

  /** The number a string of digits denotes. */
  function ValueOf(s: seq<char>): (v: int)
    requires IsDigits(s)
    ensures v >= 0
  {
    if s == [] then 0 else 10 * ValueOf(s[..|s| - 1]) + DigitOf(s[|s| - 1])
  }

  lemma {:induction false} ValueBounds(s: seq<char>)
    requires IsDigits(s) && |s| > 0
    ensures ValueOf(s) < Pow(10, |s|)
    ensures s[0] != '0' ==> Pow(10, |s| - 1) <= ValueOf(s)
  {
    if |s| > 1 {
      ValueBounds(s[..|s| - 1]);
    } else {
      assert s[..0] == [];
    }
  }

  // --------------------------------------------------------------- rounding

  function Distance(x: int, y: int): int {
    if x < y then y - x else x - y
  }

  predicate ShouldStep(dist: int, delta: int, rest: int, tenK: int) {
    rest < dist && delta - rest >= tenK && (rest + tenK < dist || dist - rest > rest + tenK - dist)
  }

  /** The same test on words: the order in which its parts stand keeps every sum and
      difference from wrapping. */
  predicate ShouldStepOnWords(dist: Word, delta: Word, rest: Word, tenK: Word)
    requires rest <= delta
  {
    && rest < dist
    && (var room: Word := delta - rest; room >= tenK)
    && (var next: Word := rest + tenK;
        next < dist || (var before: Word, after: Word := dist - rest, next - dist; before > after))
  }

  /** How many times the last digit is decremented. */
  function RoundSteps(dist: int, delta: int, rest: int, tenK: int): (j: nat)
    requires tenK > 0
    decreases delta - rest
  {
    if ShouldStep(dist, delta, rest, tenK) then 1 + RoundSteps(dist, delta, rest + tenK, tenK) else 0
  }

  lemma {:induction false} RoundStepsClosest(dist: int, delta: int, rest: int, tenK: int, i: nat)
    requires tenK > 0 && 0 <= rest <= delta && 0 <= dist <= delta
    ensures var j := RoundSteps(dist, delta, rest, tenK);
      && rest + j * tenK <= delta
      && (rest + i * tenK <= delta ==> Distance(dist, rest + j * tenK) <= Distance(dist, rest + i * tenK))
    decreases delta - rest
  {
    if ShouldStep(dist, delta, rest, tenK) {
      var j := RoundSteps(dist, delta, rest, tenK);
      RoundStepsClosest(dist, delta, rest + tenK, tenK, if i > 0 then i - 1 else 0);
      OneStepLess(rest, j, tenK);
      if i > 0 {
        OneStepLess(rest, i, tenK);
      } else {
        StepIsCloser(dist, delta, rest, tenK);
      }
    } else if i > 0 && rest + i * tenK <= delta {
      StoppedIsClosest(dist, delta, rest, tenK, i);
    }
  }

  lemma OneStepLess(rest: int, j: int, tenK: int)
    ensures rest + j * tenK == rest + tenK + (j - 1) * tenK
  {
  }

  lemma StepIsCloser(dist: int, delta: int, rest: int, tenK: int)
    requires ShouldStep(dist, delta, rest, tenK) && tenK > 0
    ensures rest + tenK <= delta && Distance(dist, rest + tenK) <= Distance(dist, rest)
  {
  }

  lemma StoppedIsClosest(dist: int, delta: int, rest: int, tenK: int, i: nat)
    requires !ShouldStep(dist, delta, rest, tenK) && tenK > 0 && 0 <= dist <= delta
    requires i > 0 && rest + i * tenK <= delta
    ensures Distance(dist, rest) <= Distance(dist, rest + i * tenK)
  {
    MulLe(1, i, tenK);
  }

  /** The decremented digit stays above '0' because going down that far would
      leave the interval. */
  method Grisu2Round(buf: array<char>, len: nat, dist: Word, delta: Word, rest: Word, tenK: Word)
    requires 1 <= len <= buf.Length && dist <= delta && rest <= delta && tenK > 0
    requires IsDigit(buf[len - 1]) && rest + DigitOf(buf[len - 1]) * tenK > delta
    modifies buf
    ensures RoundSteps(dist, delta, rest, tenK) < old(DigitOf(buf[len - 1]))
    ensures IsDigit(buf[len - 1])
    ensures DigitOf(buf[len - 1]) == old(DigitOf(buf[len - 1])) - RoundSteps(dist, delta, rest, tenK)
    ensures forall i :: 0 <= i < buf.Length && i != len - 1 ==> buf[i] == old(buf[i])
  {
    var r: Word := rest;
    while ShouldStepOnWords(dist, delta, r, tenK)
      invariant rest <= r <= delta
      invariant IsDigit(buf[len - 1]) && r + DigitOf(buf[len - 1]) * tenK > delta
      invariant DigitOf(buf[len - 1]) - RoundSteps(dist, delta, r, tenK)
             == old(DigitOf(buf[len - 1])) - RoundSteps(dist, delta, rest, tenK)
      invariant forall i :: 0 <= i < buf.Length && i != len - 1 ==> buf[i] == old(buf[i])
      decreases delta - r
    {
      var d := DigitOf(buf[len - 1]);
      assert d != 0;
      assert d * tenK == (d - 1) * tenK + tenK;
      buf[len - 1] := ToDigit(d - 1);
      r := r + tenK;
    }
    assert DigitOf(buf[len - 1]) > 0;
  }

  // ----------------------------------------------------- what digits achieve

  /** digits * ulp lies in [low, high], no coarser multiple does, and no other
      multiple in there is nearer to the centre. */
  ghost predicate Best(digits: int, ulp: int, low: int, centre: int, high: int) {
    && low <= digits * ulp <= high
    && (forall t: nat :: !InRange(t * 10, ulp, low, high))
    && (forall t: nat :: InRange(t, ulp, low, high)
          ==> Distance(digits * ulp, centre) <= Distance(t * ulp, centre))
  }

  predicate InRange(t: int, ulp: int, low: int, high: int) {
    low <= t * ulp <= high
  }

  lemma LastDigitBest(prefix: int, d: int, ulp: int, rest: int, low: int, centre: int, high: int)
    requires high == (10 * prefix + d) * ulp + rest && 0 <= rest < ulp && 0 <= d <= 9 && prefix >= 0
    requires low <= centre <= high && rest <= high - low < rest + d * ulp
    ensures Best(10 * prefix + d - RoundSteps(high - centre, high - low, rest, ulp), ulp, low, centre, high)
  {
    var dist, delta := high - centre, high - low;
    var digits := 10 * prefix + d;
    var j := RoundSteps(dist, delta, rest, ulp);
    RoundStepsClosest(dist, delta, rest, ulp, 0);
    ScaledDifference(digits, j, ulp);
    forall t: nat ensures !InRange(t * 10, ulp, low, high) {
      if InRange(t * 10, ulp, low, high) {
        StepsBelow(digits, t * 10, ulp, rest, high);
        MulLe(d, digits - t * 10, ulp);
      }
    }
    forall t: nat | InRange(t, ulp, low, high)
      ensures Distance((digits - j) * ulp, centre) <= Distance(t * ulp, centre)
    {
      NoneNearer(digits, t, ulp, rest, low, centre, high);
    }
  }

  lemma NoneNearer(digits: int, t: nat, ulp: int, rest: int, low: int, centre: int, high: int)
    requires high == digits * ulp + rest && 0 <= rest < ulp && rest <= high - low
    requires low <= centre <= high && InRange(t, ulp, low, high)
    ensures Distance((digits - RoundSteps(high - centre, high - low, rest, ulp)) * ulp, centre)
         <= Distance(t * ulp, centre)
  {
    StepsBelow(digits, t, ulp, rest, high);
    RoundStepsClosest(high - centre, high - low, rest, ulp, digits - t);
    ScaledDifference(digits, RoundSteps(high - centre, high - low, rest, ulp), ulp);
  }

  lemma StepsBelow(digits: int, t: int, ulp: int, rest: int, high: int)
    requires high == digits * ulp + rest && 0 <= rest < ulp && t * ulp <= high
    ensures t <= digits
    ensures high - t * ulp == rest + (digits - t) * ulp
  {
    assert (digits + 1) * ulp == digits * ulp + ulp;
    if t > digits { MulLe(digits + 1, t, ulp); }
    ScaledDifference(digits, t, ulp);
  }

  // ------------------------------------------------------- digit generation

  /** For 0 the power is 1, which is above it. */
  method FindLargestPow10(n: int) returns (k: nat, pow10: int)
    requires 0 <= n < TWO32
    ensures 1 <= k <= 10 && pow10 == Pow(10, k - 1)
    ensures n < 10 * pow10 && (pow10 <= n <==> n > 0)
    ensures n == 0 ==> k == 1
  {
    SmallPowersOfTen();
    if n >= 1000000000 { return 10, 1000000000; }
    if n >= 100000000 { return 9, 100000000; }
    if n >= 10000000 { return 8, 10000000; }
    if n >= 1000000 { return 7, 1000000; }
    if n >= 100000 { return 6, 100000; }
    if n >= 10000 { return 5, 10000; }
    if n >= 1000 { return 4, 1000; }
    if n >= 100 { return 3, 100; }
    if n >= 10 { return 2, 10; }
    return 1, 1;
  }

  lemma SmallPowersOfTen()
    ensures Pow(10, 0) == 1 && Pow(10, 1) == 10 && Pow(10, 2) == 100 && Pow(10, 3) == 1000
    ensures Pow(10, 4) == 10000 && Pow(10, 5) == 100000 && Pow(10, 6) == 1000000
    ensures Pow(10, 7) == 10000000 && Pow(10, 8) == 100000000 && Pow(10, 9) == 1000000000
  {
  }

  /** A finished digit string for the interval [low, high] around centre, with one
      unit of its last digit worth ulp. */
  ghost predicate Finished(s: seq<char>, ulp: int, low: int, centre: int, high: int) {
    && 1 <= |s| <= 17
    && IsDigits(s)
    && s[0] != '0' && s[|s| - 1] != '0'
    && Best(ValueOf(s), ulp, low, centre, high)
  }

  /** The digits generated so far, scaled by ulp, miss high by rest, and that is
      still more than the width delta of the interval. */
  ghost predicate Generated(s: seq<char>, ulp: int, rest: int, delta: int, high: int) {
    && IsDigits(s)
    && (|s| > 0 ==> s[0] != '0')
    && high == ValueOf(s) * ulp + rest
    && delta < rest
  }

  /** One more digit. */
  lemma AppendDigit(s: seq<char>, ulp: int, rest: int, delta: int, high: int, d: int, ulp': int, rest': int)
    requires Generated(s, ulp, rest, delta, high)
    requires 0 <= d <= 9 && ulp == 10 * ulp' && rest == d * ulp' + rest'
    requires |s| == 0 ==> d > 0
    ensures var s' := s + [ToDigit(d)];
      && IsDigits(s') && s'[0] != '0'
      && ValueOf(s') == 10 * ValueOf(s) + d
      && high == ValueOf(s') * ulp' + rest'
      && delta < d * ulp' + rest'
  {
    var s' := s + [ToDigit(d)];
    assert s'[..|s'| - 1] == s;
    Regroup(ValueOf(s), d, ulp, ulp');
  }

  lemma Regroup(v: int, d: int, ulp: int, ulp': int)
    requires ulp == 10 * ulp'
    ensures v * ulp + d * ulp' == (10 * v + d) * ulp'
  {
  }

  /** Rounding the last digit of what AppendDigit produced finishes the job. */
  lemma RoundedIsBest(s: seq<char>, t: seq<char>, prefix: int, d: int, ulp: int, rest: int,
                      low: int, centre: int, high: int)
    requires |s| > 0 && IsDigits(s) && s[0] != '0' && ValueOf(s) == 10 * prefix + d
    requires prefix >= 0 && DigitOf(s[|s| - 1]) == d
    requires high == ValueOf(s) * ulp + rest && 0 <= rest < ulp
    requires low <= centre <= high && rest <= high - low < d * ulp + rest
    requires |t| == |s| <= 17 && t[..|t| - 1] == s[..|s| - 1] && IsDigit(t[|t| - 1])
    requires DigitOf(t[|t| - 1]) == d - RoundSteps(high - centre, high - low, rest, ulp) > 0
    ensures Finished(t, ulp, low, centre, high)
  {
    forall i | 0 <= i < |t| ensures IsDigit(t[i]) {
      if i < |t| - 1 { assert t[i] == t[..|t| - 1][i] == s[i]; }
    }
    assert |t| > 1 ==> t[0] == t[..|t| - 1][0] == s[0];
    LastDigitBest(prefix, d, ulp, rest, low, centre, high);
  }

  lemma SplitRest(p1: int, pow10: int, one: int, p2: int)
    requires pow10 > 0 && one > 0 && p1 >= 0 && 0 <= p2 < one
    ensures p1 * one + p2 == (p1 / pow10) * (pow10 * one) + ((p1 % pow10) * one + p2)
    ensures 0 <= (p1 % pow10) * one + p2 < pow10 * one
  {
    var d, r := p1 / pow10, p1 % pow10;
    assert p1 == d * pow10 + r;
    Reassociate(d, pow10, r, one);
    MulLe(r + 1, pow10, one);
    MulLe(0, r, one);
  }

  lemma Reassociate(d: int, b: int, r: int, c: int)
    ensures (d * b + r) * c == d * (b * c) + r * c
  {
  }

  /** There is no room for an eighteenth digit: the interval is too wide. */
  lemma SeventeenDigitsSuffice(s: seq<char>, one: int, rest: int, delta: int, high: int)
    requires Generated(s, one, rest, delta, high) && rest < one && one > 0
    requires 10 * high <= 100000000000000000 * delta
    ensures |s| < 17
  {
    if |s| >= 17 {
      var v := ValueOf(s);
      assert 10000000000000000 <= v by {
        ValueBounds(s);
        PowMonotone(10, 16, |s| - 1);
        TenToThe16();
      }
      MulLe(10000000000000000, v, one);
      assert false;
    }
  }

  lemma TenToThe16()
    ensures Pow(10, 16) == 10000000000000000
  {
    PowAdd(10, 8, 8);
    SmallPowersOfTen();
  }

  lemma UnitBounds(e: nat)
    requires 32 <= e <= 60
    ensures TWO32 <= Pow(2, e) <= TWO63 / 8
  {
    PowMonotone(2, 32, e);
    PowMonotone(2, e, 60);
    PowersOfTwo();
  }

  /** The facts both digit loops run under: delta and dist are the gaps from high
      down to low and to the centre. */
  ghost predicate Gaps(delta: int, dist: int, low: int, centre: int, high: int) {
    low <= centre <= high && delta == high - low && dist == high - centre
  }

  /** Both loops end by rounding the last digit d toward the centre. */
  method RoundLastDigit(buffer: array<char>, length: nat, dist: Word, delta: Word, rest: Word, tenK: Word,
                        ghost prefix: int, ghost low: int, ghost centre: int, ghost high: int)
    requires 1 <= length <= 17 <= buffer.Length && Gaps(delta, dist, low, centre, high)
    requires IsDigits(buffer[..length]) && buffer[0] != '0' && prefix >= 0
    requires ValueOf(buffer[..length]) == 10 * prefix + DigitOf(buffer[length - 1])
    requires high == ValueOf(buffer[..length]) * tenK + rest
    requires rest < tenK && rest <= delta < DigitOf(buffer[length - 1]) * tenK + rest
    modifies buffer
    ensures Finished(buffer[..length], tenK, low, centre, high)
  {
    ghost var s, d := buffer[..length], DigitOf(buffer[length - 1]);
    Grisu2Round(buffer, length, dist, delta, rest, tenK);
    RoundedIsBest(s, buffer[..length], prefix, d, tenK, rest, low, centre, high);
  }

  /** Phase 1: the digits of the integral part p1, with 10^n the weight of the
      digit to come. */
  method IntegralDigits(buffer: array<char>, one: Word, p1: int, p2: Word, delta: Word, dist: Word,
                        ghost low: int, ghost centre: int, ghost high: int)
    returns (length: nat, n: nat, done: bool)
    requires buffer.Length >= 17 && 0 < p1 < TWO32 && p2 < one
    requires Gaps(delta, dist, low, centre, high) && 0 < low
    requires high == p1 * one + p2 < TWO64
    modifies buffer
    ensures 1 <= length <= 10
    ensures done ==> Finished(buffer[..length], Pow(10, n) * one, low, centre, high)
    ensures !done ==> Generated(buffer[..length], one, p2, delta, high)
  {
    var p, pow10 := p1, 0;
    n, pow10 := FindLargestPow10(p1);
    ghost var k := n;
    length := 0;
    done := false;
    while n > 0
      invariant 0 <= n <= k <= 10 && length == k - n
      invariant n > 0 ==> pow10 == Pow(10, n - 1)
      invariant 0 <= p < Pow(10, n)
      invariant length == 0 ==> n > 0 && pow10 <= p
      invariant Generated(buffer[..length], Pow(10, n) * one, p * one + p2, delta, high)
    {
      ghost var s := buffer[..length];
      var rest, tenN;
      p, rest, tenN := NextIntegralDigit(buffer, length, n, p, pow10, one, p2, delta, high);
      length := length + 1;
      n := n - 1;
      if rest <= delta {
        RoundLastDigit(buffer, length, dist, delta, rest, tenN, ValueOf(s), low, centre, high);
        done := true;
        return;
      }
      pow10 := pow10 / 10;
    }
  }

  /** Writes the leading digit of p and returns what is left, alone and with the
      fraction, and the weight of the digit. */
  method NextIntegralDigit(buffer: array<char>, length: nat, n: nat, p: int, pow10: int, one: Word, p2: Word,
                           ghost delta: int, ghost high: int)
    returns (r: int, rest: Word, tenN: Word)
    requires length < buffer.Length && n > 0 && pow10 == Pow(10, n - 1) && 0 <= p < Pow(10, n)
    requires p2 < one && high < TWO64 && (length == 0 ==> pow10 <= p)
    requires Generated(buffer[..length], Pow(10, n) * one, p * one + p2, delta, high)
    modifies buffer
    ensures 0 <= r < pow10 && rest == r * one + p2 < tenN == pow10 * one
    ensures var s := buffer[..length + 1];
      && IsDigits(s) && s[0] != '0' && high == ValueOf(s) * tenN + rest
      && ValueOf(s) == 10 * ValueOf(old(buffer[..length])) + DigitOf(s[length])
      && delta < DigitOf(s[length]) * tenN + rest
    ensures delta < rest ==> Generated(buffer[..length + 1], Pow(10, n - 1) * one, r * one + p2, delta, high)
  {
    ghost var s := buffer[..length];
    IntegralStep(s, n, p, pow10, one, p2, delta, high);
    buffer[length] := ToDigit(p / pow10);
    r, rest, tenN := p % pow10, p % pow10 * one + p2, pow10 * one;
    assert buffer[..length + 1] == s + [ToDigit(p / pow10)];
  }

  /** One round of the first loop: d is a digit, the invariant is restored one
      decimal place further down, and rest and ulp fit into a word. */
  lemma IntegralStep(s: seq<char>, n: nat, p: int, pow10: int, one: int, p2: int, delta: int, high: int)
    requires n > 0 && pow10 == Pow(10, n - 1) && 0 <= p < Pow(10, n) && 0 <= p2 < one
    requires Generated(s, Pow(10, n) * one, p * one + p2, delta, high)
    requires |s| == 0 ==> pow10 <= p
    ensures var d, ulp, rest := p / pow10, pow10 * one, (p % pow10) * one + p2;
      && 0 <= d <= 9
      && (var s' := s + [ToDigit(d)];
          && IsDigits(s') && s'[0] != '0' && ValueOf(s') == 10 * ValueOf(s) + d
          && high == ValueOf(s') * ulp + rest)
      && 0 <= rest < ulp <= high
      && delta < d * ulp + rest
  {
    var d, ulp, rest := p / pow10, pow10 * one, (p % pow10) * one + p2;
    DigitOfQuotient(p, pow10);
    SplitRest(p, pow10, one, p2);
    var above := Pow(10, n) * one;
    assert above == 10 * ulp by { Reassociate(10, pow10, 0, one); }
    AppendDigit(s, above, p * one + p2, delta, high, d, ulp, rest);
    RestFits(s + [ToDigit(d)], ulp, rest, high);
  }

  lemma DigitOfQuotient(p: int, pow10: int)
    requires pow10 > 0 && 0 <= p < 10 * pow10
    ensures 0 <= p / pow10 <= 9
    ensures pow10 <= p ==> p / pow10 > 0
  {
    var d := p / pow10;
    assert p == d * pow10 + p % pow10;
    if d >= 10 { MulLe(10, d, pow10); }
    if d < 0 { MulLe(d, -1, pow10); }
    if d == 0 { assert p < pow10; }
  }

  lemma RestFits(s: seq<char>, ulp: int, rest: int, high: int)
    requires IsDigits(s) && |s| > 0 && s[0] != '0' && ulp >= 0 && rest >= 0
    requires high == ValueOf(s) * ulp + rest
    ensures ulp <= high && rest <= high
  {
    ValueBounds(s);
    MulLe(1, ValueOf(s), ulp);
  }

  /** After a round the comment's lower bound on what is left, 10^(n-1) <= p1, holds
      exactly if the next digit is not zero. */
  lemma LowerBoundLost(p: int, n: nat)
    requires n > 1 && 0 <= p < Pow(10, n)
    ensures Pow(10, n - 2) <= p % Pow(10, n - 1) <==> p / Pow(10, n - 2) % 10 != 0
  {
    var r, low := p % Pow(10, n - 1), Pow(10, n - 2);
    QuotientRemainder(p, Pow(10, n - 1));
    DigitOfQuotient(r, low);
    var d, t := p / Pow(10, n - 1), r / low;
    NextDigit(d, r, low);
    assert p / low == d * 10 + t;
    ModOf(d, t, 10);
    QuotientRemainder(r, low);
    if t > 0 { MulLe(1, t, low); }
  }

  lemma NextDigit(d: int, r: int, low: int)
    requires low > 0
    ensures (d * (10 * low) + r) / low == 10 * d + r / low
  {
    var p := d * (10 * low) + r;
    QuotientRemainder(r, low);
    assert p == (10 * d + r / low) * low + r % low by { Reassociate(10 * d, 1, r / low, low); MulAssoc(d, 10, low); }
    DivisionUnique(p / low, p % low, 10 * d + r / low, r % low, low);
  }

  /** The loop in such a state: of 101 the first digit is out, its invariant holds with
      n == 2 and p1 == 1, and the comment's 10 <= p1 does not. */
  lemma LowerBoundLostAt101(one: int, p2: int, delta: int)
    requires 0 <= p2 < one && delta < one + p2
    ensures Generated("", Pow(10, 3) * one, 101 * one + p2, delta, 101 * one + p2) && Pow(10, 2) <= 101 < Pow(10, 3)
    ensures Generated("1", Pow(10, 2) * one, 1 * one + p2, delta, 101 * one + p2) && 101 % Pow(10, 2) == 1
    ensures !(Pow(10, 1) <= 1)
  {
    SmallPowersOfTen();
    assert "1"[..0] == [] && ValueOf("1") == 1;
  }

  /** One round of the second loop, with everything scaled up by ten. */
  lemma FractionStep(s: seq<char>, one: int, p2: int, delta: int, high: int)
    requires |s| > 0 && Generated(s, one, p2, delta, high) && p2 < one && one > 0 && delta >= 0
    ensures var d, rest := 10 * p2 / one, 10 * p2 % one;
      && 0 <= d <= 9 && 0 <= rest < one
      && (var s' := s + [ToDigit(d)];
          && IsDigits(s') && s'[0] != '0' && ValueOf(s') == 10 * ValueOf(s) + d
          && 10 * high == ValueOf(s') * one + rest)
      && 10 * delta < d * one + rest
  {
    var p := 10 * p2;
    var d, rest := p / one, p % one;
    DigitOfQuotient(p, one);
    QuotientRemainder(p, one);
    var v := ValueOf(s);
    assert v * (10 * one) == 10 * (v * one) by { MulAssoc(v, 10, one); MulAssoc(10, v, one); }
    assert Generated(s, 10 * one, p, 10 * delta, 10 * high);
    AppendDigit(s, 10 * one, p, 10 * delta, 10 * high, d, one, rest);
  }

  lemma QuotientRemainder(x: int, y: int)
    requires y > 0
    ensures x == (x / y) * y + x % y
  {
  }

  /** Phase 2: the digits of the fraction p2, multiplied by ten in every round. */
  method FractionDigits(buffer: array<char>, start: nat, one: Word, p2: Word, delta: Word, dist: Word,
                        ghost low: int, ghost centre: int, ghost high: int)
    returns (length: nat, m: nat)
    requires 1 <= start <= 10 && buffer.Length >= 17 && 0 < one <= TWO63 / 8
    requires Gaps(delta, dist, low, centre, high) && 0 < delta
    requires 10 * high <= 100000000000000000 * delta
    requires Generated(buffer[..start], one, p2, delta, high) && p2 < one
    modifies buffer
    ensures length <= 17
    ensures Finished(buffer[..length], one, low * Pow(10, m), centre * Pow(10, m), high * Pow(10, m))
  {
    length, m := start, 0;
    var p: Word, dl: Word, ds: Word := p2, delta, dist;
    ghost var lo, ce, hi := low, centre, high;
    while true
      invariant 1 <= length <= 17
      invariant lo == low * Pow(10, m) && ce == centre * Pow(10, m) && hi == high * Pow(10, m)
      invariant Gaps(dl, ds, lo, ce, hi) && 0 < dl
      invariant 10 * hi <= 100000000000000000 * dl
      invariant Generated(buffer[..length], one, p, dl, hi) && p < one
      decreases one - dl
    {
      ghost var s := buffer[..length];
      SeventeenDigitsSuffice(s, one, p, dl, hi);
      p := NextFractionDigit(buffer, length, one, p, dl, hi);
      length := length + 1;
      TenfoldPower(low, m);
      TenfoldPower(centre, m);
      TenfoldPower(high, m);
      m := m + 1;
      dl := 10 * dl;
      ds := 10 * ds;
      lo, ce, hi := 10 * lo, 10 * ce, 10 * hi;
      if p <= dl {
        RoundLastDigit(buffer, length, ds, dl, p, one, ValueOf(s), lo, ce, hi);
        return;
      }
    }
  }

  /** Writes the next digit of the fraction and returns what is left, times ten. */
  method NextFractionDigit(buffer: array<char>, length: nat, one: Word, p: Word, ghost delta: int, ghost high: int)
    returns (r: Word)
    requires 0 < length < buffer.Length && 0 < one <= TWO63 / 8 && delta >= 0 && p < one
    requires Generated(buffer[..length], one, p, delta, high)
    modifies buffer
    ensures r < one
    ensures var s := buffer[..length + 1];
      && IsDigits(s) && s[0] != '0' && 10 * high == ValueOf(s) * one + r
      && ValueOf(s) == 10 * ValueOf(old(buffer[..length])) + DigitOf(s[length])
      && 10 * delta < DigitOf(s[length]) * one + r
  {
    ghost var s := buffer[..length];
    FractionStep(s, one, p, delta, high);
    var p10: Word := 10 * p;
    buffer[length] := ToDigit(p10 / one);
    assert buffer[..length + 1] == s + [ToDigit(p10 / one)];
    return p10 % one;
  }

  lemma TenfoldPower(x: int, m: nat)
    ensures x * Pow(10, m + 1) == 10 * (x * Pow(10, m))
  {
    MulAssoc(10, x, Pow(10, m));
  }

  /** Generates the digits of M+ from left to right, stops as soon as what is left
      fits into the interval, and then rounds toward w. */
  method Grisu2DigitGen(buffer: array<char>, exponent: int, mMinus: Diyfp, w: Diyfp, mPlus: Diyfp)
    returns (length: nat, decimalExponent: int)
    requires buffer.Length >= 17
    requires mMinus.e == w.e == mPlus.e && -60 <= mPlus.e <= -32
    requires 0 < mMinus.f <= w.f <= mPlus.f && mMinus.f < mPlus.f
    requires Pow(2, -mPlus.e) <= mPlus.f
    requires 10 * mPlus.f <= 100000000000000000 * (mPlus.f - mMinus.f)
    modifies buffer
    ensures length <= 17
    ensures var q := decimalExponent - exponent;
      Finished(buffer[..length], Up(10, q) * Pow(2, -mPlus.e),
               mMinus.f * Down(10, q), w.f * Down(10, q), mPlus.f * Down(10, q))
  {
    var delta: Word, dist: Word := Sub(mPlus, mMinus).f, Sub(mPlus, w).f;
    UnitBounds(-mPlus.e);
    var one: Word := Pow(2, -mPlus.e);
    var p1, p2: Word := mPlus.f / one, mPlus.f % one;
    SplitWord(mPlus.f, one);
    var n, done;
    length, n, done := IntegralDigits(buffer, one, p1, p2, delta, dist, mMinus.f, w.f, mPlus.f);
    if done {
      FinishedAbove(buffer[..length], n, one, mMinus.f, w.f, mPlus.f);
      decimalExponent := exponent + n;
    } else {
      var m;
      length, m := FractionDigits(buffer, length, one, p2, delta, dist, mMinus.f, w.f, mPlus.f);
      FinishedBelow(buffer[..length], m, one, mMinus.f, w.f, mPlus.f);
      decimalExponent := exponent - m;
    }
  }

  lemma FinishedAbove(s: seq<char>, n: nat, one: int, low: int, centre: int, high: int)
    requires Finished(s, Pow(10, n) * one, low, centre, high)
    ensures Finished(s, Up(10, n) * one, low * Down(10, n), centre * Down(10, n), high * Down(10, n))
  {
    assert Up(10, n) == Pow(10, n) && Down(10, n) == 1;
  }

  lemma FinishedBelow(s: seq<char>, m: nat, one: int, low: int, centre: int, high: int)
    requires Finished(s, one, low * Pow(10, m), centre * Pow(10, m), high * Pow(10, m))
    ensures Finished(s, Up(10, 0 - m) * one, low * Down(10, 0 - m), centre * Down(10, 0 - m), high * Down(10, 0 - m))
  {
    assert Up(10, 0 - m) == 1 && Down(10, 0 - m) == Pow(10, m);
  }

  lemma SplitWord(f: Word, one: int)
    requires TWO32 <= one <= f
    ensures 0 < f / one < TWO32 && f == (f / one) * one + f % one
  {
    QuotientRemainder(f, one);
    var q := f / one;
    if q <= 0 { MulLe(q, 0, one); }
    if q >= TWO32 { MulLe(TWO32, q, one); MulLe(TWO32, one, TWO32); }
  }
}
