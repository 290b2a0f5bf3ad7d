/** The per-contract validator and its timestamp filter. */
module UnitProcessors {
  import opened Powers
  import opened Decimals

  /** A signed char, and a nine-byte character array. */
  type Char = x: int | -128 <= x < 128
  type Text = s: seq<Char> | |s| == 9 witness [0, 0, 0, 0, 0, 0, 0, 0, 0]
  type Int32 = x: int | -0x8000_0000 <= x < 0x8000_0000

  const ZERO := 48
  const COLON := 58

  /** A tick, with the verdicts of the checks that look at nothing but the tick. */
  datatype Tick = Tick(
    updateTime: Text,
    actionDay: Text,
    tradingDay: Text,
    millisec: Int32,
    exchangeOk: bool,
    priceOk: bool,
    volumeOk: bool,
    packetOk: bool)

  datatype Config = Config(
    exchangeCheck: bool,
    timestampCheck: bool,
    priceCheck: bool,
    volumeCheck: bool,
    packetCheck: bool,
    useTradingDay: bool,
    tolerance: Int32,
    allowSameMs: bool)

  // -------------------------------------------------------------- timestamps

  /** No run of digits at the beginning exceeds int64_t, whose overflow is undefined. */
  predicate FitsInt64(str: seq<Char>, len: nat)
    requires len <= |str|
  {
    forall i :: 0 <= i <= len && AllDigits(str[..i]) ==> DigitsValue(str[..i]) < TWO63
  }

  method StrToInt64(str: seq<Char>, len: nat) returns (ok: bool, out: int)
    requires len <= |str| && FitsInt64(str, len)
    ensures ok <==> forall i :: 0 <= i < len ==> IsDigitCode(str[i])
    ensures ok ==> out == DigitsValue(str[..len])
    ensures 0 <= out < TWO63
  {
    out := 0;
    for i := 0 to len
      invariant forall k :: 0 <= k < i ==> IsDigitCode(str[k])
      invariant out == DigitsValue(str[..i]) < TWO63
    {
      if !IsDigitCode(str[i]) {
        return false, out;
      }
      assert str[..i + 1][..i] == str[..i];
      assert AllDigits(str[..i + 1]);
      out := out * 10 + (str[i] - ZERO);
    }
    return true, out;
  }

  /** Eighteen characters always fit. */
  lemma EighteenDigits(str: seq<Char>, len: nat)
    requires len <= |str| && len <= 18
    ensures FitsInt64(str, len)
  {
    assert Pow(10, 3) == 1_000;
    Scale(10, 3, 1_000, 3, 1_000);
    Scale(10, 3, 1_000, 6, 1_000_000);
    Scale(10, 9, 1_000_000_000, 9, 1_000_000_000);
    forall i | 0 <= i <= len && AllDigits(str[..i]) ensures DigitsValue(str[..i]) < TWO63 {
      PowMonotone(10, i, 18);
    }
  }

  /** Day, hour, minute, second and millisecond as they are read. */
  datatype Moment = Moment(day: int, hour: int, minute: int, second: int, ms: int)

  predicate InRange(t: Moment) {
    && 0 <= t.day < 100_000_000
    && 0 <= t.hour <= 23 && 0 <= t.minute <= 59 && 0 <= t.second <= 59 && 0 <= t.ms <= 999
  }

  /** Two characters read as a number, whether or not they are digits. */
  function TwoDigits(a: Char, b: Char): int {
    (a - ZERO) * 10 + (b - ZERO)
  }

  function DayText(config: Config, tick: Tick): Text {
    if config.useTradingDay then tick.tradingDay else tick.actionDay
  }

  predicate DayIsNumeric(text: Text) {
    forall i :: 0 <= i < 8 ==> IsDigitCode(text[i])
  }

  /** The moment a tick states, if it is well-formed. */
  predicate IsMoment(config: Config, tick: Tick) {
    var s := tick.updateTime;
    && s[2] == COLON && s[5] == COLON
    && 0 <= TwoDigits(s[0], s[1]) <= 23 && 0 <= TwoDigits(s[3], s[4]) <= 59 && 0 <= TwoDigits(s[6], s[7]) <= 59
    && 0 <= tick.millisec <= 999 && DayIsNumeric(DayText(config, tick))
  }

  function MomentOf(config: Config, tick: Tick): (r: Moment)
    requires IsMoment(config, tick)
    ensures InRange(r)
  {
    var s := tick.updateTime;
    Pow10To8();
    Moment(DigitsValue(DayText(config, tick)[..8]), TwoDigits(s[0], s[1]), TwoDigits(s[3], s[4]),
           TwoDigits(s[6], s[7]), tick.millisec)
  }

  lemma Pow10To8()
    ensures Pow(10, 8) == 100_000_000
  {
    Scale(10, 4, 10_000, 4, 10_000);
  }

  /** The decimal packing of a moment. */
  function Packed(t: Moment): int {
    t.day * 1_000_000_000 + t.hour * 10_000_000 + t.minute * 100_000 + t.second * 1_000 + t.ms
  }

  predicate Earlier(a: Moment, b: Moment) {
    a.day < b.day || (a.day == b.day &&
    (a.hour < b.hour || (a.hour == b.hour &&
    (a.minute < b.minute || (a.minute == b.minute &&
    (a.second < b.second || (a.second == b.second && a.ms < b.ms)))))))
  }

  /** Packing embeds the order of moments, and fits an int64_t. */
  lemma PackedEmbedsOrder(a: Moment, b: Moment)
    requires InRange(a) && InRange(b)
    ensures Packed(a) < Packed(b) <==> Earlier(a, b)
    ensures Packed(a) == Packed(b) <==> a == b
    ensures 0 <= Packed(a) < TWO63
  {
  }

  function MsOfDay(t: Moment): int {
    ((t.hour * 60 + t.minute) * 60 + t.second) * 1000 + t.ms
  }

  /** Differences of hours, minutes, seconds and milliseconds. */
  lemma Differences(h: int, m: int, s: int, ms: int)
    requires -23 <= h <= 23 && -59 <= m <= 59 && -59 <= s <= 59 && -999 <= ms <= 999
    requires 10_000_000 * h + 100_000 * m + 1_000 * s + ms >= 0
    ensures h >= 0 && (h == 0 ==> m >= 0)
    ensures 3_600_000 * h + 60_000 * m + 1_000 * s + ms >= 0
    ensures 6_400_000 * h + 40_000 * m >= 0
    ensures 6_400_000 * h + 40_000 * m == 0 <==> h == 0 && m == 0
  {
  }

  /** Within a day the packed difference is never less than the milliseconds that have
      passed, and equals them exactly when hour and minute agree. */
  lemma PackedDifference(a: Moment, b: Moment)
    requires InRange(a) && InRange(b) && a.day == b.day && Packed(b) <= Packed(a)
    ensures 0 <= MsOfDay(a) - MsOfDay(b) <= Packed(a) - Packed(b)
    ensures MsOfDay(a) - MsOfDay(b) == Packed(a) - Packed(b) <==> a.hour == b.hour && a.minute == b.minute
  {
    var h, m, s, ms := a.hour - b.hour, a.minute - b.minute, a.second - b.second, a.ms - b.ms;
    var packed, passed := Packed(a) - Packed(b), MsOfDay(a) - MsOfDay(b);
    assert packed == 10_000_000 * h + 100_000 * m + 1_000 * s + ms;
    assert passed == 3_600_000 * h + 60_000 * m + 1_000 * s + ms;
    Differences(h, m, s, ms);
  }

  function Timestamp(config: Config, tick: Tick): (r: int)
    ensures r >= 0 <==> IsMoment(config, tick)
    ensures -1 <= r < TWO63
  {
    if IsMoment(config, tick) then
      PackedEmbedsOrder(MomentOf(config, tick), MomentOf(config, tick));
      Packed(MomentOf(config, tick))
    else -1
  }

  method CombineTimestamp(config: Config, tick: Tick) returns (timestamp: int)
    ensures timestamp == Timestamp(config, tick)
  {
    var s := tick.updateTime;
    if s[2] != COLON || s[5] != COLON {
      return -1;
    }
    var hour := (s[0] - ZERO) * 10 + (s[1] - ZERO);
    var minute := (s[3] - ZERO) * 10 + (s[4] - ZERO);
    var second := (s[6] - ZERO) * 10 + (s[7] - ZERO);
    if hour < 0 || hour > 23 || minute < 0 || minute > 59 || second < 0 || second > 59 {
      return -1;
    }
    if tick.millisec < 0 || tick.millisec > 999 {
      return -1;
    }
    var dayStr := if config.useTradingDay then tick.tradingDay else tick.actionDay;
    EighteenDigits(dayStr, 8);
    var ok, dayNum := StrToInt64(dayStr, 8);
    if !ok {
      return -1;
    }
    timestamp := dayNum * 1_000_000_000;
    timestamp := timestamp + hour * 10_000_000;
    timestamp := timestamp + minute * 100_000;
    timestamp := timestamp + second * 1_000;
    timestamp := timestamp + tick.millisec;
  }

  // ------------------------------------------------------------- the filter

  /** A timestamp that passes the check against the last one. */
  predicate Tolerated(last: int, config: Config, ts: int) {
    ts >= 0 && (ts >= last || last - ts <= config.tolerance)
  }

  /** Whether the tick gets as far as the timestamp check. */
  predicate Reaches(config: Config, tick: Tick) {
    config.timestampCheck && (config.exchangeCheck ==> tick.exchangeOk)
  }

  function NextLast(last: int, config: Config, tick: Tick): int {
    var ts := Timestamp(config, tick);
    if Reaches(config, tick) && ts > last && ts >= 0 then ts else last
  }

  predicate Accepts(last: int, config: Config, tick: Tick) {
    && (config.exchangeCheck ==> tick.exchangeOk)
    && (config.timestampCheck ==> Tolerated(last, config, Timestamp(config, tick)))
    && (config.priceCheck ==> tick.priceOk)
    && (config.volumeCheck ==> tick.volumeOk)
    && (config.packetCheck ==> tick.packetOk)
  }

  class UnitProcessor {
    var lastTimestamp: int
    const config: Config

    constructor (config: Config)
      ensures lastTimestamp == 0 && this.config == config
    {
      this.config := config;
      lastTimestamp := 0;
    }

    method CheckTimestampNew(tick: Tick) returns (ok: bool)
      modifies this
      ensures ok <==> Tolerated(old(lastTimestamp), config, Timestamp(config, tick))
      ensures lastTimestamp == if Timestamp(config, tick) > old(lastTimestamp) && Timestamp(config, tick) >= 0
                               then Timestamp(config, tick) else old(lastTimestamp)
    {
      var currentTs := CombineTimestamp(config, tick);
      if currentTs < 0 {
        return false;
      }
      if currentTs == lastTimestamp && config.allowSameMs {
        return true;
      }
      if currentTs < lastTimestamp {
        var totalMsDiff := lastTimestamp - currentTs;
        if totalMsDiff > config.tolerance {
          return false;
        }
        return true;
      }
      lastTimestamp := currentTs;
      return true;
    }

    method Validate(tick: Tick) returns (ok: bool)
      modifies this
      ensures ok <==> Accepts(old(lastTimestamp), config, tick)
      ensures lastTimestamp == NextLast(old(lastTimestamp), config, tick)
    {
      if config.exchangeCheck && !tick.exchangeOk {
        return false;
      }
      if config.timestampCheck {
        ok := CheckTimestampNew(tick);
        if !ok {
          return false;
        }
      }
      if config.priceCheck && !tick.priceOk {
        return false;
      }
      if config.volumeCheck && !tick.volumeOk {
        return false;
      }
      if config.packetCheck && !tick.packetOk {
        return false;
      }
      return true;
    }

    method Reset()
      modifies this
      ensures lastTimestamp == 0
    {
      lastTimestamp := 0;
    }
  }

  // -------------------------------------------------------- spelled timestamps

  /** Decimal digits of n, with leading zeros up to the width. */
  function Padded(n: int, width: nat): (s: seq<Char>)
    requires n >= 0
    ensures |s| == width && AllDigits(s)
  {
    if width == 0 then [] else Padded(n / 10, width - 1) + [ZERO + n % 10]
  }

  lemma {:induction false} PaddedValue(n: int, width: nat)
    requires 0 <= n < Pow(10, width)
    ensures DigitsValue(Padded(n, width)) == n
  {
    if width > 0 {
      PaddedValue(n / 10, width - 1);
      assert Padded(n, width)[..width - 1] == Padded(n / 10, width - 1);
    }
  }

  /** The tick's texts spell the moment t: HH:MM:SS, the day in eight digits of the text
      the configuration selects, and the milliseconds. */
  predicate Spells(config: Config, tick: Tick, t: Moment) {
    && InRange(t) && tick.millisec == t.ms
    && tick.updateTime[..8]
      == Padded(t.hour, 2) + [COLON] + Padded(t.minute, 2) + [COLON] + Padded(t.second, 2)
    && (if config.useTradingDay then tick.tradingDay else tick.actionDay)[..8] == Padded(t.day, 8)
  }

  lemma TwoPadded(n: int)
    requires 0 <= n <= 99
    ensures Padded(n, 2) == [ZERO + n / 10, ZERO + n % 10]
  {
    assert Padded(n / 100, 0) == [];
    assert Padded(n / 10, 1) == [ZERO + n / 10 % 10];
  }

  lemma TimeCharacters(s: Text, h: int, m: int, sec: int)
    requires 0 <= h <= 99 && 0 <= m <= 99 && 0 <= sec <= 99
    requires s[..8] == Padded(h, 2) + [COLON] + Padded(m, 2) + [COLON] + Padded(sec, 2)
    ensures TwoDigits(s[0], s[1]) == h && TwoDigits(s[3], s[4]) == m && TwoDigits(s[6], s[7]) == sec
    ensures s[2] == COLON && s[5] == COLON
  {
    TwoPadded(h);
    TwoPadded(m);
    TwoPadded(sec);
    var t := s[..8];
    assert t
      == [ZERO + h / 10, ZERO + h % 10, COLON, ZERO + m / 10, ZERO + m % 10, COLON, ZERO + sec / 10, ZERO + sec % 10];
    assert forall i :: 0 <= i < 8 ==> s[i] == t[i];
  }

  /** A tick that spells a moment is read as that moment. */
  lemma SpelledTimestamp(config: Config, tick: Tick, t: Moment)
    requires Spells(config, tick, t)
    ensures IsMoment(config, tick) && MomentOf(config, tick) == t && Timestamp(config, tick) == Packed(t)
  {
    var day := DayText(config, tick);
    TimeCharacters(tick.updateTime, t.hour, t.minute, t.second);
    Pow10To8();
    PaddedValue(t.day, 8);
    assert forall i :: 0 <= i < 8 ==> day[i] == Padded(t.day, 8)[i];
  }

  /** So ticks are in the order of the moments they spell, to the millisecond. */
  lemma SpelledOrder(config: Config, a: Tick, t: Moment, b: Tick, u: Moment)
    requires Spells(config, a, t) && Spells(config, b, u)
    ensures Timestamp(config, a) < Timestamp(config, b) <==> Earlier(t, u)
    ensures t.(ms := 0) == u.(ms := 0) ==> Timestamp(config, a) - Timestamp(config, b) == a.millisec - b.millisec
  {
    SpelledTimestamp(config, a, t);
    SpelledTimestamp(config, b, u);
    PackedEmbedsOrder(t, u);
  }

  // ------------------------------------------------------------ whole streams

  /** lastTimestamp after a stream. */
  function LastAfter(config: Config, ticks: seq<Tick>): int {
    if ticks == [] then 0 else NextLast(LastAfter(config, ticks[..|ticks| - 1]), config, ticks[|ticks| - 1])
  }

  /** Whether tick number i of the stream is forwarded. */
  predicate Forwarded(config: Config, ticks: seq<Tick>, i: nat)
    requires i < |ticks|
  {
    Accepts(LastAfter(config, ticks[..i]), config, ticks[i])
  }

  /** Tick number i has a valid timestamp that reaches the timestamp check. */
  predicate Counts(config: Config, ticks: seq<Tick>, i: nat)
    requires i < |ticks|
  {
    Reaches(config, ticks[i]) && Timestamp(config, ticks[i]) >= 0
  }

  /** lastTimestamp is the maximum of 0 and all valid timestamps that reached the
      check, also those of ticks that were rejected. */
  lemma {:induction false} LastIsMaximum(config: Config, ticks: seq<Tick>)
    ensures var last := LastAfter(config, ticks);
      && last >= 0
      && (forall i: nat :: i < |ticks| && Counts(config, ticks, i) ==> Timestamp(config, ticks[i]) <= last)
      && (last == 0 || exists i: nat :: i < |ticks| && Counts(config, ticks, i) && Timestamp(config, ticks[i]) == last)
  {
    if ticks != [] {
      var n, front := |ticks| - 1, ticks[..|ticks| - 1];
      LastIsMaximum(config, front);
      var before, last := LastAfter(config, front), LastAfter(config, ticks);
      forall i: nat | i < |ticks| && Counts(config, ticks, i) ensures Timestamp(config, ticks[i]) <= last {
        if i < n {
          assert Counts(config, front, i) && front[i] == ticks[i];
        }
      }
      if last != before {
        assert Counts(config, ticks, n);
      } else if last != 0 {
        var i: nat :| i < |front| && Counts(config, front, i) && Timestamp(config, front[i]) == before;
        assert Counts(config, ticks, i) && Timestamp(config, ticks[i]) == last;
      }
    }
  }

  /** A forwarded tick is at most the tolerance below every timestamp that counted
      before it; forwarded ticks among them. */
  lemma ForwardedWithinTolerance(config: Config, ticks: seq<Tick>, i: nat, j: nat)
    requires config.timestampCheck && i < j < |ticks|
    requires Counts(config, ticks, i) && Forwarded(config, ticks, j)
    ensures Timestamp(config, ticks[j]) >= 0
    ensures Timestamp(config, ticks[i]) - Timestamp(config, ticks[j])
      <= if config.tolerance > 0 then config.tolerance else 0
  {
    LastIsMaximum(config, ticks[..j]);
    assert ticks[..j][i] == ticks[i] && Counts(config, ticks[..j], i);
  }

  /** A tick is forwarded if and only if it passes every enabled check of its own, and, with
      the timestamp check enabled, is valid and not older by more than the tolerance than
      any earlier tick whose timestamp counted. */
  lemma ForwardedIff(config: Config, ticks: seq<Tick>, j: nat)
    requires j < |ticks|
    ensures Forwarded(config, ticks, j) <==>
      && (config.exchangeCheck ==> ticks[j].exchangeOk) && (config.priceCheck ==> ticks[j].priceOk)
      && (config.volumeCheck ==> ticks[j].volumeOk) && (config.packetCheck ==> ticks[j].packetOk)
      && (config.timestampCheck ==> InTime(config, ticks, j))
  {
    if config.timestampCheck {
      InTimeIff(config, ticks, j);
    }
  }

  /** The tick is valid and not older by more than the tolerance than any before it. */
  ghost predicate InTime(config: Config, ticks: seq<Tick>, j: nat)
    requires j < |ticks|
  {
    && Timestamp(config, ticks[j]) >= 0
    && forall i: nat :: i < j && Counts(config, ticks, i) ==> NotTooOld(config, ticks[i], ticks[j])
  }

  predicate NotTooOld(config: Config, before: Tick, now: Tick) {
    var a, b := Timestamp(config, before), Timestamp(config, now);
    a <= b || a - b <= config.tolerance
  }

  lemma InTimeIff(config: Config, ticks: seq<Tick>, j: nat)
    requires config.timestampCheck && j < |ticks|
    ensures InTime(config, ticks, j) <==> Tolerated(LastAfter(config, ticks[..j]), config, Timestamp(config, ticks[j]))
  {
    var front := ticks[..j];
    var last := LastAfter(config, front);
    LastIsMaximum(config, front);
    forall i: nat | i < j ensures front[i] == ticks[i] && (Counts(config, ticks, i) <==> Counts(config, front, i)) {
      assert front[..i] == ticks[..i];
    }
    if last > 0 {
      var i: nat :| i < |front| && Counts(config, front, i) && Timestamp(config, front[i]) == last;
      assert front[i] == ticks[i] && Counts(config, ticks, i);
    }
  }

  lemma ForwardedCounts(config: Config, ticks: seq<Tick>, i: nat)
    requires config.timestampCheck && i < |ticks| && Forwarded(config, ticks, i)
    ensures Counts(config, ticks, i)
  {
  }

  /** Within one day the tolerance bounds the milliseconds that have really passed. */
  lemma TrulyWithinTolerance(config: Config, ticks: seq<Tick>, i: nat, j: nat)
    requires config.timestampCheck && config.tolerance >= 0 && i < j < |ticks|
    requires Forwarded(config, ticks, i) && Forwarded(config, ticks, j)
    requires IsMoment(config, ticks[i]) && IsMoment(config, ticks[j])
    requires MomentOf(config, ticks[i]).day == MomentOf(config, ticks[j]).day
    ensures MsOfDay(MomentOf(config, ticks[i])) - MsOfDay(MomentOf(config, ticks[j])) <= config.tolerance
  {
    ForwardedCounts(config, ticks, i);
    ForwardedWithinTolerance(config, ticks, i, j);
    var a, b := MomentOf(config, ticks[i]), MomentOf(config, ticks[j]);
    if Packed(b) <= Packed(a) {
      PackedDifference(a, b);
    } else {
      PackedDifference(b, a);
    }
  }

  /** A late tick of the same day whose true delay the tolerance covers is rejected
      all the same exactly when the change of hour and minute makes up the difference. */
  lemma LateTickRejected(config: Config, last: Moment, now: Moment)
    requires InRange(last) && InRange(now) && last.day == now.day && Packed(now) <= Packed(last)
    requires MsOfDay(last) - MsOfDay(now) <= config.tolerance
    ensures !Tolerated(Packed(last), config, Packed(now)) <==>
      MsOfDay(last) - MsOfDay(now) + 6_400_000 * (last.hour - now.hour)
        + 40_000 * (last.minute - now.minute) > config.tolerance
    ensures !Tolerated(Packed(last), config, Packed(now)) ==> last.hour != now.hour || last.minute != now.minute
  {
    PackedDifference(last, now);
    PackedEmbedsOrder(now, last);
  }

  /** A rejected tick still moves the timestamp exactly if it passed the timestamp check
      with a newer one and failed a later check. */
  lemma RejectedStillAdvances(config: Config, last: int, tick: Tick)
    requires last >= 0
    ensures !Accepts(last, config, tick) && NextLast(last, config, tick) != last <==>
      && Reaches(config, tick) && Timestamp(config, tick) > last
      && ((config.priceCheck && !tick.priceOk) || (config.volumeCheck && !tick.volumeOk)
          || (config.packetCheck && !tick.packetOk))
  {
  }

  /** Such a tick, or any other in between, takes an acceptable tick's chance exactly if
      it is newer than both by more than the tolerance. */
  lemma EarlierTickShadows(config: Config, last: int, before: Tick, tick: Tick)
    requires last >= 0 && config.timestampCheck && Accepts(last, config, tick)
    ensures !Accepts(NextLast(last, config, before), config, tick) <==>
      var newer, ts := Timestamp(config, before), Timestamp(config, tick);
      Reaches(config, before) && newer > last && newer > ts && newer - ts > config.tolerance
  {
  }

  /** A millisecond late across a minute, with one millisecond tolerated: rejected. */
  lemma LateByOneMillisecond(config: Config)
    requires config.tolerance == 1
    ensures var last, now := Moment(0, 10, 1, 0, 0), Moment(0, 10, 0, 59, 999);
      && InRange(last) && InRange(now) && MsOfDay(last) - MsOfDay(now) == 1
      && !Tolerated(Packed(last), config, Packed(now))
  {
  }

  /** Two seconds past midnight with a bad price, then one second past: the first is
      rejected, and because of it the second, which would have been accepted. */
  lemma BadPriceShutsOut(config: Config, before: Tick, tick: Tick)
    requires config == Config(false, true, true, false, false, false, 0, false)
    requires AtSecond(before, 2) && !before.priceOk && AtSecond(tick, 1) && tick.priceOk
    ensures !Accepts(0, config, before) && NextLast(0, config, before) == 2_000
    ensures Accepts(0, config, tick) && !Accepts(NextLast(0, config, before), config, tick)
  {
    TimestampOfSecond(config, before, 2);
    TimestampOfSecond(config, tick, 1);
  }

  /** Day zero, so many seconds past midnight. */
  predicate AtSecond(tick: Tick, d: int) {
    && 0 <= d <= 9 && tick.updateTime == [48, 48, COLON, 48, 48, COLON, 48, 48 + d, 0] && tick.millisec == 0
    && tick.actionDay == [48, 48, 48, 48, 48, 48, 48, 48, 0]
  }

  lemma TimestampOfSecond(config: Config, tick: Tick, d: int)
    requires AtSecond(tick, d) && !config.useTradingDay
    ensures Timestamp(config, tick) == d * 1_000
  {
    var day := DayText(config, tick)[..8];
    ZeroDay(day, 8);
    assert day[..8] == day;
    assert IsMoment(config, tick) && MomentOf(config, tick) == Moment(0, 0, 0, d, 0);
  }

  /** An accepted time is made of digits exactly if the second characters of hour, minute
      and second are digits. */
  lemma TimeDigitsIff(config: Config, tick: Tick)
    requires Timestamp(config, tick) >= 0
    ensures var s := tick.updateTime;
      (forall i :: i in {0, 1, 3, 4, 6, 7} ==> IsDigitCode(s[i])) <==>
        IsDigitCode(s[1]) && IsDigitCode(s[4]) && IsDigitCode(s[7])
  {
    var s := tick.updateTime;
    if IsDigitCode(s[1]) && IsDigitCode(s[4]) && IsDigitCode(s[7]) {
      assert IsDigitCode(s[0]) && IsDigitCode(s[3]) && IsDigitCode(s[6]);
    }
  }

  /** Hours, minutes and seconds are two characters each; what is in range as a number is
      accepted: 1 and a semicolon are hour 21. */
  lemma NonDigitsAccepted(config: Config, tick: Tick)
    requires tick.updateTime == [49, 59, COLON, 48, 48, COLON, 48, 48, 0] && tick.millisec == 0
    requires DayText(config, tick) == [48, 48, 48, 48, 48, 48, 48, 48, 0]
    ensures !IsDigitCode(tick.updateTime[1]) && Timestamp(config, tick) == 210_000_000
  {
    var day := DayText(config, tick)[..8];
    ZeroDay(day, 8);
    assert day[..8] == day;
    assert TwoDigits(49, 59) == 21 && TwoDigits(48, 48) == 0;
    assert IsMoment(config, tick) && MomentOf(config, tick) == Moment(0, 21, 0, 0, 0);
  }

  lemma {:induction false} ZeroDay(day: seq<Char>, n: nat)
    requires n <= |day| && forall i :: 0 <= i < n ==> day[i] == ZERO
    ensures DigitsValue(day[..n]) == 0
  {
    if n > 0 {
      ZeroDay(day, n - 1);
      assert day[..n][..n - 1] == day[..n - 1];
    }
  }

  /** The switch for ticks of the same millisecond changes nothing: an equal timestamp
      also passes further down. */
  lemma {:induction false} AllowSameMsIrrelevant(config: Config, ticks: seq<Tick>, allow: bool)
    ensures LastAfter(config.(allowSameMs := allow), ticks) == LastAfter(config, ticks)
    ensures forall i: nat :: i < |ticks| ==>
      (Forwarded(config.(allowSameMs := allow), ticks, i) <==> Forwarded(config, ticks, i))
    decreases |ticks|
  {
    var other := config.(allowSameMs := allow);
    if ticks != [] {
      AllowSameMsIrrelevant(config, ticks[..|ticks| - 1], allow);
      assert MomentSame(config, other, ticks[|ticks| - 1]);
    }
    forall i: nat | i < |ticks| ensures Forwarded(other, ticks, i) <==> Forwarded(config, ticks, i) {
      assert MomentSame(config, other, ticks[i]);
      AllowSameMsIrrelevant(config, ticks[..i], allow);
    }
  }

  predicate MomentSame(a: Config, b: Config, tick: Tick) {
    Timestamp(a, tick) == Timestamp(b, tick)
  }
}
