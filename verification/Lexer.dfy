/** The lexer's input management and its scanners for strings and numbers. */
module Lexers {
  import opened Powers
  import opened Sequences
  import opened Diyfps
  import opened Jsons
  import opened Decimals
  import opened Utf8
  import opened ScanString
  import opened NumberGrammar

  const NEWLINE := 0x0A

  /** The part of the lexer that get and unget change. */
  datatype Reading = Reading(
    delivered: nat,
    current: int,
    nextUnget: bool,
    charsTotal: nat,
    charsInLine: nat,
    lines: nat,
    tokenString: seq<int>)

  /** get: the current character again after unget, the next one otherwise. */
  function Got(input: seq<Byte>, r: Reading): Reading
    requires r.delivered <= |input|
  {
    var current := if r.nextUnget then r.current else At(input, r.delivered);
    var newline := current == NEWLINE;
    Reading(if r.nextUnget || r.delivered == |input| then r.delivered else r.delivered + 1, current, false,
            r.charsTotal + 1,
            if newline then 0 else r.charsInLine + 1, if newline then r.lines + 1 else r.lines,
            if current != EOF then r.tokenString + [current] else r.tokenString)
  }

  predicate CanUnget(r: Reading) {
    r.charsTotal > 0 && (r.current != EOF ==> r.tokenString != [])
  }

  /** unget: the end of a line that is read again is not counted twice. */
  function Ungot(r: Reading): Reading
    requires CanUnget(r)
  {
    Reading(r.delivered, r.current, true, r.charsTotal - 1,
            if r.charsInLine == 0 then 0 else r.charsInLine - 1,
            if r.charsInLine == 0 && r.lines > 0 then r.lines - 1 else r.lines,
            if r.current != EOF then r.tokenString[..|r.tokenString| - 1] else r.tokenString)
  }

  /** Getting an ungotten character restores everything, whatever the character is. */
  lemma GetAfterUnget(input: seq<Byte>, r: Reading)
    requires r.delivered <= |input|
    ensures var s := Got(input, r); CanUnget(s) && Got(input, Ungot(s)) == s
  {
    var s := Got(input, r);
    if s.current != EOF {
      assert Ungot(s).tokenString + [s.current] == s.tokenString;
    }
  }

  /** A lexer that has read nothing. */
  const AT_START := Reading(0, EOF, false, 0, 0, 0, [])

  /** After n gets. */
  function AfterGets(input: seq<Byte>, n: nat): (r: Reading)
    requires n <= |input|
    ensures r.delivered == n
  {
    if n == 0 then AT_START else Got(input, AfterGets(input, n - 1))
  }

  /** Line ends among the first n characters. */
  function LineEnds(input: seq<Byte>, n: nat): nat
    requires n <= |input|
  {
    if n == 0 then 0 else LineEnds(input, n - 1) + if input[n - 1] == NEWLINE then 1 else 0
  }

  /** The lexer has read the first n characters and is where they end: inLine characters
      after the last line end. */
  ghost predicate HasRead(input: seq<Byte>, n: nat, r: Reading) {
    && n == r.delivered <= |input| && !r.nextUnget && r.tokenString == input[..n]
    && (n > 0 ==> r.current == input[n - 1])
    && r.charsTotal == n && r.lines == LineEnds(input, n) && r.charsInLine <= n
    && (forall k :: n - r.charsInLine <= k < n ==> input[k] != NEWLINE)
    && (r.charsInLine < n ==> input[n - r.charsInLine - 1] == NEWLINE)
  }

  /** After n gets the position is that of the first n characters. */
  lemma {:induction false} PositionOf(input: seq<Byte>, n: nat)
    requires n <= |input|
    ensures HasRead(input, n, AfterGets(input, n))
  {
    if n > 0 {
      PositionOf(input, n - 1);
      PrefixGrows(input, n - 1);
    }
  }

  /** A scanned number.  Integers outside their type become floating-point tokens. */
  datatype NumberToken = UnsignedToken(u: Word) | IntegerToken(i: Int64) | FloatToken(text: seq<Byte>)

  /** The token for the text of a number. */
  function TokenOf(text: seq<Byte>, s: State): NumberToken
    requires text != [] && RunFrom(Init, text) == Some(s) && Accepting(s)
  {
    if s.Zero? || s.Any1? then
      IntegerDigits(text, s);
      if text[0] == MINUS then
        var v := DigitsValue(text[1..]);
        if v <= TWO63 then IntegerToken(0 - v) else FloatToken(text)
      else
        var v := DigitsValue(text);
        if v < TWO64 then UnsignedToken(v) else FloatToken(text)
    else FloatToken(text)
  }

  /** A number without fraction and exponent is digits, perhaps after a minus. */
  lemma IntegerDigits(text: seq<Byte>, s: State)
    requires text != [] && RunFrom(Init, text) == Some(s) && (s.Zero? || s.Any1?)
    ensures if text[0] == MINUS then AllDigits(text[1..]) else AllDigits(text)
  {
    var n := ShapeOf(text);
    var sign: seq<Byte> := if n.minus then [MINUS] else [];
    assert text == sign + n.integer;
    assert IsInt(n.integer) && IsDigitCode(n.integer[0]);
    Parts(sign, n.integer);
  }

  // ------------------------------------------------------- longest numbers

  /** How many characters from i on the machine takes, starting in state s. */
  function Taken(input: seq<Byte>, i: nat, s: State): (n: nat)
    requires i <= |input|
    ensures i + n <= |input|
    decreases |input| - i
  {
    if Delta(s, At(input, i)).Some? then 1 + Taken(input, i + 1, Delta(s, At(input, i)).value) else 0
  }

  lemma {:induction false} TakenRuns(input: seq<Byte>, i: nat, s: State, n: nat)
    requires i + n <= |input|
    ensures RunFrom(s, input[i..i + n]).Some? <==> n <= Taken(input, i, s)
    decreases n
  {
    if n > 0 {
      var head, rest := [input[i]], input[i + 1..i + n];
      assert input[i..i + n] == head + rest;
      RunSplit(s, head, rest);
      RunOne(s, input[i]);
      if Delta(s, input[i]).Some? {
        TakenRuns(input, i + 1, Delta(s, input[i]).value, n - 1);
      }
    }
  }

  /** The state in which the machine stops. */
  function Stopped(input: seq<Byte>, i: nat, s: State): State
    requires i <= |input|
    decreases |input| - i
  {
    if Delta(s, At(input, i)).Some? then Stopped(input, i + 1, Delta(s, At(input, i)).value) else s
  }

  lemma {:induction false} StoppedRuns(input: seq<Byte>, i: nat, s: State)
    requires i <= |input|
    ensures RunFrom(s, input[i..i + Taken(input, i, s)]) == Some(Stopped(input, i, s))
    decreases |input| - i
  {
    if Delta(s, At(input, i)).Some? {
      var t, n := Delta(s, At(input, i)).value, Taken(input, i, s);
      StoppedRuns(input, i + 1, t);
      assert input[i..i + n] == [input[i]] + input[i + 1..i + n];
      RunSplit(s, [input[i]], input[i + 1..i + n]);
      RunOne(s, input[i]);
    }
  }

  /** The scanner takes the longest beginning of a number, and succeeds exactly when
      that is a number itself. */
  lemma LongestBeginning(input: seq<Byte>, i: nat, n: nat)
    requires i + n <= |input|
    ensures Viable(input[i..i + n]) <==> n <= Taken(input, i, Init)
    ensures IsNumber(input[i..i + Taken(input, i, Init)]) <==> Accepting(Stopped(input, i, Init))
  {
    RunsOnViable(input[i..i + n]);
    TakenRuns(input, i, Init, n);
    AcceptsNumbers(input[i..i + Taken(input, i, Init)]);
    StoppedRuns(input, i, Init);
  }

  // --------------------------------------------------------------- the class

  datatype Turn = GoOn | Finish | Fail

  class Lexer {
    const input: seq<Byte>
    var delivered: nat
    var current: int
    var nextUnget: bool
    var charsTotal: nat
    var charsInLine: nat
    var lines: nat
    var tokenString: seq<int>
    var tokenBuffer: seq<Byte>

    constructor (input: seq<Byte>)
      ensures Valid() && Next() == 0 && this.input == input && Snapshot() == AT_START && tokenBuffer == []
    {
      this.input := input;
      delivered, current, nextUnget := 0, EOF, false;
      charsTotal, charsInLine, lines := 0, 0, 0;
      tokenString, tokenBuffer := [], [];
    }

    ghost function Snapshot(): Reading
      reads this
    {
      Reading(delivered, current, nextUnget, charsTotal, charsInLine, lines, tokenString)
    }

    /** The character to be read again is the last one delivered, or the end. */
    ghost predicate Valid()
      reads this
    {
      && delivered <= |input|
      && (nextUnget ==> if current == EOF then delivered == |input|
                        else delivered > 0 && current == input[delivered - 1])
    }

    /** Where the next get reads. */
    ghost function Next(): nat
      reads this
      requires Valid()
    {
      if nextUnget && current != EOF then delivered - 1 else delivered
    }

    method Get() returns (c: int)
      requires Valid()
      modifies this
      ensures Valid() && Snapshot() == Got(input, old(Snapshot())) && tokenBuffer == old(tokenBuffer)
      ensures c == current == At(input, old(Next())) && !nextUnget
      ensures Next() == if old(Next()) < |input| then old(Next()) + 1 else |input|
    {
      charsTotal := charsTotal + 1;
      charsInLine := charsInLine + 1;
      if nextUnget {
        nextUnget := false;
      } else if delivered < |input| {
        current := input[delivered];
        delivered := delivered + 1;
      } else {
        current := EOF;
      }
      if current != EOF {
        tokenString := tokenString + [current];
      }
      if current == NEWLINE {
        lines := lines + 1;
        charsInLine := 0;
      }
      return current;
    }

    method Unget()
      requires Valid() && !nextUnget && CanUnget(Snapshot())
      requires if current == EOF then delivered == |input| else delivered > 0 && current == input[delivered - 1]
      modifies this
      ensures Valid() && Snapshot() == Ungot(old(Snapshot())) && tokenBuffer == old(tokenBuffer)
      ensures Next() == if current == EOF then |input| else old(Next()) - 1
    {
      nextUnget := true;
      charsTotal := charsTotal - 1;
      if charsInLine == 0 {
        if lines > 0 {
          lines := lines - 1;
        }
      } else {
        charsInLine := charsInLine - 1;
      }
      if current != EOF {
        tokenString := tokenString[..|tokenString| - 1];
      }
    }

    method Add(c: int)
      requires 0 <= c < 256
      modifies `tokenBuffer
      ensures tokenBuffer == old(tokenBuffer) + [c]
    {
      tokenBuffer := tokenBuffer + [c];
    }

    method Reset()
      modifies `tokenBuffer, `tokenString
      ensures tokenBuffer == [] && tokenString == [current]
    {
      tokenBuffer := [];
      tokenString := [current];
    }

    // ----------------------------------------------------------------- strings

    method GetCodepoint() returns (codepoint: int)
      requires Valid()
      modifies this
      ensures Valid() && !nextUnget && tokenBuffer == old(tokenBuffer)
      ensures codepoint == Codepoint(input, old(Next()))
      ensures codepoint >= 0 ==> Next() == old(Next()) + 4
    {
      ghost var start := Next();
      codepoint := 0;
      var factor := 4096;
      for k := 0 to 4
        invariant Valid() && tokenBuffer == old(tokenBuffer) && Next() == start + k <= |input|
        invariant k > 0 ==> !nextUnget
        invariant factor == if k == 0 then 4096 else if k == 1 then 256 else if k == 2 then 16 else if k == 3 then 1
          else 0
        invariant HexSoFar(input, start, k) && codepoint == HexSum(input, start, k)
      {
        var c := Get();
        var digit := HexValue(c);
        if digit < 0 {
          return -1;
        }
        codepoint := codepoint + digit * factor;
        factor := factor / 16;
      }
    }

    /** Adds the current octet and those that follow, while they are in range. */
    method NextByteInRange(ranges: seq<Follow>) returns (ok: bool)
      requires Valid() && !nextUnget && 0 <= current < 256
      requires forall k :: 0 <= k < |ranges| ==> 0x80 <= ranges[k].low
      modifies this
      ensures Valid() && !nextUnget
      ensures ok <==> InRanges(input, old(Next()), ranges) == |ranges|
      ensures ok ==> old(Next()) + |ranges| <= |input| && Next() == old(Next()) + |ranges|
      ensures ok ==> tokenBuffer == old(tokenBuffer) + [old(current)] + input[old(Next())..old(Next()) + |ranges|]
    {
      ghost var start := Next();
      InRangesAll(input, start, ranges);
      Add(current);
      for k := 0 to |ranges|
        invariant Valid() && Next() == start + k <= |input| && !nextUnget
        invariant tokenBuffer == old(tokenBuffer) + [old(current)] + input[start..start + k]
        invariant forall j: nat :: j < k ==> InRange(At(input, start + j), ranges[j])
      {
        var c := Get();
        if !(ranges[k].low <= c <= ranges[k].high) {
          assert !InRange(At(input, start + k), ranges[k]);
          return false;
        }
        Add(c);
        SliceGrows(input, start, k);
      }
      return true;
    }
  
    /** Translates a code point into octets. */
    method AddCodepoint(codepoint: Scalar)
      modifies `tokenBuffer
      ensures tokenBuffer == old(tokenBuffer) + Encode(codepoint)
    {
      SixBits(codepoint);
      if codepoint < 0x80 {
        Add(codepoint);
      } else if codepoint <= 0x7FF {
        Add(0xC0 + codepoint / 64);
        Add(0x80 + codepoint % 64);
      } else if codepoint <= 0xFFFF {
        Add(0xE0 + codepoint / 4096);
        Add(0x80 + codepoint / 64 % 64);
        Add(0x80 + codepoint % 64);
      } else {
        Add(0xF0 + codepoint / 0x4_0000);
        Add(0x80 + codepoint / 4096 % 64);
        Add(0x80 + codepoint / 64 % 64);
        Add(0x80 + codepoint % 64);
      }
    }

    /** The escape whose backslash has just been read. */
    method ScanEscaped() returns (ok: bool)
      requires Valid() && !nextUnget
      modifies this
      ensures Valid() && !nextUnget
      ensures ok <==> ScanEscape(input, old(Next())).Char?
      ensures ok ==> Next() == ScanEscape(input, old(Next())).next
      ensures ok ==> tokenBuffer == old(tokenBuffer) + ScanEscape(input, old(Next())).bytes
    {
      ghost var start := Next();
      var c := Get();
      if ShortEscape(c) >= 0 {
        Add(ShortEscape(c));
        return true;
      }
      if c != 0x75 {
        return false;
      }
      var codepoint := GetCodepoint();
      if codepoint == -1 || 0xDC00 <= codepoint <= 0xDFFF {
        return false;
      }
      if 0xD800 <= codepoint <= 0xDBFF {
        codepoint := GetSecondHalf(codepoint);
        if codepoint == -1 {
          return false;
        }
      }
      AddCodepoint(codepoint);
      return true;
    }

    /** The escape of a low surrogate must follow; gives the code point of the pair. */
    method GetSecondHalf(codepoint1: int) returns (codepoint: int)
      requires Valid() && !nextUnget && IsHigh(codepoint1)
      modifies this
      ensures Valid() && !nextUnget && tokenBuffer == old(tokenBuffer)
      ensures var i := old(Next());
        var paired := At(input, i) == BACKSLASH && At(input, i + 1) == 0x75 && IsLow(Codepoint(input, i + 2));
        codepoint == (if paired then Combined(codepoint1, Codepoint(input, i + 2)) else -1)
          && (paired ==> Next() == i + 6)
    {
      var c := Get();
      if c != BACKSLASH {
        return -1;
      }
      c := Get();
      if c != 0x75 {
        return -1;
      }
      var codepoint2 := GetCodepoint();
      if codepoint2 == -1 || !(0xDC00 <= codepoint2 <= 0xDFFF) {
        return -1;
      }
      return codepoint1 * 1024 + codepoint2 - 0x35F_DC00;
    }

    /** One turn of scan_string's loop. */
    method ScanOne() returns (turn: Turn)
      requires Valid() && !nextUnget
      modifies this
      ensures Valid() && !nextUnget
      ensures var s := ScanChar(input, old(Next()));
        match turn
        case GoOn => s.Char? && Next() == s.next && tokenBuffer == old(tokenBuffer) + s.bytes
        case Finish => s.Closing? && Next() == s.next && tokenBuffer == old(tokenBuffer)
        case Fail => s.Bad?
    {
      ghost var start := Next();
      var c := Get();
      if c == QUOTE {
        return Finish;
      }
      if c == BACKSLASH {
        var ok := ScanEscaped();
        return if ok then GoOn else Fail;
      }
      if 0x20 <= c < 0x80 {
        Add(c);
        return GoOn;
      }
      var ranges := FollowRanges(c);
      if ranges == [] {
        return Fail;
      }
      var ok := NextByteInRange(ranges);
      if ok {
        SliceHead(input, start, |ranges|);
      }
      return if ok then GoOn else Fail;
    }

    /** scan_string, after the opening quote.  On success the next character read is the
        one behind the closing quote. */
    method ScanString() returns (ok: bool)
      requires Valid() && !nextUnget && current == QUOTE
      modifies this
      ensures Valid()
      ensures ok <==> ScanFrom(input, old(Next())).Complete?
      ensures ok ==> tokenBuffer == ScanFrom(input, old(Next())).bytes && Next() == ScanFrom(input, old(Next())).next
    {
      ghost var start := Next();
      Reset();
      assert ScanFrom(input, start) == WithPrefix([], ScanFrom(input, start));
      while true
        invariant Valid() && !nextUnget && start <= Next() <= |input|
        invariant ScanFrom(input, start) == WithPrefix(tokenBuffer, ScanFrom(input, Next()))
        decreases |input| - Next()
      {
        ghost var at, before := Next(), tokenBuffer;
        ScanAdvances(input, at);
        var turn := ScanOne();
        match turn {
          case Fail => return false;
          case Finish =>
            assert before + [] == before;
            return true;
          case GoOn => PrefixStep(before, ScanChar(input, at).bytes, ScanFrom(input, Next()));
        }
      }
    }

    // ----------------------------------------------------------------- numbers

    /** One switch of the goto machine: the label to go to, or None for done or error. */
    method Switch(s: State, c: int) returns (next: Option<State>)
      ensures next == Delta(s, c)
    {
      var digit := 0x30 <= c <= 0x39;
      match s {
        case Init | Minus =>
          if c == 0x30 {
            return Some(Zero);
          } else if digit {
            return Some(Any1);
          } else if s.Init? && c == 0x2D {
            return Some(Minus);
          }
        case Zero =>
          if c == 0x2E {
            return Some(Decimal1);
          } else if c == 0x65 || c == 0x45 {
            return Some(Exp);
          }
        case Any1 =>
          if digit {
            return Some(Any1);
          } else if c == 0x2E {
            return Some(Decimal1);
          } else if c == 0x65 || c == 0x45 {
            return Some(Exp);
          }
        case Decimal1 =>
          if digit {
            return Some(Decimal2);
          }
        case Decimal2 =>
          if digit {
            return Some(Decimal2);
          } else if c == 0x65 || c == 0x45 {
            return Some(Exp);
          }
        case Exp =>
          if c == 0x2B || c == 0x2D {
            return Some(Sign);
          } else if digit {
            return Some(Any2);
          }
        case Sign | Any2 =>
          if digit {
            return Some(Any2);
          }
      }
      return None;
    }

    /** Runs the machine as far as it goes; the character it stops at has been read. */
    method RunMachine(ghost start: nat) returns (state: State)
      requires Valid() && !nextUnget && (current == MINUS || IsDigitCode(current))
      requires Next() == start + 1 && input[start] == current && CanUnget(Snapshot()) && tokenBuffer == []
      modifies this
      ensures Valid() && !nextUnget && CanUnget(Snapshot())
      ensures state == Stopped(input, start, Init) && tokenBuffer != []
      ensures tokenBuffer == input[start..start + Taken(input, start, Init)]
      ensures current == At(input, start + |tokenBuffer|)
      ensures Next() == if current == EOF then |input| else start + |tokenBuffer| + 1
    {
      state := Init;
      var next := Switch(state, current);
      while next.Some?
        invariant InMachine(start, state) && next == Delta(state, current)
        invariant |tokenBuffer| > 0 || next.Some?
        decreases |input| - |tokenBuffer|
      {
        TakeCharacter(start, state, next.value);
        state := next.value;
        next := Switch(state, current);
      }
    }

    /** The characters from start on are collected, the next one is read, and the machine
        is in the given state. */
    ghost predicate InMachine(start: nat, state: State)
      reads this
    {
      && Valid() && !nextUnget && CanUnget(Snapshot())
      && start + |tokenBuffer| <= |input| && current == At(input, start + |tokenBuffer|)
      && tokenBuffer == input[start..start + |tokenBuffer|]
      && Next() == (if current == EOF then |input| else start + |tokenBuffer| + 1)
      && Taken(input, start, Init) == |tokenBuffer| + Taken(input, start + |tokenBuffer|, state)
      && Stopped(input, start, Init) == Stopped(input, start + |tokenBuffer|, state)
    }

    method TakeCharacter(ghost start: nat, ghost state: State, ghost next: State)
      requires InMachine(start, state) && Delta(state, current) == Some(next)
      modifies this
      ensures InMachine(start, next) && |tokenBuffer| == |old(tokenBuffer)| + 1
    {
      SliceGrows(input, start, |tokenBuffer|);
      Add(current);
      var c := Get();
    }

    /** scan_number, from its first character.  On success the token is the longest
        beginning of a number, and the next character read is the one behind it. */
    method ScanNumber() returns (token: Option<NumberToken>)
      requires Valid() && !nextUnget && (current == MINUS || IsDigitCode(current))
      requires Next() > 0 && input[Next() - 1] == current && charsTotal > 0
      modifies this
      ensures Valid()
      ensures var start := old(Next()) - 1;
        NumberScanned(input, start, token) && (token.Some? ==>
          Next() == start + Taken(input, start, Init) && tokenBuffer == input[start..start + Taken(input, start, Init)])
    {
      ghost var start := Next() - 1;
      Reset();
      var state := RunMachine(start);
      StoppedRuns(input, start, Init);
      if !Accepting(state) {
        return None;
      }
      var number := FinishNumber(start, state);
      IsScanned(input, start, tokenBuffer, state, number);
      return Some(number);
    }

    /** Label done: the character behind the number goes back. */
    method FinishNumber(ghost start: nat, state: State) returns (token: NumberToken)
      requires Valid() && !nextUnget && CanUnget(Snapshot()) && tokenBuffer != [] && Accepting(state)
      requires start + |tokenBuffer| <= |input| && state == Stopped(input, start, Init)
      requires tokenBuffer == input[start..start + Taken(input, start, Init)]
      requires current == At(input, start + |tokenBuffer|)
      requires Next() == if current == EOF then |input| else start + |tokenBuffer| + 1
      modifies this
      ensures Valid() && tokenBuffer == old(tokenBuffer) && Next() == start + |tokenBuffer|
      ensures RunFrom(Init, tokenBuffer) == Some(state) && token == TokenOf(tokenBuffer, state)
    {
      StoppedRuns(input, start, Init);
      Unget();
      return TokenOf(tokenBuffer, state);
    }
  }

  /** A token results if the longest beginning of a number at start is a number, and
      then it is the token of that text. */
  ghost predicate NumberScanned(input: seq<Byte>, start: nat, token: Option<NumberToken>)
    requires start <= |input|
  {
    var text, s := input[start..start + Taken(input, start, Init)], Stopped(input, start, Init);
    && (token.Some? <==> Accepting(s))
    && (token.Some? ==> text != [] && RunFrom(Init, text) == Some(s) && token.value == TokenOf(text, s))
  }

  lemma IsScanned(input: seq<Byte>, start: nat, text: seq<Byte>, s: State, token: NumberToken)
    requires start <= |input| && s == Stopped(input, start, Init) && Accepting(s)
    requires text == input[start..start + Taken(input, start, Init)] && text != []
    requires RunFrom(Init, text) == Some(s) && token == TokenOf(text, s)
    ensures NumberScanned(input, start, Some(token))
  {
  }

  function WithPrefix(done: seq<Byte>, rest: Literal): Literal {
    match rest
    case Complete(bytes, next) => Complete(done + bytes, next)
    case IllFormed => IllFormed
  }

  lemma PrefixStep(done: seq<Byte>, bytes: seq<Byte>, rest: Literal)
    ensures rest.Complete? ==> done + (bytes + rest.bytes) == done + bytes + rest.bytes
  {
  }

  predicate HexSoFar(input: seq<Byte>, i: nat, n: nat) {
    && (n > 0 ==> HexValue(At(input, i)) >= 0) && (n > 1 ==> HexValue(At(input, i + 1)) >= 0)
    && (n > 2 ==> HexValue(At(input, i + 2)) >= 0) && (n > 3 ==> HexValue(At(input, i + 3)) >= 0)
  }

  function HexSum(input: seq<Byte>, i: nat, n: nat): int {
    (if n > 0 then HexValue(At(input, i)) * 4096 else 0) + (if n > 1 then HexValue(At(input, i + 1)) * 256 else 0)
    + (if n > 2 then HexValue(At(input, i + 2)) * 16 else 0) + (if n > 3 then HexValue(At(input, i + 3)) else 0)
  }
}
