/** JSON pointers: their text, their reference tokens, and array indices. */
module JsonPointer {
  import opened Sequences
  import opened Powers
  import opened DigitGen
  import opened StringEscape

  /** An exception of the library, known by its number. */
  datatype Result<T> = Ok(value: T) | Throws(id: int)

  // --------------------------------------------------------------- to_string

  function ToString(tokens: seq<string>): string {
    if tokens == [] then "" else ToString(tokens[..|tokens| - 1]) + "/" + Escaped(tokens[|tokens| - 1])
  }

  lemma {:induction false} ToStringFirst(token: string, tokens: seq<string>)
    ensures ToString([token] + tokens) == "/" + Escaped(token) + ToString(tokens)
  {
    if tokens == [] {
      ToStringLast([], token);
    } else {
      var front, last := tokens[..|tokens| - 1], tokens[|tokens| - 1];
      ToStringFirst(token, front);
      FrontLast(tokens);
      Assoc([token], front, [last]);
      ToStringLast([token] + front, last);
      Assoc("/" + Escaped(token), ToString(front) + "/", Escaped(last));
      Assoc("/" + Escaped(token), ToString(front), "/");
    }
  }

  lemma ToStringLast(tokens: seq<string>, token: string)
    ensures ToString(tokens + [token]) == ToString(tokens) + "/" + Escaped(token)
  {
    Parts(tokens, [token]);
  }

  // ------------------------------------------------------------------- split

  /** The first slash in s is at i, or there is none and i is the length. */
  predicate IsFirstSlash(s: string, i: nat) {
    i <= |s| && (forall k: nat :: k < i ==> s[k] != '/') && (i < |s| ==> s[i] == '/')
  }

  function FirstSlash(s: string): (i: nat)
    ensures IsFirstSlash(s, i)
  {
    if s == "" || s[0] == '/' then 0 else
      var i := FirstSlash(s[1..]);
      assert forall k: nat :: 0 < k <= i ==> s[k] == s[1..][k - 1];
      i + 1
  }

  /** The texts between slashes; at least one, possibly empty. */
  function Fields(s: string): (r: seq<string>)
    ensures |r| > 0
  {
    if s == "" then [""] else
      var r := Fields(s[1..]);
      if s[0] == '/' then [""] + r else [[s[0]] + r[0]] + r[1..]
  }

  /** Unescapes field by field, stopping at the first malformed one. */
  function UnescapeFields(fields: seq<string>): Result<seq<string>> {
    if fields == [] then Ok([])
    else if !ProperlyEscaped(fields[0]) then Throws(108)
    else match UnescapeFields(fields[1..])
      case Ok(rest) => Ok([Unescaped(fields[0])] + rest)
      case Throws(id) => Throws(id)
  }

  function Parse(s: string): Result<seq<string>> {
    if s == "" then Ok([])
    else if s[0] != '/' then Throws(107)
    else UnescapeFields(Fields(s[1..]))
  }

  lemma {:induction false} FieldsSplit(s: string, i: nat)
    requires IsFirstSlash(s, i)
    ensures Fields(s) == [s[..i]] + if i == |s| then [] else Fields(s[i + 1..])
  {
    if i == 0 {
      assert s[..0] == "";
    } else {
      assert IsFirstSlash(s[1..], i - 1);
      FieldsSplit(s[1..], i - 1);
      assert s[..i] == [s[0]] + s[1..][..i - 1];
      assert i < |s| ==> s[1..][i..] == s[i + 1..];
    }
  }

  /** Parsing inverts printing, on every list of tokens. */
  lemma {:induction false} ParseToString(tokens: seq<string>)
    ensures Parse(ToString(tokens)) == Ok(tokens)
  {
    if tokens != [] {
      ParseToString(tokens[1..]);
      ParseFirst(tokens[0], tokens[1..]);
      ToStringFirst(tokens[0], tokens[1..]);
      assert tokens == [tokens[0]] + tokens[1..];
    }
  }

  lemma ParseFirst(token: string, rest: seq<string>)
    requires Parse(ToString(rest)) == Ok(rest)
    ensures Parse("/" + Escaped(token) + ToString(rest)) == Ok([token] + rest)
  {
    var u := Escaped(token) + ToString(rest);
    Assoc("/", Escaped(token), ToString(rest));
    Parts("/", u);
    PrintedFields(token, rest);
    if rest != [] {
      HeadTail(rest);
      ToStringFirst(rest[0], rest[1..]);
    }
    UnescapeFirst(Fields(u), token, if rest == [] then [] else Fields(ToString(rest)[1..]), rest);
  }

  lemma UnescapeFirst(fields: seq<string>, token: string, others: seq<string>, rest: seq<string>)
    requires fields == [Escaped(token)] + others && UnescapeFields(others) == Ok(rest)
    ensures UnescapeFields(fields) == Ok([token] + rest)
  {
    UnescapeEscape(token);
    Parts([Escaped(token)], others);
  }

  lemma PrintedFields(token: string, rest: seq<string>)
    ensures Fields(Escaped(token) + ToString(rest)) ==
      [Escaped(token)] + if rest == [] then [] else Fields(ToString(rest)[1..])
  {
    var e, r := Escaped(token), ToString(rest);
    UnescapeEscape(token);
    if rest != [] {
      HeadTail(rest);
      ToStringFirst(rest[0], rest[1..]);
    }
    SlashAfter(e, r);
    FieldsSplit(e + r, |e|);
  }

  /** The first slash of an escaped token with a pointer behind it. */
  lemma SlashAfter(e: string, r: string)
    requires ProperlyEscaped(e) && (r == "" || r[0] == '/')
    ensures IsFirstSlash(e + r, |e|) && (e + r)[..|e|] == e
    ensures r != "" ==> (e + r)[|e| + 1..] == r[1..]
  {
    forall k: nat | k < |e| ensures (e + r)[k] != '/' {
      assert ProperlyEscapedAt(e, k);
    }
    Parts(e, r);
    if r != "" {
      HeadTail(r);
      assert (e + r)[|e| + 1..] == r[1..];
    }
  }

  /** Printing inverts parsing, on every text that is accepted. */
  lemma ToStringParse(s: string)
    requires Parse(s).Ok?
    ensures ToString(Parse(s).value) == s
  {
    if s != "" {
      JoinFields(s[1..]);
    }
  }

  lemma {:induction false} JoinFields(s: string)
    requires UnescapeFields(Fields(s)).Ok?
    ensures ToString(UnescapeFields(Fields(s)).value) == "/" + s
    decreases |s|
  {
    var i := FirstSlash(s);
    FieldsSplit(s, i);
    var fields := Fields(s);
    assert fields[0] == s[..i];
    var rest := UnescapeFields(fields[1..]).value;
    EscapeUnescape(s[..i]);
    ToStringFirst(Unescaped(s[..i]), rest);
    if i == |s| {
      assert fields[1..] == [] && s[..i] == s;
    } else {
      assert fields[1..] == Fields(s[i + 1..]);
      JoinFields(s[i + 1..]);
      Reassemble(s, i);
    }
  }

  lemma Reassemble(s: string, i: nat)
    requires i < |s| && s[i] == '/'
    ensures "/" + s[..i] + ("/" + s[i + 1..]) == "/" + s
  {
    assert s == s[..i] + [s[i]] + s[i + 1..];
  }

  lemma ToStringInjective(a: seq<string>, b: seq<string>)
    requires ToString(a) == ToString(b)
    ensures a == b
  {
    ParseToString(a);
    ParseToString(b);
  }

  // -------------------------------------------------- which texts are accepted

  predicate TildeFollowed(s: string, i: nat)
    requires i < |s|
  {
    s[i] == '~' ==> i + 1 < |s| && (s[i + 1] == '0' || s[i + 1] == '1')
  }

  predicate TildesFollowed(s: string) {
    forall i: nat :: i < |s| ==> TildeFollowed(s, i)
  }

  lemma ParseAccepts(s: string)
    ensures Parse(s).Ok? <==> s == "" || (s[0] == '/' && TildesFollowed(s))
    ensures Parse(s).Throws? ==> Parse(s).id == if s[0] == '/' then 108 else 107
  {
    if s != "" && s[0] == '/' {
      FieldsAccepted(s[1..]);
      if TildesFollowed(s) {
        forall i: nat | i < |s[1..]| ensures TildeFollowed(s[1..], i) {
          assert TildeFollowed(s, i + 1);
        }
      }
      if TildesFollowed(s[1..]) {
        forall i: nat | i < |s| ensures TildeFollowed(s, i) {
          assert i > 0 ==> TildeFollowed(s[1..], i - 1);
        }
      }
    }
  }

  lemma {:induction false} FieldsAccepted(s: string)
    ensures UnescapeFields(Fields(s)).Ok? <==> TildesFollowed(s)
    ensures UnescapeFields(Fields(s)).Throws? ==> UnescapeFields(Fields(s)).id == 108
    decreases |s|
  {
    var i := FirstSlash(s);
    var rest := if i < |s| then s[i + 1..] else "";
    FieldsSplit(s, i);
    TildesSplit(s, i);
    if i < |s| {
      FieldsAccepted(rest);
      assert Fields(s)[1..] == Fields(rest);
    } else {
      assert Fields(s)[1..] == [];
    }
  }

  /** A '~' at the end of a field cannot be followed by the slash that ends it. */
  lemma TildesSplit(s: string, i: nat)
    requires IsFirstSlash(s, i)
    ensures TildesFollowed(s) <==> ProperlyEscaped(s[..i]) && (i < |s| ==> TildesFollowed(s[i + 1..]))
  {
    if TildesFollowed(s) {
      forall k: nat | k < i ensures ProperlyEscapedAt(s[..i], k) {
        assert TildeFollowed(s, k);
      }
      if i < |s| {
        var rest := s[i + 1..];
        forall k: nat | k < |rest| ensures TildeFollowed(rest, k) {
          assert TildeFollowed(s, i + 1 + k);
        }
      }
    }
    if ProperlyEscaped(s[..i]) && (i < |s| ==> TildesFollowed(s[i + 1..])) {
      forall k: nat | k < |s| ensures TildeFollowed(s, k) {
        if k < i {
          assert ProperlyEscapedAt(s[..i], k);
        } else if k > i {
          assert TildeFollowed(s[i + 1..], k - i - 1);
        }
      }
    }
  }

  // ------------------------------------------------------ the loop of split

  function Joined(done: seq<string>, rest: Result<seq<string>>): Result<seq<string>> {
    if rest.Ok? then Ok(done + rest.value) else rest
  }

  lemma JoinedStep(done: seq<string>, fields: seq<string>)
    requires fields != []
    ensures Joined(done, UnescapeFields(fields)) ==
      if ProperlyEscaped(fields[0]) then Joined(done + [Unescaped(fields[0])], UnescapeFields(fields[1..]))
      else Throws(108)
  {
    var ahead := UnescapeFields(fields[1..]);
    if ProperlyEscaped(fields[0]) && ahead.Ok? {
      assert done + ([Unescaped(fields[0])] + ahead.value) == done + [Unescaped(fields[0])] + ahead.value;
    }
  }

  lemma SlashAt(s: string, i: nat)
    requires i < |s|
    ensures OccursAt(s, "/", i) <==> s[i] == '/'
  {
    assert s[i..i + 1] == [s[i]];
  }

  lemma FieldsFrom(s: string, start: nat, slash: nat)
    requires start <= slash <= |s|
    requires forall i: nat :: start <= i < slash ==> !OccursAt(s, "/", i)
    requires slash < |s| ==> OccursAt(s, "/", slash)
    ensures Fields(s[start..]) == [s[start..slash]] + if slash == |s| then [] else Fields(s[slash + 1..])
  {
    SlashAhead(s, start, slash);
    FieldsSplit(s[start..], slash - start);
    CutFrom(s, start, slash);
  }

  lemma SlashAhead(s: string, start: nat, slash: nat)
    requires start <= slash <= |s|
    requires forall i: nat :: start <= i < slash ==> !OccursAt(s, "/", i)
    requires slash < |s| ==> OccursAt(s, "/", slash)
    ensures IsFirstSlash(s[start..], slash - start)
  {
    forall i: nat | i < slash - start ensures s[start..][i] != '/' {
      assert !OccursAt(s, "/", start + i);
      SlashAt(s, start + i);
    }
    if slash < |s| {
      SlashAt(s, slash);
    }
  }

  lemma CutFrom(s: string, start: nat, slash: nat)
    requires start <= slash <= |s|
    ensures s[start..][..slash - start] == s[start..slash]
    ensures slash < |s| ==> s[start..][slash - start + 1..] == s[slash + 1..]
  {
  }

  /** Looks for a '~' that is not followed by '0' or '1', from one '~' to the next. */
  method CheckEscapes(token: string) returns (ok: bool)
    requires '/' !in token
    ensures ok == ProperlyEscaped(token)
  {
    var pos: nat := Find(token, "~", 0);
    forall i: nat | i < pos ensures ProperlyEscapedAt(token, i) {
      assert !OccursAt(token, "~", i);
    }
    while pos < |token|
      invariant pos <= |token|
      invariant pos < |token| ==> OccursAt(token, "~", pos)
      invariant forall i: nat :: i < pos ==> ProperlyEscapedAt(token, i)
    {
      if pos == |token| - 1 || (token[pos + 1] != '0' && token[pos + 1] != '1') {
        assert !ProperlyEscapedAt(token, pos);
        return false;
      }
      var next := Find(token, "~", pos + 1);
      forall i: nat | i < next ensures ProperlyEscapedAt(token, i) {
        assert i > pos ==> !OccursAt(token, "~", i);
      }
      pos := next;
    }
    return true;
  }

  lemma NoSlashBetween(s: string, start: nat, slash: nat)
    requires start <= slash <= |s|
    requires forall i: nat :: start <= i < slash ==> !OccursAt(s, "/", i)
    ensures '/' !in s[start..slash]
  {
    var token := s[start..slash];
    forall i | 0 <= i < |token| ensures token[i] != '/' {
      assert !OccursAt(s, "/", start + i);
    }
  }

  method Split(s: string) returns (r: Result<seq<string>>)
    ensures r == Parse(s)
  {
    if s == "" {
      return Ok([]);
    }
    if s[0] != '/' {
      return Throws(107);
    }
    var result: seq<string> := [];
    var start: nat := 1;
    var slash: nat := Find(s, "/", start);
    ghost var fields := Fields(s[1..]);
    assert Joined([], UnescapeFields(fields)) == Parse(s) by {
      assert UnescapeFields(fields).Ok? ==> [] + UnescapeFields(fields).value == UnescapeFields(fields).value;
    }
    while start != 0
      invariant start <= |s|
      invariant start != 0 ==> start <= slash <= |s| && fields == Fields(s[start..])
      invariant start != 0 ==> forall i: nat :: start <= i < slash ==> !OccursAt(s, "/", i)
      invariant start != 0 && slash < |s| ==> OccursAt(s, "/", slash)
      invariant start == 0 ==> fields == []
      invariant Parse(s) == Joined(result, UnescapeFields(fields))
      decreases if start == 0 then 0 else |s| + 1 - start
    {
      FieldsFrom(s, start, slash);
      NoSlashBetween(s, start, slash);
      JoinedStep(result, fields);
      var token := s[start..slash];
      var ok := CheckEscapes(token);
      if !ok {
        return Throws(108);
      }
      token := Unescape(token);
      result := result + [token];
      fields := fields[1..];
      start := if slash == |s| then 0 else slash + 1;
      slash := Find(s, "/", start);
    }
    assert result + [] == result;
    return Ok(result);
  }

  // ------------------------------------------------------------ array indices

  /** std::to_string of an index. */
  function Numeral(n: nat): (s: string)
    ensures s != "" && IsDigits(s)
  {
    if n < 10 then [ToDigit(n)] else Numeral(n / 10) + [ToDigit(n % 10)]
  }

  /** How many digits strtoull reads. */
  function DigitRun(s: string): (n: nat)
    ensures n <= |s| && IsDigits(s[..n]) && (n < |s| ==> !IsDigit(s[n]))
  {
    if s == "" || !IsDigit(s[0]) then 0 else
      var n := DigitRun(s[1..]);
      assert forall i :: 0 < i <= n ==> s[i] == s[1..][i - 1];
      assert forall i :: 0 <= i < n ==> s[1..][i] == s[1..][..n][i];
      n + 1
  }

  function ArrayIndex(s: string): Result<nat> {
    if |s| > 1 && s[0] == '0' then Throws(106)
    else if |s| > 1 && !('1' <= s[0] <= '9') then Throws(109)
    else
      var n := DigitRun(s);
      if n == 0 || ValueOf(s[..n]) >= TWO64 || n != |s| then Throws(404)
      else if ValueOf(s[..n]) >= TWO64 - 1 then Throws(410)
      else Ok(ValueOf(s[..n]))
  }

  lemma {:induction false} ValueOfNumeral(n: nat)
    ensures ValueOf(Numeral(n)) == n
    ensures |Numeral(n)| > 1 ==> Numeral(n)[0] != '0'
    ensures n > 0 ==> Numeral(n)[0] != '0'
  {
    var s := Numeral(n);
    if n < 10 {
      assert s[..0] == [];
    } else {
      ValueOfNumeral(n / 10);
      assert s[..|s| - 1] == Numeral(n / 10);
    }
  }

  lemma {:induction false} NumeralOfValue(s: string)
    requires s != "" && IsDigits(s) && (|s| > 1 ==> s[0] != '0')
    ensures Numeral(ValueOf(s)) == s
  {
    var front := s[..|s| - 1];
    if front == [] {
      assert s == [s[0]];
    } else {
      NumeralOfValue(front);
      ValueBounds(front);
      PowPositive(|front| - 1);
      assert s == front + [s[|s| - 1]];
    }
  }

  lemma PowPositive(n: nat)
    ensures Pow(10, n) >= 1
  {
  }

  lemma DigitRunAll(s: string)
    ensures DigitRun(s) == |s| <==> IsDigits(s)
  {
    assert s[..|s|] == s;
  }

  /** Exactly the canonical numerals below 2^64 - 1 are indices. */
  lemma IndexIsNumeral(s: string, n: nat)
    ensures ArrayIndex(s) == Ok(n) <==> n < TWO64 - 1 && s == Numeral(n)
  {
    DigitRunAll(s);
    ValueOfNumeral(n);
    assert s[..|s|] == s;
    if s != "" && IsDigits(s) && (|s| > 1 ==> s[0] != '0') {
      NumeralOfValue(s);
    }
  }

  /** On a 64-bit platform one numeral is refused with 410: the largest size_t. */
  lemma IndexExceedsSizeType(s: string)
    ensures ArrayIndex(s) == Throws(410) <==> s == Numeral(TWO64 - 1)
  {
    DigitRunAll(s);
    ValueOfNumeral(TWO64 - 1);
    assert s[..|s|] == s;
    if s != "" && IsDigits(s) && (|s| > 1 ==> s[0] != '0') {
      NumeralOfValue(s);
    }
  }

  /** How other tokens are refused: a leading zero with 106, another beginning of a longer
      token with 109, and all else, what does not fit 64 bits included, with 404. */
  lemma IndexRefused(s: string)
    ensures ArrayIndex(s) == Throws(106) <==> |s| > 1 && s[0] == '0'
    ensures ArrayIndex(s) == Throws(109) <==> |s| > 1 && !IsDigit(s[0])
    ensures ArrayIndex(s) == Throws(404) <==>
      if |s| > 1 then IsDigit(s[0]) && s[0] != '0' && (IsDigits(s) ==> ValueOf(s) >= TWO64)
      else s == "" || !IsDigits(s)
  {
    DigitRunAll(s);
    assert s[..|s|] == s;
    if |s| == 1 && IsDigits(s) {
      assert s[..0] == [] && ValueOf(s) == DigitOf(s[0]);
    }
  }
}
