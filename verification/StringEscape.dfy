/** Substring replacement and the two escaping directions of section 4 of RFC 6901. */
module StringEscape {
  import opened Sequences

  /** Every leftmost, non-overlapping occurrence of f in s becomes t. */
  function ReplaceAll(s: string, f: string, t: string): string
    requires f != ""
  {
    if |s| < |f| then s
    else if f <= s then t + ReplaceAll(s[|f|..], f, t)
    else [s[0]] + ReplaceAll(s[1..], f, t)
  }

  predicate OccursAt(s: string, f: string, i: nat) {
    i + |f| <= |s| && s[i..i + |f|] == f
  }

  /** Searches for f from position start; the length of s stands for "not found". */
  method Find(s: string, f: string, start: nat) returns (pos: nat)
    requires f != "" && start <= |s|
    ensures start <= pos <= |s|
    ensures pos < |s| ==> OccursAt(s, f, pos)
    ensures forall i: nat :: start <= i < pos ==> !OccursAt(s, f, i)
  {
    pos := start;
    while pos < |s|
      invariant start <= pos <= |s|
      invariant forall i: nat :: start <= i < pos ==> !OccursAt(s, f, i)
    {
      if OccursAt(s, f, pos) {
        return;
      }
      pos := pos + 1;
    }
  }

  /** Text before the first occurrence is kept as it is. */
  lemma {:induction false} ReplaceAllSkips(s: string, f: string, t: string, k: nat)
    requires f != "" && k <= |s|
    requires forall i: nat :: i < k ==> !OccursAt(s, f, i)
    ensures ReplaceAll(s, f, t) == s[..k] + ReplaceAll(s[k..], f, t)
  {
    if k == 0 {
      assert s[0..] == s;
    } else if |s| < |f| {
      assert s == s[..k] + s[k..];
    } else {
      assert !OccursAt(s, f, 0);
      forall i: nat | i < k - 1 ensures !OccursAt(s[1..], f, i) {
        assert !OccursAt(s, f, i + 1);
        OccursShifted(s, f, i);
      }
      ReplaceAllSkips(s[1..], f, t, k - 1);
      SkipOne(s, k);
    }
  }

  lemma OccursShifted(s: string, f: string, i: nat)
    requires s != ""
    ensures OccursAt(s[1..], f, i) <==> OccursAt(s, f, i + 1)
  {
    assert i + |f| <= |s[1..]| ==> s[1..][i..i + |f|] == s[i + 1..i + 1 + |f|];
  }

  lemma SkipOne(s: string, k: nat)
    requires 0 < k <= |s|
    ensures s[1..][k - 1..] == s[k..] && s[..k] == [s[0]] + s[1..][..k - 1]
  {
  }

  /** The text so far up to k, and what is still to become of the rest. */
  ghost function Ahead(s: string, k: nat, f: string, t: string): string
    requires f != "" && k <= |s|
  {
    s[..k] + ReplaceAll(s[k..], f, t)
  }

  lemma OccursLater(s: string, f: string, start: nat, i: nat)
    requires start <= |s|
    ensures OccursAt(s[start..], f, i) <==> OccursAt(s, f, start + i)
  {
    if start + i + |f| <= |s| {
      assert s[start..][i..i + |f|] == s[start + i..start + i + |f|];
    }
  }

  lemma AheadSkips(s: string, start: nat, pos: nat, f: string, t: string)
    requires f != "" && start <= pos <= |s|
    requires forall i: nat :: start <= i < pos ==> !OccursAt(s, f, i)
    ensures Ahead(s, start, f, t) == Ahead(s, pos, f, t)
  {
    var rest, k := s[start..], pos - start;
    forall i: nat | i < k ensures !OccursAt(rest, f, i) {
      OccursLater(s, f, start, i);
    }
    ReplaceAllSkips(rest, f, t, k);
    CutTwice(s, start, pos);
    Assoc(s[..start], rest[..k], ReplaceAll(rest[k..], f, t));
  }

  lemma AheadReplaces(s: string, pos: nat, f: string, t: string)
    requires f != "" && OccursAt(s, f, pos)
    ensures Ahead(s, pos, f, t) == Ahead(s[..pos] + t + s[pos + |f|..], pos + |t|, f, t)
  {
    var rest := s[pos + |f|..];
    Parts(s[..pos] + t, rest);
    CutTwice(s, pos, pos + |f|);
    assert s[pos..][..|f|] == f;
    Assoc(s[..pos], t, ReplaceAll(rest, f, t));
  }

  method ReplaceSubstring(s0: string, f: string, t: string) returns (s: string)
    requires f != ""
    ensures s == ReplaceAll(s0, f, t)
  {
    s := s0;
    assert s[0..] == s;
    var pos: nat := Find(s, f, 0);
    AheadSkips(s, 0, pos, f, t);
    while pos < |s|
      invariant pos <= |s|
      invariant pos < |s| ==> OccursAt(s, f, pos)
      invariant ReplaceAll(s0, f, t) == Ahead(s, pos, f, t)
      decreases |s| - pos
    {
      AheadReplaces(s, pos, f, t);
      s := s[..pos] + t + s[pos + |f|..];
      var start := pos + |t|;
      pos := Find(s, f, start);
      AheadSkips(s, start, pos, f, t);
    }
  }

  // ------------------------------------------------- one character at a time

  function EscapeChar(c: char): string {
    if c == '~' then "~0" else if c == '/' then "~1" else [c]
  }

  function Escaped(s: string): string {
    if s == "" then "" else EscapeChar(s[0]) + Escaped(s[1..])
  }

  /** "~0" and "~1" denote one character each; any other '~' stands for itself. */
  function Unescaped(s: string): string {
    if s == "" then ""
    else if "~0" <= s then "~" + Unescaped(s[2..])
    else if "~1" <= s then "/" + Unescaped(s[2..])
    else [s[0]] + Unescaped(s[1..])
  }

  /** Every '~' begins an escape sequence, and no '/' is left. */
  predicate ProperlyEscaped(s: string) {
    forall i: nat :: i < |s| ==> ProperlyEscapedAt(s, i)
  }

  predicate ProperlyEscapedAt(s: string, i: nat)
    requires i < |s|
  {
    s[i] != '/' && (s[i] == '~' ==> i + 1 < |s| && (s[i + 1] == '0' || s[i + 1] == '1'))
  }

  lemma ReplaceOne(c: char, rest: string, f: string, t: string)
    requires |f| == 1
    ensures ReplaceAll([c] + rest, f, t) == (if c == f[0] then t else [c]) + ReplaceAll(rest, f, t)
  {
    var u := [c] + rest;
    assert u[1..] == rest && u[0] == c;
    assert f <= u <==> c == f[0];
  }

  lemma {:induction false} TwoPassEscape(s: string)
    ensures ReplaceAll(ReplaceAll(s, "~", "~0"), "/", "~1") == Escaped(s)
  {
    if s != "" {
      var rest := ReplaceAll(s[1..], "~", "~0");
      TwoPassEscape(s[1..]);
      assert s == [s[0]] + s[1..];
      ReplaceOne(s[0], s[1..], "~", "~0");
      if s[0] == '~' {
        assert "~0" + rest == ['~'] + (['0'] + rest);
        ReplaceOne('~', ['0'] + rest, "/", "~1");
        ReplaceOne('0', rest, "/", "~1");
      } else {
        ReplaceOne(s[0], rest, "/", "~1");
      }
    }
  }

  /** The order matters: "~1" goes first, and the pass for "~0" then sees no
      escape sequence the first pass could have created. */
  lemma {:induction false} TwoPassUnescape(s: string)
    ensures ReplaceAll(ReplaceAll(s, "~1", "/"), "~0", "~") == Unescaped(s)
  {
    TwoFirst(s, '0');
    TwoFirst(s, '1');
    if |s| < 2 {
      assert |s| == 1 ==> s[1..] == "";
    } else if s[0] == '~' && s[1] == '1' {
      TwoPassUnescape(s[2..]);
      Kept('/', ReplaceAll(s[2..], "~1", "/"));
    } else if s[0] == '~' && s[1] == '0' {
      TwoPassUnescape(s[2..]);
      HeadTail(s[1..]);
      assert s[1..][1..] == s[2..];
      Skipped('0', s[2..]);
      Rejoined(ReplaceAll(s[2..], "~1", "/"));
    } else {
      TwoPassUnescape(s[1..]);
      FirstOfReplaced(s[1..]);
      Kept(s[0], ReplaceAll(s[1..], "~1", "/"));
    }
  }

  lemma TwoFirst(s: string, c: char)
    ensures ['~', c] <= s <==> |s| >= 2 && s[0] == '~' && s[1] == c
  {
    if |s| >= 2 {
      assert s[..2] == [s[0], s[1]];
    }
  }

  /** The second pass keeps a character that does not begin "~0". */
  lemma Kept(c: char, rest: string)
    requires c != '~' || rest == "" || rest[0] != '0'
    ensures ReplaceAll([c] + rest, "~0", "~") == [c] + ReplaceAll(rest, "~0", "~")
  {
    Parts([c], rest);
    TwoFirst([c] + rest, '0');
  }

  /** The first pass keeps a character other than '~'. */
  lemma Skipped(c: char, rest: string)
    requires c != '~'
    ensures ReplaceAll([c] + rest, "~1", "/") == [c] + ReplaceAll(rest, "~1", "/")
  {
    Parts([c], rest);
    TwoFirst([c] + rest, '1');
  }

  lemma Rejoined(rest: string)
    ensures ReplaceAll("~" + ("0" + rest), "~0", "~") == "~" + ReplaceAll(rest, "~0", "~")
  {
    assert "~" + ("0" + rest) == "~0" + rest;
    Parts("~0", rest);
    TwoFirst("~0" + rest, '0');
  }

  lemma FirstOfReplaced(s: string)
    ensures var r := ReplaceAll(s, "~1", "/");
      s != "" ==> r != "" && r[0] == (if "~1" <= s then '/' else s[0])
  {
    TwoFirst(s, '1');
  }

  lemma UnescapeOne(c: char, rest: string)
    ensures Unescaped(EscapeChar(c) + rest) == [c] + Unescaped(rest)
  {
    Parts(EscapeChar(c), rest);
    if c == '~' {
      UnescapeTwo(EscapeChar(c) + rest, rest, '0');
    } else if c == '/' {
      UnescapeTwo(EscapeChar(c) + rest, rest, '1');
    } else {
      assert (EscapeChar(c) + rest)[0] == c;
    }
  }

  lemma UnescapeTwo(s: string, rest: string, c: char)
    requires |s| >= 2 && s[0] == '~' && s[1] == c && s[2..] == rest && (c == '0' || c == '1')
    ensures Unescaped(s) == (if c == '0' then "~" else "/") + Unescaped(rest)
  {
    TwoFirst(s, '0');
    TwoFirst(s, '1');
  }

  lemma {:induction false} UnescapeEscape(s: string)
    ensures Unescaped(Escaped(s)) == s && ProperlyEscaped(Escaped(s))
  {
    if s != "" {
      UnescapeEscape(s[1..]);
      UnescapeOne(s[0], Escaped(s[1..]));
      EscapedInFront(s[0], Escaped(s[1..]));
    }
  }

  lemma EscapedInFront(c: char, rest: string)
    requires ProperlyEscaped(rest)
    ensures ProperlyEscaped(EscapeChar(c) + rest)
  {
    var w, e := |EscapeChar(c)|, EscapeChar(c) + rest;
    forall i: nat | i < |e| ensures ProperlyEscapedAt(e, i) {
      if i >= w {
        assert ProperlyEscapedAt(rest, i - w);
      }
    }
  }

  lemma {:induction false} EscapeUnescape(s: string)
    requires ProperlyEscaped(s)
    ensures Escaped(Unescaped(s)) == s
  {
    if s != "" {
      assert ProperlyEscapedAt(s, 0);
      var skip := if s[0] == '~' then 2 else 1;
      forall i: nat | i < |s[skip..]| ensures ProperlyEscapedAt(s[skip..], i) {
        assert ProperlyEscapedAt(s, skip + i);
      }
      EscapeUnescape(s[skip..]);
      var rest := Unescaped(s[skip..]);
      var u := (if s[0] != '~' then [s[0]] else if s[1] == '0' then "~" else "/") + rest;
      assert u[1..] == rest && Unescaped(s) == u;
      assert s == s[..skip] + s[skip..];
    }
  }

  method Escape(s: string) returns (r: string)
    ensures r == Escaped(s)
  {
    r := ReplaceSubstring(s, "~", "~0");
    r := ReplaceSubstring(r, "/", "~1");
    TwoPassEscape(s);
  }

  method Unescape(s: string) returns (r: string)
    ensures r == Unescaped(s)
  {
    r := ReplaceSubstring(s, "~1", "/");
    r := ReplaceSubstring(r, "~0", "~");
    TwoPassUnescape(s);
  }
}
