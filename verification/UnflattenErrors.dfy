/** When unflatten throws, and with which error. */
module UnflattenErrors {
  import opened Sequences
  import opened Jsons
  import opened StringOrder
  import opened JsonPointer
  import opened JsonPatch
  import opened Flattening
  import opened Unflattening

  // ------------------------------------------------------- one assignment

  /** Token t leads nowhere from here and nothing can be created: a value that is neither
      null nor a container, or an array and a token that is no index. */
  predicate Refuses(here: Json, t: string, id: int) {
    if here.Array? then ArrayIndex(t) == Throws(id) else id == 313 && Solid(here)
  }

  predicate Solid(j: Json) {
    !j.Null? && !j.Array? && !j.Object?
  }

  ghost predicate BlockedAt(j: Json, tokens: seq<string>, i: nat, id: int) {
    i < |tokens| && At(j, tokens[..i]).Ok? && Refuses(At(j, tokens[..i]).value, tokens[i], id)
  }

  lemma {:induction false} NothingInTheWay(tokens: seq<string>, v: Json)
    ensures SetAt(Null, tokens, v).Ok?
    decreases |tokens|
  {
    if tokens != [] {
      NothingInTheWay(tokens[1..], v);
    }
  }

  lemma BlockedDeeper(j: Json, tokens: seq<string>, i: nat, id: int)
    requires tokens != [] && Child(j, tokens[0]).Ok?
    ensures BlockedAt(j, tokens, i + 1, id) <==> BlockedAt(Child(j, tokens[0]).value, tokens[1..], i, id)
  {
    if i < |tokens| - 1 {
      assert tokens[..i + 1][1..] == tokens[1..][..i];
    }
  }

  /** Where an assignment goes when a child is missing: into a new null. */
  lemma MissingIsFree(j: Json, tokens: seq<string>, v: Json)
    requires tokens != [] && Child(j, tokens[0]).Throws? && SetAt(j, tokens, v).Throws?
    ensures Refuses(j, tokens[0], SetAt(j, tokens, v).id)
  {
    NothingInTheWay(tokens[1..], v);
    if j.Array? && ArrayIndex(tokens[0]).Ok? {
      IndexIsNumeral("-", ArrayIndex(tokens[0]).value);
    }
  }

  lemma {:induction false} WhereBlocked(j: Json, tokens: seq<string>, v: Json) returns (i: nat)
    requires SetAt(j, tokens, v).Throws?
    ensures BlockedAt(j, tokens, i, SetAt(j, tokens, v).id)
    decreases |tokens|
  {
    var t := tokens[0];
    if Child(j, t).Ok? {
      var n := WhereBlocked(Child(j, t).value, tokens[1..], v);
      BlockedDeeper(j, tokens, n, SetAt(j, tokens, v).id);
      i := n + 1;
    } else {
      MissingIsFree(j, tokens, v);
      assert tokens[..0] == [];
      i := 0;
    }
  }

  lemma {:induction false} BlockedThrows(j: Json, tokens: seq<string>, v: Json, i: nat, id: int)
    requires BlockedAt(j, tokens, i, id)
    ensures SetAt(j, tokens, v) == Throws(id)
    decreases i
  {
    if i > 0 {
      assert tokens[..i][0] == tokens[0];
      BlockedDeeper(j, tokens, i - 1, id);
      BlockedThrows(Child(j, tokens[0]).value, tokens[1..], v, i - 1, id);
    } else {
      assert tokens[..0] == [];
    }
  }

  /** An assignment fails exactly if it meets such a place on its way. */
  lemma AssignmentThrowsIff(j: Json, tokens: seq<string>, v: Json, id: int)
    ensures SetAt(j, tokens, v) == Throws(id) <==> exists i :: BlockedAt(j, tokens, i, id)
  {
    if SetAt(j, tokens, v) == Throws(id) {
      var i := WhereBlocked(j, tokens, v);
    }
    forall i | BlockedAt(j, tokens, i, id) ensures SetAt(j, tokens, v) == Throws(id) {
      BlockedThrows(j, tokens, v, i, id);
    }
  }

  // --------------------------------------------------------- all assignments

  /** The entry with key k cannot be assigned. */
  ghost predicate EntryFails(doc: Json, k: string, v: Json, id: int) {
    if !IsPrimitive(v) then id == 315 else
      match Parse(k)
      case Throws(e) => id == e
      case Ok(tokens) => exists i :: BlockedAt(doc, tokens, i, id)
  }

  /** The first n entries, in the order of their keys, can be assigned, the next one cannot. */
  ghost predicate FailsAt(members: map<string, Json>, keys: seq<string>, r: Json, n: nat, id: int)
    requires forall k :: k in keys ==> k in members
  {
    && n < |keys| && Replay(members, keys[..n], r).Ok?
    && EntryFails(Replay(members, keys[..n], r).value, keys[n], members[keys[n]], id)
  }

  lemma FailsLater(members: map<string, Json>, keys: seq<string>, r: Json, next: Json, n: nat, id: int)
    requires (forall k :: k in keys ==> k in members) && keys != []
    requires IsPrimitive(members[keys[0]]) && Parse(keys[0]).Ok?
    requires SetAt(r, Parse(keys[0]).value, members[keys[0]]) == Ok(next)
    ensures FailsAt(members, keys, r, n + 1, id) <==> FailsAt(members, keys[1..], next, n, id)
  {
    if n + 1 < |keys| {
      assert keys[..n + 1][1..] == keys[1..][..n] && keys[..n + 1][0] == keys[0];
    }
  }

  lemma FailsFirst(members: map<string, Json>, keys: seq<string>, r: Json, id: int)
    requires (forall k :: k in keys ==> k in members) && keys != []
    ensures FailsAt(members, keys, r, 0, id) <==> EntryFails(r, keys[0], members[keys[0]], id)
    ensures EntryFails(r, keys[0], members[keys[0]], id) ==> Replay(members, keys, r) == Throws(id)
    ensures (forall e :: !EntryFails(r, keys[0], members[keys[0]], e)) ==>
      && IsPrimitive(members[keys[0]]) && Parse(keys[0]).Ok?
      && SetAt(r, Parse(keys[0]).value, members[keys[0]]).Ok?
  {
    assert keys[..0] == [];
    var k, v := keys[0], members[keys[0]];
    if IsPrimitive(v) && Parse(k).Ok? {
      AssignmentThrowsIff(r, Parse(k).value, v, id);
      if SetAt(r, Parse(k).value, v).Throws? {
        AssignmentThrowsIff(r, Parse(k).value, v, SetAt(r, Parse(k).value, v).id);
        assert EntryFails(r, k, v, SetAt(r, Parse(k).value, v).id);
      }
    } else {
      assert EntryFails(r, k, v, if !IsPrimitive(v) then 315 else Parse(k).id);
    }
  }

  lemma {:induction false} WhereFailed(members: map<string, Json>, keys: seq<string>, r: Json) returns (n: nat)
    requires (forall k :: k in keys ==> k in members) && Replay(members, keys, r).Throws?
    ensures FailsAt(members, keys, r, n, Replay(members, keys, r).id)
    decreases |keys|
  {
    var id := Replay(members, keys, r).id;
    FailsFirst(members, keys, r, id);
    if FailsAt(members, keys, r, 0, id) {
      return 0;
    }
    forall e ensures !EntryFails(r, keys[0], members[keys[0]], e) {
      FailsFirst(members, keys, r, e);
    }
    var next := SetAt(r, Parse(keys[0]).value, members[keys[0]]).value;
    var m := WhereFailed(members, keys[1..], next);
    FailsLater(members, keys, r, next, m, id);
    n := m + 1;
  }

  lemma {:induction false} FailsThrows(members: map<string, Json>, keys: seq<string>, r: Json, n: nat, id: int)
    requires (forall k :: k in keys ==> k in members) && FailsAt(members, keys, r, n, id)
    ensures Replay(members, keys, r) == Throws(id)
    decreases n
  {
    if n == 0 {
      FailsFirst(members, keys, r, id);
    } else {
      assert keys[..n][0] == keys[0];
      var next := SetAt(r, Parse(keys[0]).value, members[keys[0]]).value;
      FailsLater(members, keys, r, next, n - 1, id);
      FailsThrows(members, keys[1..], next, n - 1, id);
    }
  }

  /** unflatten throws 314 for anything but an object, and otherwise the error of the first
      entry, in the order of the keys, that cannot be assigned: 315 for a value that is not
      primitive, the pointer's error, or that of the place where the assignment is blocked. */
  lemma UnflattenThrowsIff(j: Json, id: int)
    ensures Unflattened(j) == Throws(id) <==> if j.Object? then SomeEntryFails(j.members, id) else id == 314
  {
    if j.Object? {
      var keys := SortedKeys(j.members.Keys);
      if Unflattened(j) == Throws(id) {
        var n := WhereFailed(j.members, keys, Null);
      }
      forall n | FailsAt(j.members, keys, Null, n, id) ensures Unflattened(j) == Throws(id) {
        FailsThrows(j.members, keys, Null, n, id);
      }
    }
  }

  ghost predicate SomeEntryFails(members: map<string, Json>, id: int) {
    exists n :: FailsAt(members, SortedKeys(members.Keys), Null, n, id)
  }

  // ------------------------------------------------- what stands in the way

  /** What has been assigned is there. */
  lemma {:induction false} AssignedIsThere(j: Json, ts: seq<string>, v: Json)
    requires SetAt(j, ts, v).Ok?
    ensures At(SetAt(j, ts, v).value, ts) == Ok(v)
    decreases |ts|
  {
    if ts != [] {
      SetAtLevel(j, ts, v);
      AssignedIsThere(Below(j, ts[0]), ts[1..], v);
    }
  }

  /** A value other than null and containers is at p after an assignment only if it was
      assigned there or had been there before. */
  lemma {:induction false} SolidBefore(j: Json, ts: seq<string>, v: Json, p: seq<string>, c: Json)
    requires SetAt(j, ts, v).Ok? && IsPrimitive(v) && Solid(c) && At(SetAt(j, ts, v).value, p) == Ok(c)
    ensures (p == ts && c == v) || At(j, p) == Ok(c)
    decreases |ts|
  {
    if ts != [] {
      SetAtLevel(j, ts, v);
      if p[0] == ts[0] {
        SolidBefore(Below(j, ts[0]), ts[1..], v, p[1..], c);
        HeadTail(p);
        HeadTail(ts);
        NoIndexDash();
        BelowIsChild(j, ts[0]);
      } else {
        SetAtSibling(j, ts, v, p[0]);
      }
    }
  }

  lemma NoIndexDash()
    ensures ArrayIndex("-").Throws?
  {
    if ArrayIndex("-").Ok? {
      IndexIsNumeral("-", ArrayIndex("-").value);
    }
  }

  /** And it stays there under every assignment that does not go to p or above. */
  lemma {:induction false} SolidStays(j: Json, ts: seq<string>, v: Json, p: seq<string>, c: Json)
    requires SetAt(j, ts, v).Ok? && Solid(c) && At(j, p) == Ok(c) && !(ts <= p)
    ensures At(SetAt(j, ts, v).value, p) == Ok(c)
    decreases |ts|
  {
    SetAtLevel(j, ts, v);
    if p[0] == ts[0] {
      BelowIsChild(j, p[0]);
      HeadTail(p);
      HeadTail(ts);
      SolidStays(Below(j, p[0]), ts[1..], v, p[1..], c);
    } else {
      SetAtSibling(j, ts, v, p[0]);
    }
  }

  lemma {:induction false} SolidWasAssigned(members: map<string, Json>, keys: seq<string>, r: Json, p: seq<string>,
                                            c: Json)
    requires (forall k :: k in keys ==> k in members) && Replay(members, keys, r).Ok?
    requires Solid(c) && At(Replay(members, keys, r).value, p) == Ok(c)
    ensures At(r, p) == Ok(c) || (ToString(p) in keys && members[ToString(p)] == c)
    decreases |keys|
  {
    if keys != [] {
      var k, ts, v := keys[0], Parse(keys[0]).value, members[keys[0]];
      var next := SetAt(r, ts, v).value;
      SolidWasAssigned(members, keys[1..], next, p, c);
      if At(next, p) == Ok(c) {
        SolidBefore(r, ts, v, p, c);
        ToStringParse(k);
      }
    }
  }

  lemma {:induction false} SolidIsKept(members: map<string, Json>, keys: seq<string>, r: Json, p: seq<string>, c: Json)
    requires (forall k :: k in keys ==> k in members) && Replay(members, keys, r).Ok?
    requires Solid(c) && At(r, p) == Ok(c)
    requires forall k :: k in keys && Parse(k).Ok? ==> !(Parse(k).value <= p)
    ensures At(Replay(members, keys, r).value, p) == Ok(c)
    decreases |keys|
  {
    if keys != [] {
      var ts, v := Parse(keys[0]).value, members[keys[0]];
      SolidStays(r, ts, v, p, c);
      SolidIsKept(members, keys[1..], SetAt(r, ts, v).value, p, c);
    }
  }

  /** A pointer comes before those of the places below it. */
  lemma AboveIsLess(p: seq<string>, ts: seq<string>)
    requires p <= ts && p != ts
    ensures Less(ToString(p), ToString(ts))
  {
    var rest := ts[|p|..];
    assert ts == p + rest;
    ToStringAppend(p, rest);
    LessPrefix(ToString(p), "", ToString(rest));
    assert ToString(p) + "" == ToString(p);
    ToStringFirst(rest[0], rest[1..]);
    HeadTail(rest);
  }

  lemma SolidSince(members: map<string, Json>, p: seq<string>, rest: seq<string>, doc: Json)
    requires (forall k :: k in [ToString(p)] + rest ==> k in members)
    requires Replay(members, [ToString(p)] + rest, doc).Ok? && members[ToString(p)] != Null
    requires forall k :: k in rest && Parse(k).Ok? ==> !(Parse(k).value <= p)
    ensures At(Replay(members, [ToString(p)] + rest, doc).value, p) == Ok(members[ToString(p)])
  {
    var k, v := ToString(p), members[ToString(p)];
    Parts([k], rest);
    ParseToString(p);
    AssignedIsThere(doc, p, v);
    SolidIsKept(members, rest, SetAt(doc, p, v).value, p, v);
  }

  /** Once assigned, a value other than null stays until a key below it turns up. */
  lemma SolidUntil(members: map<string, Json>, keys: seq<string>, p: seq<string>)
    requires (forall k :: k in keys ==> k in members) && Sorted(keys) && Replay(members, keys, Null).Ok?
    requires ToString(p) in keys && members[ToString(p)] != Null
    ensures At(Replay(members, keys, Null).value, p) == Ok(members[ToString(p)])
  {
    var a :| 0 <= a < |keys| && keys[a] == ToString(p);
    CutAround(keys, a);
    var front, rest := keys[..a], keys[a + 1..];
    Assoc(front, [keys[a]], rest);
    ReplaySplit(members, front, [keys[a]] + rest, Null);
    forall k | k in rest && Parse(k).Ok? ensures !(Parse(k).value <= p) {
      LaterIsNotAbove(keys, a, k, p);
    }
    SolidSince(members, p, rest, Replay(members, front, Null).value);
  }

  lemma LaterIsNotAbove(keys: seq<string>, a: nat, l: string, p: seq<string>)
    requires Sorted(keys) && a < |keys| && keys[a] == ToString(p) && l in keys[a + 1..] && Parse(l).Ok?
    ensures !(Parse(l).value <= p)
  {
    var i :| 0 <= i < |keys[a + 1..]| && keys[a + 1..][i] == l;
    assert Less(keys[a], keys[a + 1 + i]);
    ToStringParse(l);
    if Parse(l).value <= p && Parse(l).value != p {
      AboveIsLess(Parse(l).value, p);
    }
    LessTotal(ToString(p), l);
    LessIrreflexive(l);
  }

  /** A key strictly above the place has a value other than null. */
  ghost predicate ValueAbove(members: map<string, Json>, ts: seq<string>, p: seq<string>) {
    p <= ts && p != ts && ToString(p) in members && members[ToString(p)] != Null
  }

  ghost predicate Reached(members: map<string, Json>, keys: seq<string>, n: nat)
    requires forall k :: k in keys ==> k in members
  {
    && n < |keys| && Replay(members, keys[..n], Null).Ok?
    && IsPrimitive(members[keys[n]]) && Parse(keys[n]).Ok?
  }

  lemma IndexErrors(t: string)
    ensures ArrayIndex(t).Throws? ==> ArrayIndex(t).id in {106, 109, 404, 410}
  {
  }

  lemma ValueBlocks(members: map<string, Json>, keys: seq<string>, n: nat, p: seq<string>)
    requires keys == SortedKeys(members.Keys) && Reached(members, keys, n)
    requires ValueAbove(members, Parse(keys[n]).value, p)
    ensures BlockedAt(Replay(members, keys[..n], Null).value, Parse(keys[n]).value, |p|, 313)
  {
    var ts := Parse(keys[n]).value;
    AboveIsLess(p, ts);
    ToStringParse(keys[n]);
    EarlierKey(keys, n, ToString(p));
    SolidUntil(members, keys[..n], p);
    ReplayedArePrimitive(members, keys[..n], Null, ToString(p));
    assert ts[..|p|] == p;
  }

  lemma BlockedIff(members: map<string, Json>, n: nat)
    requires Reached(members, SortedKeys(members.Keys), n)
    ensures var keys := SortedKeys(members.Keys);
      FailsAt(members, keys, Null, n, 313) <==> exists p :: ValueAbove(members, Parse(keys[n]).value, p)
  {
    var keys := SortedKeys(members.Keys);
    var doc, ts := Replay(members, keys[..n], Null).value, Parse(keys[n]).value;
    if FailsAt(members, keys, Null, n, 313) {
      var i: nat :| BlockedAt(doc, ts, i, 313);
      IndexErrors(ts[i]);
      SolidWasAssigned(members, keys[..n], Null, ts[..i], At(doc, ts[..i]).value);
      assert ValueAbove(members, ts, ts[..i]);
    }
    forall p | ValueAbove(members, ts, p) ensures FailsAt(members, keys, Null, n, 313) {
      ValueBlocks(members, keys, n, p);
    }
  }

  /** Error 313 means that the object has a value other than null at some pointer and, as
      the first entry that cannot be assigned, one below that pointer. */
  lemma Throws313Iff(members: map<string, Json>)
    ensures Unflattened(Object(members)) == Throws(313)
      <==> exists n, p :: Conflict(members, SortedKeys(members.Keys), n, p)
  {
    var keys := SortedKeys(members.Keys);
    UnflattenThrowsIff(Object(members), 313);
    if SomeEntryFails(members, 313) {
      var n: nat :| FailsAt(members, keys, Null, n, 313);
      ParseAccepts(keys[n]);
      BlockedIff(members, n);
      var p :| ValueAbove(members, Parse(keys[n]).value, p);
      assert Conflict(members, keys, n, p);
    }
    forall n, p | Conflict(members, keys, n, p) ensures SomeEntryFails(members, 313) {
      BlockedIff(members, n);
    }
  }

  ghost predicate Conflict(members: map<string, Json>, keys: seq<string>, n: nat, p: seq<string>)
    requires forall k :: k in keys ==> k in members
  {
    Reached(members, keys, n) && ValueAbove(members, Parse(keys[n]).value, p)
  }
}
