/** When unflatten recovers what flatten took apart, although the leaves come back
    in the order of their pointer texts. */
module Unflattening {
  import opened Sequences
  import opened DigitGen
  import opened Jsons
  import opened StringEscape
  import opened StringOrder
  import opened JsonPointer
  import opened JsonPatch
  import opened JsonDiff
  import opened Flattening

  // ------------------------------------------------ the tree built so far

  /** Some leaf below the node at p has been replayed. */
  ghost predicate Touched(j: Json, p: seq<string>, seen: set<seq<string>>)
    requires Storable(j)
    decreases j
  {
    if IsLeaf(j) then p in seen else
      match j
      case Array(a) => exists i :: 0 <= i < |a| && Touched(a[i], p + [Numeral(i)], seen)
      case Object(m) => exists k :: k in m && Touched(m[k], p + [k], seen)
      case _ => false
  }

  /** The length of the shortest prefix that has every true element. */
  function UpToLast(flags: seq<bool>): (r: nat)
    ensures r <= |flags| && (forall i :: r <= i < |flags| ==> !flags[i]) && (r > 0 ==> flags[r - 1])
  {
    if flags == [] then 0
    else if flags[|flags| - 1] then |flags|
    else UpToLast(flags[..|flags| - 1])
  }

  lemma UpToLastSet(flags: seq<bool>, n: nat)
    requires n < |flags|
    ensures UpToLast(flags[n := true]) == if n < UpToLast(flags) then UpToLast(flags) else n + 1
  {
    var e := UpToLast(flags);
    var top := if n < e then e else n + 1;
    assert flags[n := true][top - 1];
  }

  ghost function Flags(j: Json, p: seq<string>, seen: set<seq<string>>): (r: seq<bool>)
    requires Storable(j) && j.Array?
    ensures |r| == |j.elements|
  {
    seq(|j.elements|, i requires 0 <= i < |j.elements| => Touched(j.elements[i], p + [Numeral(i)], seen))
  }

  /** What has been built below each element, null where nothing has. */
  ghost function Built(j: Json, p: seq<string>, seen: set<seq<string>>): (r: seq<Json>)
    requires Storable(j) && j.Array?
    ensures |r| == |j.elements|
    decreases j, 0
  {
    seq(|j.elements|, i requires 0 <= i < |j.elements| => Partial(j.elements[i], p + [Numeral(i)], seen))
  }

  /** The part of j that the seen leaves determine. */
  ghost function Partial(j: Json, p: seq<string>, seen: set<seq<string>>): Json
    requires Storable(j)
    decreases j, 1
  {
    if !Touched(j, p, seen) then Null
    else if IsLeaf(j) then LeafValue(j)
    else match j
      case Array(a) => Array(Built(j, p, seen)[..UpToLast(Flags(j, p, seen))])
      case Object(m) => Object(map k | k in m && Touched(m[k], p + [k], seen) :: Partial(m[k], p + [k], seen))
      case _ => j
  }

  lemma {:induction false} OtherUnaffected(j: Json, p: seq<string>, seen: set<seq<string>>, x: seq<string>)
    requires Storable(j) && !(p <= x)
    ensures Touched(j, p, seen + {x}) == Touched(j, p, seen)
    ensures Partial(j, p, seen + {x}) == Partial(j, p, seen)
    decreases j
  {
    if !IsLeaf(j) {
      match j
      case Array(a) =>
        forall i | 0 <= i < |a|
          ensures Touched(a[i], p + [Numeral(i)], seen + {x}) == Touched(a[i], p + [Numeral(i)], seen)
          ensures Partial(a[i], p + [Numeral(i)], seen + {x}) == Partial(a[i], p + [Numeral(i)], seen)
        {
          OtherUnaffected(a[i], p + [Numeral(i)], seen, x);
        }
        ArrayAgrees(j, p, seen, seen + {x});
      case Object(m) =>
        forall k | k in m
          ensures Touched(m[k], p + [k], seen + {x}) == Touched(m[k], p + [k], seen)
          ensures Partial(m[k], p + [k], seen + {x}) == Partial(m[k], p + [k], seen)
        {
          OtherUnaffected(m[k], p + [k], seen, x);
        }
        ObjectAgrees(j, p, seen, seen + {x});
      case _ =>
    }
  }

  lemma ArrayAgrees(j: Json, p: seq<string>, one: set<seq<string>>, two: set<seq<string>>)
    requires Storable(j) && j.Array? && !IsLeaf(j)
    requires forall i :: 0 <= i < |j.elements| ==>
      && Touched(j.elements[i], p + [Numeral(i)], one) == Touched(j.elements[i], p + [Numeral(i)], two)
      && Partial(j.elements[i], p + [Numeral(i)], one) == Partial(j.elements[i], p + [Numeral(i)], two)
    ensures Touched(j, p, one) == Touched(j, p, two) && Partial(j, p, one) == Partial(j, p, two)
  {
    assert Flags(j, p, one) == Flags(j, p, two);
    assert Built(j, p, one) == Built(j, p, two);
    assert Touched(j, p, one) <==> true in Flags(j, p, one) by { TouchedFlags(j, p, one); }
    TouchedFlags(j, p, two);
  }

  lemma TouchedFlags(j: Json, p: seq<string>, seen: set<seq<string>>)
    requires Storable(j) && j.Array? && !IsLeaf(j)
    ensures Touched(j, p, seen) <==> true in Flags(j, p, seen)
  {
    if Touched(j, p, seen) {
      var i :| 0 <= i < |j.elements| && Touched(j.elements[i], p + [Numeral(i)], seen);
      assert Flags(j, p, seen)[i];
    }
  }

  lemma ObjectAgrees(j: Json, p: seq<string>, one: set<seq<string>>, two: set<seq<string>>)
    requires Storable(j) && j.Object? && !IsLeaf(j)
    requires forall k :: k in j.members ==>
      && Touched(j.members[k], p + [k], one) == Touched(j.members[k], p + [k], two)
      && Partial(j.members[k], p + [k], one) == Partial(j.members[k], p + [k], two)
    ensures Touched(j, p, one) == Touched(j, p, two) && Partial(j, p, one) == Partial(j, p, two)
  {
  }

  // -------------------------------------------------- replaying one leaf

  /** Wherever the leaf at ts opens a new node, its token asks for the right kind. */
  ghost predicate Opens(j: Json, p: seq<string>, seen: set<seq<string>>, ts: seq<string>)
    requires Storable(j) && At(j, ts).Ok?
    decreases |ts|
  {
    ts == [] ||
    (StorableChild(j, ts[0]);
     (Touched(j, p, seen) || (ts[0] == "0" <==> j.Array?)) && Opens(Child(j, ts[0]).value, p + [ts[0]], seen, ts[1..]))
  }

  lemma StorableChild(j: Json, t: string)
    requires Storable(j) && Child(j, t).Ok?
    ensures Storable(Child(j, t).value)
  {
  }

  lemma {:induction false} SeenIsTouched(j: Json, p: seq<string>, seen: set<seq<string>>, ts: seq<string>)
    requires Storable(j) && Leaf(j, ts) && p + ts in seen
    ensures Touched(j, p, seen)
    decreases |ts|
  {
    if ts == [] {
      assert p + ts == p;
    } else {
      StorableChild(j, ts[0]);
      var c := Child(j, ts[0]).value;
      assert p + [ts[0]] + ts[1..] == p + ts;
      SeenIsTouched(c, p + [ts[0]], seen, ts[1..]);
      match j
      case Array(a) =>
        var n := ArrayIndex(ts[0]).value;
        IndexIsNumeral(ts[0], n);
        assert Touched(a[n], p + [Numeral(n)], seen);
      case _ =>
    }
  }

  lemma {:induction false} ReplayLeaf(j: Json, p: seq<string>, seen: set<seq<string>>, ts: seq<string>)
    requires Storable(j) && Leaf(j, ts) && Opens(j, p, seen, ts)
    ensures SetAt(Partial(j, p, seen), ts, LeafValue(At(j, ts).value)) == Ok(Partial(j, p, seen + {p + ts}))
    decreases |ts|
  {
    SeenIsTouched(j, p, seen + {p + ts}, ts);
    if ts == [] {
      assert p + ts == p;
    } else {
      var t, rest, v := ts[0], ts[1..], LeafValue(At(j, ts).value);
      StorableChild(j, t);
      var c := Child(j, t).value;
      assert p + [t] + rest == p + ts;
      ReplayLeaf(c, p + [t], seen, rest);
      SeenIsTouched(c, p + [t], seen + {p + ts}, rest);
      if j.Object? {
        ObjectStep(j, p, seen, ts, v);
      } else {
        IndexIsNumeral(t, ArrayIndex(t).value);
        IndexIsNumeral("0", 0);
        ArrayStep(j, p, seen, ts, v, ArrayIndex(t).value);
      }
    }
  }

  /** Untouched nodes are null. */
  lemma ObjectStep(j: Json, p: seq<string>, seen: set<seq<string>>, ts: seq<string>, v: Json)
    requires Storable(j) && j.Object? && ts != [] && ts[0] in j.members
    requires Touched(j, p, seen) || ts[0] != "0"
    requires var after := seen + {p + ts};
      && Touched(j, p, after) && Touched(j.members[ts[0]], p + [ts[0]], after)
      && SetAt(Partial(j.members[ts[0]], p + [ts[0]], seen), ts[1..], v)
        == Ok(Partial(j.members[ts[0]], p + [ts[0]], after))
    ensures SetAt(Partial(j, p, seen), ts, v) == Ok(Partial(j, p, seen + {p + ts}))
  {
    var m, t, after := j.members, ts[0], seen + {p + ts};
    OtherMembers(j, p, seen, p + ts, t);
    var built := if Touched(j, p, seen) then Partial(j, p, seen).members else map[];
    assert built[t := Partial(m[t], p + [t], after)] == Partial(j, p, after).members;
  }

  lemma OtherMembers(j: Json, p: seq<string>, seen: set<seq<string>>, x: seq<string>, t: string)
    requires Storable(j) && j.Object? && |p| < |x| && x[|p|] == t
    ensures forall k :: k in j.members && k != t ==>
      && Touched(j.members[k], p + [k], seen + {x}) == Touched(j.members[k], p + [k], seen)
      && Partial(j.members[k], p + [k], seen + {x}) == Partial(j.members[k], p + [k], seen)
  {
    var m := j.members;
    forall k | k in m && k != t
      ensures Touched(m[k], p + [k], seen + {x}) == Touched(m[k], p + [k], seen)
      ensures Partial(m[k], p + [k], seen + {x}) == Partial(m[k], p + [k], seen)
    {
      assert (p + [k])[|p|] == k;
      OtherUnaffected(m[k], p + [k], seen, x);
    }
  }

  lemma GrownStep(before: seq<Json>, c: Json, e: nat, n: nat)
    requires n < |before| && e <= |before|
    requires forall i :: e <= i < |before| ==> before[i] == Null
    ensures Grown(before[..e], n)[n] == before[n]
    ensures Grown(before[..e], n)[n := c] == before[n := c][..if n < e then e else n + 1]
  {
  }

  /** The leaf below element n changes that element only. */
  lemma ElementStep(j: Json, p: seq<string>, seen: set<seq<string>>, x: seq<string>, n: nat)
    requires Storable(j) && j.Array? && n < |j.elements| && |p| < |x| && x[|p|] == Numeral(n)
    requires Touched(j.elements[n], p + [Numeral(n)], seen + {x})
    ensures Flags(j, p, seen + {x}) == Flags(j, p, seen)[n := true]
    ensures Built(j, p, seen + {x}) == Built(j, p, seen)[n := Partial(j.elements[n], p + [Numeral(n)], seen + {x})]
  {
    var a, after := j.elements, seen + {x};
    forall i | 0 <= i < |a| && i != n
      ensures Touched(a[i], p + [Numeral(i)], after) == Touched(a[i], p + [Numeral(i)], seen)
      ensures Built(j, p, after)[i] == Built(j, p, seen)[i]
    {
      IndexIsNumeral(Numeral(i), i);
      IndexIsNumeral(Numeral(i), n);
      assert (p + [Numeral(i)])[|p|] == Numeral(i);
      OtherUnaffected(a[i], p + [Numeral(i)], seen, x);
    }
  }

  lemma BuiltWhereFlagged(j: Json, p: seq<string>, seen: set<seq<string>>)
    requires Storable(j) && j.Array?
    ensures forall i :: UpToLast(Flags(j, p, seen)) <= i < |j.elements| ==> Built(j, p, seen)[i] == Null
  {
    forall i | UpToLast(Flags(j, p, seen)) <= i < |j.elements| ensures Built(j, p, seen)[i] == Null {
      assert !Flags(j, p, seen)[i];
    }
  }

  /** Later elements may come first; index 0 opens the array. */
  lemma ArrayStep(j: Json, p: seq<string>, seen: set<seq<string>>, ts: seq<string>, v: Json, n: nat)
    requires Storable(j) && j.Array? && n < |j.elements| && ts != [] && ts[0] == Numeral(n)
    requires Touched(j, p, seen) || n == 0
    requires var after, c, q := seen + {p + ts}, j.elements[n], p + [Numeral(n)];
      && Touched(j, p, after) && Touched(c, q, after)
      && SetAt(Partial(c, q, seen), ts[1..], v) == Ok(Partial(c, q, after))
    ensures SetAt(Partial(j, p, seen), ts, v) == Ok(Partial(j, p, seen + {p + ts}))
  {
    var before, c := Built(j, p, seen), Partial(j.elements[n], p + [Numeral(n)], seen + {p + ts});
    var e := UpToLast(Flags(j, p, seen));
    IndexIsNumeral(ts[0], n);
    assert (p + ts)[|p|] == ts[0];
    ElementStep(j, p, seen, p + ts, n);
    UpToLastSet(Flags(j, p, seen), n);
    BuiltWhereFlagged(j, p, seen);
    GrownStep(before, c, e, n);
    if Touched(j, p, seen) {
      assert Partial(j, p, seen) == Array(before[..e]);
    } else {
      TouchedFlags(j, p, seen);
      assert before[n] == Null;
      assert before[n := c][..1] == [c];
      assert Numeral(0) == "0";
    }
  }

  // ------------------------------------------------ which values come back

  /** In the order of pointer texts, the first leaf of j lies below its child t. */
  ghost predicate FirstLeafUnder(j: Json, t: string) {
    exists ts :: ts != [] && ts[0] == t && FirstLeaf(j, ts)
  }

  ghost predicate FirstLeaf(j: Json, ts: seq<string>) {
    Leaf(j, ts) && forall us :: Leaf(j, us) ==> !Less(ToString(us), ToString(ts))
  }

  /** No node is discarded or an empty container, and no object is mistaken for an
      array because "0" is the first of its keys to be met again. */
  ghost predicate Recoverable(j: Json) {
    forall p :: At(j, p).Ok? ==> NodeRecoverable(At(j, p).value)
  }

  ghost predicate NodeRecoverable(c: Json) {
    && !c.Discarded?
    && (c.Array? || c.Object? ==> !IsLeaf(c))
    && (c.Object? ==> !FirstLeafUnder(c, "0"))
  }

  lemma RecoverableChild(j: Json, t: string)
    requires Recoverable(j) && Child(j, t).Ok?
    ensures Recoverable(Child(j, t).value)
  {
    var c := Child(j, t).value;
    forall p | At(c, p).Ok? ensures NodeRecoverable(At(c, p).value) {
      Parts([t], p);
      assert At(j, [t] + p) == At(c, p);
    }
  }

  lemma RecoverableNode(j: Json)
    requires Recoverable(j)
    ensures NodeRecoverable(j)
  {
    assert At(j, []) == Ok(j);
  }

  lemma {:induction false} SomeLeaf(j: Json) returns (ts: seq<string>)
    requires Storable(j)
    ensures Leaf(j, ts)
    decreases j
  {
    if IsLeaf(j) {
      ts := [];
    } else {
      var t :| t in Kids(j) by { HasKids(j); }
      var rest := SomeLeaf(Kid(j, t));
      ts := [t] + rest;
      LeafOfKid(j, t, rest);
    }
  }

  lemma HasKids(j: Json)
    requires !IsLeaf(j)
    ensures exists t :: t in Kids(j)
  {
    match j
    case Array(a) => assert Kids(j)[0] in Kids(j);
    case Object(m) =>
      var k :| k in m;
      assert k in Kids(j);
    case _ =>
  }

  /** The leaf about to be replayed opens every new node on its path correctly,
      because all leaves with smaller texts have been seen. */
  lemma {:induction false} OpensInOrder(j: Json, p: seq<string>, seen: set<seq<string>>, ts: seq<string>)
    requires Storable(j) && Leaf(j, ts) && Recoverable(j)
    requires forall us :: Leaf(j, us) && Less(ToString(us), ToString(ts)) ==> p + us in seen
    ensures Opens(j, p, seen, ts)
    decreases |ts|
  {
    if ts != [] {
      var t, rest := ts[0], ts[1..];
      StorableChild(j, t);
      RecoverableChild(j, t);
      KidsAreChildren(j, t);
      HeadTail(ts);
      var c := Child(j, t).value;
      forall us | Leaf(c, us) && Less(ToString(us), ToString(rest)) ensures p + [t] + us in seen {
        EarlierInKid(j, p, seen, t, rest, us);
      }
      OpensInOrder(c, p + [t], seen, rest);
      if !Touched(j, p, seen) {
        FirstIsOpened(j, p, seen, ts);
      }
    }
  }

  /** An earlier leaf of a child is an earlier leaf of the whole. */
  lemma EarlierInKid(j: Json, p: seq<string>, seen: set<seq<string>>, t: string, rest: seq<string>, us: seq<string>)
    requires Storable(j) && Child(j, t).Ok? && Leaf(Child(j, t).value, us) && Less(ToString(us), ToString(rest))
    requires forall ys :: Leaf(j, ys) && Less(ToString(ys), ToString([t] + rest)) ==> p + ys in seen
    ensures p + [t] + us in seen
  {
    KidsAreChildren(j, t);
    LeafOfKid(j, t, us);
    ToStringFirst(t, us);
    ToStringFirst(t, rest);
    LessPrefix("/" + Escaped(t), ToString(us), ToString(rest));
    Assoc(p, [t], us);
  }

  lemma FirstIsOpened(j: Json, p: seq<string>, seen: set<seq<string>>, ts: seq<string>)
    requires Storable(j) && Leaf(j, ts) && Recoverable(j) && ts != [] && !Touched(j, p, seen)
    requires forall us :: Leaf(j, us) && Less(ToString(us), ToString(ts)) ==> p + us in seen
    ensures ts[0] == "0" <==> j.Array?
  {
    forall us | Leaf(j, us) ensures !Less(ToString(us), ToString(ts)) {
      if p + us in seen {
        SeenIsTouched(j, p, seen, us);
      }
    }
    assert FirstLeaf(j, ts);
    RecoverableNode(j);
    if j.Array? {
      FirstOfArray(j, ts);
    }
  }

  /** "/0..." sorts before "/n...". */
  lemma ZeroFirst(z: seq<string>, n: nat, rest: seq<string>)
    requires n > 0
    ensures Less(ToString(["0"] + z), ToString([Numeral(n)] + rest))
  {
    ToStringFirst("0", z);
    ToStringFirst(Numeral(n), rest);
    PlainEscapes(n);
    PlainEscapes(0);
    ValueOfNumeral(n);
    var a, b := "0" + ToString(z), Numeral(n) + ToString(rest);
    assert a[0] == '0' && b[0] == Numeral(n)[0] && IsDigit(b[0]);
    assert Less(a, b);
    LessPrefix("/", a, b);
    Assoc("/", "0", ToString(z));
    Assoc("/", Numeral(n), ToString(rest));
  }

  lemma FirstOfArray(j: Json, ts: seq<string>)
    requires Storable(j) && j.Array? && ts != [] && FirstLeaf(j, ts)
    ensures ts[0] == "0"
  {
    var n := ArrayIndex(ts[0]).value;
    IndexIsNumeral(ts[0], n);
    assert Numeral(0) == "0";
    assert Kids(j)[0] == "0";
    var z := SomeLeaf(Kid(j, "0"));
    LeafOfKid(j, "0", z);
    HeadTail(ts);
    if n > 0 {
      ZeroFirst(z, n, ts[1..]);
    }
  }

  /** Once every leaf has been seen, everything is there. */
  lemma {:induction false} PartialOfAll(j: Json, p: seq<string>, seen: set<seq<string>>)
    requires Storable(j) && Recoverable(j) && forall ts :: Leaf(j, ts) ==> p + ts in seen
    ensures Touched(j, p, seen) && Partial(j, p, seen) == j
    decreases j
  {
    RecoverableNode(j);
    var ts := SomeLeaf(j);
    SeenIsTouched(j, p, seen, ts);
    if !IsLeaf(j) {
      forall t | t in Kids(j)
        ensures Touched(Kid(j, t), p + [t], seen) && Partial(Kid(j, t), p + [t], seen) == Kid(j, t)
      {
        AllBelow(j, p, seen, t);
        PartialOfAll(Kid(j, t), p + [t], seen);
      }
      if j.Array? {
        ArrayComplete(j, p, seen);
      } else {
        ObjectComplete(j, p, seen);
      }
    }
  }

  lemma AllBelow(j: Json, p: seq<string>, seen: set<seq<string>>, t: string)
    requires Storable(j) && Recoverable(j) && t in Kids(j) && forall ts :: Leaf(j, ts) ==> p + ts in seen
    ensures Recoverable(Kid(j, t)) && forall us :: Leaf(Kid(j, t), us) ==> p + [t] + us in seen
  {
    KidsAreChildren(j, t);
    RecoverableChild(j, t);
    forall us | Leaf(Kid(j, t), us) ensures p + [t] + us in seen {
      LeafOfKid(j, t, us);
      Assoc(p, [t], us);
    }
  }

  lemma ObjectComplete(j: Json, p: seq<string>, seen: set<seq<string>>)
    requires Storable(j) && j.Object? && !IsLeaf(j) && Touched(j, p, seen)
    requires forall t :: t in Kids(j) ==>
      Touched(Kid(j, t), p + [t], seen) && Partial(Kid(j, t), p + [t], seen) == Kid(j, t)
    ensures Partial(j, p, seen) == j
  {
    forall k | k in j.members
      ensures Touched(j.members[k], p + [k], seen) && Partial(j.members[k], p + [k], seen) == j.members[k]
    {
      assert k in Kids(j) && Kid(j, k) == j.members[k];
    }
    RestoredMembers(j.members, p, seen);
  }

  lemma RestoredMembers(m: map<string, Json>, p: seq<string>, seen: set<seq<string>>)
    requires forall k :: k in m ==>
      Storable(m[k]) && Touched(m[k], p + [k], seen) && Partial(m[k], p + [k], seen) == m[k]
    ensures (map k | k in m && Touched(m[k], p + [k], seen) :: Partial(m[k], p + [k], seen)) == m
  {
  }

  lemma ArrayComplete(j: Json, p: seq<string>, seen: set<seq<string>>)
    requires Storable(j) && j.Array? && !IsLeaf(j) && Touched(j, p, seen)
    requires forall t :: t in Kids(j) ==>
      Touched(Kid(j, t), p + [t], seen) && Partial(Kid(j, t), p + [t], seen) == Kid(j, t)
    ensures Partial(j, p, seen) == j
  {
    var a := j.elements;
    forall i | 0 <= i < |a| ensures Flags(j, p, seen)[i] && Built(j, p, seen)[i] == a[i] {
      assert Kids(j)[i] == Numeral(i);
      IndexIsNumeral(Numeral(i), i);
      assert Kid(j, Numeral(i)) == a[i];
    }
    assert UpToLast(Flags(j, p, seen)) == |a|;
    assert Built(j, p, seen) == a;
  }

  // --------------------------------------------------------- the whole replay

  ghost function Seen(keys: seq<string>): set<seq<string>> {
    set k | k in keys && Parse(k).Ok? :: Parse(k).value
  }

  ghost predicate InOrder(j: Json, keys: seq<string>)
    requires Storable(j)
  {
    keys == SortedKeys(Flattened(j).members.Keys)
  }

  lemma AllSeen(j: Json, keys: seq<string>)
    requires Storable(j) && Recoverable(j) && InOrder(j, keys)
    ensures Partial(j, [], Seen(keys)) == j
  {
    forall ts | Leaf(j, ts) ensures [] + ts in Seen(keys) {
      LeafIsKept(j, ts);
      assert ToString(ts) in keys && [] + ts == ts;
    }
    PartialOfAll(j, [], Seen(keys));
  }

  lemma SmallerSeen(j: Json, keys: seq<string>, i: nat)
    requires Storable(j) && InOrder(j, keys) && i < |keys|
    ensures forall us :: Leaf(j, us) && Less(ToString(us), keys[i]) ==> [] + us in Seen(keys[..i])
  {
    forall us | Leaf(j, us) && Less(ToString(us), keys[i]) ensures [] + us in Seen(keys[..i]) {
      LeafIsKept(j, us);
      EarlierKey(keys, i, ToString(us));
      assert [] + us == us;
    }
  }

  lemma ReplayNext(j: Json, keys: seq<string>, i: nat)
    requires Storable(j) && Recoverable(j) && InOrder(j, keys) && i < |keys|
    ensures keys[i] in Flattened(j).members && IsPrimitive(Flattened(j).members[keys[i]]) && Parse(keys[i]).Ok?
    ensures SetAt(Partial(j, [], Seen(keys[..i])), Parse(keys[i]).value, Flattened(j).members[keys[i]])
      == Ok(Partial(j, [], Seen(keys[..i + 1])))
  {
    var k, seen := keys[i], Seen(keys[..i]);
    KeyOfLeaf(j, k);
    var ts := Parse(k).value;
    SmallerSeen(j, keys, i);
    OpensInOrder(j, [], seen, ts);
    ReplayLeaf(j, [], seen, ts);
    SeenNext(keys, i);
    assert [] + ts == ts;
  }

  /** The keys of the flattened object are those of leaves, which are primitive if j is
      recoverable. */
  lemma KeyOfLeaf(j: Json, k: string)
    requires Storable(j) && Recoverable(j) && k in Flattened(j).members
    ensures Parse(k).Ok? && Leaf(j, Parse(k).value) && ToString(Parse(k).value) == k
    ensures Flattened(j).members[k] == At(j, Parse(k).value).value && IsPrimitive(Flattened(j).members[k])
  {
    FlattenedLeaves(j, k);
    ToStringParse(k);
    assert NodeRecoverable(At(j, Parse(k).value).value);
  }

  lemma {:induction false} ReplayInOrder(j: Json, keys: seq<string>, i: nat)
    requires Storable(j) && Recoverable(j) && InOrder(j, keys) && i <= |keys|
    ensures Replay(Flattened(j).members, keys[i..], Partial(j, [], Seen(keys[..i]))) == Ok(j)
    decreases |keys| - i
  {
    if i == |keys| {
      AllKeys(keys);
      AllSeen(j, keys);
    } else {
      ReplayNext(j, keys, i);
      ReplayInOrder(j, keys, i + 1);
      CutAround(keys, i);
    }
  }

  lemma LeafIsKept(j: Json, ts: seq<string>)
    requires Storable(j) && Leaf(j, ts)
    ensures ToString(ts) in Flattened(j).members && Parse(ToString(ts)) == Ok(ts)
  {
    ParseToString(ts);
    FlattenedLeaves(j, ToString(ts));
  }

  lemma EarlierKey(keys: seq<string>, i: nat, k: string)
    requires i < |keys| && Sorted(keys) && k in keys && Less(k, keys[i])
    ensures k in keys[..i]
  {
    var n :| 0 <= n < |keys| && keys[n] == k;
    LessIrreflexive(k);
    LessTotal(k, keys[i]);
    assert n < i;
    assert keys[..i][n] == k;
  }

  lemma SeenNext(keys: seq<string>, i: nat)
    requires i < |keys| && Parse(keys[i]).Ok?
    ensures Seen(keys[..i + 1]) == Seen(keys[..i]) + {Parse(keys[i]).value}
  {
    PrefixGrows(keys, i);
  }

  lemma UnflattenRecovers(j: Json)
    requires Storable(j) && Recoverable(j)
    ensures Unflattened(Flattened(j)) == Ok(j)
  {
    var keys := SortedKeys(Flattened(j).members.Keys);
    assert keys[..0] == [] && keys[0..] == keys && Seen([]) == {};
    NothingTouched(j, []);
    ReplayInOrder(j, keys, 0);
  }

  lemma {:induction false} NothingTouched(j: Json, p: seq<string>)
    requires Storable(j)
    ensures !Touched(j, p, {})
    decreases j
  {
    match j
    case Array(a) =>
      forall i | 0 <= i < |a| ensures !Touched(a[i], p + [Numeral(i)], {}) { NothingTouched(a[i], p + [Numeral(i)]); }
    case Object(m) =>
      forall k | k in m ensures !Touched(m[k], p + [k], {}) { NothingTouched(m[k], p + [k]); }
    case _ =>
  }

  // ------------------------------------------------- nothing else comes back

  lemma {:induction false} ReplaySplit(members: map<string, Json>, a: seq<string>, b: seq<string>, r: Json)
    requires forall k :: k in a + b ==> k in members
    requires Replay(members, a + b, r).Ok?
    ensures (forall k :: k in a ==> k in members) && (forall k :: k in b ==> k in members)
    ensures Replay(members, a, r).Ok?
    ensures Replay(members, b, Replay(members, a, r).value) == Replay(members, a + b, r)
    decreases |a|
  {
    assert forall k :: k in a || k in b ==> k in a + b;
    if a == [] {
      assert a + b == b;
    } else {
      assert (a + b)[1..] == a[1..] + b && (a + b)[0] == a[0];
      ReplaySplit(members, a[1..], b, SetAt(r, Parse(a[0]).value, members[a[0]]).value);
    }
  }

  lemma {:induction false} ReplayedArePrimitive(members: map<string, Json>, keys: seq<string>, r: Json, k: string)
    requires (forall k :: k in keys ==> k in members) && Replay(members, keys, r).Ok? && k in keys
    ensures IsPrimitive(members[k]) && Parse(k).Ok?
    decreases |keys|
  {
    if k != keys[0] {
      HeadTail(keys);
      ReplayedArePrimitive(members, keys[1..], SetAt(r, Parse(keys[0]).value, members[keys[0]]).value, k);
    }
  }

  /** No empty array or object anywhere. */
  predicate Filled(j: Json) {
    match j
    case Array(a) => a != [] && forall i :: 0 <= i < |a| ==> Filled(a[i])
    case Object(m) => m != map[] && forall k :: k in m ==> Filled(m[k])
    case _ => true
  }

  lemma {:induction false} SetAtFills(j: Json, tokens: seq<string>, v: Json)
    requires Filled(j) && Filled(v) && SetAt(j, tokens, v).Ok?
    ensures Filled(SetAt(j, tokens, v).value)
    decreases |tokens|
  {
    if tokens != [] {
      var t := tokens[0];
      match j
      case Null =>
        SetAtFills(Null, tokens[1..], v);
        assert t in map[t := SetAt(Null, tokens[1..], v).value];
      case Object(m) =>
        SetAtFills(if t in m then m[t] else Null, tokens[1..], v);
        assert t in SetAt(j, tokens, v).value.members;
      case Array(a) =>
        SetAtFills(Grown(a, ArrayIndex(t).value)[ArrayIndex(t).value], tokens[1..], v);
      case _ =>
    }
  }

  lemma {:induction false} ReplayFills(members: map<string, Json>, keys: seq<string>, r: Json)
    requires (forall k :: k in keys ==> k in members) && Replay(members, keys, r).Ok? && Filled(r)
    ensures Filled(Replay(members, keys, r).value)
    decreases |keys|
  {
    if keys != [] {
      var tokens, v := Parse(keys[0]).value, members[keys[0]];
      SetAtFills(r, tokens, v);
      ReplayFills(members, keys[1..], SetAt(r, tokens, v).value);
    }
  }

  lemma {:induction false} FilledNode(j: Json, p: seq<string>)
    requires Filled(j) && At(j, p).Ok?
    ensures Filled(At(j, p).value)
    decreases |p|
  {
    if p != [] {
      FilledNode(Child(j, p[0]).value, p[1..]);
    }
  }

  /** Nothing has been stored at p or below. */
  ghost predicate Untouched(j: Json, p: seq<string>) {
    At(j, p).Throws? || At(j, p) == Ok(Null)
  }

  /** What SetAt starts from below token t. */
  function Below(j: Json, t: string): Json {
    match j
    case Object(m) => if t in m then m[t] else Null
    case Array(a) => if ArrayIndex(t).Ok? then Grown(a, ArrayIndex(t).value)[ArrayIndex(t).value] else Null
    case _ => Null
  }

  /** One level of SetAt: the child on the way is set, the others stay. */
  lemma SetAtLevel(j: Json, ts: seq<string>, v: Json)
    requires ts != [] && SetAt(j, ts, v).Ok?
    ensures SetAt(Below(j, ts[0]), ts[1..], v).Ok?
    ensures var r := SetAt(j, ts, v).value;
      && Child(r, ts[0]) == SetAt(Below(j, ts[0]), ts[1..], v)
      && (j.Array? ==> r.Array?) && (j.Object? ==> r.Object?)
      && (j.Null? ==> if ts[0] == "0" then r.Array? else r.Object?)
      && (j.Null? || j.Array? || j.Object?)
  {
    if j.Null? && ts[0] == "0" {
      IndexIsNumeral("0", 0);
    }
    if j.Array? {
      var n := ArrayIndex(ts[0]).value;
      IndexIsNumeral("-", n);
      PlainEscapes(n);
    }
  }

  lemma SetAtSibling(j: Json, ts: seq<string>, v: Json, t: string)
    requires ts != [] && SetAt(j, ts, v).Ok? && t != ts[0]
    ensures var r := SetAt(j, ts, v).value;
      Child(r, t) == Child(j, t) || (Child(j, t).Throws? && (Child(r, t).Throws? || Child(r, t) == Ok(Null)))
  {
    if j.Array? && ArrayIndex(t).Ok? {
      IndexIsNumeral(t, ArrayIndex(t).value);
      IndexIsNumeral(ts[0], ArrayIndex(ts[0]).value);
    }
    if j.Null? && ts[0] == "0" && ArrayIndex(t).Ok? {
      IndexIsNumeral(t, 0);
      assert Numeral(0) == "0";
    }
  }

  lemma BelowIsChild(j: Json, t: string)
    ensures Child(j, t).Ok? ==> Below(j, t) == Child(j, t).value
    ensures Child(j, t).Throws? && !(j.Array? && t == "-") ==> Below(j, t) == Null
  {
  }

  lemma {:induction false} StaysUntouched(j: Json, ts: seq<string>, v: Json, p: seq<string>)
    requires Untouched(j, p) && SetAt(j, ts, v).Ok? && !(ts <= p) && !(p <= ts)
    ensures Untouched(SetAt(j, ts, v).value, p)
    decreases |ts|
  {
    var t := p[0];
    if t == ts[0] {
      SetAtLevel(j, ts, v);
      UntouchedBelow(j, p);
      HeadTail(ts);
      HeadTail(p);
      StaysUntouched(Below(j, t), ts[1..], v, p[1..]);
    } else {
      SetAtSibling(j, ts, v, t);
    }
  }

  lemma UntouchedBelow(j: Json, p: seq<string>)
    requires Untouched(j, p) && p != []
    ensures Untouched(Below(j, p[0]), p[1..])
  {
    BelowIsChild(j, p[0]);
    if ArrayIndex("-").Ok? {
      IndexIsNumeral("-", ArrayIndex("-").value);
      PlainEscapes(ArrayIndex("-").value);
    }
  }

  /** The first leaf below a node makes it an array if its token is "0". */
  lemma {:induction false} OpensArray(j: Json, p: seq<string>, rest: seq<string>, v: Json)
    requires Untouched(j, p) && SetAt(j, p + ["0"] + rest, v).Ok?
    ensures var r := At(SetAt(j, p + ["0"] + rest, v).value, p); r.Ok? && r.value.Array?
    decreases |p|
  {
    var ts := p + ["0"] + rest;
    SetAtLevel(j, ts, v);
    if p != [] {
      UntouchedBelow(j, p);
      assert ts[1..] == p[1..] + ["0"] + rest && ts[0] == p[0];
      OpensArray(Below(j, p[0]), p[1..], rest, v);
    }
  }

  lemma {:induction false} StaysArray(j: Json, ts: seq<string>, v: Json, p: seq<string>)
    requires At(j, p).Ok? && At(j, p).value.Array? && SetAt(j, ts, v).Ok? && !(ts <= p)
    ensures var r := At(SetAt(j, ts, v).value, p); r.Ok? && r.value.Array?
    decreases |ts|
  {
    SetAtLevel(j, ts, v);
    if p != [] {
      if p[0] == ts[0] {
        BelowIsChild(j, p[0]);
        HeadTail(ts);
        HeadTail(p);
        StaysArray(Below(j, p[0]), ts[1..], v, p[1..]);
      } else {
        SetAtSibling(j, ts, v, p[0]);
      }
    }
  }

  lemma {:induction false} ReplayStaysUntouched(members: map<string, Json>, keys: seq<string>, r: Json, p: seq<string>)
    requires (forall k :: k in keys ==> k in members) && Replay(members, keys, r).Ok? && Untouched(r, p)
    requires forall k :: k in keys && Parse(k).Ok? ==> !(Parse(k).value <= p) && !(p <= Parse(k).value)
    ensures Untouched(Replay(members, keys, r).value, p)
    decreases |keys|
  {
    if keys != [] {
      var tokens, v := Parse(keys[0]).value, members[keys[0]];
      StaysUntouched(r, tokens, v, p);
      ReplayStaysUntouched(members, keys[1..], SetAt(r, tokens, v).value, p);
    }
  }

  lemma {:induction false} ReplayStaysArray(members: map<string, Json>, keys: seq<string>, r: Json, p: seq<string>)
    requires (forall k :: k in keys ==> k in members) && Replay(members, keys, r).Ok?
    requires At(r, p).Ok? && At(r, p).value.Array?
    requires forall k :: k in keys && Parse(k).Ok? ==> !(Parse(k).value <= p)
    ensures var f := At(Replay(members, keys, r).value, p); f.Ok? && f.value.Array?
    decreases |keys|
  {
    if keys != [] {
      var tokens, v := Parse(keys[0]).value, members[keys[0]];
      StaysArray(r, tokens, v, p);
      ReplayStaysArray(members, keys[1..], SetAt(r, tokens, v).value, p);
    }
  }

  lemma LeafNotAbove(j: Json, y: seq<string>, p: seq<string>)
    requires Leaf(j, y) && At(j, p).Ok? && !IsLeaf(At(j, p).value)
    ensures !(y <= p)
  {
    if y <= p {
      assert p == y + p[|y|..];
      AtSplit(j, y, p[|y|..]);
    }
  }

  lemma {:induction false} ToStringAppend(a: seq<string>, b: seq<string>)
    ensures ToString(a + b) == ToString(a) + ToString(b)
  {
    if b == [] {
      assert a + b == a;
    } else {
      var front, last := b[..|b| - 1], b[|b| - 1];
      FrontLast(b);
      ToStringAppend(a, front);
      Assoc(a, front, [last]);
      ToStringLast(a + front, last);
      Assoc(ToString(a), ToString(front), "/" + Escaped(last));
      Assoc(ToString(a) + ToString(front), "/", Escaped(last));
      Assoc(ToString(front), "/", Escaped(last));
    }
  }

  /** A leaf met before the first leaf below p is not below p. */
  lemma EarlierIsNotBelow(j: Json, p: seq<string>, ts: seq<string>, us: seq<string>)
    requires At(j, p).Ok? && FirstLeaf(At(j, p).value, ts)
    requires Leaf(j, p + us)
    ensures !Less(ToString(p + us), ToString(p + ts))
  {
    AtSplit(j, p, us);
    ToStringAppend(p, us);
    ToStringAppend(p, ts);
    LessPrefix(ToString(p), ToString(us), ToString(ts));
  }

  lemma EarlierIsElsewhere(j: Json, p: seq<string>, ts: seq<string>, y: seq<string>)
    requires At(j, p).Ok? && FirstLeaf(At(j, p).value, ts) && ts != []
    requires Leaf(j, y) && Less(ToString(y), ToString(p + ts))
    ensures !(y <= p) && !(p <= y)
  {
    LeafNotAbove(j, y, p);
    if p <= y {
      assert y == p + y[|p|..];
      EarlierIsNotBelow(j, p, ts, y[|p|..]);
    }
  }

  lemma EarlierKeysElsewhere(j: Json, keys: seq<string>, i: nat, p: seq<string>, ts: seq<string>)
    requires Storable(j) && InOrder(j, keys) && i < |keys| && keys[i] == ToString(p + ts)
    requires At(j, p).Ok? && FirstLeaf(At(j, p).value, ts) && ts != []
    ensures forall k :: k in keys[..i] && Parse(k).Ok? ==> !(Parse(k).value <= p) && !(p <= Parse(k).value)
    ensures forall k :: k in keys && Parse(k).Ok? ==> !(Parse(k).value <= p)
  {
    forall k | k in keys && Parse(k).Ok? ensures !(Parse(k).value <= p) {
      KeyNotAbove(j, p, ts, k);
    }
    forall k | k in keys[..i] && Parse(k).Ok? ensures !(Parse(k).value <= p) && !(p <= Parse(k).value) {
      assert Less(k, keys[i]);
      EarlierKeyElsewhere(j, p, ts, k);
    }
  }

  lemma KeyNotAbove(j: Json, p: seq<string>, ts: seq<string>, k: string)
    requires Storable(j) && k in Flattened(j).members && Parse(k).Ok?
    requires At(j, p).Ok? && FirstLeaf(At(j, p).value, ts) && ts != []
    ensures !(Parse(k).value <= p)
  {
    FlattenedLeaves(j, k);
    LeafNotAbove(j, Parse(k).value, p);
  }

  lemma EarlierKeyElsewhere(j: Json, p: seq<string>, ts: seq<string>, k: string)
    requires Storable(j) && k in Flattened(j).members && Parse(k).Ok? && Less(k, ToString(p + ts))
    requires At(j, p).Ok? && FirstLeaf(At(j, p).value, ts) && ts != []
    ensures !(Parse(k).value <= p) && !(p <= Parse(k).value)
  {
    FlattenedLeaves(j, k);
    ToStringParse(k);
    EarlierIsElsewhere(j, p, ts, Parse(k).value);
  }

  lemma MistakenFrom(members: map<string, Json>, k: string, rest: seq<string>, before: Json, p: seq<string>,
                     ts: seq<string>)
    requires (forall i :: i in [k] + rest ==> i in members) && Replay(members, [k] + rest, before).Ok?
    requires Untouched(before, p) && Parse(k) == Ok(p + ts) && ts != [] && ts[0] == "0"
    requires forall i :: i in rest && Parse(i).Ok? ==> !(Parse(i).value <= p)
    ensures var r := At(Replay(members, [k] + rest, before).value, p); r.Ok? && r.value.Array?
  {
    Parts([k], rest);
    HeadTail(ts);
    Assoc(p, ["0"], ts[1..]);
    OpensArray(before, p, ts[1..], members[k]);
    ReplayStaysArray(members, rest, SetAt(before, p + ts, members[k]).value, p);
  }

  lemma MistakenReplay(members: map<string, Json>, front: seq<string>, k: string, rest: seq<string>, p: seq<string>,
                       ts: seq<string>)
    requires (forall i :: i in front + ([k] + rest) ==> i in members) && Replay(members, front + ([k] + rest), Null).Ok?
    requires Parse(k) == Ok(p + ts) && ts != [] && ts[0] == "0"
    requires forall i :: i in front && Parse(i).Ok? ==> !(Parse(i).value <= p) && !(p <= Parse(i).value)
    requires forall i :: i in rest && Parse(i).Ok? ==> !(Parse(i).value <= p)
    ensures var r := At(Replay(members, front + ([k] + rest), Null).value, p); r.Ok? && r.value.Array?
  {
    ReplaySplit(members, front, [k] + rest, Null);
    ReplayStaysUntouched(members, front, Null, p);
    MistakenFrom(members, k, rest, Replay(members, front, Null).value, p, ts);
  }

  /** An object whose first leaf goes under "0" comes back as an array. */
  lemma ObjectMistaken(j: Json, p: seq<string>, ts: seq<string>)
    requires Storable(j) && At(j, p).Ok? && FirstLeaf(At(j, p).value, ts) && ts != [] && ts[0] == "0"
    requires Unflattened(Flattened(j)).Ok?
    ensures var r := At(Unflattened(Flattened(j)).value, p); r.Ok? && r.value.Array?
  {
    var keys := SortedKeys(Flattened(j).members.Keys);
    AtSplit(j, p, ts);
    LeafIsKept(j, p + ts);
    var i :| 0 <= i < |keys| && keys[i] == ToString(p + ts);
    EarlierKeysElsewhere(j, keys, i, p, ts);
    CutAround(keys, i);
    Assoc(keys[..i], [keys[i]], keys[i + 1..]);
    MistakenReplay(Flattened(j).members, keys[..i], keys[i], keys[i + 1..], p, ts);
  }

  lemma OnlyRecoverable(j: Json)
    requires Storable(j) && Unflattened(Flattened(j)) == Ok(j)
    ensures Recoverable(j)
  {
    var members := Flattened(j).members;
    var keys := SortedKeys(members.Keys);
    ReplayFills(members, keys, Null);
    forall p | At(j, p).Ok? ensures NodeRecoverable(At(j, p).value) {
      var c := At(j, p).value;
      FilledNode(j, p);
      if c.Discarded? {
        LeafIsKept(j, p);
        FlattenedLeaves(j, ToString(p));
        ReplayedArePrimitive(members, keys, Null, ToString(p));
      }
      if c.Object? && FirstLeafUnder(c, "0") {
        var ts :| ts != [] && ts[0] == "0" && FirstLeaf(c, ts);
        ObjectMistaken(j, p, ts);
      }
    }
  }

  /** Flattening and unflattening gives j back exactly when j is recoverable. */
  lemma UnflattenFlatten(j: Json)
    requires Storable(j)
    ensures Unflattened(Flattened(j)) == Ok(j) <==> Recoverable(j)
  {
    if Recoverable(j) {
      UnflattenRecovers(j);
    }
    if Unflattened(Flattened(j)) == Ok(j) {
      OnlyRecoverable(j);
    }
  }

  lemma {:induction false} EqualAt(a: Json, b: Json, p: seq<string>)
    requires Equal(a, b) && At(b, p).Ok?
    ensures At(a, p).Ok? && Equal(At(a, p).value, At(b, p).value)
    decreases |p|
  {
    if p != [] {
      EqualAt(Child(a, p[0]).value, Child(b, p[0]).value, p[1..]);
    }
  }

  /** What comes back equal to j only, not identical, was recoverable too. */
  lemma EqualIsRecoverable(j: Json)
    requires Storable(j) && Unflattened(Flattened(j)).Ok? && Equal(Unflattened(Flattened(j)).value, j)
    ensures Recoverable(j)
  {
    var v, members := Unflattened(Flattened(j)).value, Flattened(j).members;
    ReplayFills(members, SortedKeys(members.Keys), Null);
    forall p | At(j, p).Ok? ensures NodeRecoverable(At(j, p).value) {
      var c := At(j, p).value;
      EqualAt(v, j, p);
      FilledNode(v, p);
      if c.Object? && FirstLeafUnder(c, "0") {
        var ts :| ts != [] && ts[0] == "0" && FirstLeaf(c, ts);
        ObjectMistaken(j, p, ts);
      }
    }
  }

  /** With operator== in place of identity, NaN has to be excluded as well. */
  lemma UnflattenFlattenEqual(j: Json)
    requires Storable(j)
    ensures var r := Unflattened(Flattened(j));
      r.Ok? && Equal(r.value, j) <==> Recoverable(j) && Clean(j)
  {
    var r := Unflattened(Flattened(j));
    if r.Ok? && Equal(r.value, j) {
      EqualIsRecoverable(j);
      EqualIsClean(r.value, j);
    }
    if Recoverable(j) && Clean(j) {
      UnflattenRecovers(j);
      EqualReflexive(j);
    }
  }

  /** In particular when no object has the key "0". */
  lemma WithoutZeroKeys(j: Json)
    requires Storable(j)
    requires forall p :: At(j, p).Ok? ==> var c := At(j, p).value;
      !c.Discarded? && (c.Array? || c.Object? ==> !IsLeaf(c)) && (c.Object? ==> "0" !in c.members)
    ensures Unflattened(Flattened(j)) == Ok(j)
  {
    forall p | At(j, p).Ok? ensures NodeRecoverable(At(j, p).value) {
    }
    UnflattenRecovers(j);
  }

  lemma FirstLeafExists(j: Json) returns (ts: seq<string>)
    requires Storable(j)
    ensures FirstLeaf(j, ts)
  {
    var keys := Flattened(j).members.Keys;
    var some := SomeLeaf(j);
    LeafIsKept(j, some);
    assert ToString(some) in keys;
    var k := Least(keys);
    FlattenedLeaves(j, k);
    ts := Parse(k).value;
    ToStringParse(k);
    forall us | Leaf(j, us) ensures !Less(ToString(us), k) {
      LeafIsKept(j, us);
      LessTotal(ToString(us), k);
      LessIrreflexive(k);
    }
  }

  /** The smallest family that does not come back: "0" as the only key. */
  lemma ZeroKeyAlone(c: Json)
    requires Storable(c)
    ensures !Recoverable(Object(map["0" := c]))
  {
    var j := Object(map["0" := c]);
    var ts := FirstLeafExists(j);
    assert "0" in j.members && j.members != map[];
    assert ts != [] && Child(j, ts[0]).Ok?;
    assert FirstLeafUnder(j, "0");
    assert At(j, []) == Ok(j);
  }
}
