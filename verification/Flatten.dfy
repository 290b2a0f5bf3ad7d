/** flatten and unflatten: an object whose keys are the JSON pointers of the leaves. */
module Flattening {
  import opened Sequences
  import opened Jsons
  import opened StringEscape
  import opened StringOrder
  import opened JsonPointer
  import opened JsonPatch
  import opened JsonDiff

  predicate IsLeaf(j: Json) {
    match j
    case Array(a) => a == []
    case Object(m) => m == map[]
    case _ => true
  }

  /** Empty arrays and objects are flattened to null. */
  function LeafValue(j: Json): Json {
    if j.Array? || j.Object? then Null else j
  }

  /** The tokens that lead to the children, in the order they are visited. */
  function Kids(j: Json): seq<string> {
    match j
    case Array(a) => seq(|a|, i requires 0 <= i < |a| => Numeral(i))
    case Object(m) => SortedKeys(m.Keys)
    case _ => []
  }

  lemma KidsAreChildren(j: Json, t: string)
    requires Storable(j)
    ensures t in Kids(j) <==> Child(j, t).Ok?
  {
    match j
    case Array(a) =>
      if t in Kids(j) {
        var i :| 0 <= i < |a| && t == Kids(j)[i];
        PlainEscapes(i);
        IndexIsNumeral(t, i);
      }
      if Child(j, t).Ok? {
        var n := ArrayIndex(t).value;
        IndexIsNumeral(t, n);
        assert Kids(j)[n] == t;
      }
    case _ =>
  }

  /** The child that t leads to. */
  function Kid(j: Json, t: string): (c: Json)
    requires Storable(j) && t in Kids(j)
    ensures Child(j, t) == Ok(c) && Storable(c) && c < j
  {
    KidsAreChildren(j, t);
    Child(j, t).value
  }

  // ---------------------------------------------------------------- flatten

  function FlattenInto(path: string, value: Json, result: map<string, Json>): map<string, Json>
    requires Storable(value)
    decreases value, 1, 0
  {
    if IsLeaf(value) then result[path := LeafValue(value)]
    else FlattenKids(path, value, Kids(value), result)
  }

  function FlattenKids(path: string, value: Json, tokens: seq<string>, result: map<string, Json>): map<string, Json>
    requires Storable(value) && forall t :: t in tokens ==> t in Kids(value)
    decreases value, 0, |tokens|
  {
    if tokens == [] then result else
      var t := tokens[|tokens| - 1];
      FlattenInto(path + "/" + Escaped(t), Kid(value, t), FlattenKids(path, value, tokens[..|tokens| - 1], result))
  }

  method Flatten(path: string, value: Json, result0: map<string, Json>) returns (result: map<string, Json>)
    requires Storable(value)
    ensures result == FlattenInto(path, value, result0)
    decreases value
  {
    result := result0;
    match value {
      case Array(a) =>
        if a == [] {
          result := result[path := Null];
        } else {
          var tokens := Kids(value);
          for i := 0 to |a|
            invariant result == FlattenKids(path, value, tokens[..i], result0)
          {
            PrefixGrows(tokens, i);
            PlainEscapes(i);
            assert Kid(value, tokens[i]) == a[i] by { IndexIsNumeral(Numeral(i), i); }
            result := Flatten(path + "/" + Numeral(i), a[i], result);
          }
          AllKeys(tokens);
        }
      case Object(m) =>
        if m == map[] {
          result := result[path := Null];
        } else {
          var keys := SortedKeys(m.Keys);
          for i := 0 to |keys|
            invariant result == FlattenKids(path, value, keys[..i], result0)
          {
            PrefixGrows(keys, i);
            var escaped := Escape(keys[i]);
            result := Flatten(path + "/" + escaped, m[keys[i]], result);
          }
          AllKeys(keys);
        }
      case _ =>
        result := result[path := value];
    }
  }

  function Flattened(j: Json): Json
    requires Storable(j)
  {
    Object(FlattenInto("", j, map[]))
  }

  // -------------------------------------------------------------- unflatten

  predicate IsPrimitive(j: Json) {
    !j.Array? && !j.Object? && !j.Discarded?
  }

  /** The array grown with nulls so that index n exists. */
  function Grown(a: seq<Json>, n: nat): (r: seq<Json>)
    ensures n < |r| && |a| <= |r| && forall i :: 0 <= i < |r| ==> r[i] == if i < |a| then a[i] else Null
  {
    if n < |a| then a else a + seq(n + 1 - |a|, _ => Null)
  }

  /** Assigning v through the reference that get_and_create returns. */
  function SetAt(j: Json, tokens: seq<string>, v: Json): Result<Json>
    decreases |tokens|
  {
    if tokens == [] then Ok(v) else
      var t := tokens[0];
      match j
      case Null =>
        (match SetAt(Null, tokens[1..], v)
         case Ok(c) => Ok(if t == "0" then Array([c]) else Object(map[t := c]))
         case Throws(id) => Throws(id))
      case Object(m) =>
        (match SetAt(if t in m then m[t] else Null, tokens[1..], v)
         case Ok(c) => Ok(Object(m[t := c]))
         case Throws(id) => Throws(id))
      case Array(a) =>
        (match ArrayIndex(t)
         case Throws(id) => Throws(id)
         case Ok(n) =>
           match SetAt(Grown(a, n)[n], tokens[1..], v)
           case Ok(c) => Ok(Array(Grown(a, n)[n := c]))
           case Throws(id) => Throws(id))
      case _ => Throws(313)
  }

  function Replay(members: map<string, Json>, keys: seq<string>, result: Json): Result<Json>
    requires forall k :: k in keys ==> k in members
    decreases |keys|
  {
    if keys == [] then Ok(result)
    else if !IsPrimitive(members[keys[0]]) then Throws(315)
    else match Parse(keys[0])
      case Throws(id) => Throws(id)
      case Ok(tokens) =>
        match SetAt(result, tokens, members[keys[0]])
        case Throws(id) => Throws(id)
        case Ok(next) => Replay(members, keys[1..], next)
  }

  function Unflattened(j: Json): Result<Json> {
    if j.Object? then Replay(j.members, SortedKeys(j.members.Keys), Null) else Throws(314)
  }

  method Unflatten(value: Json) returns (r: Result<Json>)
    ensures r == Unflattened(value)
  {
    if !value.Object? {
      return Throws(314);
    }
    var result := Null;
    var keys := SortedKeys(value.members.Keys);
    for i := 0 to |keys|
      invariant Unflattened(value) == Replay(value.members, keys[i..], result)
    {
      var element := value.members[keys[i]];
      assert keys[i..][1..] == keys[i + 1..];
      if !IsPrimitive(element) {
        return Throws(315);
      }
      var tokens := Split(keys[i]);
      if tokens.Throws? {
        return Throws(tokens.id);
      }
      var next := SetAt(result, tokens.value, element);
      if next.Throws? {
        return next;
      }
      result := next.value;
    }
    return Ok(result);
  }

  // ---------------------------------------- the keys are exactly the leaves

  ghost predicate Leaf(j: Json, tokens: seq<string>) {
    At(j, tokens).Ok? && IsLeaf(At(j, tokens).value)
  }

  /** What flattening the value at p stores under key k, if anything. */
  ghost function Stored(j: Json, p: seq<string>, k: string): Option<Json> {
    match Parse(k)
    case Throws(_) => None
    case Ok(ts) =>
      if p <= ts && Leaf(j, ts[|p|..]) then Some(LeafValue(At(j, ts[|p|..]).value)) else None
  }

  ghost predicate StoresExactly(j: Json, p: seq<string>, result: map<string, Json>, after: map<string, Json>,
                                k: string) {
    && (k in after <==> k in result || Stored(j, p, k).Some?)
    && (k in after ==> after[k] == if Stored(j, p, k).Some? then Stored(j, p, k).value else result[k])
  }

  lemma {:induction false} FlattenStores(j: Json, p: seq<string>, result: map<string, Json>, k: string)
    requires Storable(j)
    ensures StoresExactly(j, p, result, FlattenInto(ToString(p), j, result), k)
    decreases j, 1, 0
  {
    if IsLeaf(j) {
      StoredLeaf(j, p, k);
    } else {
      FlattenKidsStores(j, p, Kids(j), result, k);
      StoredBelow(j, p, k);
    }
  }

  lemma StoredLeaf(j: Json, p: seq<string>, k: string)
    requires IsLeaf(j)
    ensures Stored(j, p, k) == if k == ToString(p) then Some(LeafValue(j)) else None
  {
    ParseToString(p);
    if Parse(k).Ok? {
      var ts := Parse(k).value;
      ToStringParse(k);
      if p <= ts && ts != p {
        assert ts[|p|..] != [];
        assert Child(j, ts[|p|..][0]).Throws?;
      }
      if ts == p {
        assert ts[|p|..] == [];
      }
    }
  }

  /** A key below an inner node goes through one of its children. */
  lemma StoredBelow(j: Json, p: seq<string>, k: string)
    requires Storable(j) && !IsLeaf(j)
    ensures Stored(j, p, k).Some? ==>
      Parse(k).Ok? && |p| < |Parse(k).value| && Parse(k).value[|p|] in Kids(j)
  {
    if Stored(j, p, k).Some? {
      var ts := Parse(k).value;
      var rest := ts[|p|..];
      assert rest != [];
      KidsAreChildren(j, ts[|p|]);
      assert rest[0] == ts[|p|];
    }
  }

  /** The keys among Stored that go through one of the given children. */
  ghost function StoredIn(j: Json, p: seq<string>, tokens: seq<string>, k: string): Option<Json> {
    if Parse(k).Ok? && |p| < |Parse(k).value| && Parse(k).value[|p|] in tokens then Stored(j, p, k) else None
  }

  lemma LongerPrefix(p: seq<string>, t: string, ts: seq<string>)
    ensures p + [t] <= ts <==> |p| < |ts| && p <= ts && ts[|p|] == t
  {
    if |p| < |ts| {
      CutAround(ts, |p|);
      assert ts[..|p| + 1] == ts[..|p|] + [ts[|p|]];
      Parts(p, [t]);
      Parts(ts[..|p|], [ts[|p|]]);
    }
  }

  lemma LeafOfKid(j: Json, t: string, rest: seq<string>)
    requires Storable(j) && t in Kids(j)
    ensures Leaf(j, [t] + rest) <==> Leaf(Kid(j, t), rest)
    ensures Leaf(j, [t] + rest) ==> At(j, [t] + rest) == At(Kid(j, t), rest)
  {
    Parts([t], rest);
  }

  lemma StoredInKid(j: Json, p: seq<string>, t: string, k: string)
    requires Storable(j) && t in Kids(j)
    ensures Stored(Kid(j, t), p + [t], k) == StoredIn(j, p, [t], k)
  {
    if Parse(k).Ok? {
      var ts := Parse(k).value;
      LongerPrefix(p, t, ts);
      if p + [t] <= ts {
        CutAround(ts, |p|);
        LeafOfKid(j, t, ts[|p| + 1..]);
      }
    }
  }

  lemma {:induction false} FlattenKidsStores(j: Json, p: seq<string>, tokens: seq<string>, result: map<string, Json>,
                                             k: string)
    requires Storable(j) && forall t :: t in tokens ==> t in Kids(j)
    ensures var after, s := FlattenKids(ToString(p), j, tokens, result), StoredIn(j, p, tokens, k);
      && (k in after <==> k in result || s.Some?)
      && (k in after ==> after[k] == if s.Some? then s.value else result[k])
    decreases j, 0, |tokens|
  {
    if tokens != [] {
      var front, t := tokens[..|tokens| - 1], tokens[|tokens| - 1];
      FrontLast(tokens);
      FlattenKidsStores(j, p, front, result, k);
      ToStringLast(p, t);
      FlattenStores(Kid(j, t), p + [t], FlattenKids(ToString(p), j, front, result), k);
      StoredInKid(j, p, t, k);
      StoredInMore(j, p, front, t, k);
    }
  }

  lemma StoredInMore(j: Json, p: seq<string>, front: seq<string>, t: string, k: string)
    ensures var some := StoredIn(j, p, [t], k);
      StoredIn(j, p, front + [t], k) == if some.Some? then some else StoredIn(j, p, front, k)
  {
    assert forall u :: u in front + [t] <==> u in front || u in [t];
  }

  /** Flattening keeps one entry for every leaf and nothing else. */
  lemma FlattenedLeaves(j: Json, k: string)
    requires Storable(j)
    ensures k in Flattened(j).members <==> Parse(k).Ok? && Leaf(j, Parse(k).value)
    ensures k in Flattened(j).members ==> Flattened(j).members[k] == LeafValue(At(j, Parse(k).value).value)
  {
    FlattenStores(j, [], map[], k);
    if Parse(k).Ok? {
      assert Parse(k).value[0..] == Parse(k).value;
    }
  }
}
