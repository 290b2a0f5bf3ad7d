/** diff, and the promise that patching with a diff arrives at the target. */
module JsonDiff {
  import opened Powers
  import opened Diyfps
  import opened Sequences
  import opened DigitGen
  import opened Jsons
  import opened JsonEquality
  import opened StringEscape
  import opened StringOrder
  import opened JsonPointer
  import opened JsonPatch

  function AddOp(path: string, v: Json): Json {
    Object(map["op" := Str("add"), "path" := Str(path), "value" := v])
  }

  function RemoveOp(path: string): Json {
    Object(map["op" := Str("remove"), "path" := Str(path)])
  }

  function ReplaceOp(path: string, v: Json): Json {
    Object(map["op" := Str("replace"), "path" := Str(path), "value" := v])
  }

  lemma DecodeOps(tokens: seq<string>, v: Json)
    ensures Decode(AddOp(ToString(tokens), v)) == Ok(Add(tokens, v))
    ensures Decode(RemoveOp(ToString(tokens))) == Ok(Remove(tokens))
    ensures Decode(ReplaceOp(ToString(tokens), v)) == Ok(Replace(tokens, v))
  {
    ParseToString(tokens);
  }

  predicate SameType(a: Json, b: Json) {
    && (a.Null? <==> b.Null?) && (a.Boolean? <==> b.Boolean?) && (a.Integer? <==> b.Integer?)
    && (a.Unsigned? <==> b.Unsigned?) && (a.Floating? <==> b.Floating?) && (a.Str? <==> b.Str?)
    && (a.Binary? <==> b.Binary?) && (a.Array? <==> b.Array?) && (a.Object? <==> b.Object?)
    && (a.Discarded? <==> b.Discarded?)
  }

  // ----------------------------------------------------- what diff produces

  function DiffOf(source: Json, target: Json, path: string): seq<Json>
    decreases source, 1, 0
  {
    if Equal(source, target) then []
    else if source.Array? && target.Array? then
      var n := if |source.elements| < |target.elements| then |source.elements| else |target.elements|;
      DiffElements(source, target, n, path) + Removals(path, n, |source.elements|) + Appends(path, target.elements[n..])
    else if source.Object? && target.Object? then
      DiffMembers(source, target, SortedKeys(source.members.Keys), path)
        + Additions(source, target, SortedKeys(target.members.Keys), path)
    else [ReplaceOp(path, target)]
  }

  /** The operations for the first n elements. */
  function DiffElements(source: Json, target: Json, n: nat, path: string): seq<Json>
    requires source.Array? && target.Array? && n <= |source.elements| && n <= |target.elements|
    decreases source, 0, n
  {
    if n == 0 then [] else
      DiffElements(source, target, n - 1, path)
        + DiffOf(source.elements[n - 1], target.elements[n - 1], path + "/" + Numeral(n - 1))
  }

  /** Removes the elements from..to of an array, the last one first. */
  function Removals(path: string, from: nat, to: nat): seq<Json> {
    if from >= to then [] else [RemoveOp(path + "/" + Numeral(to - 1))] + Removals(path, from, to - 1)
  }

  function Appends(path: string, values: seq<Json>): seq<Json> {
    if values == [] then [] else Appends(path, values[..|values| - 1]) + [AddOp(path + "/-", values[|values| - 1])]
  }

  function DiffMembers(source: Json, target: Json, keys: seq<string>, path: string): seq<Json>
    requires source.Object? && target.Object? && forall k :: k in keys ==> k in source.members
    decreases source, 0, |keys| + 1
  {
    if keys == [] then [] else
      DiffMembers(source, target, keys[..|keys| - 1], path) + DiffMember(source, target, keys[|keys| - 1], path)
  }

  function DiffMember(source: Json, target: Json, k: string, path: string): seq<Json>
    requires source.Object? && target.Object? && k in source.members
    decreases source, 0, 0
  {
    if k in target.members then DiffOf(source.members[k], target.members[k], path + "/" + Escaped(k))
    else [RemoveOp(path + "/" + Escaped(k))]
  }

  function Additions(source: Json, target: Json, keys: seq<string>, path: string): seq<Json>
    requires source.Object? && target.Object? && forall k :: k in keys ==> k in target.members
    decreases |keys|
  {
    if keys == [] then [] else
      Additions(source, target, keys[..|keys| - 1], path) + Addition(source, target, keys[|keys| - 1], path)
  }

  function Addition(source: Json, target: Json, k: string, path: string): seq<Json>
    requires source.Object? && target.Object? && k in target.members
  {
    if k in source.members then [] else [AddOp(path + "/" + Escaped(k), target.members[k])]
  }

  method Diff(source: Json, target: Json, path: string) returns (result: seq<Json>)
    ensures result == DiffOf(source, target, path)
    decreases source
  {
    result := [];
    if Equal(source, target) {
      return;
    }
    if !SameType(source, target) {
      return [ReplaceOp(path, target)];
    }
    match source {
      case Array(x) => result := DiffArrays(source, target, path);
      case Object(x) => result := DiffObjects(source, target, path);
      case _ => result := [ReplaceOp(path, target)];
    }
  }

  method DiffArrays(source: Json, target: Json, path: string) returns (result: seq<Json>)
    requires source.Array? && target.Array? && !Equal(source, target)
    ensures result == DiffOf(source, target, path)
    decreases source, 0
  {
    var x, y := source.elements, target.elements;
    result := [];
    var i: nat := 0;
    while i < |x| && i < |y|
      invariant i <= |x| && i <= |y| && result == DiffElements(source, target, i, path)
    {
      var inner := Diff(x[i], y[i], path + "/" + Numeral(i));
      result := result + inner;
      i := i + 1;
    }
    result := RemoveRest(result, path, i, |x|);
    result := AppendRest(result, path, y[i..]);
  }

  /** Each removal goes in front of the ones before it, so that running them does
      not shift an element that is still to be removed. */
  method RemoveRest(first: seq<Json>, path: string, from: nat, to: nat) returns (result: seq<Json>)
    requires from <= to
    ensures result == first + Removals(path, from, to)
  {
    result := first;
    var endIndex := |result|;
    for i := from to to
      invariant result == first + Removals(path, from, i)
    {
      ghost var removals := Removals(path, from, i);
      assert result[..endIndex] == first && result[endIndex..] == removals;
      result := result[..endIndex] + [RemoveOp(path + "/" + Numeral(i))] + result[endIndex..];
      assert result == first + ([RemoveOp(path + "/" + Numeral(i))] + removals);
    }
  }

  method AppendRest(first: seq<Json>, path: string, values: seq<Json>) returns (result: seq<Json>)
    ensures result == first + Appends(path, values)
  {
    result := first;
    for i := 0 to |values|
      invariant result == first + Appends(path, values[..i])
    {
      assert values[..i + 1][..i] == values[..i];
      result := result + [AddOp(path + "/-", values[i])];
    }
    assert values[..|values|] == values;
  }

  method DiffObjects(source: Json, target: Json, path: string) returns (result: seq<Json>)
    requires source.Object? && target.Object? && !Equal(source, target)
    ensures result == DiffOf(source, target, path)
    decreases source, 0
  {
    result := [];
    var keys := SortedKeys(source.members.Keys);
    for i := 0 to |keys|
      invariant result == DiffMembers(source, target, keys[..i], path)
    {
      var k := keys[i];
      PrefixGrows(keys, i);
      var escaped := Escape(k);
      if k in target.members {
        var inner := Diff(source.members[k], target.members[k], path + "/" + escaped);
        result := result + inner;
      } else {
        result := result + [RemoveOp(path + "/" + escaped)];
      }
    }
    AllKeys(keys);
    result := AddRest(result, source, target, path);
  }

  method AddRest(first: seq<Json>, source: Json, target: Json, path: string) returns (result: seq<Json>)
    requires source.Object? && target.Object?
    ensures result == first + Additions(source, target, SortedKeys(target.members.Keys), path)
  {
    result := first;
    var keys := SortedKeys(target.members.Keys);
    for i := 0 to |keys|
      invariant result == first + Additions(source, target, keys[..i], path)
    {
      var k := keys[i];
      PrefixGrows(keys, i);
      NextAddition(source, target, keys[..i], k, path, first);
      if k !in source.members {
        var escaped := Escape(k);
        result := result + [AddOp(path + "/" + escaped, target.members[k])];
      }
    }
    AllKeys(keys);
  }

  lemma NextAddition(source: Json, target: Json, front: seq<string>, k: string, path: string, first: seq<Json>)
    requires source.Object? && target.Object? && k in target.members && forall i :: i in front ==> i in target.members
    ensures forall i :: i in front + [k] ==> i in target.members
    ensures first + Additions(source, target, front + [k], path)
      == first + Additions(source, target, front, path) + Addition(source, target, k, path)
  {
    Parts(front, [k]);
    Assoc(first, Additions(source, target, front, path), Addition(source, target, k, path));
  }

  lemma AllKeys(keys: seq<string>)
    ensures keys[..|keys|] == keys
  {
  }

  // ------------------------------------------------- what patching arrives at

  /** Every array has fewer elements than size_t can count. */
  predicate Storable(j: Json) {
    match j
    case Array(x) => |x| < TWO64 && forall i :: 0 <= i < |x| ==> Storable(x[i])
    case Object(x) => forall k :: k in x ==> Storable(x[k])
    case _ => true
  }

  /** The source wherever it equals the target already, the target elsewhere. */
  function Patched(source: Json, target: Json): Json {
    if Equal(source, target) then source else
      match (source, target)
      case (Array(x), Array(y)) =>
        Array(seq(|y|, i requires 0 <= i < |y| => if i < |x| then Patched(x[i], y[i]) else y[i]))
      case (Object(x), Object(y)) => Object(map k | k in y :: if k in x then Patched(x[k], y[k]) else y[k])
      case _ => target
  }

  lemma {:induction false} PatchedEqualsTarget(source: Json, target: Json)
    ensures Equal(Patched(source, target), target) <==> Clean(target)
  {
    if Equal(source, target) {
      EqualIsClean(source, target);
    } else {
      EqualReflexive(target);
      match (source, target) {
        case (Array(x), Array(y)) =>
          forall i | 0 <= i < |y| ensures Equal(Patched(source, target).elements[i], y[i]) <==> Clean(y[i]) {
            EqualReflexive(y[i]);
            if i < |x| {
              PatchedEqualsTarget(x[i], y[i]);
            }
          }
        case (Object(x), Object(y)) =>
          forall k | k in y ensures Equal(Patched(source, target).members[k], y[k]) <==> Clean(y[k]) {
            EqualReflexive(y[k]);
            if k in x {
              PatchedEqualsTarget(x[k], y[k]);
            }
          }
        case _ =>
      }
    }
  }

  // --------------------------------------------- running the three operations

  ghost predicate Runs(doc: Json, vals: seq<Json>, result: Json) {
    ApplyAll(doc, vals) == Done(result)
  }

  lemma RunsThen(doc: Json, a: seq<Json>, middle: Json, b: seq<Json>, result: Json)
    requires Runs(doc, a, middle) && Runs(middle, b, result)
    ensures Runs(doc, a + b, result)
  {
    ApplyAllSplit(doc, a, b);
  }

  /** Looking at, and overwriting, one child of a value deep inside the document. */
  lemma ChildStep(doc: Json, tokens: seq<string>, c: Json, token: string, v: Json)
    requires At(doc, tokens).Ok? && Child(c, token).Ok?
    ensures var d := WithAt(doc, tokens, c);
      && At(d, tokens + [token]) == Child(c, token)
      && WithAt(d, tokens + [token], v) == WithAt(doc, tokens, WithChild(c, token, v))
  {
    var d := WithAt(doc, tokens, c);
    AtWithAt(doc, tokens, c, WithChild(c, token, v));
    AtSplit(d, tokens, [token]);
    assert [token][1..] == [];
    assert At(c, [token]) == Child(c, token);
    WithAtSplit(d, tokens, [token], v);
  }

  lemma ReplaceRuns(doc: Json, tokens: seq<string>, v: Json)
    requires At(doc, tokens).Ok?
    ensures Runs(doc, [ReplaceOp(ToString(tokens), v)], WithAt(doc, tokens, v))
  {
    DecodeOps(tokens, v);
    assert [ReplaceOp(ToString(tokens), v)][1..] == [];
  }

  lemma RemoveRuns(doc: Json, tokens: seq<string>, c: Json, token: string)
    requires At(doc, tokens).Ok? && RemoveFrom(c, token).Ok?
    ensures Runs(WithAt(doc, tokens, c), [RemoveOp(ToString(tokens) + "/" + Escaped(token))],
                 WithAt(doc, tokens, RemoveFrom(c, token).value))
  {
    var ptr, changed := tokens + [token], RemoveFrom(c, token).value;
    ToStringLast(tokens, token);
    DecodeOps(ptr, Null);
    assert ptr[..|ptr| - 1] == tokens;
    AtWithAt(doc, tokens, c, changed);
    assert [RemoveOp(ToString(ptr))][1..] == [];
  }

  lemma AddRuns(doc: Json, tokens: seq<string>, c: Json, token: string, v: Json)
    requires At(doc, tokens).Ok? && AddTo(c, token, v).Ok?
    ensures Runs(WithAt(doc, tokens, c), [AddOp(ToString(tokens) + "/" + Escaped(token), v)],
                 WithAt(doc, tokens, AddTo(c, token, v).value))
  {
    ToStringLast(tokens, token);
    DecodeOps(tokens + [token], v);
    AddSucceeds(doc, tokens, c, token, v);
    assert [AddOp(ToString(tokens + [token]), v)][1..] == [];
  }

  lemma AddSucceeds(doc: Json, tokens: seq<string>, c: Json, token: string, v: Json)
    requires At(doc, tokens).Ok? && AddTo(c, token, v).Ok?
    ensures OperationAdd(WithAt(doc, tokens, c), tokens + [token], v)
      == Done(WithAt(doc, tokens, AddTo(c, token, v).value))
  {
    var d, ptr := WithAt(doc, tokens, c), tokens + [token];
    Parts(tokens, [token]);
    AtWithAt(doc, tokens, c, AddTo(c, token, v).value);
    if tokens != [] {
      assert ptr[..1] == tokens[..1];
      TopExists(d, tokens);
    }
  }

  lemma PlainEscapes(n: nat)
    ensures Escaped(Numeral(n)) == Numeral(n) && Numeral(n) != "-" && Escaped("-") == "-"
  {
    EscapedDigits(Numeral(n));
    assert "-"[1..] == "";
  }

  lemma {:induction false} EscapedDigits(s: string)
    requires IsDigits(s)
    ensures Escaped(s) == s
  {
    if s != "" {
      EscapedDigits(s[1..]);
      assert IsDigit(s[0]) && s == [s[0]] + s[1..];
    }
  }

  // ----------------------------------------------------------------- arrays

  lemma RemoveLast(a: seq<Json>, n: nat)
    requires n < |a| < TWO64
    ensures RemoveFrom(Array(a[..n + 1]), Numeral(n)) == Ok(Array(a[..n]))
    ensures Escaped(Numeral(n)) == Numeral(n)
  {
    PlainEscapes(n);
    IndexIsNumeral(Numeral(n), n);
    assert a[..n + 1][..n] + a[..n + 1][n + 1..] == a[..n];
  }

  lemma {:induction false} RemovalsRun(doc: Json, tokens: seq<string>, a: seq<Json>, from: nat, to: nat)
    requires At(doc, tokens).Ok? && from <= to <= |a| < TWO64
    ensures Runs(WithAt(doc, tokens, Array(a[..to])), Removals(ToString(tokens), from, to),
                 WithAt(doc, tokens, Array(a[..from])))
  {
    if from < to {
      RemoveLast(a, to - 1);
      var path, d := ToString(tokens), WithAt(doc, tokens, Array(a[..to - 1]));
      RemoveRuns(doc, tokens, Array(a[..to]), Numeral(to - 1));
      RemovalsRun(doc, tokens, a, from, to - 1);
      RunsThen(WithAt(doc, tokens, Array(a[..to])), [RemoveOp(path + "/" + Numeral(to - 1))], d,
               Removals(path, from, to - 1), WithAt(doc, tokens, Array(a[..from])));
    }
  }

  lemma AppendRuns(doc: Json, tokens: seq<string>, a: seq<Json>, v: Json)
    requires At(doc, tokens).Ok?
    ensures Runs(WithAt(doc, tokens, Array(a)), [AddOp(ToString(tokens) + "/-", v)],
                 WithAt(doc, tokens, Array(a + [v])))
  {
    PlainEscapes(0);
    AddRuns(doc, tokens, Array(a), "-", v);
    assert ToString(tokens) + "/" + "-" == ToString(tokens) + "/-";
  }

  lemma {:induction false} AppendsRun(doc: Json, tokens: seq<string>, a: seq<Json>, values: seq<Json>)
    requires At(doc, tokens).Ok?
    ensures Runs(WithAt(doc, tokens, Array(a)), Appends(ToString(tokens), values),
                 WithAt(doc, tokens, Array(a + values)))
    decreases |values|
  {
    if values == [] {
      assert a + values == a;
    } else {
      var front, v := values[..|values| - 1], values[|values| - 1];
      AppendsRun(doc, tokens, a, front);
      AppendRuns(doc, tokens, a + front, v);
      FrontLast(values);
      Assoc(a, front, [v]);
      RunsThen(WithAt(doc, tokens, Array(a)), Appends(ToString(tokens), front), WithAt(doc, tokens, Array(a + front)),
               [AddOp(ToString(tokens) + "/-", v)], WithAt(doc, tokens, Array(a + values)));
    }
  }

  /** The array after its first n elements have been patched. */
  function ElementsAfter(source: Json, target: Json, n: nat): (r: seq<Json>)
    requires source.Array? && target.Array? && n <= |source.elements| && n <= |target.elements|
    ensures |r| == |source.elements|
  {
    seq(|source.elements|, i requires 0 <= i < |source.elements| =>
      if i < n then Patched(source.elements[i], target.elements[i]) else source.elements[i])
  }

  lemma ElementsStep(source: Json, target: Json, n: nat)
    requires source.Array? && target.Array? && 0 < n <= |source.elements| && n <= |target.elements|
    ensures var a := ElementsAfter(source, target, n - 1);
      && a[n - 1] == source.elements[n - 1]
      && a[n - 1 := Patched(source.elements[n - 1], target.elements[n - 1])] == ElementsAfter(source, target, n)
  {
  }

  lemma ElementsDone(source: Json, target: Json, n: nat)
    requires source.Array? && target.Array? && !Equal(source, target)
    requires n == if |source.elements| < |target.elements| then |source.elements| else |target.elements|
    ensures Patched(source, target) == Array(ElementsAfter(source, target, n)[..n] + target.elements[n..])
  {
    var r := ElementsAfter(source, target, n)[..n] + target.elements[n..];
    var p := Patched(source, target).elements;
    forall i | 0 <= i < |p| ensures p[i] == r[i] {
    }
    assert p == r;
  }

  lemma {:induction false} ElementsRun(doc: Json, tokens: seq<string>, source: Json, target: Json, n: nat)
    requires At(doc, tokens) == Ok(source) && Storable(source) && Storable(target)
    requires source.Array? && target.Array? && n <= |source.elements| && n <= |target.elements|
    ensures Runs(doc, DiffElements(source, target, n, ToString(tokens)),
                 WithAt(doc, tokens, Array(ElementsAfter(source, target, n))))
    decreases source, 0, n
  {
    if n == 0 {
      WithAtSame(doc, tokens);
      assert ElementsAfter(source, target, 0) == source.elements;
    } else {
      ElementsRun(doc, tokens, source, target, n - 1);
      var c := Array(ElementsAfter(source, target, n - 1));
      var x, y, index := source.elements[n - 1], target.elements[n - 1], Numeral(n - 1);
      PlainEscapes(n - 1);
      IndexIsNumeral(index, n - 1);
      ElementsStep(source, target, n);
      ChildStep(doc, tokens, c, index, Patched(x, y));
      ToStringLast(tokens, index);
      DiffRuns(WithAt(doc, tokens, c), tokens + [index], x, y);
      assert WithChild(c, index, Patched(x, y)) == Array(ElementsAfter(source, target, n));
      RunsThen(doc, DiffElements(source, target, n - 1, ToString(tokens)), WithAt(doc, tokens, c),
               DiffOf(x, y, ToString(tokens) + "/" + index),
               WithAt(doc, tokens, Array(ElementsAfter(source, target, n))));
    }
  }

  // ---------------------------------------------------------------- objects

  /** The object after the given keys of the source have been dealt with. */
  function MembersAfter(source: Json, target: Json, keys: seq<string>): map<string, Json>
    requires source.Object? && target.Object?
  {
    map k | k in source.members && (k in keys ==> k in target.members) ::
      if k in keys then Patched(source.members[k], target.members[k]) else source.members[k]
  }

  lemma MembersStep(source: Json, target: Json, front: seq<string>, k: string)
    requires source.Object? && target.Object? && k in source.members && k !in front
    ensures var m, m' := MembersAfter(source, target, front), MembersAfter(source, target, front + [k]);
      && k in m && m[k] == source.members[k]
      && (if k in target.members then m' == m[k := Patched(source.members[k], target.members[k])]
          else m' == m - {k})
  {
    assert forall i :: i in front + [k] <==> i in front || i == k;
  }

  /** The members of the target that the source does not have. */
  function NewMembers(source: Json, target: Json, keys: seq<string>): map<string, Json>
    requires source.Object? && target.Object? && forall k :: k in keys ==> k in target.members
  {
    map k | k in keys && k !in source.members :: target.members[k]
  }

  lemma NewMembersStep(source: Json, target: Json, front: seq<string>, k: string, m: map<string, Json>)
    requires source.Object? && target.Object? && k in target.members && forall i :: i in front ==> i in target.members
    ensures forall i :: i in front + [k] ==> i in target.members
    ensures var m' := m + NewMembers(source, target, front + [k]);
      m' == if k in source.members then m + NewMembers(source, target, front)
            else (m + NewMembers(source, target, front))[k := target.members[k]]
  {
    assert forall i :: i in front + [k] <==> i in front || i == k;
    if k in source.members {
      assert NewMembers(source, target, front + [k]) == NewMembers(source, target, front);
    } else {
      assert NewMembers(source, target, front + [k]) == NewMembers(source, target, front)[k := target.members[k]];
    }
  }

  lemma MembersDone(source: Json, target: Json, xs: seq<string>, ys: seq<string>)
    requires source.Object? && target.Object? && !Equal(source, target)
    requires forall k :: k in xs <==> k in source.members
    requires forall k :: k in ys <==> k in target.members
    ensures Patched(source, target) == Object(MembersAfter(source, target, xs) + NewMembers(source, target, ys))
  {
    var r := MembersAfter(source, target, xs) + NewMembers(source, target, ys);
    var p := Patched(source, target).members;
    assert r.Keys == p.Keys;
    forall k | k in p ensures p[k] == r[k] {
    }
    assert p == r;
  }

  lemma {:induction false} MembersRun(doc: Json, tokens: seq<string>, source: Json, target: Json, keys: seq<string>)
    requires At(doc, tokens) == Ok(source) && Storable(source) && Storable(target)
    requires source.Object? && target.Object? && Distinct(keys) && forall k :: k in keys ==> k in source.members
    ensures Runs(doc, DiffMembers(source, target, keys, ToString(tokens)),
                 WithAt(doc, tokens, Object(MembersAfter(source, target, keys))))
    decreases source, 0, |keys| + 1
  {
    if keys == [] {
      WithAtSame(doc, tokens);
      assert MembersAfter(source, target, keys) == source.members;
    } else {
      var front, k := keys[..|keys| - 1], keys[|keys| - 1];
      MembersRun(doc, tokens, source, target, front);
      LastIsNew(keys);
      FrontLast(keys);
      MembersStep(source, target, front, k);
      var c, c' := Object(MembersAfter(source, target, front)), Object(MembersAfter(source, target, keys));
      MemberRuns(doc, tokens, source, target, c, k, c');
      RunsThen(doc, DiffMembers(source, target, front, ToString(tokens)), WithAt(doc, tokens, c),
               DiffMember(source, target, k, ToString(tokens)), WithAt(doc, tokens, c'));
    }
  }

  lemma MemberRuns(doc: Json, tokens: seq<string>, source: Json, target: Json, c: Json, k: string, c': Json)
    requires At(doc, tokens).Ok? && Storable(source) && Storable(target)
    requires source.Object? && target.Object? && k in source.members
    requires c.Object? && k in c.members && c.members[k] == source.members[k]
    requires c' == Object(if k in target.members then c.members[k := Patched(source.members[k], target.members[k])]
                          else c.members - {k})
    ensures Runs(WithAt(doc, tokens, c), DiffMember(source, target, k, ToString(tokens)), WithAt(doc, tokens, c'))
    decreases source, 0, 0
  {
    if k in target.members {
      var x, y := source.members[k], target.members[k];
      ChildStep(doc, tokens, c, k, Patched(x, y));
      ToStringLast(tokens, k);
      DiffRuns(WithAt(doc, tokens, c), tokens + [k], x, y);
    } else {
      RemoveRuns(doc, tokens, c, k);
    }
  }

  lemma LastIsNew(keys: seq<string>)
    requires keys != [] && Distinct(keys)
    ensures keys[|keys| - 1] !in keys[..|keys| - 1] && Distinct(keys[..|keys| - 1])
  {
  }

  lemma {:induction false} AdditionsRun(doc: Json, tokens: seq<string>, source: Json, target: Json,
                                        keys: seq<string>, m: map<string, Json>)
    requires At(doc, tokens).Ok?
    requires source.Object? && target.Object? && forall k :: k in keys ==> k in target.members
    ensures Runs(WithAt(doc, tokens, Object(m)), Additions(source, target, keys, ToString(tokens)),
                 WithAt(doc, tokens, Object(m + NewMembers(source, target, keys))))
    decreases |keys|
  {
    if keys == [] {
      assert m + NewMembers(source, target, keys) == m;
    } else {
      var front, k := keys[..|keys| - 1], keys[|keys| - 1];
      assert keys == front + [k];
      AdditionsRun(doc, tokens, source, target, front, m);
      NewMembersStep(source, target, front, k, m);
      var d, c := WithAt(doc, tokens, Object(m)), Object(m + NewMembers(source, target, front));
      var before := Additions(source, target, front, ToString(tokens));
      if k in source.members {
        assert Additions(source, target, keys, ToString(tokens)) == before;
      } else {
        AddRuns(doc, tokens, c, k, target.members[k]);
        RunsThen(d, before, WithAt(doc, tokens, c), [AddOp(ToString(tokens) + "/" + Escaped(k), target.members[k])],
                 WithAt(doc, tokens, Object(m + NewMembers(source, target, keys))));
      }
    }
  }

  // ------------------------------------------------------------ the theorem

  lemma {:induction false} DiffRuns(doc: Json, tokens: seq<string>, source: Json, target: Json)
    requires At(doc, tokens) == Ok(source) && Storable(source) && Storable(target)
    ensures Runs(doc, DiffOf(source, target, ToString(tokens)), WithAt(doc, tokens, Patched(source, target)))
    decreases source, 1, 0
  {
    if Equal(source, target) {
      WithAtSame(doc, tokens);
    } else if source.Array? && target.Array? {
      ArraysRun(doc, tokens, source, target);
    } else if source.Object? && target.Object? {
      ObjectsRun(doc, tokens, source, target);
    } else {
      ReplaceRuns(doc, tokens, target);
    }
  }

  lemma {:induction false} ArraysRun(doc: Json, tokens: seq<string>, source: Json, target: Json)
    requires At(doc, tokens) == Ok(source) && Storable(source) && Storable(target)
    requires source.Array? && target.Array? && !Equal(source, target)
    ensures Runs(doc, DiffOf(source, target, ToString(tokens)), WithAt(doc, tokens, Patched(source, target)))
    decreases source, 0, |source.elements| + 1
  {
    var x, y, path := source.elements, target.elements, ToString(tokens);
    var n := if |x| < |y| then |x| else |y|;
    var a := ElementsAfter(source, target, n);
    ElementsRun(doc, tokens, source, target, n);
    RemovalsRun(doc, tokens, a, n, |x|);
    AppendsRun(doc, tokens, a[..n], y[n..]);
    assert a[..|x|] == a;
    ElementsDone(source, target, n);
    var first, second := DiffElements(source, target, n, path), Removals(path, n, |x|);
    var shortened := WithAt(doc, tokens, Array(a[..n]));
    RunsThen(doc, first, WithAt(doc, tokens, Array(a)), second, shortened);
    RunsThen(doc, first + second, shortened, Appends(path, y[n..]), WithAt(doc, tokens, Patched(source, target)));
  }

  lemma {:induction false} ObjectsRun(doc: Json, tokens: seq<string>, source: Json, target: Json)
    requires At(doc, tokens) == Ok(source) && Storable(source) && Storable(target)
    requires source.Object? && target.Object? && !Equal(source, target)
    ensures Runs(doc, DiffOf(source, target, ToString(tokens)), WithAt(doc, tokens, Patched(source, target)))
    decreases source, 0, |SortedKeys(source.members.Keys)| + 2
  {
    var x, y, path := source.members, target.members, ToString(tokens);
    var xs, ys := SortedKeys(x.Keys), SortedKeys(y.Keys);
    var m := MembersAfter(source, target, xs);
    SortedIsDistinct(xs);
    MembersRun(doc, tokens, source, target, xs);
    AdditionsRun(doc, tokens, source, target, ys, m);
    MembersDone(source, target, xs, ys);
    RunsThen(doc, DiffMembers(source, target, xs, path), WithAt(doc, tokens, Object(m)),
             Additions(source, target, ys, path), WithAt(doc, tokens, Patched(source, target)));
  }

  /** Patching never fails, and its result equals the target exactly when the target
      is free of NaN and discarded values (nothing equals it otherwise). */
  lemma PatchOfDiff(source: Json, target: Json)
    requires Storable(source) && Storable(target)
    ensures var r := Apply(source, Array(DiffOf(source, target, "")));
      r.Done? && (Equal(r.doc, target) <==> Clean(target))
  {
    DiffRuns(source, [], source, target);
    PatchedEqualsTarget(source, target);
  }

  /** A target that is NaN: patching null succeeds, gives NaN, and that is not equal. */
  lemma PatchToNaN()
    ensures var nan := Floating(NaN); var r := Apply(Null, Array(DiffOf(Null, nan, "")));
      r.Done? && !Equal(r.doc, nan)
  {
    PatchOfDiff(Null, Floating(NaN));
  }

  lemma {:induction false} PatchedIsTarget(source: Json, target: Json, parsed: bool)
    requires Plain(source, parsed) && Plain(target, parsed)
    ensures Patched(source, target) == target
    decreases source
  {
    EqualIsIdentity(source, target, parsed);
    if !Equal(source, target) {
      match (source, target)
      case (Array(x), Array(y)) =>
        forall i | 0 <= i < |x| && i < |y| ensures Patched(x[i], y[i]) == y[i] { PatchedIsTarget(x[i], y[i], parsed); }
        assert Patched(source, target).elements == y;
      case (Object(x), Object(y)) =>
        forall k | k in x && k in y ensures Patched(x[k], y[k]) == y[k] { PatchedIsTarget(x[k], y[k], parsed); }
        assert Patched(source, target).members == y;
      case _ =>
    }
  }

  /** Where equality is identity, the diff leads to the very target. */
  lemma PatchGivesTarget(source: Json, target: Json, parsed: bool)
    requires Storable(source) && Storable(target) && Plain(source, parsed) && Plain(target, parsed)
    ensures Apply(source, Array(DiffOf(source, target, ""))) == Done(target)
  {
    PatchedIsTarget(source, target, parsed);
    PatchGivesPatched(source, target);
  }

  lemma PatchGivesPatched(source: Json, target: Json)
    requires Storable(source) && Storable(target)
    ensures Apply(source, Array(DiffOf(source, target, ""))) == Done(Patched(source, target))
  {
    DiffRuns(source, [], source, target);
  }

  /** The containers on the way are of one kind on both sides and are not equal. */
  predicate Descends(source: Json, target: Json, p: seq<string>)
    decreases |p|
  {
    p == [] || (!Equal(source, target)
      && ((source.Array? && target.Array?) || (source.Object? && target.Object?))
      && Child(source, p[0]).Ok? && Child(target, p[0]).Ok?
      && Descends(Child(source, p[0]).value, Child(target, p[0]).value, p[1..]))
  }

  /** What is equal at some place already is left as it is, to the last bit. */
  lemma {:induction false} EqualPartsKept(source: Json, target: Json, p: seq<string>)
    requires Descends(source, target, p) && At(source, p).Ok? && At(target, p).Ok?
    requires Equal(At(source, p).value, At(target, p).value)
    ensures At(Patched(source, target), p) == At(source, p)
    decreases |p|
  {
    if p != [] {
      EqualPartsKept(Child(source, p[0]).value, Child(target, p[0]).value, p[1..]);
    }
  }

  /** So the integer 1 does not replace 1.0. */
  lemma OneStaysDouble()
    ensures var source, target := Floating(Finite(false, Double(1023, 0))), Integer(1);
      DiffOf(source, target, "") == [] && Apply(source, Array(DiffOf(source, target, ""))) == Done(source)
  {
    var x := Finite(false, Double(1023, 0));
    assert x.magnitude.Exponent() == -52 && x.magnitude.Significand() == HIDDEN;
    FiftyFour();
    assert NearestDouble(1) == 1;
    assert HasValue(x, 1);
  }
}
