/** JSON Patch: diff compiles two values to a list of operations, patch_inplace
    runs such a list. */
module JsonPatch {
  import opened Powers
  import opened Sequences
  import opened Jsons
  import opened JsonPointer

  // ------------------------------------------------------- checked access

  /** The value tokens lead to; get_checked. */
  function At(j: Json, tokens: seq<string>): Result<Json>
    decreases |tokens|
  {
    if tokens == [] then Ok(j) else
      match Child(j, tokens[0])
      case Ok(c) => At(c, tokens[1..])
      case Throws(id) => Throws(id)
  }

  function Child(j: Json, token: string): Result<Json> {
    match j
    case Object(m) => if token in m then Ok(m[token]) else Throws(403)
    case Array(a) =>
      if token == "-" then Throws(402) else
      (match ArrayIndex(token)
       case Ok(n) => if n < |a| then Ok(a[n]) else Throws(401)
       case Throws(id) => Throws(id))
    case _ => Throws(404)
  }

  method GetChecked(j: Json, tokens: seq<string>) returns (r: Result<Json>)
    ensures r == At(j, tokens)
  {
    var current := j;
    for i := 0 to |tokens|
      invariant At(j, tokens) == At(current, tokens[i..])
    {
      var child := Child(current, tokens[i]);
      assert tokens[i..][1..] == tokens[i + 1..];
      match child {
        case Ok(c) => current := c;
        case Throws(id) => return Throws(id);
      }
    }
    return Ok(current);
  }

  /** j with the value that tokens lead to overwritten: an assignment through the
      reference that at() returns. */
  function WithAt(j: Json, tokens: seq<string>, v: Json): Json
    requires At(j, tokens).Ok?
    decreases |tokens|
  {
    if tokens == [] then v else
      WithChild(j, tokens[0], WithAt(Child(j, tokens[0]).value, tokens[1..], v))
  }

  function WithChild(j: Json, token: string, v: Json): Json
    requires Child(j, token).Ok?
  {
    match j
    case Object(m) => Object(m[token := v])
    case Array(a) => Array(a[ArrayIndex(token).value := v])
  }

  lemma ChildOfWithChild(j: Json, token: string, v: Json, w: Json)
    requires Child(j, token).Ok?
    ensures Child(WithChild(j, token, v), token) == Ok(v)
    ensures WithChild(WithChild(j, token, v), token, w) == WithChild(j, token, w)
  {
    match j
    case Object(m) => assert m[token := v][token := w] == m[token := w];
    case Array(a) =>
      var n := ArrayIndex(token).value;
      assert a[n := v][n := w] == a[n := w];
  }

  lemma {:induction false} AtWithAt(j: Json, tokens: seq<string>, v: Json, w: Json)
    requires At(j, tokens).Ok?
    ensures At(WithAt(j, tokens, v), tokens) == Ok(v)
    ensures WithAt(WithAt(j, tokens, v), tokens, w) == WithAt(j, tokens, w)
    decreases |tokens|
  {
    if tokens != [] {
      var c := Child(j, tokens[0]).value;
      AtWithAt(c, tokens[1..], v, w);
      ChildOfWithChild(j, tokens[0], WithAt(c, tokens[1..], v), WithAt(c, tokens[1..], w));
    }
  }

  lemma {:induction false} WithAtSame(doc: Json, tokens: seq<string>)
    requires At(doc, tokens).Ok?
    ensures WithAt(doc, tokens, At(doc, tokens).value) == doc
    decreases |tokens|
  {
    if tokens != [] {
      WithAtSame(Child(doc, tokens[0]).value, tokens[1..]);
      match doc
      case Object(m) => assert m[tokens[0] := m[tokens[0]]] == m;
      case Array(a) =>
        var n := ArrayIndex(tokens[0]).value;
        assert a[n := a[n]] == a;
    }
  }

  /** Access along a concatenation is access in two steps. */
  lemma {:induction false} AtSplit(j: Json, front: seq<string>, back: seq<string>)
    ensures At(j, front + back) == match At(j, front) case Ok(c) => At(c, back) case Throws(id) => Throws(id)
    decreases |front|
  {
    if front == [] {
      assert front + back == back;
    } else if Child(j, front[0]).Ok? {
      AtSplit(Child(j, front[0]).value, front[1..], back);
      assert (front + back)[1..] == front[1..] + back;
    }
  }

  lemma {:induction false} WithAtSplit(j: Json, front: seq<string>, back: seq<string>, v: Json)
    requires At(j, front + back).Ok?
    ensures At(j, front).Ok? && At(At(j, front).value, back).Ok?
    ensures WithAt(j, front + back, v) == WithAt(j, front, WithAt(At(j, front).value, back, v))
    decreases |front|
  {
    AtSplit(j, front, back);
    if front == [] {
      assert front + back == back;
    } else {
      assert (front + back)[1..] == front[1..] + back;
      WithAtSplit(Child(j, front[0]).value, front[1..], back, v);
    }
  }

  // ------------------------------------------------------------- operations

  datatype Operation =
    | Add(ptr: seq<string>, value: Json)
    | Remove(ptr: seq<string>)
    | Replace(ptr: seq<string>, value: Json)
    | Move(from: seq<string>, ptr: seq<string>)
    | Copy(from: seq<string>, ptr: seq<string>)
    | Test(ptr: seq<string>, value: Json)

  function Member(val: Json, name: string): Result<Json>
    requires val.Object?
  {
    if name in val.members then Ok(val.members[name]) else Throws(105)
  }

  function StringMember(val: Json, name: string): Result<string>
    requires val.Object?
  {
    if name in val.members && val.members[name].Str? then Ok(val.members[name].s) else Throws(105)
  }

  function PointerMember(val: Json, name: string): Result<seq<string>>
    requires val.Object?
  {
    match StringMember(val, name)
    case Ok(text) => Parse(text)
    case Throws(id) => Throws(id)
  }

  /** Reads one element of the patch array. */
  function Decode(val: Json): Result<Operation> {
    if !val.Object? then Throws(104) else
    match StringMember(val, "op")
    case Throws(id) => Throws(id)
    case Ok(op) =>
      match PointerMember(val, "path")
      case Throws(id) => Throws(id)
      case Ok(ptr) =>
        if op == "remove" then Ok(Remove(ptr))
        else if op == "add" || op == "replace" || op == "test" then
          match Member(val, "value")
          case Throws(id) => Throws(id)
          case Ok(v) => 
            Ok(if op == "add" then Add(ptr, v) else if op == "replace" then Replace(ptr, v) else Test(ptr, v))
        else if op == "move" || op == "copy" then
          match PointerMember(val, "from")
          case Throws(id) => Throws(id)
          case Ok(from) => Ok(if op == "move" then Move(from, ptr) else Copy(from, ptr))
        else Throws(105)
  }

  /** What an operation leaves behind; a failing one may have changed the document. */
  datatype Outcome = Done(doc: Json) | Failed(doc: Json, id: int)

  /** Stands for a failing JSON_ASSERT, which throws nothing. */
  const ASSERTION := 0

  function AddTo(parent: Json, last: string, v: Json): Result<Json> {
    match parent
    case Null => Ok(Object(map[last := v]))
    case Object(m) => Ok(Object(m[last := v]))
    case Array(a) =>
      if last == "-" then Ok(Array(a + [v])) else
      (match ArrayIndex(last)
       case Ok(n) => if n <= |a| then Ok(Array(a[..n] + [v] + a[n..])) else Throws(401)
       case Throws(id) => Throws(id))
    case _ => Throws(ASSERTION)
  }

  function OperationAdd(doc: Json, ptr: seq<string>, v: Json): Outcome {
    if ptr == [] then Done(v)
    else if |ptr| > 1 && At(doc, ptr[..1]).Throws? then Failed(doc, At(doc, ptr[..1]).id)
    else
      var front := ptr[..|ptr| - 1];
      match At(doc, front)
      case Throws(id) => Failed(doc, id)
      case Ok(parent) =>
        match AddTo(parent, ptr[|ptr| - 1], v)
        case Throws(id) => Failed(doc, id)
        case Ok(changed) => Done(WithAt(doc, front, changed))
  }

  /** Removing below a primitive value changes nothing and reports nothing. */
  function RemoveFrom(parent: Json, last: string): Result<Json> {
    match parent
    case Object(m) => if last in m then Ok(Object(m - {last})) else Throws(403)
    case Array(a) =>
      (match ArrayIndex(last)
       case Ok(n) => if n < |a| then Ok(Array(a[..n] + a[n + 1..])) else Throws(401)
       case Throws(id) => Throws(id))
    case _ => Ok(parent)
  }

  function OperationRemove(doc: Json, ptr: seq<string>): Outcome {
    if ptr == [] then Failed(doc, 405) else
      var front := ptr[..|ptr| - 1];
      match At(doc, front)
      case Throws(id) => Failed(doc, id)
      case Ok(parent) =>
        match RemoveFrom(parent, ptr[|ptr| - 1])
        case Throws(id) => Failed(doc, id)
        case Ok(changed) => Done(WithAt(doc, front, changed))
  }

  /** The exceptions of class out_of_range. */
  predicate OutOfRange(id: int) {
    401 <= id <= 499
  }

  function ApplyOperation(doc: Json, op: Operation): Outcome {
    match op
    case Add(ptr, v) => OperationAdd(doc, ptr, v)
    case Remove(ptr) => OperationRemove(doc, ptr)
    case Replace(ptr, v) =>
      (match At(doc, ptr)
       case Ok(_) => Done(WithAt(doc, ptr, v))
       case Throws(id) => Failed(doc, id))
    case Move(from, ptr) =>
      (match At(doc, from)
       case Throws(id) => Failed(doc, id)
       case Ok(v) =>
         match OperationRemove(doc, from)
         case Failed(d, id) => Failed(d, id)
         case Done(d) => OperationAdd(d, ptr, v))
    case Copy(from, ptr) =>
      (match At(doc, from)
       case Throws(id) => Failed(doc, id)
       case Ok(v) => OperationAdd(doc, ptr, v))
    case Test(ptr, v) =>
      (match At(doc, ptr)
       case Throws(id) => Failed(doc, if OutOfRange(id) then 501 else id)
       case Ok(j) => if Equal(j, v) then Done(doc) else Failed(doc, 501))
  }

  function ApplyAll(doc: Json, vals: seq<Json>): Outcome
    decreases |vals|
  {
    if vals == [] then Done(doc) else
      match Decode(vals[0])
      case Throws(id) => Failed(doc, id)
      case Ok(op) =>
        match ApplyOperation(doc, op)
        case Failed(d, id) => Failed(d, id)
        case Done(d) => ApplyAll(d, vals[1..])
  }

  function Apply(doc: Json, patch: Json): Outcome {
    if patch.Array? then ApplyAll(doc, patch.elements) else Failed(doc, 104)
  }

  lemma {:induction false} ApplyAllSplit(doc: Json, a: seq<Json>, b: seq<Json>)
    ensures var r := ApplyAll(doc, a);
      ApplyAll(doc, a + b) == if r.Done? then ApplyAll(r.doc, b) else r
    decreases |a|
  {
    if a == [] {
      assert a + b == b;
    } else if Decode(a[0]).Ok? && ApplyOperation(doc, Decode(a[0]).value).Done? {
      assert (a + b)[1..] == a[1..] + b;
      ApplyAllSplit(ApplyOperation(doc, Decode(a[0]).value).doc, a[1..], b);
    }
  }

  /** A basic_json that patch_inplace rewrites. */
  class Document {
    var root: Json

    constructor (j: Json)
      ensures root == j
    {
      root := j;
    }

    method AddAt(ptr: seq<string>, v: Json) returns (failure: Option<int>)
      modifies this
      ensures OperationAdd(old(root), ptr, v) == Report(root, failure)
    {
      if ptr == [] {
        root := v;
        return None;
      }
      if |ptr| > 1 {
        var top := GetChecked(root, ptr[..1]);
        if top.Throws? {
          return Some(top.id);
        }
      }
      var last, front := ptr[|ptr| - 1], ptr[..|ptr| - 1];
      var parent := GetChecked(root, front);
      if parent.Throws? {
        return Some(parent.id);
      }
      var changed := AddTo(parent.value, last, v);
      if changed.Throws? {
        return Some(changed.id);
      }
      root := WithAt(root, front, changed.value);
      return None;
    }

    method RemoveAt(ptr: seq<string>) returns (failure: Option<int>)
      modifies this
      ensures OperationRemove(old(root), ptr) == Report(root, failure)
    {
      if ptr == [] {
        return Some(405);
      }
      var last, front := ptr[|ptr| - 1], ptr[..|ptr| - 1];
      var parent := GetChecked(root, front);
      if parent.Throws? {
        return Some(parent.id);
      }
      var changed := RemoveFrom(parent.value, last);
      if changed.Throws? {
        return Some(changed.id);
      }
      root := WithAt(root, front, changed.value);
      return None;
    }

    method Perform(op: Operation) returns (failure: Option<int>)
      modifies this
      ensures ApplyOperation(old(root), op) == Report(root, failure)
    {
      match op {
        case Add(ptr, v) =>
          failure := AddAt(ptr, v);
        case Remove(ptr) =>
          failure := RemoveAt(ptr);
        case Replace(ptr, v) =>
          var target := GetChecked(root, ptr);
          if target.Throws? {
            return Some(target.id);
          }
          root := WithAt(root, ptr, v);
          return None;
        case Move(from, ptr) =>
          var v := GetChecked(root, from);
          if v.Throws? {
            return Some(v.id);
          }
          failure := RemoveAt(from);
          if failure.Some? {
            return failure;
          }
          failure := AddAt(ptr, v.value);
        case Copy(from, ptr) =>
          var v := GetChecked(root, from);
          if v.Throws? {
            return Some(v.id);
          }
          failure := AddAt(ptr, v.value);
        case Test(ptr, v) =>
          var found := GetChecked(root, ptr);
          if found.Throws? && !OutOfRange(found.id) {
            return Some(found.id);
          }
          var success := found.Ok? && Equal(found.value, v);
          return if success then None else Some(501);
      }
    }

    method PatchInplace(patch: Json) returns (failure: Option<int>)
      modifies this
      ensures Apply(old(root), patch) == Report(root, failure)
    {
      if !patch.Array? {
        return Some(104);
      }
      for i := 0 to |patch.elements|
        invariant ApplyAll(old(root), patch.elements) == ApplyAll(root, patch.elements[i..])
      {
        assert patch.elements[i..][1..] == patch.elements[i + 1..];
        var op := Decode(patch.elements[i]);
        if op.Throws? {
          return Some(op.id);
        }
        failure := Perform(op.value);
        if failure.Some? {
          return;
        }
      }
      return None;
    }
  }

  function Report(doc: Json, failure: Option<int>): Outcome {
    match failure
    case None => Done(doc)
    case Some(id) => Failed(doc, id)
  }

  /** A failing operation changes the document exactly if it is a move of something that
      exists below the root: then the removal stays done. */
  lemma FailureKeepsDocument(doc: Json, op: Operation)
    requires ApplyOperation(doc, op).Failed?
    ensures ApplyOperation(doc, op).doc != doc <==> op.Move? && op.from != [] && At(doc, op.from).Ok?
  {
    if op.Move? && op.from != [] && At(doc, op.from).Ok? {
      ExistingIsRemoved(doc, op.from);
    }
  }

  /** Whatever exists below the root can be removed, and then the document differs. */
  lemma ExistingIsRemoved(doc: Json, ptr: seq<string>)
    requires ptr != [] && At(doc, ptr).Ok?
    ensures OperationRemove(doc, ptr).Done? && OperationRemove(doc, ptr).doc != doc
  {
    var front, last := ptr[..|ptr| - 1], ptr[|ptr| - 1];
    FrontLast(ptr);
    AtSplit(doc, front, [last]);
    assert At(doc, front).Ok? && Child(At(doc, front).value, last).Ok?;
    RemoveChangesNothing(doc, ptr);
  }

  /** Moving a to a place whose parent does not exist loses a. */
  lemma MoveLosesValue(v: Json)
    ensures ApplyOperation(Object(map["a" := v]), Move(["a"], ["b", "c"])) == Failed(Object(map[]), 403)
  {
    var doc := Object(map["a" := v]);
    assert ["a"][..0] == [] && ["a"][1..] == [];
    assert Child(doc, "a") == Ok(v) && At(doc, ["a"]) == Ok(v);
    assert RemoveFrom(doc, "a") == Ok(Object(map[]));
    assert OperationRemove(doc, ["a"]) == Done(Object(map[]));
    assert ["b", "c"][..1] == ["b"] && Child(Object(map[]), "b") == Throws(403);
  }

  predicate IsStructured(j: Json) {
    j.Array? || j.Object?
  }

  /** A primitive value other than null. */
  predicate IsFixed(parent: Result<Json>) {
    parent.Ok? && !IsStructured(parent.value) && !parent.value.Null?
  }

  lemma {:induction false} AccessErrors(j: Json, tokens: seq<string>)
    requires At(j, tokens).Throws?
    ensures At(j, tokens).id != ASSERTION
    decreases |tokens|
  {
    if Child(j, tokens[0]).Ok? {
      AccessErrors(Child(j, tokens[0]).value, tokens[1..]);
    }
  }

  /** A path that resolves also resolves after its first token. */
  lemma TopExists(doc: Json, front: seq<string>)
    requires front != [] && At(doc, front).Ok?
    ensures At(doc, front[..1]).Ok?
  {
    assert front == front[..1] + front[1..];
    AtSplit(doc, front[..1], front[1..]);
  }

  /** The parent of an added value can be primitive after all: exactly then the
      assertion that it is not fails. */
  lemma AddReachesAssertion(doc: Json, ptr: seq<string>, v: Json)
    ensures OperationAdd(doc, ptr, v) == Failed(doc, ASSERTION) <==>
      ptr != [] && IsFixed(At(doc, ptr[..|ptr| - 1]))
  {
    if ptr != [] {
      if At(doc, ptr[..|ptr| - 1]).Throws? {
        WithoutParent(doc, ptr, v);
      } else {
        TopIsFound(doc, ptr);
      }
    }
  }

  lemma WithoutParent(doc: Json, ptr: seq<string>, v: Json)
    requires ptr != [] && At(doc, ptr[..|ptr| - 1]).Throws?
    ensures OperationAdd(doc, ptr, v).Failed? && OperationAdd(doc, ptr, v).id != ASSERTION
  {
    AccessErrors(doc, ptr[..|ptr| - 1]);
    if |ptr| > 1 && At(doc, ptr[..1]).Throws? {
      AccessErrors(doc, ptr[..1]);
    }
  }

  /** Adding /a/b where /a is true. */
  lemma AddBelowTrue(v: Json)
    ensures var doc := Object(map["a" := Boolean(true)]); OperationAdd(doc, ["a", "b"], v) == Failed(doc, ASSERTION)
  {
    var doc := Object(map["a" := Boolean(true)]);
    assert ["a", "b"][..1] == ["a"] && ["a"][1..] == [] && Child(doc, "a") == Ok(Boolean(true));
    assert At(doc, ["a"]) == Ok(Boolean(true));
  }

  /** The extra check of the top element never fails when the parent exists. */
  lemma TopIsFound(doc: Json, ptr: seq<string>)
    requires ptr != [] && At(doc, ptr[..|ptr| - 1]).Ok?
    ensures |ptr| > 1 ==> At(doc, ptr[..1]).Ok?
  {
    if |ptr| > 1 {
      assert ptr[..|ptr| - 1][..1] == ptr[..1];
      TopExists(doc, ptr[..|ptr| - 1]);
    }
  }

  /** A removal that succeeds removes something, unless the parent is primitive:
      then the missing target is not reported. */
  lemma RemoveChangesNothing(doc: Json, ptr: seq<string>)
    ensures OperationRemove(doc, ptr) == Done(doc) <==>
      ptr != [] && var parent := At(doc, ptr[..|ptr| - 1]); parent.Ok? && !IsStructured(parent.value)
  {
    if ptr != [] {
      var front, last := ptr[..|ptr| - 1], ptr[|ptr| - 1];
      if At(doc, front).Ok? {
        var parent := At(doc, front).value;
        WithAtSame(doc, front);
        if RemoveFrom(parent, last).Ok? {
          var changed := RemoveFrom(parent, last).value;
          AtWithAt(doc, front, changed, changed);
          assert parent.Object? ==> last in parent.members && last !in changed.members;
          assert parent.Array? ==> |changed.elements| < |parent.elements|;
        }
      }
    }
  }

  /** Removing /a from true. */
  lemma RemoveBelowTrue()
    ensures OperationRemove(Boolean(true), ["a"]) == Done(Boolean(true))
  {
    assert ["a"][..0] == [];
  }

  // ------------------------------------------- what each operation does, by place

  /** Elements of an array are its children under their numerals. */
  lemma ChildIsElement(a: seq<Json>, n: nat)
    requires n < TWO64 - 1
    ensures Child(Array(a), Numeral(n)) == if n < |a| then Ok(a[n]) else Throws(401)
  {
    IndexIsNumeral(Numeral(n), n);
    NumeralIsNoDash(n);
  }

  /** When access fails, and how: 403 for a missing member, 402 for "-", 401 for an index
      beyond the end, 404 in a value without children or for a token that is no index. */
  lemma ChildErrors(j: Json, t: string)
    ensures Child(j, t) == Throws(403) <==> j.Object? && t !in j.members
    ensures Child(j, t) == Throws(402) <==> j.Array? && t == "-"
    ensures Child(j, t) == Throws(401) <==>
      j.Array? && exists n: nat :: |j.elements| <= n < TWO64 - 1 && t == Numeral(n)
    ensures Child(j, t) == Throws(404) <==>
      if j.Array? then t != "-" && ArrayIndex(t) == Throws(404) else !j.Object?
    ensures Child(j, t) == Throws(410) <==> j.Array? && t == Numeral(TWO64 - 1)
  {
    IndexExceedsSizeType(t);
    NumeralIsNoDash(TWO64 - 1);
    if ArrayIndex(t).Ok? {
      IndexIsNumeral(t, ArrayIndex(t).value);
    }
    if j.Array? && exists n: nat :: |j.elements| <= n < TWO64 - 1 && t == Numeral(n) {
      var n: nat :| |j.elements| <= n < TWO64 - 1 && t == Numeral(n);
      IndexIsNumeral(t, n);
      NumeralIsNoDash(n);
    }
  }

  lemma NumeralIsNoDash(n: nat)
    ensures Numeral(n) != "-"
  {
    DigitsOnly(n);
  }

  lemma {:induction false} DigitsOnly(n: nat)
    ensures '-' !in Numeral(n)
  {
    if n >= 10 {
      DigitsOnly(n / 10);
    }
  }

  /** b is a with v inserted in front of element n. */
  predicate Inserted(a: seq<Json>, n: nat, v: Json, b: seq<Json>)
    requires n <= |a|
  {
    && |b| == |a| + 1 && b[n] == v
    && (forall i :: 0 <= i < n ==> b[i] == a[i])
    && (forall i :: n <= i < |a| ==> b[i + 1] == a[i])
  }

  /** Adding at an index of an array inserts there, at "-" behind the last element, and
      beyond the end nothing. */
  lemma AddToArray(a: seq<Json>, n: nat, v: Json)
    requires n < TWO64 - 1
    ensures var r := AddTo(Array(a), Numeral(n), v);
      if n <= |a| then r.Ok? && r.value.Array? && Inserted(a, n, v, r.value.elements) else r == Throws(401)
    ensures AddTo(Array(a), "-", v) == Ok(Array(a + [v]))
  {
    IndexIsNumeral(Numeral(n), n);
    NumeralIsNoDash(n);
  }

  lemma AddUnfolds(doc: Json, front: seq<string>, t: string, v: Json, parent: Json)
    requires At(doc, front) == Ok(parent)
    ensures OperationAdd(doc, front + [t], v) ==
      if AddTo(parent, t, v).Ok? then Done(WithAt(doc, front, AddTo(parent, t, v).value))
      else Failed(doc, AddTo(parent, t, v).id)
  {
    var ptr := front + [t];
    LastToken(front, t);
    TopIsFound(doc, ptr);
  }

  lemma LastToken(front: seq<string>, t: string)
    ensures var ptr := front + [t]; ptr[..|ptr| - 1] == front && ptr[|ptr| - 1] == t
  {
  }

  lemma ChildOfStored(doc: Json, front: seq<string>, t: string, b: Json)
    requires At(doc, front).Ok?
    ensures At(WithAt(doc, front, b), front) == Ok(b) && At(WithAt(doc, front, b), front + [t]) == Child(b, t)
  {
    var stored := WithAt(doc, front, b);
    AtWithAt(doc, front, b, b);
    AtSplit(stored, front, [t]);
    OneToken(b, t);
  }

  lemma OneToken(j: Json, t: string)
    ensures At(j, [t]) == Child(j, t)
  {
    assert [t][1..] == [];
  }

  /** The same in a document: the array at front has v at n, and v is found there. */
  lemma AddInserts(doc: Json, front: seq<string>, a: seq<Json>, n: nat, v: Json)
    requires At(doc, front) == Ok(Array(a)) && n <= |a| < TWO64 - 1
    ensures var r := OperationAdd(doc, front + [Numeral(n)], v);
      && r.Done? && At(r.doc, front).Ok? && At(r.doc, front).value.Array?
      && Inserted(a, n, v, At(r.doc, front).value.elements)
      && At(r.doc, front + [Numeral(n)]) == Ok(v)
  {
    AddToArray(a, n, v);
    var b := AddTo(Array(a), Numeral(n), v).value;
    AddUnfolds(doc, front, Numeral(n), v, Array(a));
    ChildOfStored(doc, front, Numeral(n), b);
    ChildIsElement(b.elements, n);
  }

  /** Adding to an object sets the member; null becomes an object with that member. */
  lemma AddSetsMember(doc: Json, front: seq<string>, t: string, v: Json)
    requires At(doc, front).Ok? && (At(doc, front).value.Object? || At(doc, front).value.Null?)
    ensures var parent, r := At(doc, front).value, OperationAdd(doc, front + [t], v);
      && r.Done? && At(r.doc, front + [t]) == Ok(v)
      && At(r.doc, front) == Ok(Object((if parent.Object? then parent.members else map[])[t := v]))
  {
    var parent := At(doc, front).value;
    AddUnfolds(doc, front, t, v, parent);
    ChildOfStored(doc, front, t, AddTo(parent, t, v).value);
  }

  lemma AddedChild(parent: Json, t: string, v: Json)
    requires AddTo(parent, t, v).Ok? && t != "-"
    ensures Child(AddTo(parent, t, v).value, t) == Ok(v)
  {
  }

  /** What a successful add was given is found at its path, unless that ends in "-". */
  lemma AddedIsThere(doc: Json, ptr: seq<string>, v: Json)
    requires OperationAdd(doc, ptr, v).Done? && (ptr != [] ==> ptr[|ptr| - 1] != "-")
    ensures At(OperationAdd(doc, ptr, v).doc, ptr) == Ok(v)
  {
    if ptr != [] {
      var front, t := ptr[..|ptr| - 1], ptr[|ptr| - 1];
      var parent := At(doc, front).value;
      FrontLast(ptr);
      AddUnfolds(doc, front, t, v, parent);
      AddedChild(parent, t, v);
      ChildOfStored(doc, front, t, AddTo(parent, t, v).value);
    }
  }

  /** So what was at from is found at the path after a copy and after a move. */
  lemma ValueArrives(doc: Json, ptr: seq<string>, from: seq<string>, op: Operation)
    requires op == Copy(from, ptr) || op == Move(from, ptr)
    requires ApplyOperation(doc, op).Done? && (ptr != [] ==> ptr[|ptr| - 1] != "-")
    ensures At(doc, from).Ok? && At(ApplyOperation(doc, op).doc, ptr) == At(doc, from)
  {
    var v := At(doc, from).value;
    if op.Copy? {
      AddedIsThere(doc, ptr, v);
    } else {
      AddedIsThere(OperationRemove(doc, from).doc, ptr, v);
    }
  }

  /** Removing an element moves those behind it down by one; removing a member leaves the
      others. */
  lemma RemoveFromContainer(a: seq<Json>, n: nat, m: map<string, Json>, t: string)
    requires n < TWO64 - 1
    ensures var r := RemoveFrom(Array(a), Numeral(n));
      if n < |a| then r.Ok? && r.value.Array? && Inserted(r.value.elements, n, a[n], a) else r == Throws(401)
    ensures RemoveFrom(Object(m), t) == if t in m then Ok(Object(map k | k in m && k != t :: m[k])) else Throws(403)
  {
    IndexIsNumeral(Numeral(n), n);
    if t in m {
      assert m - {t} == map k | k in m && k != t :: m[k];
    }
  }

  lemma RemoveTakesOut(doc: Json, front: seq<string>, t: string)
    requires At(doc, front).Ok? && RemoveFrom(At(doc, front).value, t).Ok?
    ensures var r := OperationRemove(doc, front + [t]);
      r.Done? && At(r.doc, front) == RemoveFrom(At(doc, front).value, t)
  {
    var ptr, b := front + [t], RemoveFrom(At(doc, front).value, t).value;
    LastToken(front, t);
    AtWithAt(doc, front, b, b);
  }

  /** A store at p changes nothing at paths that neither lead to p nor go through it. */
  lemma {:induction false} StoreElsewhere(j: Json, p: seq<string>, v: Json, q: seq<string>)
    requires At(j, p).Ok? && !(p <= q) && !(q <= p)
    ensures At(WithAt(j, p, v), q) == At(j, q)
    decreases |p|
  {
    var t, u := p[0], q[0];
    var c := Child(j, t).value;
    var w := WithAt(c, p[1..], v);
    if t == u {
      ChildOfWithChild(j, t, w, w);
      assert p[1..] <= q[1..] ==> p <= q;
      assert q[1..] <= p[1..] ==> q <= p;
      StoreElsewhere(c, p[1..], v, q[1..]);
    } else {
      OtherChildKept(j, t, w, u);
    }
  }

  lemma OtherChildKept(j: Json, t: string, w: Json, u: string)
    requires Child(j, t).Ok? && t != u
    ensures Child(WithChild(j, t, w), u) == Child(j, u)
  {
    if j.Array? && ArrayIndex(u).Ok? {
      IndexIsNumeral(t, ArrayIndex(t).value);
      IndexIsNumeral(u, ArrayIndex(u).value);
    }
  }

  /** Replacing needs something to be there, and stores the value. */
  lemma ReplaceStores(doc: Json, ptr: seq<string>, v: Json)
    ensures var r, found := ApplyOperation(doc, Replace(ptr, v)), At(doc, ptr);
      if found.Ok? then r.Done? && At(r.doc, ptr) == Ok(v) else r == Failed(doc, found.id)
  {
    if At(doc, ptr).Ok? {
      AtWithAt(doc, ptr, v, v);
    }
  }

  /** Copying adds what is at from to the document, moving adds it to what is left of the
      document without it. */
  lemma CopyAndMove(doc: Json, ptr: seq<string>, from: seq<string>)
    ensures var r, found := ApplyOperation(doc, Copy(from, ptr)), At(doc, from);
      r == if found.Ok? then ApplyOperation(doc, Add(ptr, found.value)) else Failed(doc, found.id)
    ensures var r, found, removed := ApplyOperation(doc, Move(from, ptr)), At(doc, from),
        ApplyOperation(doc, Remove(from));
      r == if found.Throws? then Failed(doc, found.id) else if removed.Failed? then removed
        else ApplyOperation(removed.doc, Add(ptr, found.value))
  {
  }

  /** Testing succeeds exactly if an equal value is there, and never changes anything. */
  lemma TestCompares(doc: Json, ptr: seq<string>, v: Json)
    ensures var r, found := ApplyOperation(doc, Test(ptr, v)), At(doc, ptr);
      && (r == Done(doc) <==> found.Ok? && Equal(found.value, v))
      && (r != Done(doc) ==> r == Failed(doc, if found.Throws? && !OutOfRange(found.id) then found.id else 501))
  {
  }

  /** Moving a member of an object to another member: the value is there and no longer
      where it was. */
  lemma MoveRenames(doc: Json, m: map<string, Json>, t: string, u: string)
    requires doc == Object(m) && t in m && t != u
    ensures ApplyOperation(doc, Move([t], [u])) == Done(Object((m - {t})[u := m[t]]))
  {
    assert [t][..0] == [] && [u][..0] == [] && [t][1..] == [];
    assert Child(doc, t) == Ok(m[t]) && At(doc, [t]) == Ok(m[t]);
    assert OperationRemove(doc, [t]) == Done(Object(m - {t}));
  }

  // ----------------------------------------------------------- reading a patch

  /** An operation as the object that section 4 of RFC 6902 writes it as. */
  function Written(op: Operation): Json {
    match op
    case Add(ptr, v) => Object(map["op" := Str("add"), "path" := Str(ToString(ptr)), "value" := v])
    case Remove(ptr) => Object(map["op" := Str("remove"), "path" := Str(ToString(ptr))])
    case Replace(ptr, v) => Object(map["op" := Str("replace"), "path" := Str(ToString(ptr)), "value" := v])
    case Move(from, ptr) =>
      Object(map["op" := Str("move"), "path" := Str(ToString(ptr)), "from" := Str(ToString(from))])
    case Copy(from, ptr) =>
      Object(map["op" := Str("copy"), "path" := Str(ToString(ptr)), "from" := Str(ToString(from))])
    case Test(ptr, v) => Object(map["op" := Str("test"), "path" := Str(ToString(ptr)), "value" := v])
  }

  function Name(op: Operation): string {
    match op
    case Add(_, _) => "add"
    case Remove(_) => "remove"
    case Replace(_, _) => "replace"
    case Move(_, _) => "move"
    case Copy(_, _) => "copy"
    case Test(_, _) => "test"
  }

  lemma WrittenMembers(op: Operation)
    ensures var val := Written(op);
      && val.Object? && StringMember(val, "op") == Ok(Name(op))
      && StringMember(val, "path") == Ok(ToString(op.ptr))
      && (op.Add? || op.Replace? || op.Test? ==> Member(val, "value") == Ok(op.value))
      && (op.Move? || op.Copy? ==> StringMember(val, "from") == Ok(ToString(op.from)))
  {
  }

  /** Every operation is read back from what it is written as. */
  lemma DecodeWritten(op: Operation)
    ensures Decode(Written(op)) == Ok(op)
  {
    ParseToString(op.ptr);
    if op.Move? || op.Copy? {
      ParseToString(op.from);
    }
    WrittenMembers(op);
    DecodeMembers(Written(op), op);
  }

  lemma DecodeMembers(val: Json, op: Operation)
    requires val.Object? && StringMember(val, "op") == Ok(Name(op)) && PointerMember(val, "path") == Ok(op.ptr)
    requires op.Add? || op.Replace? || op.Test? ==> Member(val, "value") == Ok(op.value)
    requires op.Move? || op.Copy? ==> PointerMember(val, "from") == Ok(op.from)
    ensures Decode(val) == Ok(op)
  {
  }

  predicate HasString(val: Json, name: string)
    requires val.Object?
  {
    name in val.members && val.members[name].Str?
  }

  /** When an element of the patch is refused before anything is done: it is not an
      object; op or path is missing or no string; or, these being in order, the path is no
      pointer, the operation is unknown or its own member is missing. */
  lemma DecodeErrors(val: Json)
    ensures Decode(val) == Throws(104) <==> !val.Object?
    ensures val.Object? && (!HasString(val, "op") || !HasString(val, "path")) ==> Decode(val) == Throws(105)
    ensures val.Object? && HasString(val, "op") && HasString(val, "path") && Parse(val.members["path"].s).Throws? ==>
      Decode(val) == Throws(Parse(val.members["path"].s).id)
    ensures val.Object? && HasString(val, "op") && HasString(val, "path") && Parse(val.members["path"].s).Ok? ==>
      var op := val.members["op"].s;
      if op == "remove" then Decode(val).Ok?
      else if op == "add" || op == "replace" || op == "test" then
        Decode(val) == Throws(105) <==> "value" !in val.members
      else if op == "move" || op == "copy" then
        (Decode(val).Ok? <==> HasString(val, "from") && Parse(val.members["from"].s).Ok?)
      else Decode(val) == Throws(105)
  {
    if val.Object? && HasString(val, "path") {
      ParseAccepts(val.members["path"].s);
    }
    if val.Object? && HasString(val, "from") {
      ParseAccepts(val.members["from"].s);
    }
  }
}
