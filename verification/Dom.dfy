/** The consumer that builds a JSON value from events.  Pointers into the growing tree
    are paths from its root. */
module Dom {
  import opened Sequences
  import opened Jsons
  import opened Grammar

  // ------------------------------------------------------------------- paths

  datatype Selector = AtKey(k: string) | AtIndex(i: nat)

  type Path = seq<Selector>

  /** sel names a child of j, or a place where one can be added. */
  predicate Slot(j: Json, sel: Selector) {
    match sel
    case AtKey(_) => j.Object?
    case AtIndex(i) => j.Array? && i <= |j.elements|
  }

  function KidAt(j: Json, sel: Selector): Json
    requires Slot(j, sel)
  {
    match sel
    case AtKey(k) => if k in j.members then j.members[k] else Null
    case AtIndex(i) => if i < |j.elements| then j.elements[i] else Null
  }

  function PutKid(j: Json, sel: Selector, v: Json): (r: Json)
    requires Slot(j, sel)
    ensures Slot(r, sel) && KidAt(r, sel) == v
  {
    match sel
    case AtKey(k) => Object(j.members[k := v])
    case AtIndex(i) => Array(if i < |j.elements| then j.elements[i := v] else j.elements + [v])
  }

  predicate Reach(j: Json, p: Path)
    decreases |p|
  {
    p == [] || (Slot(j, p[0]) && Reach(KidAt(j, p[0]), p[1..]))
  }

  function Get(j: Json, p: Path): Json
    requires Reach(j, p)
    decreases |p|
  {
    if p == [] then j else Get(KidAt(j, p[0]), p[1..])
  }

  function Put(j: Json, p: Path, v: Json): Json
    requires Reach(j, p)
    decreases |p|
  {
    if p == [] then v else PutKid(j, p[0], Put(KidAt(j, p[0]), p[1..], v))
  }

  lemma {:induction false} GetPut(j: Json, p: Path, c: Json, d: Json)
    requires Reach(j, p)
    ensures Reach(Put(j, p, c), p) && Get(Put(j, p, c), p) == c
    ensures Put(Put(j, p, c), p, d) == Put(j, p, d)
    decreases |p|
  {
    if p != [] {
      GetPut(KidAt(j, p[0]), p[1..], c, d);
      var x, y := Put(KidAt(j, p[0]), p[1..], c), Put(KidAt(j, p[0]), p[1..], d);
      PutKidTwice(j, p[0], x, y);
    }
  }

  lemma PutKidTwice(j: Json, sel: Selector, x: Json, y: Json)
    requires Slot(j, sel)
    ensures PutKid(PutKid(j, sel, x), sel, y) == PutKid(j, sel, y)
  {
    match sel
    case AtKey(k) => assert j.members[k := x][k := y] == j.members[k := y];
    case AtIndex(i) =>
      if i < |j.elements| {
        assert j.elements[i := x][i := y] == j.elements[i := y];
      } else {
        assert (j.elements + [x])[i := y] == j.elements + [y];
      }
  }

  /** Setting a child of the value at p is setting the value at p. */
  lemma {:induction false} PutBelow(j: Json, p: Path, sel: Selector, v: Json)
    requires Reach(j, p) && Slot(Get(j, p), sel)
    ensures Reach(j, p + [sel]) && Get(j, p + [sel]) == KidAt(Get(j, p), sel)
    ensures Put(j, p + [sel], v) == Put(j, p, PutKid(Get(j, p), sel, v))
    decreases |p|
  {
    if p == [] {
      assert p + [sel] == [sel] && [sel][1..] == [];
    } else {
      PutBelow(KidAt(j, p[0]), p[1..], sel, v);
      assert (p + [sel])[0] == p[0] && (p + [sel])[1..] == p[1..] + [sel];
    }
  }

  // ------------------------------------------------------------ the consumer

  /** The state of json_sax_dom_parser.  element is object_element while it is known to
      point to the entry that the last key made; fault records a failing assertion or
      the use of a pointer that is not. */
  datatype Builder = Builder(root: Json, refStack: seq<Path>, element: Option<Path>, errored: bool, fault: bool)

  function Init(root: Json): Builder {
    Builder(root, [], None, false, false)
  }

  predicate Resolves(b: Builder) {
    b.refStack != [] && Reach(b.root, b.refStack[|b.refStack| - 1])
  }

  /** The innermost open container. */
  function Top(b: Builder): Json
    requires Resolves(b)
  {
    Get(b.root, b.refStack[|b.refStack| - 1])
  }

  /** Where the next value goes. */
  function Target(b: Builder): Option<Path> {
    if b.refStack == [] then Some([])
    else if !Resolves(b) then None
    else match Top(b)
      case Array(a) => Some(b.refStack[|b.refStack| - 1] + [AtIndex(|a|)])
      case Object(_) => b.element
      case _ => None
  }

  /** handle_value, with the pointer it returns. */
  function Handle(b: Builder, v: Json): (Builder, Path) {
    match Target(b)
    case Some(p) => if Reach(b.root, p) then (b.(root := Put(b.root, p, v), element := None), p)
      else (b.(fault := true), [])
    case None => (b.(fault := true), [])
  }

  function Open(b: Builder, v: Json): Builder {
    var (next, p) := Handle(b, v);
    next.(refStack := next.refStack + [p])
  }

  function Close(b: Builder, isArray: bool): Builder {
    if Resolves(b) && (if isArray then Top(b).Array? else Top(b).Object?) then
      b.(refStack := b.refStack[..|b.refStack| - 1], element := None)
    else b.(fault := true)
  }

  function Feed(b: Builder, e: Event): Builder {
    match e
    case Value(v) => Handle(b, v).0
    case StartObject => Open(b, Object(map[]))
    case StartArray => Open(b, Array([]))
    case Key(k) =>
      if Resolves(b) && Top(b).Object? then
        var top, m := b.refStack[|b.refStack| - 1], Top(b).members;
        b.(root := Put(b.root, top, Object(Entered(m, k))), element := Some(top + [AtKey(k)]))
      else b.(fault := true)
    case EndOfObject => Close(b, false)
    case EndOfArray => Close(b, true)
    case Error(_) => b.(errored := true)
  }

  function FeedAll(b: Builder, events: seq<Event>): Builder {
    if events == [] then b else Feed(FeedAll(b, events[..|events| - 1]), events[|events| - 1])
  }

  lemma {:induction false} FeedSplit(b: Builder, one: seq<Event>, two: seq<Event>)
    ensures FeedAll(b, one + two) == FeedAll(FeedAll(b, one), two)
    decreases |two|
  {
    if two == [] {
      assert one + two == one;
    } else {
      var front, e := two[..|two| - 1], two[|two| - 1];
      FeedSplit(b, one, front);
      FrontOfConcat(one, two);
      assert FeedAll(b, one + two) == Feed(FeedAll(b, one + front), e);
    }
  }

  lemma FeedOne(b: Builder, e: Event)
    ensures FeedAll(b, [e]) == Feed(b, e)
  {
    assert [e][..0] == [];
    assert FeedAll(b, []) == b;
  }

  // ---------------------------------------------------------- values of trees

  /** The value a derivation denotes: among equal keys the last one wins. */
  function ValueOf(t: Tree): Json
    decreases t, 1
  {
    match t
    case Scalar(token) => if IsScalar(token) then ScalarValue(token) else Null
    case Elements(items, _) => Array(ItemValues(items))
    case Members(members, _) => Object(MemberValues(members))
  }

  function ItemValues(items: seq<Tree>): (r: seq<Json>)
    ensures |r| == |items|
    decreases items, 0
  {
    if items == [] then [] else ItemValues(items[..|items| - 1]) + [ValueOf(items[|items| - 1])]
  }

  function MemberValues(members: seq<Member>): map<string, Json>
    decreases members, 0
  {
    if members == [] then map[] else
      var m := members[|members| - 1];
      MemberValues(members[..|members| - 1])[m.key := ValueOf(m.value)]
  }

  /** Of members with the same key the last one counts, whatever stands between. */
  lemma {:induction false} LastMemberCounts(members: seq<Member>, i: nat)
    requires i < |members| && forall k :: i < k < |members| ==> members[k].key != members[i].key
    ensures var m := members[i]; m.key in MemberValues(members) && MemberValues(members)[m.key] == ValueOf(m.value)
    decreases |members|
  {
    if i < |members| - 1 {
      LastMemberCounts(members[..|members| - 1], i);
    }
  }

  lemma {:induction false} KeysAreMembers(members: seq<Member>, key: string)
    ensures key in MemberValues(members) <==> exists i :: 0 <= i < |members| && members[i].key == key
    decreases |members|
  {
    if members != [] {
      var front, last := members[..|members| - 1], members[|members| - 1];
      KeysAreMembers(front, key);
      FrontLast(members);
      if key in MemberValues(front) {
        var i :| 0 <= i < |front| && front[i].key == key;
        assert members[i].key == key;
      }
      if last.key == key {
        assert members[|members| - 1].key == key;
      }
    }
  }

  // -------------------------------------------------- feeding rebuilds values

  /** The builder expects a value and knows where to put it. */
  ghost predicate Expecting(b: Builder, p: Path) {
    && !b.fault && Target(b) == Some(p) && Reach(b.root, p)
    && (b.refStack != [] ==> (b.element.Some? <==> Top(b).Object?))
    && (b.refStack == [] ==> b.element.None?)
  }

  /** The builder after the value that goes to p has been placed. */
  function Placed(b: Builder, p: Path, v: Json): Builder
    requires Reach(b.root, p)
  {
    b.(root := Put(b.root, p, v), element := None)
  }

  /** The builder inside the container at p, which so far is c. */
  function Inside(b: Builder, p: Path, c: Json): Builder
    requires Reach(b.root, p)
  {
    b.(root := Put(b.root, p, c), element := None, refStack := b.refStack + [p])
  }

  lemma InsideTop(b: Builder, p: Path, c: Json)
    requires Reach(b.root, p)
    ensures Resolves(Inside(b, p, c)) && Top(Inside(b, p, c)) == c
    ensures Inside(b, p, c).refStack[..|b.refStack|] == b.refStack
  {
    GetPut(b.root, p, c, c);
  }

  /** Opening a container where a value is expected. */
  lemma Opens(b: Builder, p: Path, isArray: bool)
    requires Expecting(b, p)
    ensures Feed(b, if isArray then StartArray else StartObject)
      == Inside(b, p, if isArray then Array([]) else Object(map[]))
  {
  }

  /** Closing it leaves the finished container in its place. */
  lemma Closes(b: Builder, p: Path, c: Json)
    requires !b.fault && Reach(b.root, p) && (c.Array? || c.Object?)
    ensures Feed(Inside(b, p, c), if c.Array? then EndOfArray else EndOfObject) == Placed(b, p, c)
  {
    InsideTop(b, p, c);
  }

  /** A whole container: open it, feed the body, close it. */
  lemma FeedAround(b: Builder, p: Path, body: seq<Event>, c: Json)
    requires Expecting(b, p) && (c.Array? || c.Object?)
    requires FeedAll(Inside(b, p, if c.Array? then Array([]) else Object(map[])), body) == Inside(b, p, c)
    ensures FeedAll(b, [if c.Array? then StartArray else StartObject] + body
      + [if c.Array? then EndOfArray else EndOfObject])
      == Placed(b, p, c)
  {
    var open, close := if c.Array? then StartArray else StartObject, if c.Array? then EndOfArray else EndOfObject;
    FeedSplit(b, [open] + body, [close]);
    FeedSplit(b, [open], body);
    FeedOne(b, open);
    Opens(b, p, c.Array?);
    FeedOne(Inside(b, p, c), close);
    Closes(b, p, c);
  }

  lemma {:induction false} FeedTree(b: Builder, p: Path, t: Tree, trailingCommas: bool)
    requires Derivable(t, trailingCommas) && Expecting(b, p)
    ensures FeedAll(b, Events(t)) == Placed(b, p, ValueOf(t))
    decreases t, 1
  {
    match t
    case Scalar(token) => FeedOne(b, Value(ScalarValue(token)));
    case Elements(items, _) =>
      FeedItems(b, p, items, trailingCommas);
      FeedAround(b, p, ItemEvents(items), ValueOf(t));
    case Members(members, _) =>
      FeedMembers(b, p, members, trailingCommas);
      FeedAround(b, p, MemberEvents(members), ValueOf(t));
  }

  lemma {:induction false} FeedItems(b: Builder, p: Path, items: seq<Tree>, trailingCommas: bool)
    requires !b.fault && Reach(b.root, p) && forall i :: 0 <= i < |items| ==> Derivable(items[i], trailingCommas)
    ensures FeedAll(Inside(b, p, Array([])), ItemEvents(items)) == Inside(b, p, Array(ItemValues(items)))
    decreases items, 0
  {
    if items != [] {
      var front, t := items[..|items| - 1], items[|items| - 1];
      var done := ItemValues(front);
      FeedItems(b, p, front, trailingCommas);
      FeedSplit(Inside(b, p, Array([])), ItemEvents(front), Events(t));
      FeedItem(b, p, done, t, trailingCommas);
    }
  }

  lemma FeedItem(b: Builder, p: Path, done: seq<Json>, t: Tree, trailingCommas: bool)
    requires !b.fault && Reach(b.root, p) && Derivable(t, trailingCommas)
    ensures FeedAll(Inside(b, p, Array(done)), Events(t)) == Inside(b, p, Array(done + [ValueOf(t)]))
    decreases t, 2
  {
    var inside, q := Inside(b, p, Array(done)), p + [AtIndex(|done|)];
    InsideTop(b, p, Array(done));
    PutBelow(inside.root, p, AtIndex(|done|), ValueOf(t));
    FeedTree(inside, q, t, trailingCommas);
    GetPut(b.root, p, Array(done), Array(done + [ValueOf(t)]));
  }

  lemma {:induction false} FeedMembers(b: Builder, p: Path, members: seq<Member>, trailingCommas: bool)
    requires !b.fault && Reach(b.root, p) && forall i :: 0 <= i < |members| ==>
      Derivable(members[i].value, trailingCommas)
    ensures FeedAll(Inside(b, p, Object(map[])), MemberEvents(members)) == Inside(b, p, Object(MemberValues(members)))
    decreases members, 0
  {
    if members != [] {
      var front, m := members[..|members| - 1], members[|members| - 1];
      var done := MemberValues(front);
      FeedMembers(b, p, front, trailingCommas);
      FeedSplit(Inside(b, p, Object(map[])), MemberEvents(front), OneMemberEvents(m));
      FeedMember(b, p, done, m, trailingCommas);
    }
  }

  /** The entry that key makes is null at first, unless the key was there before. */
  function Entered(m: map<string, Json>, k: string): map<string, Json> {
    if k in m then m else m[k := Null]
  }

  lemma Keys(b: Builder, p: Path, done: map<string, Json>, k: string)
    requires !b.fault && Reach(b.root, p)
    ensures Feed(Inside(b, p, Object(done)), Key(k))
      == Inside(b, p, Object(Entered(done, k))).(element := Some(p + [AtKey(k)]))
  {
    InsideTop(b, p, Object(done));
    GetPut(b.root, p, Object(done), Object(Entered(done, k)));
  }

  /** Putting the value of a key where the last key event points. */
  lemma KeyedValue(b: Builder, p: Path, done: map<string, Json>, k: string, v: Json)
    requires !b.fault && Reach(b.root, p)
    ensures var keyed, q := Inside(b, p, Object(Entered(done, k))).(element := Some(p + [AtKey(k)])), p + [AtKey(k)];
      Expecting(keyed, q) && Placed(keyed, q, v) == Inside(b, p, Object(done[k := v]))
  {
    var entered := Entered(done, k);
    InsideTop(b, p, Object(entered));
    PutBelow(Inside(b, p, Object(entered)).root, p, AtKey(k), v);
    GetPut(b.root, p, Object(entered), Object(entered[k := v]));
    assert entered[k := v] == done[k := v];
  }

  lemma FeedMember(b: Builder, p: Path, done: map<string, Json>, m: Member, trailingCommas: bool)
    requires !b.fault && Reach(b.root, p) && Derivable(m.value, trailingCommas)
    ensures FeedAll(Inside(b, p, Object(done)), OneMemberEvents(m))
      == Inside(b, p, Object(done[m.key := ValueOf(m.value)]))
    decreases m, 2
  {
    var inside := Inside(b, p, Object(done));
    FeedSplit(inside, [Key(m.key)], Events(m.value));
    FeedOne(inside, Key(m.key));
    Keys(b, p, done, m.key);
    KeyedValue(b, p, done, m.key, ValueOf(m.value));
    FeedTree(Feed(inside, Key(m.key)), p + [AtKey(m.key)], m.value, trailingCommas);
  }

  /** Feeding the events of a derivation builds the value it denotes. */
  lemma FeedBuilds(t: Tree, trailingCommas: bool, initial: Json)
    requires Derivable(t, trailingCommas)
    ensures FeedAll(Init(initial), Events(t)) == Init(ValueOf(t))
  {
    FeedTree(Init(initial), [], t, trailingCommas);
  }

  // --------------------------------------------------- the stack of pointers

  /** Entry i is an open container, and entry i + 1 is the child it was last given. */
  ghost predicate Entry(b: Builder, i: nat)
    requires i < |b.refStack|
  {
    var p := b.refStack[i];
    && (i == 0 ==> p == [])
    && Reach(b.root, p)
    && var c := Get(b.root, p);
    && (c.Array? || c.Object?)
    && (i + 1 < |b.refStack| ==> exists sel :: NewestChild(c, sel) && b.refStack[i + 1] == p + [sel])
  }

  /** The last element of an array, or some member of an object. */
  predicate NewestChild(c: Json, sel: Selector) {
    match sel
    case AtIndex(i) => c.Array? && i + 1 == |c.elements|
    case AtKey(k) => c.Object? && k in c.members
  }

  /** The stack is the path from the root to the innermost open container, and the
      pointer that key left leads to a member of that container. */
  ghost predicate Chain(b: Builder) {
    && (forall i: nat :: i < |b.refStack| ==> Entry(b, i))
    && (b.element.Some? ==> Resolves(b) && exists k :: IsElement(b, k))
  }

  predicate IsElement(b: Builder, k: string)
    requires Resolves(b)
  {
    NewestChild(Top(b), AtKey(k)) && b.element == Some(b.refStack[|b.refStack| - 1] + [AtKey(k)])
  }

  /** Whether entry i is an array. */
  ghost predicate IsArrayEntry(b: Builder, i: nat)
    requires i < |b.refStack|
  {
    Reach(b.root, b.refStack[i]) && Get(b.root, b.refStack[i]).Array?
  }

  /** The entries both stacks have are of the same kind. */
  ghost predicate SameKinds(b: Builder, b': Builder) {
    forall i: nat :: i < |b.refStack| && i < |b'.refStack| ==> (IsArrayEntry(b', i) <==> IsArrayEntry(b, i))
  }

  function Length(j: Json): nat {
    if j.Array? then |j.elements| else 0
  }

  /** No array below the top entry becomes longer or shorter, so its elements stay where
      they are, and with them the containers that further entries point to. */
  ghost predicate LengthsKept(b: Builder, b': Builder) {
    forall i: nat :: i + 1 < |b.refStack| && i < |b'.refStack| ==> LengthKept(b, b', i)
  }

  ghost predicate LengthKept(b: Builder, b': Builder, i: nat)
    requires i < |b.refStack| && i < |b'.refStack|
  {
    var e := b.refStack[i];
    b'.refStack[i] == e && Reach(b.root, e) && Reach(b'.root, e) && Length(Get(b'.root, e)) == Length(Get(b.root, e))
  }

  /** No entry points below the innermost container, the only one that grows. */
  lemma {:induction false} EntriesAreAbove(b: Builder, i: nat)
    requires Chain(b) && i < |b.refStack|
    ensures b.refStack[i] <= b.refStack[|b.refStack| - 1]
    decreases |b.refStack| - i
  {
    if i + 1 < |b.refStack| {
      assert Entry(b, i);
      EntriesAreAbove(b, i + 1);
    }
  }

  /** Seen from a container on the way, a change further down is a change in it. */
  lemma {:induction false} GetThrough(j: Json, e: Path, rest: Path, v: Json)
    requires Reach(j, e + rest)
    ensures Reach(j, e) && Reach(Get(j, e), rest)
    ensures Reach(Put(j, e + rest, v), e) && Get(Put(j, e + rest, v), e) == Put(Get(j, e), rest, v)
    decreases |e|
  {
    if e == [] {
      assert e + rest == rest;
    } else {
      assert (e + rest)[0] == e[0] && (e + rest)[1..] == e[1..] + rest;
      GetThrough(KidAt(j, e[0]), e[1..], rest, v);
    }
  }

  /** A container whose newest child changes inside keeps it as its newest child. */
  lemma ChangedInside(c: Json, sel: Selector, rest: Path, v: Json)
    requires NewestChild(c, sel) && Reach(c, [sel] + rest)
    ensures var d := Put(c, [sel] + rest, v);
      (d.Array? == c.Array?) && (d.Object? == c.Object?) && NewestChild(d, sel) && Length(d) == Length(c)
  {
    assert ([sel] + rest)[1..] == rest;
  }

  /** Putting a value below the innermost container keeps the entries above it. */
  lemma EntryKept(b: Builder, i: nat, sel: Selector, v: Json, root': Json)
    requires Chain(b) && Resolves(b) && i + 1 < |b.refStack| && Slot(Top(b), sel)
    requires var q := b.refStack[|b.refStack| - 1] + [sel]; Reach(b.root, q) && root' == Put(b.root, q, v)
    ensures Reach(root', b.refStack[i])
    ensures var c := Get(root', b.refStack[i]);
      && (c.Array? || c.Object?) && (c.Array? <==> IsArrayEntry(b, i))
      && (exists s :: NewestChild(c, s) && b.refStack[i + 1] == b.refStack[i] + [s])
      && Reach(b.root, b.refStack[i]) && Length(c) == Length(Get(b.root, b.refStack[i]))
  {
    assert Entry(b, i);
    var e, top := b.refStack[i], b.refStack[|b.refStack| - 1];
    var c := Get(b.root, e);
    var s :| NewestChild(c, s) && b.refStack[i + 1] == e + [s];
    EntriesAreAbove(b, i + 1);
    var rest := top[|e| + 1..] + [sel];
    assert top + [sel] == e + ([s] + rest);
    GetThrough(b.root, e, [s] + rest, v);
    ChangedInside(c, s, rest, v);
  }

  /** The innermost container after a value has been put into it. */
  lemma TopKept(b: Builder, sel: Selector, v: Json, root': Json)
    requires Chain(b) && Resolves(b) && Slot(Top(b), sel)
    requires var q := b.refStack[|b.refStack| - 1] + [sel]; Reach(b.root, q) && root' == Put(b.root, q, v)
    ensures var top := b.refStack[|b.refStack| - 1];
      Reach(root', top) && Get(root', top) == PutKid(Top(b), sel, v)
      && Reach(root', top + [sel]) && Get(root', top + [sel]) == v
  {
    var top := b.refStack[|b.refStack| - 1];
    GetThrough(b.root, top, [sel], v);
    assert [sel][1..] == [];
    PutBelow(root', top, sel, v);
  }

  /** The selector of the place where the next value goes. */
  lemma TargetSelector(b: Builder) returns (sel: Selector)
    requires Chain(b) && b.refStack != [] && Target(b).Some?
    ensures Resolves(b) && Slot(Top(b), sel) && Target(b).value == b.refStack[|b.refStack| - 1] + [sel]
    ensures forall v :: NewestChild(PutKid(Top(b), sel, v), sel)
    ensures Reach(b.root, Target(b).value)
  {
    assert Entry(b, |b.refStack| - 1);
    var top := b.refStack[|b.refStack| - 1];
    if Top(b).Array? {
      sel := AtIndex(|Top(b).elements|);
    } else {
      var k :| IsElement(b, k);
      sel := AtKey(k);
    }
    PutBelow(b.root, top, sel, Null);
  }

  lemma HandleKeepsChain(b: Builder, v: Json)
    requires Chain(b) && !Handle(b, v).0.fault && !b.fault
    ensures Chain(Handle(b, v).0) && SameKinds(b, Handle(b, v).0)
    ensures v.Array? || v.Object? ==> Chain(Open(b, v)) && SameKinds(b, Open(b, v))
    ensures v.Array? || v.Object? ==>
      |Open(b, v).refStack| == |b.refStack| + 1 && Resolves(Open(b, v)) && Top(Open(b, v)) == v
  {
    var (next, p) := Handle(b, v);
    var after := Open(b, v);
    if b.refStack != [] {
      var n := |b.refStack|;
      var sel := TargetSelector(b);
      TopKept(b, sel, v, next.root);
      forall i: nat | i < n ensures Entry(next, i) && (IsArrayEntry(next, i) <==> IsArrayEntry(b, i)) {
        assert Entry(b, i);
        if i + 1 < n {
          EntryKept(b, i, sel, v, next.root);
        }
      }
      if v.Array? || v.Object? {
        forall i: nat | i < n + 1 ensures Entry(after, i)
          && (i < n ==> (IsArrayEntry(after, i) <==> IsArrayEntry(b, i))) {
          if i < n {
            assert Entry(next, i) && (IsArrayEntry(next, i) <==> IsArrayEntry(b, i));
          }
        }
      }
    } else if v.Array? || v.Object? {
      assert after.refStack == [[]];
      assert Entry(after, 0);
    }
  }

  lemma KeyKeepsChain(b: Builder, k: string)
    requires Chain(b) && !b.fault && !Feed(b, Key(k)).fault
    ensures Chain(Feed(b, Key(k))) && SameKinds(b, Feed(b, Key(k)))
  {
    var next, n := Feed(b, Key(k)), |b.refStack|;
    var top, m := b.refStack[n - 1], Top(b).members;
    GetPut(b.root, top, Object(Entered(m, k)), Null);
    forall i: nat | i < n ensures Entry(next, i) && (IsArrayEntry(next, i) <==> IsArrayEntry(b, i)) {
      assert Entry(b, i);
      if i + 1 < n {
        var e := b.refStack[i];
        var s :| NewestChild(Get(b.root, e), s) && b.refStack[i + 1] == e + [s];
        EntriesAreAbove(b, i + 1);
        var rest := top[|e| + 1..];
        assert top == e + ([s] + rest);
        GetThrough(b.root, e, [s] + rest, Object(Entered(m, k)));
        ChangedInside(Get(b.root, e), s, rest, Object(Entered(m, k)));
      }
    }
    assert IsElement(next, k);
  }

  /** After every event the stack is the path to the innermost open container, and what
      its other entries point into has not moved. */
  lemma FeedKeepsChain(b: Builder, e: Event)
    requires Chain(b) && !b.fault && !Feed(b, e).fault && (e.Value? ==> IsPlain(e.v))
    ensures Chain(Feed(b, e)) && SameKinds(b, Feed(b, e)) && LengthsKept(b, Feed(b, e))
  {
    FeedKeepsLengths(b, e);
    match e
    case Value(v) => HandleKeepsChain(b, v);
    case StartObject => HandleKeepsChain(b, Object(map[]));
    case StartArray => HandleKeepsChain(b, Array([]));
    case Key(k) => KeyKeepsChain(b, k);
    case Error(_) => ChainOfEntries(b, Feed(b, e));
    case _ => CloseKeepsChain(b, e.EndOfArray?);
  }

  lemma FeedKeepsLengths(b: Builder, e: Event)
    requires Chain(b) && !b.fault && !Feed(b, e).fault
    ensures LengthsKept(b, Feed(b, e))
  {
    var next := Feed(b, e);
    forall i: nat | i + 1 < |b.refStack| && i < |next.refStack| ensures LengthKept(b, next, i) {
      assert Entry(b, i);
      match e
      case Value(v) => HandleKeepsLength(b, v, i);
      case StartObject => HandleKeepsLength(b, Object(map[]), i);
      case StartArray => HandleKeepsLength(b, Array([]), i);
      case Key(k) => KeyKeepsLength(b, k, i);
      case _ =>
    }
  }

  lemma HandleKeepsLength(b: Builder, v: Json, i: nat)
    requires Chain(b) && !b.fault && !Handle(b, v).0.fault && i + 1 < |b.refStack|
    ensures LengthKept(b, Handle(b, v).0, i) && LengthKept(b, Open(b, v), i)
  {
    var sel := TargetSelector(b);
    EntryKept(b, i, sel, v, Handle(b, v).0.root);
  }

  /** The change that key makes is inside the top, so below it nothing else changes. */
  lemma KeyKeepsLength(b: Builder, k: string, i: nat)
    requires Chain(b) && !b.fault && !Feed(b, Key(k)).fault && i + 1 < |b.refStack|
    ensures LengthKept(b, Feed(b, Key(k)), i)
  {
    var top := b.refStack[|b.refStack| - 1];
    var v := Object(Entered(Top(b).members, k));
    assert Entry(b, i);
    var e := b.refStack[i];
    var s :| NewestChild(Get(b.root, e), s) && b.refStack[i + 1] == e + [s];
    EntriesAreAbove(b, i + 1);
    var rest := top[|e| + 1..];
    assert top == e + ([s] + rest);
    GetThrough(b.root, e, [s] + rest, v);
    ChangedInside(Get(b.root, e), s, rest, v);
  }

  lemma ChainOfEntries(b: Builder, next: Builder)
    requires Chain(b) && next == b.(errored := true)
    ensures Chain(next) && SameKinds(b, next)
  {
    forall i: nat | i < |b.refStack| ensures Entry(next, i) {
      assert Entry(b, i);
    }
    if k :| b.element.Some? && IsElement(b, k) {
      assert IsElement(next, k);
    }
  }

  lemma CloseKeepsChain(b: Builder, isArray: bool)
    requires Chain(b) && !b.fault && !Close(b, isArray).fault
    ensures Chain(Close(b, isArray)) && SameKinds(b, Close(b, isArray))
  {
    var next := Close(b, isArray);
    forall i: nat | i < |next.refStack| ensures Entry(next, i) {
      assert Entry(b, i);
    }
  }

  predicate IsPlain(v: Json) {
    !v.Array? && !v.Object?
  }
}
