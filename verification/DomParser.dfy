/** The value-building consumer as a class, and what the parser guarantees it: on no
    input, well-formed or not, does one of its assertions fail. */
module DomParsers {
  import opened Sequences
  import opened Jsons
  import opened StringOrder
  import opened Grammar
  import opened Parser
  import opened Dom

  // --------------------------------------------- one event at a time

  /** The builder is sound, and its stack has the kinds the parser remembers. */
  ghost predicate Kinds(b: Builder, states: seq<bool>) {
    && !b.fault && Chain(b) && |b.refStack| == |states|
    && forall i: nat :: i < |states| ==> (states[i] <==> IsArrayEntry(b, i))
  }

  /** The builder can take a value. */
  ghost predicate Awaiting(b: Builder) {
    Target(b).Some? && (b.refStack == [] ==> b.element.None?)
  }

  lemma TopKind(b: Builder, states: seq<bool>)
    requires Kinds(b, states) && states != []
    ensures Resolves(b) && (states[|states| - 1] <==> Top(b).Array?) && (!states[|states| - 1] <==> Top(b).Object?)
  {
    assert Entry(b, |states| - 1);
    assert IsArrayEntry(b, |states| - 1) <==> states[|states| - 1];
  }

  lemma TargetReached(b: Builder)
    requires Chain(b) && Awaiting(b)
    ensures Reach(b.root, Target(b).value)
  {
    if b.refStack != [] {
      var sel := TargetSelector(b);
    }
  }

  lemma ValueKinds(b: Builder, states: seq<bool>, v: Json)
    requires Kinds(b, states) && Awaiting(b) && IsPlain(v)
    ensures Kinds(Feed(b, Value(v)), states) && Feed(b, Value(v)).element.None?
  {
    TargetReached(b);
    HandleKeepsChain(b, v);
    var next := Feed(b, Value(v));
    forall i: nat | i < |states| ensures states[i] <==> IsArrayEntry(next, i) {
      assert states[i] <==> IsArrayEntry(b, i);
    }
  }

  lemma OpenKinds(b: Builder, states: seq<bool>, isArray: bool)
    requires Kinds(b, states) && Awaiting(b)
    ensures var next := Feed(b, if isArray then StartArray else StartObject);
      Kinds(next, states + [isArray]) && next.element.None?
  {
    TargetReached(b);
    var v := if isArray then Array([]) else Object(map[]);
    HandleKeepsChain(b, v);
    var next := Dom.Open(b, v);
    forall i: nat | i < |states| + 1 ensures (states + [isArray])[i] <==> IsArrayEntry(next, i) {
      if i < |states| {
        assert states[i] <==> IsArrayEntry(b, i);
      }
    }
  }

  lemma CloseKinds(b: Builder, states: seq<bool>)
    requires Kinds(b, states) && states != []
    ensures var next := Feed(b, if states[|states| - 1] then EndOfArray else EndOfObject);
      Kinds(next, states[..|states| - 1]) && next.element.None?
  {
    TopKind(b, states);
    CloseKeepsChain(b, states[|states| - 1]);
    var next := Close(b, states[|states| - 1]);
    forall i: nat | i < |states| - 1 ensures states[..|states| - 1][i] <==> IsArrayEntry(next, i) {
      assert states[i] <==> IsArrayEntry(b, i);
    }
  }

  lemma KeyKinds(b: Builder, states: seq<bool>, k: string)
    requires Kinds(b, states) && states != [] && !states[|states| - 1]
    ensures Kinds(Feed(b, Key(k)), states) && Awaiting(Feed(b, Key(k)))
  {
    TopKind(b, states);
    KeyKeepsChain(b, k);
    var next := Feed(b, Key(k));
    forall i: nat | i < |states| ensures states[i] <==> IsArrayEntry(next, i) {
      assert states[i] <==> IsArrayEntry(b, i);
    }
    TopKind(next, states);
  }

  lemma ErrorKinds(b: Builder, states: seq<bool>, id: int)
    requires Kinds(b, states)
    ensures Kinds(Feed(b, Error(id)), states)
  {
    var next := Feed(b, Error(id));
    ChainOfEntries(b, next);
    forall i: nat | i < |states| ensures states[i] <==> IsArrayEntry(next, i) {
      assert states[i] <==> IsArrayEntry(b, i);
    }
  }

  lemma ArrayAwaits(b: Builder, states: seq<bool>)
    requires Kinds(b, states) && states != [] && states[|states| - 1]
    ensures Awaiting(b)
  {
    TopKind(b, states);
  }

  lemma FeedNext(b: Builder, events: seq<Event>, e: Event)
    ensures FeedAll(b, events + [e]) == Feed(FeedAll(b, events), e)
  {
    Parts(events, [e]);
  }

  // ------------------------------------------------------ along the parser

  /** The builder after the parser's events, as the parser's state says it is. */
  ghost predicate Linked(start: Builder, c: Config) {
    var b := FeedAll(start, c.events);
    Kinds(b, c.states) && (!c.evaluate ==> Awaiting(b))
  }

  /** The same after a step; at the end nothing is open if the text was accepted. */
  ghost predicate LinkedResult(start: Builder, r: StepResult) {
    if r.Continue? then Linked(start, r.c)
    else !FeedAll(start, r.r.events).fault && (r.r.Accepted? ==> FeedAll(start, r.r.events).refStack == [])
  }

  lemma LinkedError(start: Builder, at: nat, states: seq<bool>, events: seq<Event>, id: int)
    requires Kinds(FeedAll(start, events), states)
    ensures LinkedResult(start, Fail(at, events, id))
  {
    FeedNext(start, events, Error(id));
    ErrorKinds(FeedAll(start, events), states, id);
  }

  lemma LinkedKey(start: Builder, at: nat, states: seq<bool>, events: seq<Event>, k: string)
    requires Kinds(FeedAll(start, events), states) && states != [] && !states[|states| - 1]
    ensures Linked(start, Config(at, states, events + [Key(k)], false))
  {
    FeedNext(start, events, Key(k));
    KeyKinds(FeedAll(start, events), states, k);
  }

  lemma LinkedMember(start: Builder, tokens: seq<Token>, at: nat, states: seq<bool>, events: seq<Event>)
    requires Kinds(FeedAll(start, events), states) && states != [] && !states[|states| - 1]
    ensures LinkedResult(start, StepMember(tokens, at, states, events))
  {
    if Peek(tokens, at).ValueString? {
      var k := Peek(tokens, at).s;
      LinkedKey(start, at + 2, states, events, k);
      LinkedError(start, at + 1, states, events + [Key(k)], 101);
    } else {
      LinkedError(start, at, states, events, 101);
    }
  }

  lemma LinkedScalar(start: Builder, c: Config, v: Json)
    requires Linked(start, c) && !c.evaluate && IsPlain(v)
    ensures Linked(start, Config(c.at, c.states, c.events + [Value(v)], true))
  {
    FeedNext(start, c.events, Value(v));
    ValueKinds(FeedAll(start, c.events), c.states, v);
  }

  lemma LinkedStart(start: Builder, c: Config, at: nat, isArray: bool)
    requires Linked(start, c) && !c.evaluate
    ensures Kinds(FeedAll(start, c.events + [OpenEvent(isArray)]), c.states + [isArray])
    ensures isArray ==> Linked(start, Config(at, c.states + [isArray], c.events + [OpenEvent(isArray)], false))
  {
    FeedNext(start, c.events, OpenEvent(isArray));
    OpenKinds(FeedAll(start, c.events), c.states, isArray);
    if isArray {
      ArrayAwaits(FeedAll(start, c.events + [OpenEvent(isArray)]), c.states + [isArray]);
    }
  }

  lemma LinkedEnd(start: Builder, at: nat, states: seq<bool>, events: seq<Event>)
    requires Kinds(FeedAll(start, events), states) && states != []
    ensures Linked(start, Config(at, states[..|states| - 1], events + [CloseEvent(states[|states| - 1])], true))
  {
    FeedNext(start, events, CloseEvent(states[|states| - 1]));
    CloseKinds(FeedAll(start, events), states);
  }

  lemma LinkedEmpty(start: Builder, c: Config, isArray: bool)
    requires Linked(start, c) && !c.evaluate
    ensures Linked(start, Config(c.at + 1, c.states, c.events + [OpenEvent(isArray)] + [CloseEvent(isArray)], true))
  {
    LinkedStart(start, c, c.at + 1, isArray);
    LinkedEnd(start, c.at + 1, c.states + [isArray], c.events + [OpenEvent(isArray)]);
    Parts(c.states, [isArray]);
  }

  /** What a step does at the beginning of an array or object. */
  lemma OpeningStep(tokens: seq<Token>, c: Config, isArray: bool)
    requires Peek(tokens, c.at) == if isArray then BeginArray else BeginObject
    ensures StepValue(tokens, c) ==
      if Peek(tokens, c.at + 1) == CloseToken(isArray) then
        Continue(Config(c.at + 1, c.states, c.events + [OpenEvent(isArray)] + [CloseEvent(isArray)], true))
      else if isArray then Continue(Config(c.at + 1, c.states + [true], c.events + [OpenEvent(true)], false))
      else StepMember(tokens, c.at + 1, c.states + [false], c.events + [OpenEvent(false)])
  {
  }

  lemma LinkedContinues(start: Builder, r: StepResult, c: Config)
    requires r == Continue(c) && Linked(start, c)
    ensures LinkedResult(start, r)
  {
  }

  lemma LinkedArray(start: Builder, tokens: seq<Token>, c: Config)
    requires Linked(start, c) && !c.evaluate && Peek(tokens, c.at) == BeginArray
    ensures LinkedResult(start, StepValue(tokens, c))
  {
    var r := StepValue(tokens, c);
    OpeningStep(tokens, c, true);
    if Peek(tokens, c.at + 1) == EndArray {
      LinkedEmpty(start, c, true);
    } else {
      LinkedStart(start, c, c.at + 1, true);
    }
    LinkedContinues(start, r, r.c);
  }

  lemma LinkedObject(start: Builder, tokens: seq<Token>, c: Config)
    requires Linked(start, c) && !c.evaluate && Peek(tokens, c.at) == BeginObject
    ensures LinkedResult(start, StepValue(tokens, c))
  {
    OpeningStep(tokens, c, false);
    if Peek(tokens, c.at + 1) == EndObject {
      var r := StepValue(tokens, c);
      LinkedEmpty(start, c, false);
      LinkedContinues(start, r, r.c);
    } else {
      LinkedFirstMember(start, tokens, c);
    }
  }

  lemma LinkedFirstMember(start: Builder, tokens: seq<Token>, c: Config)
    requires Linked(start, c) && !c.evaluate
    ensures LinkedResult(start, StepMember(tokens, c.at + 1, c.states + [false], c.events + [OpenEvent(false)]))
  {
    var states, events := c.states + [false], c.events + [OpenEvent(false)];
    LinkedStart(start, c, c.at + 1, false);
    LinkedMember(start, tokens, c.at + 1, states, events);
  }

  lemma LinkedValue(start: Builder, tokens: seq<Token>, c: Config)
    requires Linked(start, c) && !c.evaluate
    ensures LinkedResult(start, StepValue(tokens, c))
  {
    var token := Peek(tokens, c.at);
    if token == BeginArray {
      LinkedArray(start, tokens, c);
    } else if token == BeginObject {
      LinkedObject(start, tokens, c);
    } else if IsScalar(token) && (token.ValueFloat? ==> token.x.Finite?) {
      LinkedScalar(start, c, ScalarValue(token));
    } else {
      LinkedError(start, c.at, c.states, c.events, if token.ValueFloat? then 406 else 101);
    }
  }

  lemma LinkedEvaluate(start: Builder, tokens: seq<Token>, trailingCommas: bool, c: Config)
    requires Linked(start, c) && c.evaluate
    ensures LinkedResult(start, StepEvaluate(tokens, trailingCommas, c))
  {
    if c.states == [] {
      LinkedDone(start, tokens, trailingCommas, c);
      return;
    }
    var comma, isArray := Peek(tokens, c.at + 1) == ValueSeparator, c.states[|c.states| - 1];
    var at := if comma then c.at + 2 else c.at + 1;
    EvaluatingStep(tokens, trailingCommas, c, comma, isArray, at);
    if !comma || (trailingCommas && Peek(tokens, at) == CloseToken(isArray)) {
      LinkedClose(start, tokens, c, at);
    } else if isArray {
      LinkedNextElement(start, c, at);
    } else {
      LinkedMember(start, tokens, at, c.states, c.events);
    }
  }

  lemma LinkedDone(start: Builder, tokens: seq<Token>, trailingCommas: bool, c: Config)
    requires Linked(start, c) && c.states == []
    ensures LinkedResult(start, StepEvaluate(tokens, trailingCommas, c))
  {
  }

  /** What a step does after a value inside a container. */
  lemma EvaluatingStep(tokens: seq<Token>, trailingCommas: bool, c: Config, comma: bool, isArray: bool, at: nat)
    requires c.states != [] && isArray == c.states[|c.states| - 1]
    requires comma == (Peek(tokens, c.at + 1) == ValueSeparator) && at == if comma then c.at + 2 else c.at + 1
    ensures StepEvaluate(tokens, trailingCommas, c) ==
      if !comma || (trailingCommas && Peek(tokens, at) == CloseToken(isArray)) then
        StepClose(tokens, c, at, CloseToken(isArray), CloseEvent(isArray))
      else if isArray then Continue(Config(at, c.states, c.events, false))
      else StepMember(tokens, at, c.states, c.events)
  {
  }

  lemma LinkedClose(start: Builder, tokens: seq<Token>, c: Config, at: nat)
    requires Linked(start, c) && c.states != []
    ensures var isArray := c.states[|c.states| - 1];
      LinkedResult(start, StepClose(tokens, c, at, CloseToken(isArray), CloseEvent(isArray)))
  {
    LinkedEnd(start, at, c.states, c.events);
    LinkedError(start, at, c.states, c.events, 101);
  }

  lemma LinkedNextElement(start: Builder, c: Config, at: nat)
    requires Linked(start, c) && c.states != [] && c.states[|c.states| - 1]
    ensures LinkedResult(start, Continue(Config(at, c.states, c.events, false)))
  {
    ArrayAwaits(FeedAll(start, c.events), c.states);
  }

  lemma {:induction false} NoFault(start: Builder, tokens: seq<Token>, trailingCommas: bool, c: Config)
    requires c.at <= |tokens| && Linked(start, c)
    ensures var r := Run(tokens, trailingCommas, c);
      !FeedAll(start, r.events).fault && (r.Accepted? ==> FeedAll(start, r.events).refStack == [])
    decreases |tokens| - c.at, !c.evaluate
  {
    if c.evaluate {
      LinkedEvaluate(start, tokens, trailingCommas, c);
    } else {
      LinkedValue(start, tokens, c);
    }
    var r := Step(tokens, trailingCommas, c);
    if r.Continue? {
      NoFault(start, tokens, trailingCommas, r.c);
    }
  }

  lemma LinkedInit(initial: Json)
    ensures Linked(Init(initial), Config(0, [], [], false))
  {
    assert FeedAll(Init(initial), []) == Init(initial);
  }

  /** Whatever the input, the consumer never meets a call it does not expect. */
  lemma ConsumerIsSafe(initial: Json, tokens: seq<Token>, trailingCommas: bool, strict: bool)
    ensures !FeedAll(Init(initial), Reported(tokens, trailingCommas, strict)).fault
  {
    LinkedInit(initial);
    NoFault(Init(initial), tokens, trailingCommas, Config(0, [], [], false));
    var r := Parse(tokens, trailingCommas);
    FeedNext(Init(initial), r.events, Error(101));
  }

  // --------------------------------------------------------------- the class

  /** json_sax_dom_parser, with exceptions turned off. */
  class DomParser {
    var root: Json
    var refStack: seq<Path>
    var objectElement: Path
    var errored: bool
    ghost var known: bool

    constructor (r: Json)
      ensures State() == Init(r)
    {
      root, refStack, objectElement, errored, known := r, [], [], false, false;
    }

    ghost function State(): Builder
      reads this
    {
      Builder(root, refStack, if known then Some(objectElement) else None, errored, false)
    }

    method HandleValue(v: Json) returns (p: Path)
      requires !Handle(State(), v).0.fault
      modifies this
      ensures (State(), p) == Handle(old(State()), v)
    {
      p := [];
      if refStack == [] {
        root := v;
      } else {
        var top := refStack[|refStack| - 1];
        var container := Get(root, top);
        if container.Array? {
          p := top + [AtIndex(|container.elements|)];
        } else {
          p := objectElement;
        }
        root := Put(root, p, v);
      }
      known := false;
    }

    method Start(isArray: bool)
      requires !Feed(State(), OpenEvent(isArray)).fault
      modifies this
      ensures State() == Feed(old(State()), OpenEvent(isArray))
    {
      var p := HandleValue(if isArray then Array([]) else Object(map[]));
      refStack := refStack + [p];
    }

    /** Adds a null member, unless there is one, and remembers where it is. */
    method Key(k: string)
      requires !Feed(State(), Event.Key(k)).fault
      modifies this
      ensures State() == Feed(old(State()), Event.Key(k))
    {
      var top := refStack[|refStack| - 1];
      var m := Get(root, top).members;
      if k !in m {
        root := Put(root, top, Object(m[k := Null]));
      } else {
        PutSame(root, top);
      }
      objectElement := top + [AtKey(k)];
      known := true;
    }

    method End(isArray: bool)
      requires !Feed(State(), CloseEvent(isArray)).fault
      modifies this
      ensures State() == Feed(old(State()), CloseEvent(isArray))
    {
      refStack := refStack[..|refStack| - 1];
      known := false;
    }

    method ParseError()
      modifies this
      ensures State() == old(State()).(errored := true)
    {
      errored := true;
    }

    method Take(e: Event)
      requires !Feed(State(), e).fault
      modifies this
      ensures State() == Feed(old(State()), e)
    {
      match e {
        case Value(v) =>
          var p := HandleValue(v);
        case StartObject => Start(false);
        case StartArray => Start(true);
        case Key(k) => Key(k);
        case EndOfObject => End(false);
        case EndOfArray => End(true);
        case Error(_) => ParseError();
      }
    }

    method TakeAll(events: seq<Event>)
      requires !FeedAll(State(), events).fault
      modifies this
      ensures State() == FeedAll(old(State()), events)
    {
      ghost var start := State();
      for i := 0 to |events|
        invariant State() == FeedAll(start, events[..i])
      {
        FaultStays(start, events, i + 1);
        assert events[..i + 1][..i] == events[..i];
        Take(events[i]);
      }
      assert events[..|events|] == events;
    }
  }

  lemma {:induction false} PutSame(j: Json, p: Path)
    requires Reach(j, p) && Get(j, p).Object?
    ensures Put(j, p, Get(j, p)) == j
    decreases |p|
  {
    if p != [] {
      PutSame(KidAt(j, p[0]), p[1..]);
      match p[0]
      case AtKey(k) => assert k in j.members && j.members[k := j.members[k]] == j.members;
      case AtIndex(i) => assert i < |j.elements| && j.elements[i := j.elements[i]] == j.elements;
    }
  }

  lemma {:induction false} FaultStays(b: Builder, events: seq<Event>, n: nat)
    requires n <= |events| && !FeedAll(b, events).fault
    ensures !FeedAll(b, events[..n]).fault
    decreases |events| - n
  {
    if n == |events| {
      assert events[..n] == events;
    } else {
      FaultStays(b, events, n + 1);
      assert events[..n + 1][..n] == events[..n];
      OneFaultStays(FeedAll(b, events[..n]), events[n]);
    }
  }

  lemma OneFaultStays(b: Builder, e: Event)
    ensures b.fault ==> Feed(b, e).fault
  {
  }

  /** parse: the value of the text, or a discarded value if there is none. */
  method ParseText(tokens: seq<Token>, ignoreTrailingCommas: bool, strict: bool, result0: Json) returns (result: Json)
    ensures !Accepts(tokens, ignoreTrailingCommas, strict) ==> result == Discarded
    ensures forall t :: BeginsWith(tokens, ignoreTrailingCommas, t) && Accepts(tokens, ignoreTrailingCommas, strict) ==>
      result == ValueOf(t)
  {
    var sdp := new DomParser(result0);
    var heard := SaxParse(tokens, ignoreTrailingCommas, strict, StopsAtErrors);
    ErrorsOnly(tokens, ignoreTrailingCommas, strict);
    ConsumerIsSafe(result0, tokens, ignoreTrailingCommas, strict);
    sdp.TakeAll(heard.events);
    if !heard.ok {
      return Discarded;
    }
    forall t | BeginsWith(tokens, ignoreTrailingCommas, t) ensures sdp.root == ValueOf(t) {
      ParseComplete(tokens, ignoreTrailingCommas, t);
      FeedBuilds(t, ignoreTrailingCommas, result0);
    }
    return sdp.root;
  }

  // ----------------------------------------------- every value has its events

  /** A derivation of a value, members in key order. */
  function TreeOf(j: Json): Tree
    decreases j, 1
  {
    match j
    case Boolean(b) => Scalar(if b then LiteralTrue else LiteralFalse)
    case Integer(i) => Scalar(ValueInteger(i))
    case Unsigned(u) => Scalar(ValueUnsigned(u))
    case Floating(x) => Scalar(ValueFloat(x))
    case Str(s) => Scalar(ValueString(s))
    case Array(a) => Elements(seq(|a|, i requires 0 <= i < |a| => TreeOf(a[i])), false)
    case Object(m) => Members(MembersOf(j, SortedKeys(m.Keys)), false)
    case _ => Scalar(LiteralNull)
  }

  function MembersOf(j: Json, keys: seq<string>): (r: seq<Member>)
    requires j.Object? && forall k :: k in keys ==> k in j.members
    ensures |r| == |keys| && forall i :: 0 <= i < |r| ==> r[i] == Member(keys[i], TreeOf(j.members[keys[i]]))
    decreases j, 0, |keys|
  {
    if keys == [] then [] else
      MembersOf(j, keys[..|keys| - 1]) + [Member(keys[|keys| - 1], TreeOf(j.members[keys[|keys| - 1]]))]
  }

  /** What JSON text can express: no binary or discarded values, finite numbers. */
  predicate Expressible(j: Json) {
    match j
    case Floating(x) => x.Finite?
    case Binary(_, _) => false
    case Discarded => false
    case Array(a) => forall i :: 0 <= i < |a| ==> Expressible(a[i])
    case Object(m) => forall k :: k in m ==> Expressible(m[k])
    case _ => true
  }

  lemma {:induction false} TreeOfValue(j: Json)
    requires Expressible(j)
    ensures Derivable(TreeOf(j), false) && ValueOf(TreeOf(j)) == j
    decreases j, 1
  {
    match j
    case Array(a) =>
      forall i | 0 <= i < |a| ensures Derivable(TreeOf(a[i]), false) && ValueOf(TreeOf(a[i])) == a[i] {
        TreeOfValue(a[i]);
      }
      ItemValuesAt(TreeOf(j).items, a);
    case Object(m) =>
      forall k | k in m ensures Derivable(TreeOf(m[k]), false) && ValueOf(TreeOf(m[k])) == m[k] { TreeOfValue(m[k]); }
      var keys := SortedKeys(m.Keys);
      MemberValuesOf(j, keys);
      assert MemberValues(MembersOf(j, keys)) == m;
    case _ =>
  }

  lemma {:induction false} ItemValuesAt(items: seq<Tree>, values: seq<Json>)
    requires |items| == |values| && forall i :: 0 <= i < |items| ==> ValueOf(items[i]) == values[i]
    ensures ItemValues(items) == values
  {
    if items != [] {
      ItemValuesAt(items[..|items| - 1], values[..|values| - 1]);
    }
  }

  lemma {:induction false} MemberValuesOf(j: Json, keys: seq<string>)
    requires j.Object? && forall k :: k in keys ==> k in j.members && ValueOf(TreeOf(j.members[k])) == j.members[k]
    ensures MemberValues(MembersOf(j, keys)) == map k | k in keys :: j.members[k]
    decreases |keys|
  {
    if keys != [] {
      var front, k := keys[..|keys| - 1], keys[|keys| - 1];
      MemberValuesOf(j, front);
      LastMember(MembersOf(j, front), Member(k, TreeOf(j.members[k])));
      OneMoreKey(j.members, keys);
    }
  }

  lemma OneMoreKey(m: map<string, Json>, keys: seq<string>)
    requires keys != [] && forall k :: k in keys ==> k in m
    ensures var front, k := keys[..|keys| - 1], keys[|keys| - 1];
      (map x | x in front :: m[x])[k := m[k]] == map x | x in keys :: m[x]
  {
    FrontLast(keys);
  }

  lemma LastMember(members: seq<Member>, m: Member)
    ensures MemberValues(members + [m]) == MemberValues(members)[m.key := ValueOf(m.value)]
  {
    Parts(members, [m]);
  }

  /** Reporting any expressible value rebuilds it. */
  lemma ReportRebuilds(j: Json, initial: Json)
    requires Expressible(j)
    ensures FeedAll(Init(initial), Events(TreeOf(j))) == Init(j)
  {
    TreeOfValue(j);
    FeedBuilds(TreeOf(j), false, initial);
  }
}
