/** The parser: a loop with an explicit stack of bits that accepts exactly what the
    recursive grammar derives. */
module Parser {
  import opened Sequences
  import opened Jsons
  import opened Grammar

  /** The lexer reports the end of the input again and again. */
  function Peek(tokens: seq<Token>, i: nat): Token {
    if i < |tokens| then tokens[i] else EndOfInput
  }

  /** The loop state: the index of the last token, the stack (true for an array), the
      calls made so far, and whether a value has just been completed. */
  datatype Config = Config(at: nat, states: seq<bool>, events: seq<Event>, evaluate: bool)

  datatype Outcome = Accepted(at: nat, events: seq<Event>) | Rejected(at: nat, events: seq<Event>)

  datatype StepResult = Continue(c: Config) | Stop(r: Outcome)

  function Fail(at: nat, events: seq<Event>, id: int): StepResult {
    Stop(Rejected(at, events + [Error(id)]))
  }

  /** Key and colon after an opening brace or a comma; at is where the key should be. */
  function StepMember(tokens: seq<Token>, at: nat, states: seq<bool>, events: seq<Event>): StepResult {
    if !Peek(tokens, at).ValueString? then Fail(at, events, 101)
    else
      var keyed := events + [Key(Peek(tokens, at).s)];
      if Peek(tokens, at + 1) != NameSeparator then Fail(at + 1, keyed, 101)
      else Continue(Config(at + 2, states, keyed, false))
  }

  function StepValue(tokens: seq<Token>, c: Config): StepResult {
    match Peek(tokens, c.at)
    case BeginObject =>
      var started := c.events + [StartObject];
      if Peek(tokens, c.at + 1) == EndObject then
        Continue(Config(c.at + 1, c.states, started + [EndOfObject], true))
      else StepMember(tokens, c.at + 1, c.states + [false], started)
    case BeginArray =>
      var started := c.events + [StartArray];
      if Peek(tokens, c.at + 1) == EndArray then
        Continue(Config(c.at + 1, c.states, started + [EndOfArray], true))
      else Continue(Config(c.at + 1, c.states + [true], started, false))
    case ValueFloat(x) =>
      if !x.Finite? then Fail(c.at, c.events, 406)
      else Continue(Config(c.at, c.states, c.events + [Value(Floating(x))], true))
    case token =>
      if IsScalar(token) then Continue(Config(c.at, c.states, c.events + [Value(ScalarValue(token))], true))
      else Fail(c.at, c.events, 101)
  }

  /** A closing bracket or brace completes the innermost value. */
  function StepClose(tokens: seq<Token>, c: Config, at: nat, close: Token, event: Event): StepResult
    requires c.states != []
  {
    if Peek(tokens, at) == close then
      Continue(Config(at, c.states[..|c.states| - 1], c.events + [event], true))
    else Fail(at, c.events, 101)
  }

  function StepEvaluate(tokens: seq<Token>, trailingCommas: bool, c: Config): StepResult {
    if c.states == [] then Stop(Accepted(c.at, c.events))
    else
      var comma := Peek(tokens, c.at + 1) == ValueSeparator;
      var at := if comma then c.at + 2 else c.at + 1;
      if c.states[|c.states| - 1] then
        if comma && !(trailingCommas && Peek(tokens, at) == EndArray) then
          Continue(Config(at, c.states, c.events, false))
        else StepClose(tokens, c, at, EndArray, EndOfArray)
      else
        if comma && !(trailingCommas && Peek(tokens, at) == EndObject) then
          StepMember(tokens, at, c.states, c.events)
        else StepClose(tokens, c, at, EndObject, EndOfObject)
  }

  function Step(tokens: seq<Token>, trailingCommas: bool, c: Config): (r: StepResult)
    requires c.at <= |tokens|
    ensures r.Continue? ==> c.at <= r.c.at <= |tokens| && (r.c.at == c.at ==> r.c.evaluate && !c.evaluate)
  {
    if c.evaluate then StepEvaluate(tokens, trailingCommas, c) else StepValue(tokens, c)
  }

  /** Runs to the end, on every token stream. */
  function Run(tokens: seq<Token>, trailingCommas: bool, c: Config): Outcome
    requires c.at <= |tokens|
    decreases |tokens| - c.at, !c.evaluate
  {
    match Step(tokens, trailingCommas, c)
    case Continue(next) => Run(tokens, trailingCommas, next)
    case Stop(r) => r
  }

  function Parse(tokens: seq<Token>, trailingCommas: bool): Outcome {
    Run(tokens, trailingCommas, Config(0, [], [], false))
  }

  // ------------------------------------------------------------- completeness

  /** The loop gets from c to d. */
  ghost predicate Reaches(tokens: seq<Token>, trailingCommas: bool, c: Config, d: Config) {
    exists trace :: IsTrace(tokens, trailingCommas, c, d, trace)
  }

  ghost predicate IsTrace(tokens: seq<Token>, trailingCommas: bool, c: Config, d: Config, trace: seq<Config>) {
    && trace != [] && trace[0] == c && trace[|trace| - 1] == d
    && forall i: nat :: i < |trace| - 1 ==> TraceStep(tokens, trailingCommas, trace, i)
  }

  ghost predicate TraceStep(tokens: seq<Token>, trailingCommas: bool, trace: seq<Config>, i: nat)
    requires i < |trace| - 1
  {
    trace[i].at <= |tokens| && Step(tokens, trailingCommas, trace[i]) == Continue(trace[i + 1])
  }

  lemma OneStep(tokens: seq<Token>, trailingCommas: bool, c: Config, d: Config)
    requires c.at <= |tokens| && Step(tokens, trailingCommas, c) == Continue(d)
    ensures Reaches(tokens, trailingCommas, c, d)
  {
    var trace := [c, d];
    forall i: nat | i < |trace| - 1 ensures TraceStep(tokens, trailingCommas, trace, i) {
    }
    assert IsTrace(tokens, trailingCommas, c, d, trace);
  }

  lemma Then(tokens: seq<Token>, trailingCommas: bool, c: Config, d: Config, e: Config)
    requires Reaches(tokens, trailingCommas, c, d) && Reaches(tokens, trailingCommas, d, e)
    ensures Reaches(tokens, trailingCommas, c, e)
  {
    var one :| IsTrace(tokens, trailingCommas, c, d, one);
    var two :| IsTrace(tokens, trailingCommas, d, e, two);
    var trace := one + two[1..];
    forall i: nat | i < |trace| - 1 ensures TraceStep(tokens, trailingCommas, trace, i) {
      if i < |one| - 1 {
        assert TraceStep(tokens, trailingCommas, one, i);
      } else {
        assert TraceStep(tokens, trailingCommas, two, i - (|one| - 1));
        assert trace[i] == two[i - (|one| - 1)] && trace[i + 1] == two[i - (|one| - 1) + 1];
      }
    }
    assert IsTrace(tokens, trailingCommas, c, e, trace);
  }

  /** Running from c is running from any configuration it reaches. */
  lemma ReachesSameOutcome(tokens: seq<Token>, trailingCommas: bool, c: Config, d: Config)
    requires Reaches(tokens, trailingCommas, c, d) && c.at <= |tokens|
    ensures d.at <= |tokens| && Run(tokens, trailingCommas, c) == Run(tokens, trailingCommas, d)
  {
    var trace :| IsTrace(tokens, trailingCommas, c, d, trace);
    TraceSameOutcome(tokens, trailingCommas, c, d, trace);
  }

  lemma {:induction false} TraceSameOutcome(tokens: seq<Token>, trailingCommas: bool, c: Config, d: Config,
                                            trace: seq<Config>)
    requires IsTrace(tokens, trailingCommas, c, d, trace) && c.at <= |tokens|
    ensures d.at <= |tokens| && Run(tokens, trailingCommas, c) == Run(tokens, trailingCommas, d)
    decreases |trace|
  {
    if |trace| > 1 {
      assert TraceStep(tokens, trailingCommas, trace, 0);
      var rest := trace[1..];
      forall i: nat | i < |rest| - 1 ensures TraceStep(tokens, trailingCommas, rest, i) {
        assert TraceStep(tokens, trailingCommas, trace, i + 1);
      }
      TraceSameOutcome(tokens, trailingCommas, trace[1], d, rest);
    }
  }

  lemma FirstToken(tokens: seq<Token>, at: nat, t: Tree, trailingCommas: bool)
    requires Derivable(t, trailingCommas) && Spells(tokens, at, t)
    ensures Peek(tokens, at) != EndArray && Peek(tokens, at) != EndObject && at < |tokens|
  {
  }

  /** The loop runs over a value that is spelled out, and is then about to evaluate. */
  lemma {:induction false} RunTree(tokens: seq<Token>, trailingCommas: bool, t: Tree, at: nat, states: seq<bool>,
                                   events: seq<Event>)
    requires Derivable(t, trailingCommas) && Spells(tokens, at, t)
    ensures Reaches(tokens, trailingCommas, Config(at, states, events, false),
                    Config(at + Size(t) - 1, states, events + Events(t), true))
    decreases t, 1
  {
    match t
    case Scalar(token) =>
      OneStep(tokens, trailingCommas, Config(at, states, events, false), Config(at, states, events + Events(t), true));
    case Elements(items, trailing) =>
      if items == [] {
        assert ItemsSize([]) == 0 && t == Elements([], false);
        RunEmpty(tokens, trailingCommas, true, at, states, events);
      } else {
        RunElements(tokens, trailingCommas, t, at, states, events);
      }
    case Members(members, trailing) =>
      if members == [] {
        assert MembersSize([]) == 0 && t == Members([], false);
        RunEmpty(tokens, trailingCommas, false, at, states, events);
      } else {
        RunObject(tokens, trailingCommas, t, at, states, events);
      }
  }

  function OpenEvent(isArray: bool): Event {
    if isArray then StartArray else StartObject
  }

  function CloseEvent(isArray: bool): Event {
    if isArray then EndOfArray else EndOfObject
  }

  function CloseToken(isArray: bool): Token {
    if isArray then EndArray else EndObject
  }

  lemma RunEmpty(tokens: seq<Token>, trailingCommas: bool, isArray: bool, at: nat, states: seq<bool>,
                 events: seq<Event>)
    requires TokenAt(tokens, at, if isArray then BeginArray else BeginObject)
      && TokenAt(tokens, at + 1, CloseToken(isArray))
    ensures var t := if isArray then Elements([], false) else Members([], false);
      Size(t) == 2 && Reaches(tokens, trailingCommas, Config(at, states, events, false),
                              Config(at + 1, states, events + Events(t), true))
  {
    var t := if isArray then Elements([], false) else Members([], false);
    Assoc(events, [OpenEvent(isArray)], [CloseEvent(isArray)]);
    assert Events(t) == [OpenEvent(isArray)] + [CloseEvent(isArray)];
    OneStep(tokens, trailingCommas, Config(at, states, events, false),
            Config(at + 1, states, events + Events(t), true));
  }

  /** The closing bracket or brace, after an optional comma. */
  lemma RunClose(tokens: seq<Token>, trailingCommas: bool, trailing: bool, isArray: bool, at: nat, states: seq<bool>,
                 events: seq<Event>)
    requires trailing ==> trailingCommas && TokenAt(tokens, at + 1, ValueSeparator)
    requires TokenAt(tokens, if trailing then at + 2 else at + 1, CloseToken(isArray))
    ensures Reaches(tokens, trailingCommas, Config(at, states + [isArray], events, true),
                    Config(if trailing then at + 2 else at + 1, states, events + [CloseEvent(isArray)], true))
  {
    Parts(states, [isArray]);
    OneStep(tokens, trailingCommas, Config(at, states + [isArray], events, true),
            Config(if trailing then at + 2 else at + 1, states, events + [CloseEvent(isArray)], true));
  }

  /** Opening, body and closing events are those of the whole. */
  lemma WholeEvents(events: seq<Event>, open: Event, body: seq<Event>, close: Event)
    ensures events + [open] + body + [close] == events + ([open] + body + [close])
  {
    Assoc(events, [open], body);
    Assoc(events, [open] + body, [close]);
  }

  /** From the opening bracket over the items and the closing bracket. */
  lemma RunElements(tokens: seq<Token>, trailingCommas: bool, t: Tree, at: nat, states: seq<bool>, events: seq<Event>)
    requires t.Elements? && t.items != [] && Derivable(t, trailingCommas) && Spells(tokens, at, t)
    ensures Reaches(tokens, trailingCommas, Config(at, states, events, false),
                    Config(at + Size(t) - 1, states, events + Events(t), true))
    decreases t, 0
  {
    var started, body := events + [StartArray], ItemEvents(t.items);
    var c, first := Config(at, states, events, false), Config(at + 1, states + [true], started, false);
    var last := Config(at + ItemsSize(t.items), states + [true], started + body, true);
    RunItems(tokens, trailingCommas, t.items, at + 1, states + [true], started);
    OneStep(tokens, trailingCommas, c, first);
    Then(tokens, trailingCommas, c, first, last);
    RunClose(tokens, trailingCommas, t.trailing, true, last.at, states, started + body);
    WholeEvents(events, StartArray, body, EndOfArray);
    Then(tokens, trailingCommas, c, last, Config(at + Size(t) - 1, states, events + Events(t), true));
  }

  lemma OnlyItem(tokens: seq<Token>, at: nat, items: seq<Tree>)
    requires |items| == 1 && ItemsSpell(tokens, at, items)
    ensures ItemsSize(items) == Size(items[0]) && ItemEvents(items) == Events(items[0]) && Spells(tokens, at, items[0])
  {
    assert items[..0] == [];
  }

  lemma LastItem(tokens: seq<Token>, at: nat, items: seq<Tree>)
    requires |items| > 1 && ItemsSpell(tokens, at, items)
    ensures var front, t := items[..|items| - 1], items[|items| - 1];
      && ItemsSpell(tokens, at, front) && TokenAt(tokens, at + ItemsSize(front), ValueSeparator)
      && Spells(tokens, at + ItemsSize(front) + 1, t)
      && ItemsSize(items) == ItemsSize(front) + 1 + Size(t) && ItemEvents(items) == ItemEvents(front) + Events(t)
  {
  }

  lemma LastMemberSpelled(tokens: seq<Token>, at: nat, members: seq<Member>)
    requires |members| > 1 && MembersSpell(tokens, at, members)
    ensures var front, m := members[..|members| - 1], members[|members| - 1];
      && MembersSpell(tokens, at, front) && TokenAt(tokens, at + MembersSize(front), ValueSeparator)
      && MemberSpells(tokens, at + MembersSize(front) + 1, m)
      && MembersSize(members) == MembersSize(front) + 3 + Size(m.value)
      && MemberEvents(members) == MemberEvents(front) + OneMemberEvents(m)
  {
  }

  lemma OnlyMember(tokens: seq<Token>, at: nat, members: seq<Member>)
    requires |members| == 1 && MembersSpell(tokens, at, members)
    ensures MembersSize(members) == 2 + Size(members[0].value) && MemberEvents(members) == OneMemberEvents(members[0])
    ensures MemberSpells(tokens, at, members[0])
  {
    assert members[..0] == [];
  }

  lemma {:induction false} RunItems(tokens: seq<Token>, trailingCommas: bool, items: seq<Tree>, at: nat,
                                    states: seq<bool>, events: seq<Event>)
    requires items != [] && ItemsSpell(tokens, at, items) && states != [] && states[|states| - 1]
    requires forall i :: 0 <= i < |items| ==> Derivable(items[i], trailingCommas)
    ensures Peek(tokens, at) != EndArray && at < |tokens|
    ensures Reaches(tokens, trailingCommas, Config(at, states, events, false),
                    Config(at + ItemsSize(items) - 1, states, events + ItemEvents(items), true))
    decreases items, 0
  {
    if |items| == 1 {
      var t := items[0];
      OnlyItem(tokens, at, items);
      FirstToken(tokens, at, t, trailingCommas);
      RunTree(tokens, trailingCommas, t, at, states, events);
    } else {
      var front, t := items[..|items| - 1], items[|items| - 1];
      var end, done := at + ItemsSize(front), events + ItemEvents(front);
      LastItem(tokens, at, items);
      Assoc(events, ItemEvents(front), Events(t));
      RunItems(tokens, trailingCommas, front, at, states, events);
      NextItem(tokens, trailingCommas, t, end - 1, states, done, Config(at, states, events, false));
    }
  }

  /** A comma and one more item. */
  lemma NextItem(tokens: seq<Token>, trailingCommas: bool, t: Tree, at: nat, states: seq<bool>, events: seq<Event>,
                 from: Config)
    requires Derivable(t, trailingCommas) && states != [] && states[|states| - 1]
    requires TokenAt(tokens, at + 1, ValueSeparator) && Spells(tokens, at + 2, t)
    requires Reaches(tokens, trailingCommas, from, Config(at, states, events, true))
    ensures Reaches(tokens, trailingCommas, from, Config(at + 1 + Size(t), states, events + Events(t), true))
    decreases t, 2
  {
    FirstToken(tokens, at + 2, t, trailingCommas);
    OneStep(tokens, trailingCommas, Config(at, states, events, true), Config(at + 2, states, events, false));
    Then(tokens, trailingCommas, from, Config(at, states, events, true), Config(at + 2, states, events, false));
    RunTree(tokens, trailingCommas, t, at + 2, states, events);
    Then(tokens, trailingCommas, from, Config(at + 2, states, events, false),
         Config(at + 1 + Size(t), states, events + Events(t), true));
  }

  /** From the opening brace over the members and the closing brace. */
  lemma RunObject(tokens: seq<Token>, trailingCommas: bool, t: Tree, at: nat, states: seq<bool>, events: seq<Event>)
    requires t.Members? && t.members != [] && Derivable(t, trailingCommas) && Spells(tokens, at, t)
    ensures Reaches(tokens, trailingCommas, Config(at, states, events, false),
                    Config(at + Size(t) - 1, states, events + Events(t), true))
    decreases t, 0
  {
    var started, body := events + [StartObject], MemberEvents(t.members);
    var c := Config(at, states, events, false);
    var last := Config(at + MembersSize(t.members), states + [false], started + body, true);
    var first := RunMembers(tokens, trailingCommas, t.members, at + 1, states + [false], started);
    OneStep(tokens, trailingCommas, c, first);
    Then(tokens, trailingCommas, c, first, last);
    RunClose(tokens, trailingCommas, t.trailing, false, last.at, states, started + body);
    WholeEvents(events, StartObject, body, EndOfObject);
    Then(tokens, trailingCommas, c, last, Config(at + Size(t) - 1, states, events + Events(t), true));
  }

  /** From the first key to the end of the last member's value. */
  lemma {:induction false} RunMembers(tokens: seq<Token>, trailingCommas: bool, members: seq<Member>, at: nat,
                                      states: seq<bool>, events: seq<Event>)
      returns (next: Config)
    requires members != [] && MembersSpell(tokens, at, members) && states != [] && !states[|states| - 1]
    requires forall i :: 0 <= i < |members| ==> Derivable(members[i].value, trailingCommas)
    ensures Peek(tokens, at).ValueString? && at < |tokens|
    ensures StepMember(tokens, at, states, events) == Continue(next)
    ensures Reaches(tokens, trailingCommas, next,
                    Config(at + MembersSize(members) - 1, states, events + MemberEvents(members), true))
    decreases members, 0
  {
    if |members| == 1 {
      OnlyMember(tokens, at, members);
      next := RunMember(tokens, trailingCommas, members[0], at, states, events);
    } else {
      var front, m := members[..|members| - 1], members[|members| - 1];
      var end, done := at + MembersSize(front), events + MemberEvents(front);
      LastMemberSpelled(tokens, at, members);
      Assoc(events, MemberEvents(front), OneMemberEvents(m));
      next := RunMembers(tokens, trailingCommas, front, at, states, events);
      NextMember(tokens, trailingCommas, m, end - 1, states, done, next);
    }
  }

  lemma RunMember(tokens: seq<Token>, trailingCommas: bool, m: Member, at: nat, states: seq<bool>, events: seq<Event>)
      returns (next: Config)
    requires MemberSpells(tokens, at, m) && Derivable(m.value, trailingCommas)
    ensures Peek(tokens, at).ValueString? && StepMember(tokens, at, states, events) == Continue(next)
    ensures Reaches(tokens, trailingCommas, next,
                    Config(at + 1 + Size(m.value), states, events + OneMemberEvents(m), true))
    decreases m, 2
  {
    next := Config(at + 2, states, events + [Key(m.key)], false);
    Assoc(events, [Key(m.key)], Events(m.value));
    assert OneMemberEvents(m) == [Key(m.key)] + Events(m.value);
    RunTree(tokens, trailingCommas, m.value, at + 2, states, events + [Key(m.key)]);
    assert next.events + Events(m.value) == events + OneMemberEvents(m);
  }

  /** A comma and one more member. */
  lemma NextMember(tokens: seq<Token>, trailingCommas: bool, m: Member, at: nat, states: seq<bool>,
                   events: seq<Event>, from: Config)
    requires Derivable(m.value, trailingCommas) && states != [] && !states[|states| - 1]
    requires TokenAt(tokens, at + 1, ValueSeparator) && MemberSpells(tokens, at + 2, m)
    requires Reaches(tokens, trailingCommas, from, Config(at, states, events, true))
    ensures Reaches(tokens, trailingCommas, from,
                    Config(at + 3 + Size(m.value), states, events + OneMemberEvents(m), true))
    decreases m, 3
  {
    var next := RunMember(tokens, trailingCommas, m, at + 2, states, events);
    OneStep(tokens, trailingCommas, Config(at, states, events, true), next);
    Then(tokens, trailingCommas, from, Config(at, states, events, true), next);
    Then(tokens, trailingCommas, from, next, Config(at + 3 + Size(m.value), states, events + OneMemberEvents(m), true));
  }

  /** Every derivable text is accepted, and its events are emitted. */
  lemma ParseComplete(tokens: seq<Token>, trailingCommas: bool, t: Tree)
    requires Derivable(t, trailingCommas) && Spells(tokens, 0, t)
    ensures Parse(tokens, trailingCommas) == Accepted(Size(t) - 1, Events(t))
  {
    RunTree(tokens, trailingCommas, t, 0, [], []);
    assert [] + Events(t) == Events(t);
    ReachesSameOutcome(tokens, trailingCommas, Config(0, [], [], false), Config(Size(t) - 1, [], Events(t), true));
  }

  // ---------------------------------------------------------------- soundness

  /** An array or object under construction: where it starts, the events before it,
      and what is complete of it. */
  datatype Open =
    | OpenArray(at: nat, before: seq<Event>, items: seq<Tree>)
    | OpenObject(at: nat, before: seq<Event>, members: seq<Member>, key: string)

  function OpenSize(o: Open): (r: nat)
    ensures r > 0
  {
    match o
    case OpenArray(_, _, items) => ItemsSize(items) + (if items == [] then 1 else 2)
    case OpenObject(_, _, members, _) => MembersSize(members) + (if members == [] then 3 else 4)
  }

  function OpenEvents(o: Open): seq<Event> {
    match o
    case OpenArray(_, _, items) => [StartArray] + ItemEvents(items)
    case OpenObject(_, _, members, key) => [StartObject] + (MemberEvents(members) + [Key(key)])
  }

  /** What an open container is spelled by so far, up to a comma or a colon. */
  ghost predicate OpenDerives(tokens: seq<Token>, trailingCommas: bool, o: Open) {
    if o.OpenArray? then
      && TokenAt(tokens, o.at, BeginArray) && ItemsSpell(tokens, o.at + 1, o.items)
      && (o.items != [] ==> TokenAt(tokens, o.at + OpenSize(o) - 1, ValueSeparator))
      && (forall i :: 0 <= i < |o.items| ==> Derivable(o.items[i], trailingCommas))
    else
      && TokenAt(tokens, o.at, BeginObject) && MembersSpell(tokens, o.at + 1, o.members)
      && (o.members != [] ==> TokenAt(tokens, o.at + OpenSize(o) - 3, ValueSeparator))
      && TokenAt(tokens, o.at + OpenSize(o) - 2, ValueString(o.key))
      && TokenAt(tokens, o.at + OpenSize(o) - 1, NameSeparator)
      && (forall i :: 0 <= i < |o.members| ==> Derivable(o.members[i].value, trailingCommas))
  }

  /** Where the text and the events of the stack end. */
  function EndOf(stack: seq<Open>): nat {
    if stack == [] then 0 else stack[|stack| - 1].at + OpenSize(stack[|stack| - 1])
  }

  function EventsOf(stack: seq<Open>): seq<Event> {
    if stack == [] then [] else stack[|stack| - 1].before + OpenEvents(stack[|stack| - 1])
  }

  /** Open container number i continues where the ones around it end. */
  ghost predicate Fits(tokens: seq<Token>, trailingCommas: bool, states: seq<bool>, stack: seq<Open>, i: nat)
    requires i < |stack| == |states|
  {
    && states[i] == stack[i].OpenArray? && OpenDerives(tokens, trailingCommas, stack[i])
    && stack[i].at == EndOf(stack[..i]) && stack[i].before == EventsOf(stack[..i])
  }

  ghost predicate StackFits(tokens: seq<Token>, trailingCommas: bool, states: seq<bool>, stack: seq<Open>) {
    |stack| == |states| && forall i: nat :: i < |stack| ==> Fits(tokens, trailingCommas, states, stack, i)
  }

  /** The tokens before c.at and the events are those of the partial derivations. */
  ghost predicate Before(tokens: seq<Token>, trailingCommas: bool, c: Config, stack: seq<Open>) {
    !c.evaluate && c.at == EndOf(stack) && c.events == EventsOf(stack)
      && StackFits(tokens, trailingCommas, c.states, stack)
  }

  /** t is derived by the tokens between two positions, and reported by the events added. */
  ghost predicate Derived(tokens: seq<Token>, trailingCommas: bool, t: Tree, at: nat, before: seq<Event>, end: nat,
                          events: seq<Event>) {
    Derivable(t, trailingCommas) && Spells(tokens, at, t) && end == at + Size(t) - 1 && events == before + Events(t)
  }

  /** The value t has just been completed as well. */
  ghost predicate After(tokens: seq<Token>, trailingCommas: bool, c: Config, stack: seq<Open>, t: Tree) {
    && c.evaluate && StackFits(tokens, trailingCommas, c.states, stack)
    && Derived(tokens, trailingCommas, t, EndOf(stack), EventsOf(stack), c.at, c.events)
  }

  lemma PushOpen(tokens: seq<Token>, trailingCommas: bool, states: seq<bool>, stack: seq<Open>, o: Open)
    requires StackFits(tokens, trailingCommas, states, stack) && OpenDerives(tokens, trailingCommas, o)
    requires o.at == EndOf(stack) && o.before == EventsOf(stack)
    ensures StackFits(tokens, trailingCommas, states + [o.OpenArray?], stack + [o])
  {
    var states', stack' := states + [o.OpenArray?], stack + [o];
    forall i: nat | i < |stack'| ensures Fits(tokens, trailingCommas, states', stack', i) {
      if i < |stack| {
        assert Fits(tokens, trailingCommas, states, stack, i);
        assert stack'[..i] == stack[..i];
      } else {
        assert stack'[..i] == stack;
      }
    }
  }

  lemma PopOpen(tokens: seq<Token>, trailingCommas: bool, states: seq<bool>, stack: seq<Open>)
    requires StackFits(tokens, trailingCommas, states, stack) && stack != []
    ensures var n := |stack| - 1;
      && StackFits(tokens, trailingCommas, states[..n], stack[..n])
      && OpenDerives(tokens, trailingCommas, stack[n]) && states[n] == stack[n].OpenArray?
      && stack[n].at == EndOf(stack[..n]) && stack[n].before == EventsOf(stack[..n])
  {
    var n := |stack| - 1;
    assert Fits(tokens, trailingCommas, states, stack, n);
    forall i: nat | i < n ensures Fits(tokens, trailingCommas, states[..n], stack[..n], i) {
      FitsInFront(tokens, trailingCommas, states, stack, i);
    }
  }

  lemma FitsInFront(tokens: seq<Token>, trailingCommas: bool, states: seq<bool>, stack: seq<Open>, i: nat)
    requires |stack| == |states| && i < |stack| - 1 && Fits(tokens, trailingCommas, states, stack, i)
    ensures Fits(tokens, trailingCommas, states[..|stack| - 1], stack[..|stack| - 1], i)
  {
    assert stack[..|stack| - 1][..i] == stack[..i];
  }

  lemma SoundScalar(tokens: seq<Token>, trailingCommas: bool, c: Config, next: Config) returns (t: Tree)
    requires !c.evaluate && StepValue(tokens, c) == Continue(next) && IsScalar(Peek(tokens, c.at))
    ensures next.evaluate && next.states == c.states
    ensures Derived(tokens, trailingCommas, t, c.at, c.events, next.at, next.events)
  {
    t := Scalar(tokens[c.at]);
  }

  lemma SoundEmpty(tokens: seq<Token>, trailingCommas: bool, c: Config, next: Config) returns (t: Tree)
    requires !c.evaluate && StepValue(tokens, c) == Continue(next) && next.evaluate && !IsScalar(Peek(tokens, c.at))
    ensures next.states == c.states
    ensures Derived(tokens, trailingCommas, t, c.at, c.events, next.at, next.events)
  {
    var isArray := tokens[c.at] == BeginArray;
    t := if isArray then Elements([], false) else Members([], false);
    assert Events(t) == [OpenEvent(isArray)] + [CloseEvent(isArray)] && Size(t) == 2;
    Assoc(c.events, [OpenEvent(isArray)], [CloseEvent(isArray)]);
  }

  /** What a step that opens a container has seen. */
  lemma OpenSeen(tokens: seq<Token>, c: Config, next: Config)
    requires StepValue(tokens, c) == Continue(next) && !next.evaluate
    ensures TokenAt(tokens, c.at, BeginArray) || TokenAt(tokens, c.at, BeginObject)
    ensures TokenAt(tokens, c.at, BeginArray) ==>
      next == Config(c.at + 1, c.states + [true], c.events + [StartArray], false)
    ensures TokenAt(tokens, c.at, BeginObject) ==>
      && Peek(tokens, c.at + 1).ValueString? && TokenAt(tokens, c.at + 1, ValueString(Peek(tokens, c.at + 1).s))
      && TokenAt(tokens, c.at + 2, NameSeparator)
      && next == Config(c.at + 3, c.states + [false], c.events + [StartObject] + [Key(Peek(tokens, c.at + 1).s)], false)
  {
  }

  lemma NewArray(tokens: seq<Token>, trailingCommas: bool, at: nat, before: seq<Event>)
    requires TokenAt(tokens, at, BeginArray)
    ensures var o := OpenArray(at, before, []);
      OpenDerives(tokens, trailingCommas, o) && OpenSize(o) == 1 && OpenEvents(o) == [StartArray]
  {
  }

  lemma NewObject(tokens: seq<Token>, trailingCommas: bool, at: nat, before: seq<Event>, key: string)
    requires TokenAt(tokens, at, BeginObject) && TokenAt(tokens, at + 1, ValueString(key))
      && TokenAt(tokens, at + 2, NameSeparator)
    ensures var o := OpenObject(at, before, [], key);
      OpenDerives(tokens, trailingCommas, o) && OpenSize(o) == 3 && OpenEvents(o) == [StartObject] + [Key(key)]
  {
  }

  lemma SoundOpen(tokens: seq<Token>, trailingCommas: bool, c: Config, next: Config) returns (o: Open)
    requires StepValue(tokens, c) == Continue(next) && !next.evaluate
    ensures o.at == c.at && o.before == c.events && OpenDerives(tokens, trailingCommas, o)
    ensures next == Config(c.at + OpenSize(o), c.states + [o.OpenArray?], c.events + OpenEvents(o), false)
  {
    OpenSeen(tokens, c, next);
    if TokenAt(tokens, c.at, BeginArray) {
      NewArray(tokens, trailingCommas, c.at, c.events);
      o := OpenArray(c.at, c.events, []);
    } else {
      var key := Peek(tokens, c.at + 1).s;
      NewObject(tokens, trailingCommas, c.at, c.events, key);
      Assoc(c.events, [StartObject], [Key(key)]);
      o := OpenObject(c.at, c.events, [], key);
    }
  }

  lemma ItemSnoc(tokens: seq<Token>, at: nat, items: seq<Tree>, t: Tree)
    requires ItemsSpell(tokens, at, items) && (items != [] ==> TokenAt(tokens, at + ItemsSize(items), ValueSeparator))
    requires Spells(tokens, at + ItemsSize(items) + (if items == [] then 0 else 1), t)
    ensures ItemsSpell(tokens, at, items + [t])
    ensures ItemsSize(items + [t]) == ItemsSize(items) + (if items == [] then 0 else 1) + Size(t)
    ensures ItemEvents(items + [t]) == ItemEvents(items) + Events(t)
  {
    Parts(items, [t]);
    ItemEventsSnoc(items, t);
    ItemsSizeSnoc(items, t);
  }

  lemma ItemEventsSnoc(items: seq<Tree>, t: Tree)
    ensures ItemEvents(items + [t]) == ItemEvents(items) + Events(t)
  {
    Parts(items, [t]);
  }

  lemma ItemsSizeSnoc(items: seq<Tree>, t: Tree)
    ensures ItemsSize(items + [t]) == ItemsSize(items) + (if items == [] then 0 else 1) + Size(t)
  {
    Parts(items, [t]);
  }

  lemma MemberSnoc(tokens: seq<Token>, at: nat, members: seq<Member>, m: Member)
    requires MembersSpell(tokens, at, members)
      && (members != [] ==> TokenAt(tokens, at + MembersSize(members), ValueSeparator))
    requires MemberSpells(tokens, at + MembersSize(members) + (if members == [] then 0 else 1), m)
    ensures MembersSpell(tokens, at, members + [m])
    ensures MembersSize(members + [m]) == MembersSize(members) + (if members == [] then 0 else 1) + 2 + Size(m.value)
    ensures MemberEvents(members + [m]) == MemberEvents(members) + OneMemberEvents(m)
  {
    Parts(members, [m]);
    MemberEventsSnoc(members, m);
  }

  lemma MemberEventsSnoc(members: seq<Member>, m: Member)
    ensures MemberEvents(members + [m]) == MemberEvents(members) + OneMemberEvents(m)
  {
    Parts(members, [m]);
  }

  /** An array's items up to position end, with all events so far. */
  ghost predicate ItemsDone(tokens: seq<Token>, trailingCommas: bool, at: nat, before: seq<Event>, items: seq<Tree>,
                            end: nat, events: seq<Event>) {
    && items != [] && TokenAt(tokens, at, BeginArray) && ItemsSpell(tokens, at + 1, items)
    && at + ItemsSize(items) == end
    && (forall i :: 0 <= i < |items| ==> Derivable(items[i], trailingCommas))
    && events == before + ([StartArray] + ItemEvents(items))
  }

  ghost predicate MembersDone(tokens: seq<Token>, trailingCommas: bool, at: nat, before: seq<Event>,
                              members: seq<Member>, end: nat, events: seq<Event>) {
    && members != [] && TokenAt(tokens, at, BeginObject) && MembersSpell(tokens, at + 1, members)
    && at + MembersSize(members) == end
    && (forall i :: 0 <= i < |members| ==> Derivable(members[i].value, trailingCommas))
    && events == before + ([StartObject] + MemberEvents(members))
  }

  /** The items of an open array with the value just completed. */
  lemma MoreItems(tokens: seq<Token>, trailingCommas: bool, o: Open, t: Tree, end: nat, events: seq<Event>)
      returns (items: seq<Tree>)
    requires o.OpenArray? && OpenDerives(tokens, trailingCommas, o)
    requires Derived(tokens, trailingCommas, t, o.at + OpenSize(o), o.before + OpenEvents(o), end, events)
    ensures ItemsDone(tokens, trailingCommas, o.at, o.before, items, end, events)
  {
    items := o.items + [t];
    MoreItemsText(tokens, trailingCommas, o, t, end);
    MoreItemsEvents(o, t);
  }

  lemma MoreItemsText(tokens: seq<Token>, trailingCommas: bool, o: Open, t: Tree, end: nat)
    requires o.OpenArray? && OpenDerives(tokens, trailingCommas, o) && Derivable(t, trailingCommas)
    requires Spells(tokens, o.at + OpenSize(o), t) && o.at + OpenSize(o) + Size(t) == end + 1
    ensures var items := o.items + [t];
      && ItemsSpell(tokens, o.at + 1, items) && o.at + ItemsSize(items) == end
      && (forall i :: 0 <= i < |items| ==> Derivable(items[i], trailingCommas))
  {
    var items := o.items;
    OpenArrayText(tokens, trailingCommas, o);
    ItemSnoc(tokens, o.at + 1, items, t);
    AllDerivable(items, t, trailingCommas);
  }

  /** What an open array's text consists of. */
  lemma OpenArrayText(tokens: seq<Token>, trailingCommas: bool, o: Open)
    requires o.OpenArray? && OpenDerives(tokens, trailingCommas, o)
    ensures ItemsSpell(tokens, o.at + 1, o.items)
    ensures o.items != [] ==> TokenAt(tokens, o.at + 1 + ItemsSize(o.items), ValueSeparator)
    ensures OpenSize(o) == ItemsSize(o.items) + if o.items == [] then 1 else 2
    ensures forall i :: 0 <= i < |o.items| ==> Derivable(o.items[i], trailingCommas)
  {
  }

  lemma AllDerivable(items: seq<Tree>, t: Tree, trailingCommas: bool)
    requires Derivable(t, trailingCommas) && forall i :: 0 <= i < |items| ==> Derivable(items[i], trailingCommas)
    ensures forall i :: 0 <= i < |items + [t]| ==> Derivable((items + [t])[i], trailingCommas)
  {
  }

  lemma MoreItemsEvents(o: Open, t: Tree)
    requires o.OpenArray?
    ensures o.before + OpenEvents(o) + Events(t) == o.before + ([StartArray] + ItemEvents(o.items + [t]))
  {
    ItemEventsSnoc(o.items, t);
    Assoc([StartArray], ItemEvents(o.items), Events(t));
    Assoc(o.before, OpenEvents(o), Events(t));
  }

  lemma OpenObjectEvents(o: Open, t: Tree, m: Member)
    requires o.OpenObject? && m == Member(o.key, t)
    ensures OpenEvents(o) + Events(t) == [StartObject] + (MemberEvents(o.members) + OneMemberEvents(m))
  {
    Assoc(MemberEvents(o.members), [Key(o.key)], Events(t));
    Assoc([StartObject], MemberEvents(o.members) + [Key(o.key)], Events(t));
  }

  /** The members of an open object with the value just completed. */
  lemma MoreMembers(tokens: seq<Token>, trailingCommas: bool, o: Open, t: Tree, end: nat, events: seq<Event>)
      returns (members: seq<Member>)
    requires o.OpenObject? && OpenDerives(tokens, trailingCommas, o)
    requires Derived(tokens, trailingCommas, t, o.at + OpenSize(o), o.before + OpenEvents(o), end, events)
    ensures MembersDone(tokens, trailingCommas, o.at, o.before, members, end, events)
  {
    members := o.members + [Member(o.key, t)];
    MoreMembersText(tokens, trailingCommas, o, t, end);
    MoreMembersEvents(o, t);
  }

  lemma MoreMembersText(tokens: seq<Token>, trailingCommas: bool, o: Open, t: Tree, end: nat)
    requires o.OpenObject? && OpenDerives(tokens, trailingCommas, o) && Derivable(t, trailingCommas)
    requires Spells(tokens, o.at + OpenSize(o), t) && o.at + OpenSize(o) + Size(t) == end + 1
    ensures var members := o.members + [Member(o.key, t)];
      && MembersSpell(tokens, o.at + 1, members) && o.at + MembersSize(members) == end
      && (forall i :: 0 <= i < |members| ==> Derivable(members[i].value, trailingCommas))
  {
    MoreMembersSpelled(tokens, trailingCommas, o, t, end);
    MemberSnoc(tokens, o.at + 1, o.members, Member(o.key, t));
  }

  lemma MoreMembersEvents(o: Open, t: Tree)
    requires o.OpenObject?
    ensures var members := o.members + [Member(o.key, t)];
      o.before + OpenEvents(o) + Events(t) == o.before + ([StartObject] + MemberEvents(members))
  {
    var m := Member(o.key, t);
    MemberEventsSnoc(o.members, m);
    OpenObjectEvents(o, t, m);
    Assoc(o.before, OpenEvents(o), Events(t));
  }

  /** Their text. */
  lemma MoreMembersSpelled(tokens: seq<Token>, trailingCommas: bool, o: Open, t: Tree, end: nat)
    requires o.OpenObject? && OpenDerives(tokens, trailingCommas, o)
    requires Spells(tokens, o.at + OpenSize(o), t)
    ensures var m := Member(o.key, t);
      && MembersSpell(tokens, o.at + 1, o.members)
      && (o.members != [] ==> TokenAt(tokens, o.at + 1 + MembersSize(o.members), ValueSeparator))
      && MemberSpells(tokens, o.at + 1 + MembersSize(o.members) + (if o.members == [] then 0 else 1), m)
  {
    MemberSpelled(tokens, o, t);
  }

  lemma MemberSpelled(tokens: seq<Token>, o: Open, t: Tree)
    requires o.OpenObject? && Spells(tokens, o.at + OpenSize(o), t)
    requires TokenAt(tokens, o.at + OpenSize(o) - 2, ValueString(o.key))
      && TokenAt(tokens, o.at + OpenSize(o) - 1, NameSeparator)
    ensures MemberSpells(tokens, o.at + OpenSize(o) - 2, Member(o.key, t))
  {
  }

  /** The open container that goes on after a comma. */
  lemma GoesOn(tokens: seq<Token>, trailingCommas: bool, at: nat, before: seq<Event>, items: seq<Tree>, end: nat,
               events: seq<Event>)
    requires ItemsDone(tokens, trailingCommas, at, before, items, end, events)
      && TokenAt(tokens, end + 1, ValueSeparator)
    ensures var o := OpenArray(at, before, items);
      OpenDerives(tokens, trailingCommas, o) && at + OpenSize(o) == end + 2 && before + OpenEvents(o) == events
  {
  }

  /** The same for an object, whose next key and colon follow the comma. */
  lemma ObjectGoesOn(tokens: seq<Token>, trailingCommas: bool, at: nat, before: seq<Event>, members: seq<Member>,
                     end: nat, events: seq<Event>, key: string)
    requires MembersDone(tokens, trailingCommas, at, before, members, end, events)
      && TokenAt(tokens, end + 1, ValueSeparator)
    requires TokenAt(tokens, end + 2, ValueString(key)) && TokenAt(tokens, end + 3, NameSeparator)
    ensures var o := OpenObject(at, before, members, key);
      OpenDerives(tokens, trailingCommas, o) && at + OpenSize(o) == end + 4
        && before + OpenEvents(o) == events + [Key(key)]
  {
    Assoc([StartObject], MemberEvents(members), [Key(key)]);
    Assoc(before, [StartObject] + MemberEvents(members), [Key(key)]);
  }

  /** The array closed after its last item, with or without a comma. */
  lemma ArrayCloses(tokens: seq<Token>, trailingCommas: bool, at: nat, before: seq<Event>, items: seq<Tree>,
                    end: nat, events: seq<Event>, trailing: bool)
    requires ItemsDone(tokens, trailingCommas, at, before, items, end, events)
    requires trailing ==> trailingCommas && TokenAt(tokens, end + 1, ValueSeparator)
    requires TokenAt(tokens, if trailing then end + 2 else end + 1, EndArray)
    ensures Derived(tokens, trailingCommas, Elements(items, trailing), at, before,
                    if trailing then end + 2 else end + 1, events + [EndOfArray])
  {
    Assoc(before, [StartArray] + ItemEvents(items), [EndOfArray]);
  }

  lemma ObjectCloses(tokens: seq<Token>, trailingCommas: bool, at: nat, before: seq<Event>, members: seq<Member>,
                     end: nat, events: seq<Event>, trailing: bool)
    requires MembersDone(tokens, trailingCommas, at, before, members, end, events)
    requires trailing ==> trailingCommas && TokenAt(tokens, end + 1, ValueSeparator)
    requires TokenAt(tokens, if trailing then end + 2 else end + 1, EndObject)
    ensures Derived(tokens, trailingCommas, Members(members, trailing), at, before,
                    if trailing then end + 2 else end + 1, events + [EndOfObject])
  {
    Assoc(before, [StartObject] + MemberEvents(members), [EndOfObject]);
  }

  /** What an evaluation that closes the innermost container has seen. */
  lemma CloseSeen(tokens: seq<Token>, trailingCommas: bool, c: Config, next: Config)
    requires StepEvaluate(tokens, trailingCommas, c) == Continue(next) && next.evaluate
    ensures c.states != []
    ensures var isArray, comma := c.states[|c.states| - 1], Peek(tokens, c.at + 1) == ValueSeparator;
      && (comma ==> trailingCommas && TokenAt(tokens, c.at + 1, ValueSeparator))
      && TokenAt(tokens, if comma then c.at + 2 else c.at + 1, CloseToken(isArray))
      && next == Config(if comma then c.at + 2 else c.at + 1, c.states[..|c.states| - 1],
                        c.events + [CloseEvent(isArray)], true)
  {
  }

  /** What an evaluation that goes on in the innermost container has seen. */
  lemma CommaSeen(tokens: seq<Token>, trailingCommas: bool, c: Config, next: Config)
    requires StepEvaluate(tokens, trailingCommas, c) == Continue(next) && !next.evaluate
    ensures c.states != [] && TokenAt(tokens, c.at + 1, ValueSeparator)
    ensures c.states[|c.states| - 1] ==> next == Config(c.at + 2, c.states, c.events, false)
    ensures !c.states[|c.states| - 1] ==>
      && Peek(tokens, c.at + 2).ValueString? && TokenAt(tokens, c.at + 2, ValueString(Peek(tokens, c.at + 2).s))
      && TokenAt(tokens, c.at + 3, NameSeparator)
      && next == Config(c.at + 4, c.states, c.events + [Key(Peek(tokens, c.at + 2).s)], false)
  {
  }

  /** The innermost open container, with the value just completed behind it. */
  ghost predicate Innermost(tokens: seq<Token>, trailingCommas: bool, c: Config, o: Open, v: Tree) {
    && c.states != [] && c.states[|c.states| - 1] == o.OpenArray? && OpenDerives(tokens, trailingCommas, o)
    && Derived(tokens, trailingCommas, v, o.at + OpenSize(o), o.before + OpenEvents(o), c.at, c.events)
  }

  lemma SoundCloseArray(tokens: seq<Token>, trailingCommas: bool, c: Config, o: Open, v: Tree, comma: bool)
      returns (t: Tree)
    requires Innermost(tokens, trailingCommas, c, o, v) && o.OpenArray?
    requires comma ==> trailingCommas && TokenAt(tokens, c.at + 1, ValueSeparator)
    requires TokenAt(tokens, if comma then c.at + 2 else c.at + 1, EndArray)
    ensures Derived(tokens, trailingCommas, t, o.at, o.before, if comma then c.at + 2 else c.at + 1,
                    c.events + [EndOfArray])
  {
    var items := MoreItems(tokens, trailingCommas, o, v, c.at, c.events);
    ArrayCloses(tokens, trailingCommas, o.at, o.before, items, c.at, c.events, comma);
    t := Elements(items, comma);
  }

  lemma SoundCloseObject(tokens: seq<Token>, trailingCommas: bool, c: Config, o: Open, v: Tree, comma: bool)
      returns (t: Tree)
    requires Innermost(tokens, trailingCommas, c, o, v) && o.OpenObject?
    requires comma ==> trailingCommas && TokenAt(tokens, c.at + 1, ValueSeparator)
    requires TokenAt(tokens, if comma then c.at + 2 else c.at + 1, EndObject)
    ensures Derived(tokens, trailingCommas, t, o.at, o.before, if comma then c.at + 2 else c.at + 1,
                    c.events + [EndOfObject])
  {
    var members := MoreMembers(tokens, trailingCommas, o, v, c.at, c.events);
    ObjectCloses(tokens, trailingCommas, o.at, o.before, members, c.at, c.events, comma);
    t := Members(members, comma);
  }

  lemma SoundClose(tokens: seq<Token>, trailingCommas: bool, c: Config, o: Open, v: Tree, next: Config)
      returns (t: Tree)
    requires Innermost(tokens, trailingCommas, c, o, v)
    requires StepEvaluate(tokens, trailingCommas, c) == Continue(next) && next.evaluate
    ensures next.states == c.states[..|c.states| - 1]
    ensures Derived(tokens, trailingCommas, t, o.at, o.before, next.at, next.events)
  {
    CloseSeen(tokens, trailingCommas, c, next);
    if o.OpenArray? {
      t := SoundCloseArray(tokens, trailingCommas, c, o, v, Peek(tokens, c.at + 1) == ValueSeparator);
    } else {
      t := SoundCloseObject(tokens, trailingCommas, c, o, v, Peek(tokens, c.at + 1) == ValueSeparator);
    }
  }

  /** What the innermost container becomes when the loop goes on in it. */
  ghost predicate Extended(tokens: seq<Token>, trailingCommas: bool, o: Open, o': Open, states: seq<bool>,
                           next: Config) {
    && o'.OpenArray? == o.OpenArray? && o'.at == o.at && o'.before == o.before
    && OpenDerives(tokens, trailingCommas, o')
    && next == Config(o'.at + OpenSize(o'), states, o'.before + OpenEvents(o'), false)
  }

  lemma SoundCommaInArray(tokens: seq<Token>, trailingCommas: bool, c: Config, o: Open, v: Tree, next: Config)
      returns (o': Open)
    requires Innermost(tokens, trailingCommas, c, o, v) && o.OpenArray? && TokenAt(tokens, c.at + 1, ValueSeparator)
    requires next == Config(c.at + 2, c.states, c.events, false)
    ensures Extended(tokens, trailingCommas, o, o', c.states, next)
  {
    var items := MoreItems(tokens, trailingCommas, o, v, c.at, c.events);
    GoesOn(tokens, trailingCommas, o.at, o.before, items, c.at, c.events);
    o' := OpenArray(o.at, o.before, items);
  }

  lemma SoundCommaInObject(tokens: seq<Token>, trailingCommas: bool, c: Config, o: Open, v: Tree, key: string,
                           next: Config) returns (o': Open)
    requires Innermost(tokens, trailingCommas, c, o, v) && o.OpenObject? && TokenAt(tokens, c.at + 1, ValueSeparator)
    requires TokenAt(tokens, c.at + 2, ValueString(key)) && TokenAt(tokens, c.at + 3, NameSeparator)
    requires next == Config(c.at + 4, c.states, c.events + [Key(key)], false)
    ensures Extended(tokens, trailingCommas, o, o', c.states, next)
  {
    var members := MoreMembers(tokens, trailingCommas, o, v, c.at, c.events);
    o' := OpenObject(o.at, o.before, members, key);
    ObjectGoesOn(tokens, trailingCommas, o.at, o.before, members, c.at, c.events, key);
    IsExtended(tokens, trailingCommas, o, o', c.states, next);
  }

  lemma IsExtended(tokens: seq<Token>, trailingCommas: bool, o: Open, o': Open, states: seq<bool>, next: Config)
    requires o'.OpenArray? == o.OpenArray? && o'.at == o.at && o'.before == o.before
    requires OpenDerives(tokens, trailingCommas, o') && next.at == o'.at + OpenSize(o')
    requires next == Config(next.at, states, o'.before + OpenEvents(o'), false)
    ensures Extended(tokens, trailingCommas, o, o', states, next)
  {
  }

  lemma SoundComma(tokens: seq<Token>, trailingCommas: bool, c: Config, o: Open, v: Tree, next: Config)
      returns (o': Open)
    requires Innermost(tokens, trailingCommas, c, o, v)
    requires StepEvaluate(tokens, trailingCommas, c) == Continue(next) && !next.evaluate
    ensures Extended(tokens, trailingCommas, o, o', c.states, next)
  {
    CommaSeen(tokens, trailingCommas, c, next);
    if o.OpenArray? {
      o' := SoundCommaInArray(tokens, trailingCommas, c, o, v, next);
    } else {
      o' := SoundCommaInObject(tokens, trailingCommas, c, o, v, Peek(tokens, c.at + 2).s, next);
    }
  }

  lemma Replaced(tokens: seq<Token>, trailingCommas: bool, c: Config, stack: seq<Open>, o': Open)
    requires stack != [] && StackFits(tokens, trailingCommas, c.states, stack)
      && OpenDerives(tokens, trailingCommas, o')
    requires var o := stack[|stack| - 1]; o'.at == o.at && o'.before == o.before && o'.OpenArray? == o.OpenArray?
    ensures var stack' := stack[..|stack| - 1] + [o'];
      StackFits(tokens, trailingCommas, c.states, stack') && EndOf(stack') == o'.at + OpenSize(o')
        && EventsOf(stack') == o'.before + OpenEvents(o')
  {
    PopOpen(tokens, trailingCommas, c.states, stack);
    PushOpen(tokens, trailingCommas, c.states[..|stack| - 1], stack[..|stack| - 1], o');
    FrontLast(c.states);
  }

  /** The loop state fits the partial derivations and, while evaluating, the value. */
  ghost predicate Fitting(tokens: seq<Token>, trailingCommas: bool, c: Config, stack: seq<Open>, v: Tree) {
    if c.evaluate then After(tokens, trailingCommas, c, stack, v) else Before(tokens, trailingCommas, c, stack)
  }

  lemma SoundValue(tokens: seq<Token>, trailingCommas: bool, c: Config, stack: seq<Open>, v: Tree, next: Config)
      returns (stack': seq<Open>, v': Tree)
    requires Before(tokens, trailingCommas, c, stack) && StepValue(tokens, c) == Continue(next)
    ensures Fitting(tokens, trailingCommas, next, stack', v')
  {
    stack', v' := stack, v;
    if !next.evaluate {
      var o := SoundOpen(tokens, trailingCommas, c, next);
      PushOpen(tokens, trailingCommas, c.states, stack, o);
      stack' := stack + [o];
    } else if IsScalar(Peek(tokens, c.at)) {
      v' := SoundScalar(tokens, trailingCommas, c, next);
    } else {
      v' := SoundEmpty(tokens, trailingCommas, c, next);
    }
  }

  lemma SoundEvaluate(tokens: seq<Token>, trailingCommas: bool, c: Config, stack: seq<Open>, v: Tree, next: Config)
      returns (stack': seq<Open>, v': Tree)
    requires After(tokens, trailingCommas, c, stack, v) && StepEvaluate(tokens, trailingCommas, c) == Continue(next)
    ensures Fitting(tokens, trailingCommas, next, stack', v')
  {
    HasInnermost(tokens, trailingCommas, c, stack, v);
    var o := stack[|stack| - 1];
    stack', v' := stack[..|stack| - 1], v;
    if next.evaluate {
      v' := SoundClose(tokens, trailingCommas, c, o, v, next);
      PopOpen(tokens, trailingCommas, c.states, stack);
    } else {
      var o' := SoundComma(tokens, trailingCommas, c, o, v, next);
      Replaced(tokens, trailingCommas, c, stack, o');
      stack' := stack' + [o'];
    }
  }

  lemma HasInnermost(tokens: seq<Token>, trailingCommas: bool, c: Config, stack: seq<Open>, v: Tree)
    requires After(tokens, trailingCommas, c, stack, v) && StepEvaluate(tokens, trailingCommas, c).Continue?
    ensures stack != [] && Innermost(tokens, trailingCommas, c, stack[|stack| - 1], v)
  {
    PopOpen(tokens, trailingCommas, c.states, stack);
  }

  /** The loop accepts with an empty stack. */
  lemma StopsAtEnd(tokens: seq<Token>, trailingCommas: bool, c: Config, r: Outcome)
    requires c.at <= |tokens| && Step(tokens, trailingCommas, c) == Stop(r) && r.Accepted?
    ensures c.evaluate && c.states == [] && r == Accepted(c.at, c.events)
  {
  }

  /** What the loop accepts from a state it can be in, the grammar derives. */
  lemma {:induction false} Sound(tokens: seq<Token>, trailingCommas: bool, c: Config, stack: seq<Open>, v: Tree)
      returns (t: Tree)
    requires c.at <= |tokens| && Run(tokens, trailingCommas, c).Accepted?
      && Fitting(tokens, trailingCommas, c, stack, v)
    ensures var r := Run(tokens, trailingCommas, c); Derived(tokens, trailingCommas, t, 0, [], r.at, r.events)
    decreases |tokens| - c.at, !c.evaluate
  {
    var r := Step(tokens, trailingCommas, c);
    if r.Stop? {
      StopsAtEnd(tokens, trailingCommas, c, r.r);
      t := v;
    } else {
      var stack', v';
      if c.evaluate {
        stack', v' := SoundEvaluate(tokens, trailingCommas, c, stack, v, r.c);
      } else {
        stack', v' := SoundValue(tokens, trailingCommas, c, stack, v, r.c);
      }
      t := Sound(tokens, trailingCommas, r.c, stack', v');
    }
  }

  /** Whatever is accepted is derivable, and its events are the ones emitted. */
  lemma ParseSound(tokens: seq<Token>, trailingCommas: bool) returns (t: Tree)
    requires Parse(tokens, trailingCommas).Accepted?
    ensures Derivable(t, trailingCommas) && Spells(tokens, 0, t)
    ensures Parse(tokens, trailingCommas) == Accepted(Size(t) - 1, Events(t))
  {
    t := Sound(tokens, trailingCommas, Config(0, [], [], false), [], Scalar(LiteralNull));
    assert [] + Events(t) == Events(t);
  }

  /** A derivable value stands at the beginning of the text. */
  ghost predicate BeginsWith(tokens: seq<Token>, trailingCommas: bool, t: Tree) {
    Derivable(t, trailingCommas) && Spells(tokens, 0, t)
  }

  /** The parser accepts exactly the texts that begin with a derivable value. */
  lemma ParseIff(tokens: seq<Token>, trailingCommas: bool)
    ensures Parse(tokens, trailingCommas).Accepted? <==> exists t :: BeginsWith(tokens, trailingCommas, t)
  {
    if Parse(tokens, trailingCommas).Accepted? {
      var t := ParseSound(tokens, trailingCommas);
      assert BeginsWith(tokens, trailingCommas, t);
    }
    if exists t :: BeginsWith(tokens, trailingCommas, t) {
      var t :| BeginsWith(tokens, trailingCommas, t);
      ParseComplete(tokens, trailingCommas, t);
    }
  }

  // ------------------------------------------------------------ the consumer

  /** What a consumer hears: everything, or the events up to the first it refuses.
      goes says what it answers to the last of the calls made so far. */
  datatype Heard = Heard(ok: bool, events: seq<Event>)

  function Told(goes: seq<Event> -> bool, events: seq<Event>, from: nat): Heard
    requires from <= |events|
    decreases |events| - from
  {
    if from == |events| then Heard(true, events)
    else if !goes(events[..from + 1]) then Heard(false, events[..from + 1])
    else Told(goes, events, from + 1)
  }

  /** The next call, with more to come or not. */
  lemma TellNext(goes: seq<Event> -> bool, before: seq<Event>, e: Event, all: seq<Event>)
    requires before + [e] <= all
    ensures Told(goes, all, |before|) ==
      if goes(before + [e]) then Told(goes, all, |before| + 1) else Heard(false, before + [e])
  {
    assert all[..|before| + 1] == before + [e];
  }

  lemma {:induction false} ToldFurther(goes: seq<Event> -> bool, events: seq<Event>, more: seq<Event>, from: nat)
    requires from <= |events| && events <= more
    ensures Told(goes, more, from) ==
      if Told(goes, events, from).ok then Told(goes, more, |events|) else Told(goes, events, from)
    decreases |events| - from
  {
    if from < |events| {
      assert more[..from + 1] == events[..from + 1];
      ToldFurther(goes, events, more, from + 1);
    }
  }

  lemma {:induction false} ToldAll(goes: seq<Event> -> bool, events: seq<Event>, from: nat)
    requires from <= |events|
    ensures Told(goes, events, from).ok <==> forall n :: from < n <= |events| ==> goes(events[..n])
    ensures Told(goes, events, from).ok ==> Told(goes, events, from).events == events
    ensures !Told(goes, events, from).ok ==> var told := Told(goes, events, from).events;
      from < |told| && told <= events && !goes(told) && forall n :: from < n < |told| ==> goes(events[..n])
    decreases |events| - from
  {
    if from < |events| {
      ToldAll(goes, events, from + 1);
    }
  }

  function StepEvents(r: StepResult): seq<Event> {
    if r.Continue? then r.c.events else r.r.events
  }

  lemma StepExtends(tokens: seq<Token>, trailingCommas: bool, c: Config)
    requires c.at <= |tokens|
    ensures c.events <= StepEvents(Step(tokens, trailingCommas, c))
  {
  }

  lemma {:induction false} RunExtends(tokens: seq<Token>, trailingCommas: bool, c: Config)
    requires c.at <= |tokens|
    ensures c.events <= Run(tokens, trailingCommas, c).events
    decreases |tokens| - c.at, !c.evaluate
  {
    StepExtends(tokens, trailingCommas, c);
    var r := Step(tokens, trailingCommas, c);
    if r.Continue? {
      RunExtends(tokens, trailingCommas, r.c);
    }
  }

  /** The first step from c to refuse an event decides what is heard of the whole run. */
  lemma StepIsHeard(goes: seq<Event> -> bool, tokens: seq<Token>, trailingCommas: bool, c: Config)
    requires c.at <= |tokens| && Told(goes, c.events, 0) == Heard(true, c.events)
    ensures var all, step := Run(tokens, trailingCommas, c).events, StepEvents(Step(tokens, trailingCommas, c));
      && c.events <= step <= all
      && (Told(goes, step, |c.events|).ok ==> Told(goes, step, 0) == Heard(true, step) == Told(goes, step, |c.events|))
      && (!Told(goes, step, |c.events|).ok ==> Told(goes, all, 0) == Told(goes, step, |c.events|))
  {
    var r := Step(tokens, trailingCommas, c);
    var all, step := Run(tokens, trailingCommas, c).events, StepEvents(r);
    StepExtends(tokens, trailingCommas, c);
    if r.Continue? {
      RunExtends(tokens, trailingCommas, r.c);
    }
    ToldFurther(goes, c.events, step, 0);
    ToldFurther(goes, step, all, 0);
    ToldAll(goes, step, 0);
  }

  // ---------------------------------------------------------------- the loop

  /** With the consumer's answers: what it hears, and where the parser stopped if it
      heard everything. */
  method SaxParseInternal(tokens: seq<Token>, ignoreTrailingCommas: bool, goes: seq<Event> -> bool)
      returns (heard: Heard, at: nat)
    ensures heard == Told(goes, Parse(tokens, ignoreTrailingCommas).events, 0)
    ensures heard.ok ==> at == Parse(tokens, ignoreTrailingCommas).at
  {
    var states: seq<bool> := [];
    var events: seq<Event> := [];
    var last: nat := 0;
    var skipToStateEvaluation := false;
    while true
      invariant last <= |tokens|
      invariant Parse(tokens, ignoreTrailingCommas)
        == Run(tokens, ignoreTrailingCommas, Config(last, states, events, skipToStateEvaluation))
      invariant Told(goes, events, 0) == Heard(true, events)
      decreases |tokens| - last, !skipToStateEvaluation
    {
      if !skipToStateEvaluation {
        StepIsHeard(goes, tokens, ignoreTrailingCommas, Config(last, states, events, false));
        var step;
        step, heard := ParseValue(tokens, last, states, events, goes);
        if !heard.ok {
          return heard, last;
        }
        if step.Stop? {
          return heard, step.r.at;
        }
        last, states, events := step.c.at, step.c.states, step.c.events;
        if !step.c.evaluate {
          continue;
        }
      } else {
        skipToStateEvaluation := false;
      }
      if states == [] {
        return Heard(true, events), last;
      }
      StepIsHeard(goes, tokens, ignoreTrailingCommas, Config(last, states, events, true));
      var step;
      step, heard := EvaluateState(tokens, ignoreTrailingCommas, last, states, events, goes);
      if !heard.ok {
        return heard, last;
      }
      if step.Stop? {
        return heard, step.r.at;
      }
      last, states, events, skipToStateEvaluation := step.c.at, step.c.states, step.c.events, step.c.evaluate;
    }
  }

  /** What the consumer hears in one step, and where the step leads if it heard it all. */
  ghost predicate StepHeard(goes: seq<Event> -> bool, before: seq<Event>, expected: StepResult, r: StepResult,
                            heard: Heard)
  {
    && before <= StepEvents(expected)
    && heard == Told(goes, StepEvents(expected), |before|)
    && (heard.ok ==> r == expected)
  }

  /** The switch over the last token. */
  method ParseValue(tokens: seq<Token>, last: nat, states: seq<bool>, events: seq<Event>, goes: seq<Event> -> bool)
      returns (r: StepResult, heard: Heard)
    requires last <= |tokens|
    ensures StepHeard(goes, events, StepValue(tokens, Config(last, states, events, false)), r, heard)
  {
    match Peek(tokens, last) {
      case BeginObject => r, heard := ParseObject(tokens, last, states, events, goes);
      case BeginArray => r, heard := ParseArray(tokens, last, states, events, goes);
      case ValueFloat(x) =>
        if x.Finite? {
          r, heard := ParseScalar(last, states, events, Floating(x), goes);
        } else {
          r, heard := Report(last, events, 406, goes);
        }
      case LiteralFalse => r, heard := ParseScalar(last, states, events, Boolean(false), goes);
      case LiteralNull => r, heard := ParseScalar(last, states, events, Null, goes);
      case LiteralTrue => r, heard := ParseScalar(last, states, events, Boolean(true), goes);
      case ValueInteger(i) => r, heard := ParseScalar(last, states, events, Integer(i), goes);
      case ValueString(s) => r, heard := ParseScalar(last, states, events, Str(s), goes);
      case ValueUnsigned(u) => r, heard := ParseScalar(last, states, events, Unsigned(u), goes);
      case _ => r, heard := Report(last, events, 101, goes);
    }
  }

  /** sax->parse_error, whose answer is returned. */
  method Report(last: nat, events: seq<Event>, id: int, goes: seq<Event> -> bool) returns (r: StepResult, heard: Heard)
    ensures StepHeard(goes, events, Fail(last, events, id), r, heard)
  {
    r := Fail(last, events, id);
    TellNext(goes, events, Error(id), StepEvents(r));
    heard := Heard(goes(StepEvents(r)), StepEvents(r));
  }

  method ParseScalar(last: nat, states: seq<bool>, events: seq<Event>, v: Json, goes: seq<Event> -> bool)
      returns (r: StepResult, heard: Heard)
    ensures StepHeard(goes, events, Continue(Config(last, states, events + [Value(v)], true)), r, heard)
  {
    r := Continue(Config(last, states, events + [Value(v)], true));
    TellNext(goes, events, Value(v), StepEvents(r));
    heard := Heard(goes(StepEvents(r)), StepEvents(r));
  }

  method ParseArray(tokens: seq<Token>, last: nat, states: seq<bool>, events: seq<Event>, goes: seq<Event> -> bool)
      returns (r: StepResult, heard: Heard)
    requires Peek(tokens, last) == BeginArray
    ensures StepHeard(goes, events, StepValue(tokens, Config(last, states, events, false)), r, heard)
  {
    ghost var all := StepEvents(StepValue(tokens, Config(last, states, events, false)));
    var started := events + [StartArray];
    TellNext(goes, events, StartArray, all);
    if !goes(started) {
      return Continue(Config(last, states, started, true)), Heard(false, started);
    }
    if Peek(tokens, last + 1) == EndArray {
      TellNext(goes, started, EndOfArray, all);
      r := Continue(Config(last + 1, states, started + [EndOfArray], true));
      return r, Heard(goes(started + [EndOfArray]), started + [EndOfArray]);
    }
    return Continue(Config(last + 1, states + [true], started, false)), Heard(true, started);
  }

  method ParseObject(tokens: seq<Token>, last: nat, states: seq<bool>, events: seq<Event>, goes: seq<Event> -> bool)
      returns (r: StepResult, heard: Heard)
    requires Peek(tokens, last) == BeginObject
    ensures StepHeard(goes, events, StepValue(tokens, Config(last, states, events, false)), r, heard)
  {
    ghost var all := StepEvents(StepValue(tokens, Config(last, states, events, false)));
    var started := events + [StartObject];
    TellNext(goes, events, StartObject, all);
    if !goes(started) {
      return Continue(Config(last, states, started, true)), Heard(false, started);
    }
    if Peek(tokens, last + 1) == EndObject {
      TellNext(goes, started, EndOfObject, all);
      r := Continue(Config(last + 1, states, started + [EndOfObject], true));
      return r, Heard(goes(started + [EndOfObject]), started + [EndOfObject]);
    }
    r, heard := ParseMember(tokens, last + 1, states + [false], started, goes);
  }

  /** A key and the colon behind it. */
  method ParseMember(tokens: seq<Token>, at: nat, states: seq<bool>, events: seq<Event>, goes: seq<Event> -> bool)
      returns (r: StepResult, heard: Heard)
    ensures StepHeard(goes, events, StepMember(tokens, at, states, events), r, heard)
  {
    if !Peek(tokens, at).ValueString? {
      r, heard := Report(at, events, 101, goes);
      return;
    }
    var keyed := events + [Key(Peek(tokens, at).s)];
    TellNext(goes, events, Key(Peek(tokens, at).s), StepEvents(StepMember(tokens, at, states, events)));
    if !goes(keyed) {
      return Continue(Config(at, states, keyed, true)), Heard(false, keyed);
    }
    if Peek(tokens, at + 1) != NameSeparator {
      r, heard := Report(at + 1, keyed, 101, goes);
      return;
    }
    return Continue(Config(at + 2, states, keyed, false)), Heard(true, keyed);
  }

  /** A closing bracket or brace. */
  method CloseInnermost(tokens: seq<Token>, at: nat, states: seq<bool>, events: seq<Event>, close: Token, event: Event,
               goes: seq<Event> -> bool) returns (r: StepResult, heard: Heard)
    requires states != []
    ensures StepHeard(goes, events, StepClose(tokens, Config(at, states, events, true), at, close, event), r, heard)
  {
    if Peek(tokens, at) == close {
      r := Continue(Config(at, states[..|states| - 1], events + [event], true));
      TellNext(goes, events, event, StepEvents(r));
      return r, Heard(goes(events + [event]), events + [event]);
    }
    r, heard := Report(at, events, 101, goes);
  }

  /** What follows a value, depending on the innermost container. */
  method EvaluateState(tokens: seq<Token>, ignoreTrailingCommas: bool, last0: nat, states: seq<bool>,
                       events: seq<Event>,
                       goes: seq<Event> -> bool) returns (r: StepResult, heard: Heard)
    requires last0 <= |tokens| && states != []
    ensures StepHeard(goes, events, StepEvaluate(tokens, ignoreTrailingCommas, Config(last0, states, events, true)),
                      r, heard)
  {
    var last := last0 + 1;
    if states[|states| - 1] {
      if Peek(tokens, last) == ValueSeparator {
        last := last + 1;
        if !(ignoreTrailingCommas && Peek(tokens, last) == EndArray) {
          return Continue(Config(last, states, events, false)), Heard(true, events);
        }
      }
      r, heard := CloseInnermost(tokens, last, states, events, EndArray, EndOfArray, goes);
      return;
    }
    if Peek(tokens, last) == ValueSeparator {
      last := last + 1;
      if !(ignoreTrailingCommas && Peek(tokens, last) == EndObject) {
        r, heard := ParseMember(tokens, last, states, events, goes);
        return;
      }
    }
    r, heard := CloseInnermost(tokens, last, states, events, EndObject, EndOfObject, goes);
  }

  /** All calls sax_parse has to make: in strict mode nothing may follow the value. */
  function Calls(tokens: seq<Token>, trailingCommas: bool, strict: bool): seq<Event> {
    var r := Parse(tokens, trailingCommas);
    if strict && Peek(tokens, r.at + 1) != EndOfInput then r.events + [Error(101)] else r.events
  }

  /** sax_parse: the consumer hears the calls up to the first it refuses, and the parse
      succeeds exactly if it refuses none. */
  method SaxParse(tokens: seq<Token>, ignoreTrailingCommas: bool, strict: bool, goes: seq<Event> -> bool)
      returns (heard: Heard)
    ensures heard == Told(goes, Calls(tokens, ignoreTrailingCommas, strict), 0)
  {
    ghost var events, calls := Parse(tokens, ignoreTrailingCommas).events, Calls(tokens, ignoreTrailingCommas, strict);
    ToldFurther(goes, events, calls, 0);
    ToldAll(goes, events, 0);
    var at;
    heard, at := SaxParseInternal(tokens, ignoreTrailingCommas, goes);
    if heard.ok && strict && Peek(tokens, at + 1) != EndOfInput {
      TellNext(goes, heard.events, Error(101), calls);
      var reported := heard.events + [Error(101)];
      heard := Heard(goes(reported), reported);
    }
  }

  /** A consumer that stops at errors only, as the acceptor and the builder do. */
  predicate StopsAtErrors(events: seq<Event>) {
    events == [] || !events[|events| - 1].Error?
  }

  /** It hears what Reported says, and the parse succeeds exactly on accepted texts. */
  lemma ErrorsOnly(tokens: seq<Token>, trailingCommas: bool, strict: bool)
    ensures Told(StopsAtErrors, Calls(tokens, trailingCommas, strict), 0)
      == Heard(Accepts(tokens, trailingCommas, strict), Reported(tokens, trailingCommas, strict))
  {
    var r, calls := Parse(tokens, trailingCommas), Calls(tokens, trailingCommas, strict);
    ToldFurther(StopsAtErrors, r.events, calls, 0);
    if r.Rejected? {
      RejectedReports(tokens, trailingCommas, Config(0, [], [], false));
      HeardToTheError(r.events);
    } else {
      AcceptedIsSilent(tokens, trailingCommas, Config(0, [], [], false));
      HeardWithoutError(r.events);
      if calls != r.events {
        TellNext(StopsAtErrors, r.events, Error(101), calls);
      }
    }
  }

  lemma HeardWithoutError(events: seq<Event>)
    requires NoErrors(events)
    ensures Told(StopsAtErrors, events, 0) == Heard(true, events)
  {
    ToldAll(StopsAtErrors, events, 0);
  }

  lemma HeardToTheError(events: seq<Event>)
    requires OneErrorLast(events)
    ensures Told(StopsAtErrors, events, 0) == Heard(false, events)
  {
    ToldAll(StopsAtErrors, events, 0);
    assert events[..|events|] == events;
    assert !StopsAtErrors(events[..|events|]);
  }

  lemma {:induction false} AcceptedIsSilent(tokens: seq<Token>, trailingCommas: bool, c: Config)
    requires c.at <= |tokens| && Run(tokens, trailingCommas, c).Accepted?
    requires NoErrors(c.events)
    ensures NoErrors(Run(tokens, trailingCommas, c).events)
    decreases |tokens| - c.at, !c.evaluate
  {
    StepReports(tokens, trailingCommas, c);
    var r := Step(tokens, trailingCommas, c);
    if r.Continue? {
      AcceptedIsSilent(tokens, trailingCommas, r.c);
    }
  }

  predicate Accepts(tokens: seq<Token>, trailingCommas: bool, strict: bool) {
    var r := Parse(tokens, trailingCommas);
    r.Accepted? && (strict ==> Peek(tokens, r.at + 1) == EndOfInput)
  }

  function Reported(tokens: seq<Token>, trailingCommas: bool, strict: bool): seq<Event> {
    var r := Parse(tokens, trailingCommas);
    if r.Accepted? && strict && Peek(tokens, r.at + 1) != EndOfInput then r.events + [Error(101)] else r.events
  }

  /** In strict mode the whole text must be one derivable value, and its events are
      reported; a text has at most one derivation as far as events tell. */
  lemma StrictIff(tokens: seq<Token>, trailingCommas: bool)
    requires EndOfInput !in tokens
    ensures Accepts(tokens, trailingCommas, true) <==>
      exists t :: BeginsWith(tokens, trailingCommas, t) && Size(t) == |tokens|
    ensures forall t :: BeginsWith(tokens, trailingCommas, t) && Size(t) == |tokens| ==>
      Reported(tokens, trailingCommas, true) == Events(t)
  {
    if Accepts(tokens, trailingCommas, true) {
      var t := ParseSound(tokens, trailingCommas);
      assert BeginsWith(tokens, trailingCommas, t);
      LastToken(tokens, 0, t, trailingCommas);
    }
    forall t | BeginsWith(tokens, trailingCommas, t) && Size(t) == |tokens|
      ensures Accepts(tokens, trailingCommas, true) && Reported(tokens, trailingCommas, true) == Events(t)
    {
      ParseComplete(tokens, trailingCommas, t);
    }
  }

  lemma LastToken(tokens: seq<Token>, at: nat, t: Tree, trailingCommas: bool)
    requires Derivable(t, trailingCommas) && Spells(tokens, at, t)
    ensures at + Size(t) <= |tokens|
  {
  }

  predicate NoErrors(events: seq<Event>) {
    forall e :: e in events ==> !e.Error?
  }

  predicate OneErrorLast(events: seq<Event>) {
    && events != [] && (events[|events| - 1] == Error(101) || events[|events| - 1] == Error(406))
    && NoErrors(events[..|events| - 1])
  }

  /** A text that is not accepted is reported once, at the end of the events. */
  lemma {:induction false} RejectedReports(tokens: seq<Token>, trailingCommas: bool, c: Config)
    requires c.at <= |tokens| && Run(tokens, trailingCommas, c).Rejected? && NoErrors(c.events)
    ensures OneErrorLast(Run(tokens, trailingCommas, c).events)
    decreases |tokens| - c.at, !c.evaluate
  {
    StepReports(tokens, trailingCommas, c);
    var r := Step(tokens, trailingCommas, c);
    if r.Continue? {
      RejectedReports(tokens, trailingCommas, r.c);
    }
  }

  lemma StepReports(tokens: seq<Token>, trailingCommas: bool, c: Config)
    requires c.at <= |tokens| && NoErrors(c.events)
    ensures var r := Step(tokens, trailingCommas, c);
      if r.Continue? then NoErrors(r.c.events)
      else if r.r.Accepted? then NoErrors(r.r.events) else OneErrorLast(r.r.events)
  {
    if c.evaluate {
      EvaluateReports(tokens, trailingCommas, c);
    }
  }

  lemma EvaluateReports(tokens: seq<Token>, trailingCommas: bool, c: Config)
    requires NoErrors(c.events)
    ensures var r := StepEvaluate(tokens, trailingCommas, c);
      if r.Continue? then NoErrors(r.c.events)
      else if r.r.Accepted? then NoErrors(r.r.events) else OneErrorLast(r.r.events)
  {
  }
}
