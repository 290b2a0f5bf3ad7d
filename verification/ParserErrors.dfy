/** Where the parser reports an error: at the first token with which no value goes on. */
module ParserErrors {
  import opened Sequences
  import opened Jsons
  import opened Grammar
  import opened Parser

  // --------------------------------------------- a run looks at nothing beyond

  ghost predicate SameUpTo(a: seq<Token>, b: seq<Token>, last: nat) {
    forall k: nat :: k <= last ==> Peek(a, k) == Peek(b, k)
  }

  /** Where a step leaves the index. */
  function Last(r: StepResult): nat {
    if r.Continue? then r.c.at else r.r.at
  }

  lemma StepIsLocal(a: seq<Token>, b: seq<Token>, trailingCommas: bool, c: Config)
    requires c.at <= |a| && c.at <= |b| && SameUpTo(a, b, Last(Step(a, trailingCommas, c)))
    ensures Step(b, trailingCommas, c) == Step(a, trailingCommas, c)
    ensures c.at <= Last(Step(a, trailingCommas, c))
  {
    assert Peek(a, c.at) == Peek(b, c.at);
    if c.evaluate {
      EvaluateIsLocal(a, b, trailingCommas, c);
    } else {
      ValueIsLocal(a, b, c);
    }
  }

  lemma ValueIsLocal(a: seq<Token>, b: seq<Token>, c: Config)
    requires SameUpTo(a, b, Last(StepValue(a, c)))
    ensures StepValue(b, c) == StepValue(a, c)
  {
    assert Peek(a, c.at) == Peek(b, c.at);
    if Last(StepValue(a, c)) > c.at {
      assert Peek(a, c.at + 1) == Peek(b, c.at + 1);
      assert Last(StepValue(a, c)) > c.at + 1 ==> Peek(a, c.at + 2) == Peek(b, c.at + 2);
    }
  }

  lemma EvaluateIsLocal(a: seq<Token>, b: seq<Token>, trailingCommas: bool, c: Config)
    requires SameUpTo(a, b, Last(StepEvaluate(a, trailingCommas, c)))
    ensures StepEvaluate(b, trailingCommas, c) == StepEvaluate(a, trailingCommas, c)
  {
    if c.states != [] {
      var last := Last(StepEvaluate(a, trailingCommas, c));
      assert Peek(a, c.at + 1) == Peek(b, c.at + 1);
      assert last > c.at + 1 ==> Peek(a, c.at + 2) == Peek(b, c.at + 2);
      assert last > c.at + 2 ==> Peek(a, c.at + 3) == Peek(b, c.at + 3);
    }
  }

  lemma {:induction false} RunForward(tokens: seq<Token>, trailingCommas: bool, c: Config)
    requires c.at <= |tokens|
    ensures c.at <= Run(tokens, trailingCommas, c).at
    decreases |tokens| - c.at, !c.evaluate
  {
    var r := Step(tokens, trailingCommas, c);
    if r.Continue? {
      RunForward(tokens, trailingCommas, r.c);
    }
  }

  lemma {:induction false} RunIsLocal(a: seq<Token>, b: seq<Token>, trailingCommas: bool, c: Config)
    requires c.at <= |a| && Run(a, trailingCommas, c).at <= |b| && SameUpTo(a, b, Run(a, trailingCommas, c).at)
    ensures c.at <= |b| && Run(b, trailingCommas, c) == Run(a, trailingCommas, c)
    decreases |a| - c.at, !c.evaluate
  {
    RunForward(a, trailingCommas, c);
    var r := Step(a, trailingCommas, c);
    if r.Continue? {
      RunForward(a, trailingCommas, r.c);
      StepIsLocal(a, b, trailingCommas, c);
      RunIsLocal(a, b, trailingCommas, r.c);
    } else {
      StepIsLocal(a, b, trailingCommas, c);
    }
  }

  /** With the token at which the error is reported no text goes on: whatever follows, the
      parser rejects it at the same place with the same events, and no value begins it. */
  lemma NoWayOn(tokens: seq<Token>, trailingCommas: bool, more: seq<Token>)
    requires Parse(tokens, trailingCommas).Rejected? && Parse(tokens, trailingCommas).at < |tokens|
    ensures var other := tokens[..Parse(tokens, trailingCommas).at + 1] + more;
      && Parse(other, trailingCommas) == Parse(tokens, trailingCommas)
      && forall t :: !BeginsWith(other, trailingCommas, t)
  {
    var at := Parse(tokens, trailingCommas).at;
    var other := tokens[..at + 1] + more;
    forall k: nat | k <= at ensures Peek(tokens, k) == Peek(other, k) {
    }
    RunIsLocal(tokens, other, trailingCommas, Config(0, [], [], false));
    ParseIff(other, trailingCommas);
  }

  // -------------------------------------- what stands before can be completed

  /** The tokens that close what is open. */
  function Closers(states: seq<bool>): seq<Token> {
    if states == [] then [] else
      [if states[|states| - 1] then EndArray else EndObject] + Closers(states[..|states| - 1])
  }

  /** From position i on stands just this. */
  predicate EndsWith(tokens: seq<Token>, i: nat, rest: seq<Token>) {
    i <= |tokens| && tokens[i..] == rest
  }

  lemma PeekRest(tokens: seq<Token>, i: nat, rest: seq<Token>, k: nat)
    requires EndsWith(tokens, i, rest)
    ensures Peek(tokens, i + k) == Peek(rest, k)
    ensures k <= |rest| ==> EndsWith(tokens, i + k, rest[k..])
  {
    if k < |rest| {
      assert tokens[i + k] == tokens[i..][k];
    }
    if k <= |rest| {
      DropTwice(tokens, i, k);
    }
  }

  lemma {:induction false} CloseAll(tokens: seq<Token>, trailingCommas: bool, c: Config)
    requires c.evaluate && EndsWith(tokens, c.at + 1, Closers(c.states))
    ensures Run(tokens, trailingCommas, c).Accepted? && c.events <= Run(tokens, trailingCommas, c).events
    decreases |c.states|
  {
    RunExtends(tokens, trailingCommas, c);
    if c.states != [] {
      PeekRest(tokens, c.at + 1, Closers(c.states), 0);
      PeekRest(tokens, c.at + 1, Closers(c.states), 1);
      var r := Step(tokens, trailingCommas, c);
      CloseAll(tokens, trailingCommas, r.c);
    }
  }

  lemma CloseAfterNull(tokens: seq<Token>, trailingCommas: bool, c: Config)
    requires !c.evaluate && EndsWith(tokens, c.at, [LiteralNull] + Closers(c.states))
    ensures Run(tokens, trailingCommas, c).Accepted? && c.events <= Run(tokens, trailingCommas, c).events
  {
    var rest := [LiteralNull] + Closers(c.states);
    RunExtends(tokens, trailingCommas, c);
    PeekRest(tokens, c.at, rest, 0);
    PeekRest(tokens, c.at, rest, 1);
    Parts([LiteralNull], Closers(c.states));
    CloseAll(tokens, trailingCommas, c.(events := c.events + [Value(Null)], evaluate := true));
  }

  /** With the given tokens from position at on, the run from c accepts and reports at
      least these events. */
  ghost predicate Completes(a: seq<Token>, trailingCommas: bool, c: Config, at: nat, more: seq<Token>,
                            events: seq<Event>) {
    && c.at <= at <= |a|
    && var r := Run(a[..at] + more, trailingCommas, c);
      r.Accepted? && events <= r.events
  }

  lemma PeekFront(a: seq<Token>, at: nat, more: seq<Token>)
    requires at <= |a|
    ensures forall k: nat :: k < at ==> Peek(a[..at] + more, k) == Peek(a, k)
    ensures EndsWith(a[..at] + more, at, more)
  {
    Parts(a[..at], more);
  }

  /** An index in the text, if the value is complete: that of its last token. */
  predicate Inside(tokens: seq<Token>, c: Config) {
    c.at <= |tokens| && (c.evaluate ==> c.at < |tokens| && Peek(tokens, c.at) != EndOfInput)
  }

  lemma NoValueHere(a: seq<Token>, trailingCommas: bool, c: Config) returns (more: seq<Token>)
    requires Inside(a, c) && !c.evaluate
    ensures more != [] && more[0] == LiteralNull && Completes(a, trailingCommas, c, c.at, more, c.events)
  {
    more := [LiteralNull] + Closers(c.states);
    PeekFront(a, c.at, more);
    CloseAfterNull(a[..c.at] + more, trailingCommas, c);
  }

  lemma NoKeyAfterBrace(a: seq<Token>, trailingCommas: bool, c: Config) returns (more: seq<Token>)
    requires Inside(a, c) && !c.evaluate && Peek(a, c.at) == BeginObject
    ensures Completes(a, trailingCommas, c, c.at + 1, more, c.events + [StartObject])
  {
    more := [EndObject] + Closers(c.states);
    var b := a[..c.at + 1] + more;
    PeekFront(a, c.at + 1, more);
    PeekRest(b, c.at + 1, more, 0);
    PeekRest(b, c.at + 1, more, 1);
    Parts([EndObject], Closers(c.states));
    var next := Config(c.at + 1, c.states, c.events + [StartObject] + [EndOfObject], true);
    assert Step(b, trailingCommas, c) == Continue(next);
    CloseAll(b, trailingCommas, next);
  }

  /** Once the key is there, a colon and a value complete the member. */
  lemma MemberCompletes(b: seq<Token>, trailingCommas: bool, at: nat, states: seq<bool>, events: seq<Event>)
    requires Peek(b, at).ValueString? && EndsWith(b, at + 1, [NameSeparator, LiteralNull] + Closers(states))
    ensures var r := StepMember(b, at, states, events);
      && r.Continue? && r.c.at <= |b| && Run(b, trailingCommas, r.c).Accepted?
      && events + [Key(Peek(b, at).s)] <= Run(b, trailingCommas, r.c).events
  {
    var rest := [NameSeparator, LiteralNull] + Closers(states);
    PeekRest(b, at + 1, rest, 0);
    PeekRest(b, at + 1, rest, 1);
    assert rest[1..] == [LiteralNull] + Closers(states);
    CloseAfterNull(b, trailingCommas, Config(at + 2, states, events + [Key(Peek(b, at).s)], false));
  }

  lemma NoColonAfterBrace(a: seq<Token>, trailingCommas: bool, c: Config) returns (more: seq<Token>)
    requires Inside(a, c) && !c.evaluate && Peek(a, c.at) == BeginObject && Peek(a, c.at + 1).ValueString?
    ensures Completes(a, trailingCommas, c, c.at + 2, more, c.events + [StartObject] + [Key(Peek(a, c.at + 1).s)])
  {
    var states := c.states + [false];
    more := [NameSeparator, LiteralNull] + Closers(states);
    var b := a[..c.at + 2] + more;
    PeekFront(a, c.at + 2, more);
    MemberCompletes(b, trailingCommas, c.at + 1, states, c.events + [StartObject]);
  }

  lemma MemberAfterComma(b: seq<Token>, trailingCommas: bool, c: Config)
    requires c.at < |b| && c.evaluate && c.states != [] && !c.states[|c.states| - 1]
    requires Peek(b, c.at + 1) == ValueSeparator && Peek(b, c.at + 2).ValueString?
    requires EndsWith(b, c.at + 3, [NameSeparator, LiteralNull] + Closers(c.states))
    ensures var r := Run(b, trailingCommas, c); r.Accepted? && c.events + [Key(Peek(b, c.at + 2).s)] <= r.events
  {
    MemberCompletes(b, trailingCommas, c.at + 2, c.states, c.events);
    assert Step(b, trailingCommas, c) == StepMember(b, c.at + 2, c.states, c.events);
  }

  lemma NoKeyAfterComma(a: seq<Token>, trailingCommas: bool, c: Config) returns (more: seq<Token>)
    requires Inside(a, c) && c.evaluate && c.states != [] && !c.states[|c.states| - 1]
    requires Peek(a, c.at + 1) == ValueSeparator
    ensures Completes(a, trailingCommas, c, c.at + 2, more, c.events)
  {
    var rest := [NameSeparator, LiteralNull] + Closers(c.states);
    more := [ValueString("")] + rest;
    var b := a[..c.at + 2] + more;
    PeekFront(a, c.at + 2, more);
    PeekRest(b, c.at + 2, more, 0);
    PeekRest(b, c.at + 2, more, 1);
    Parts([ValueString("")], rest);
    MemberAfterComma(b, trailingCommas, c);
  }

  lemma NoColonAfterComma(a: seq<Token>, trailingCommas: bool, c: Config) returns (more: seq<Token>)
    requires Inside(a, c) && c.evaluate && c.states != [] && !c.states[|c.states| - 1]
    requires Peek(a, c.at + 1) == ValueSeparator && Peek(a, c.at + 2).ValueString?
    ensures Completes(a, trailingCommas, c, c.at + 3, more, c.events + [Key(Peek(a, c.at + 2).s)])
  {
    more := [NameSeparator, LiteralNull] + Closers(c.states);
    var b := a[..c.at + 3] + more;
    PeekFront(a, c.at + 3, more);
    MemberAfterComma(b, trailingCommas, c);
  }

  lemma NoCloser(a: seq<Token>, trailingCommas: bool, c: Config) returns (more: seq<Token>)
    requires Inside(a, c) && c.evaluate && c.states != []
    ensures Completes(a, trailingCommas, c, c.at + 1, more, c.events)
  {
    more := Closers(c.states);
    PeekFront(a, c.at + 1, more);
    CloseAll(a[..c.at + 1] + more, trailingCommas, c);
  }

  /** What stands before a token that a step stops at can be completed. */
  lemma FailingStep(a: seq<Token>, trailingCommas: bool, c: Config) returns (more: seq<Token>)
    requires Inside(a, c) && Step(a, trailingCommas, c).Stop? && Step(a, trailingCommas, c).r.Rejected?
    ensures var r := Step(a, trailingCommas, c).r;
      && r.events != [] && Completes(a, trailingCommas, c, r.at, more, r.events[..|r.events| - 1])
      && (r.at == c.at ==> !c.evaluate && more != [] && more[0] == LiteralNull)
  {
    if !c.evaluate {
      more := FailingValue(a, trailingCommas, c);
    } else {
      more := FailingEvaluate(a, trailingCommas, c);
    }
  }

  lemma WithoutError(events: seq<Event>, id: int)
    ensures (events + [Error(id)])[..|events|] == events
  {
  }

  lemma FailingValue(a: seq<Token>, trailingCommas: bool, c: Config) returns (more: seq<Token>)
    requires Inside(a, c) && !c.evaluate && StepValue(a, c).Stop?
    ensures var r := StepValue(a, c).r;
      && r.Rejected? && r.events != [] && Completes(a, trailingCommas, c, r.at, more, r.events[..|r.events| - 1])
      && (r.at == c.at ==> more != [] && more[0] == LiteralNull)
  {
    if Peek(a, c.at) == BeginObject {
      var started := c.events + [StartObject];
      if Peek(a, c.at + 1).ValueString? {
        WithoutError(started + [Key(Peek(a, c.at + 1).s)], 101);
        more := NoColonAfterBrace(a, trailingCommas, c);
      } else {
        WithoutError(started, 101);
        more := NoKeyAfterBrace(a, trailingCommas, c);
      }
    } else {
      WithoutError(c.events, 101);
      WithoutError(c.events, 406);
      more := NoValueHere(a, trailingCommas, c);
    }
  }

  lemma FailingEvaluate(a: seq<Token>, trailingCommas: bool, c: Config) returns (more: seq<Token>)
    requires Inside(a, c) && c.evaluate
    requires StepEvaluate(a, trailingCommas, c).Stop? && StepEvaluate(a, trailingCommas, c).r.Rejected?
    ensures var r := StepEvaluate(a, trailingCommas, c).r;
      && r.events != [] && Completes(a, trailingCommas, c, r.at, more, r.events[..|r.events| - 1])
      && r.at > c.at
  {
    WithoutError(c.events, 101);
    if Peek(a, c.at + 1) != ValueSeparator {
      more := NoCloser(a, trailingCommas, c);
    } else if Peek(a, c.at + 2).ValueString? {
      WithoutError(c.events + [Key(Peek(a, c.at + 2).s)], 101);
      more := NoColonAfterComma(a, trailingCommas, c);
    } else {
      more := NoKeyAfterComma(a, trailingCommas, c);
    }
  }

  // -------------------------------------------------------- up to the failure

  /** Before the place of the error both texts are the same; there, where a value is
      missing, the other one may have null. */
  lemma StepTowards(a: seq<Token>, b: seq<Token>, trailingCommas: bool, c: Config, next: Config)
    requires Inside(a, c) && c.at <= |b| && Step(a, trailingCommas, c) == Continue(next)
    requires forall k: nat :: k < next.at ==> Peek(a, k) == Peek(b, k)
    requires Peek(a, next.at) == Peek(b, next.at) || (!next.evaluate && Peek(b, next.at) == LiteralNull)
    ensures Step(b, trailingCommas, c) == Continue(next)
  {
    if c.evaluate {
      EvaluateTowards(a, b, trailingCommas, c, next);
    }
  }

  lemma EvaluateTowards(a: seq<Token>, b: seq<Token>, trailingCommas: bool, c: Config, next: Config)
    requires Inside(a, c) && StepEvaluate(a, trailingCommas, c) == Continue(next)
    requires forall k: nat :: k < next.at ==> Peek(a, k) == Peek(b, k)
    requires Peek(a, next.at) == Peek(b, next.at) || (!next.evaluate && Peek(b, next.at) == LiteralNull)
    ensures StepEvaluate(b, trailingCommas, c) == Continue(next)
  {
    assert next.at > c.at;
    assert next.at > c.at + 1 ==> Peek(a, c.at + 1) == Peek(b, c.at + 1);
    assert next.at > c.at + 2 ==> Peek(a, c.at + 2) == Peek(b, c.at + 2);
    assert next.at > c.at + 3 ==> Peek(a, c.at + 3) == Peek(b, c.at + 3);
  }

  lemma {:induction false} UpToTheError(a: seq<Token>, trailingCommas: bool, c: Config) returns (more: seq<Token>)
    requires Inside(a, c) && Run(a, trailingCommas, c).Rejected?
    ensures var r := Run(a, trailingCommas, c);
      && r.events != [] && Completes(a, trailingCommas, c, r.at, more, r.events[..|r.events| - 1])
      && (r.at == c.at ==> !c.evaluate && more != [] && more[0] == LiteralNull)
    decreases |a| - c.at, !c.evaluate
  {
    var step := Step(a, trailingCommas, c);
    if step.Stop? {
      more := FailingStep(a, trailingCommas, c);
    } else {
      StepStaysInside(a, trailingCommas, c);
      more := UpToTheError(a, trailingCommas, step.c);
      var at := Run(a, trailingCommas, step.c).at;
      PeekFront(a, at, more);
      PeekRest(a[..at] + more, at, more, 0);
      StepTowards(a, a[..at] + more, trailingCommas, c, step.c);
    }
  }

  lemma StepStaysInside(a: seq<Token>, trailingCommas: bool, c: Config)
    requires Inside(a, c) && Step(a, trailingCommas, c).Continue?
    ensures Inside(a, Step(a, trailingCommas, c).c)
  {
  }

  /** The error is reported as early as can be: the tokens before it begin some derivable
      value, and what had been reported is the beginning of that value's events. */
  lemma ErrorAtFirstMisfit(tokens: seq<Token>, trailingCommas: bool) returns (more: seq<Token>, t: Tree)
    requires Parse(tokens, trailingCommas).Rejected?
    ensures var r := Parse(tokens, trailingCommas);
      && r.at <= |tokens| && BeginsWith(tokens[..r.at] + more, trailingCommas, t)
      && r.events != [] && r.events[..|r.events| - 1] <= Events(t)
  {
    var r := Parse(tokens, trailingCommas);
    more := UpToTheError(tokens, trailingCommas, Config(0, [], [], false));
    t := ParseSound(tokens[..r.at] + more, trailingCommas);
  }
}
