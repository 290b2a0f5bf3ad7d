/** Tokens, the grammar of sections 2 to 5 of RFC 8259 as parse trees, and the events
    a value is reported by. */
module Grammar {
  import opened Diyfps
  import opened Jsons

  datatype Token =
    | BeginArray | EndArray | BeginObject | EndObject | NameSeparator | ValueSeparator
    | LiteralTrue | LiteralFalse | LiteralNull
    | ValueString(s: string) | ValueUnsigned(u: Word) | ValueInteger(i: Int64) | ValueFloat(x: Float)
    | ParseError | EndOfInput

  /** The calls a parser makes to its consumer. */
  datatype Event =
    | StartObject | Key(k: string) | EndOfObject | StartArray | EndOfArray
    | Value(v: Json)
    | Error(id: int)

  /** A derivation.  Members keep their order and duplicates; trailing tells whether a
      comma follows the last element or member. */
  datatype Tree =
    | Scalar(token: Token)
    | Elements(items: seq<Tree>, trailing: bool)
    | Members(members: seq<Member>, trailing: bool)

  datatype Member = Member(key: string, value: Tree)

  predicate IsScalar(t: Token) {
    || t.LiteralTrue? || t.LiteralFalse? || t.LiteralNull? || t.ValueString?
    || t.ValueUnsigned? || t.ValueInteger? || t.ValueFloat?
  }

  function ScalarValue(t: Token): Json
    requires IsScalar(t)
  {
    match t
    case LiteralTrue => Boolean(true)
    case LiteralFalse => Boolean(false)
    case LiteralNull => Null
    case ValueString(s) => Str(s)
    case ValueUnsigned(u) => Unsigned(u)
    case ValueInteger(i) => Integer(i)
    case ValueFloat(x) => Floating(x)
  }

  /** Numbers are finite; a trailing comma needs the flag and something before it. */
  predicate Derivable(t: Tree, trailingCommas: bool) {
    match t
    case Scalar(token) => IsScalar(token) && (token.ValueFloat? ==> token.x.Finite?)
    case Elements(items, trailing) =>
      && (trailing ==> trailingCommas && items != [])
      && forall i :: 0 <= i < |items| ==> Derivable(items[i], trailingCommas)
    case Members(members, trailing) =>
      && (trailing ==> trailingCommas && members != [])
      && forall i :: 0 <= i < |members| ==> Derivable(members[i].value, trailingCommas)
  }

  /** How many tokens spell a tree. */
  function Size(t: Tree): (r: nat)
    ensures r > 0
    decreases t, 1
  {
    match t
    case Scalar(_) => 1
    case Elements(items, trailing) => ItemsSize(items) + (if trailing then 3 else 2)
    case Members(members, trailing) => MembersSize(members) + (if trailing then 3 else 2)
  }

  function ItemsSize(items: seq<Tree>): (r: nat)
    ensures items != [] ==> r > 0
    decreases items, 0
  {
    if items == [] then 0 else
      ItemsSize(items[..|items| - 1]) + (if |items| > 1 then 1 else 0) + Size(items[|items| - 1])
  }

  function MembersSize(members: seq<Member>): (r: nat)
    ensures members != [] ==> r > 0
    decreases members, 0
  {
    if members == [] then 0 else
      MembersSize(members[..|members| - 1]) + (if |members| > 1 then 1 else 0) + 2 + Size(members[|members| - 1].value)
  }

  predicate TokenAt(tokens: seq<Token>, at: nat, t: Token) {
    at < |tokens| && tokens[at] == t
  }

  /** The tokens from position at on spell t. */
  predicate Spells(tokens: seq<Token>, at: nat, t: Tree)
    decreases t, 1
  {
    match t
    case Scalar(token) => TokenAt(tokens, at, token)
    case Elements(items, trailing) =>
      && TokenAt(tokens, at, BeginArray) && ItemsSpell(tokens, at + 1, items)
      && (trailing ==> TokenAt(tokens, at + 1 + ItemsSize(items), ValueSeparator))
      && TokenAt(tokens, at + Size(t) - 1, EndArray)
    case Members(members, trailing) =>
      && TokenAt(tokens, at, BeginObject) && MembersSpell(tokens, at + 1, members)
      && (trailing ==> TokenAt(tokens, at + 1 + MembersSize(members), ValueSeparator))
      && TokenAt(tokens, at + Size(t) - 1, EndObject)
  }

  predicate ItemsSpell(tokens: seq<Token>, at: nat, items: seq<Tree>)
    decreases items, 0
  {
    items == [] ||
    var front := items[..|items| - 1];
    var end := at + ItemsSize(front);
    && ItemsSpell(tokens, at, front)
    && (|items| > 1 ==> TokenAt(tokens, end, ValueSeparator))
    && Spells(tokens, if |items| > 1 then end + 1 else end, items[|items| - 1])
  }

  predicate MembersSpell(tokens: seq<Token>, at: nat, members: seq<Member>)
    decreases members, 0
  {
    members == [] ||
    var front := members[..|members| - 1];
    var end := at + MembersSize(front);
    && MembersSpell(tokens, at, front)
    && (|members| > 1 ==> TokenAt(tokens, end, ValueSeparator))
    && MemberSpells(tokens, if |members| > 1 then end + 1 else end, members[|members| - 1])
  }

  predicate MemberSpells(tokens: seq<Token>, at: nat, m: Member)
    decreases m, 2
  {
    TokenAt(tokens, at, ValueString(m.key)) && TokenAt(tokens, at + 1, NameSeparator) && Spells(tokens, at + 2, m.value)
  }

  function Events(t: Tree): seq<Event>
    decreases t, 1
  {
    match t
    case Scalar(token) => if IsScalar(token) then [Value(ScalarValue(token))] else []
    case Elements(items, _) => [StartArray] + ItemEvents(items) + [EndOfArray]
    case Members(members, _) => [StartObject] + MemberEvents(members) + [EndOfObject]
  }

  function ItemEvents(items: seq<Tree>): seq<Event>
    decreases items, 0
  {
    if items == [] then [] else ItemEvents(items[..|items| - 1]) + Events(items[|items| - 1])
  }

  function OneMemberEvents(m: Member): seq<Event>
    decreases m, 2
  {
    [Key(m.key)] + Events(m.value)
  }

  function MemberEvents(members: seq<Member>): seq<Event>
    decreases members, 0
  {
    if members == [] then [] else
      MemberEvents(members[..|members| - 1]) + OneMemberEvents(members[|members| - 1])
  }
}
