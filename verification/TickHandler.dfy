/** A worker's loop over its queue. */
module TickHandlers {
  import opened Sequences
  import opened SpscQueue
  import opened UnitProcessors
  import opened Pipeline

  /** Timestamps and sent ticks after handling the items in turn. */
  datatype Handled = Handled(lasts: seq<int>, sent: seq<Item>)

  function HandleOne(h: Handled, configs: seq<Config>, item: Item): Handled
    requires item.processor < |h.lasts| == |configs|
  {
    var p := item.processor;
    Handled(h.lasts[p := NextLast(h.lasts[p], configs[p], item.tick)],
            if Accepts(h.lasts[p], configs[p], item.tick) then h.sent + [item] else h.sent)
  }

  function HandleAll(h: Handled, configs: seq<Config>, items: seq<Item>): (r: Handled)
    requires |h.lasts| == |configs| && forall i :: 0 <= i < |items| ==> items[i].processor < |configs|
    ensures |r.lasts| == |configs|
  {
    if items == [] then h else
      HandleOne(HandleAll(h, configs, items[..|items| - 1]), configs, items[|items| - 1])
  }

  /** What a bounded queue holds after items have been offered and nothing taken. */
  function Offered<T>(values: seq<T>, capacity: int, items: seq<T>): seq<T> {
    values + items[..Room(|values|, capacity, |items|)]
  }

  function Room(count: nat, capacity: int, offered: nat): nat {
    if capacity <= count then 0 else if capacity - count < offered then capacity - count else offered
  }

  lemma OfferedNext<T>(values: seq<T>, capacity: int, items: seq<T>, i: nat)
    requires i < |items|
    ensures var before := Offered(values, capacity, items[..i]);
      Offered(values, capacity, items[..i + 1]) == if |before| < capacity then before + [items[i]] else before
  {
    var n, m := Room(|values|, capacity, i), Room(|values|, capacity, i + 1);
    assert items[..i][..n] == items[..n] && items[..i + 1][..m] == items[..m];
  }

  /** What the market-data thread dispatches to this queue while the worker is between
      its calls of empty and front, while it handles the tick, and before the next turn. */
  datatype Turn<T> = Turn(first: seq<T>, second: seq<T>, third: seq<T>)

  /** The queue just before the turn pops, right after that, and when the turn ends. */
  function BeforePop<T>(values: seq<T>, capacity: int, turn: Turn<T>): seq<T> {
    Offered(Offered(values, capacity, turn.first), capacity, turn.second)
  }

  function AfterPop<T>(values: seq<T>, capacity: int, turn: Turn<T>): seq<T> {
    if values == [] then BeforePop(values, capacity, turn) else BeforePop(values, capacity, turn)[1..]
  }

  function TurnValues<T>(values: seq<T>, capacity: int, turn: Turn<T>): seq<T> {
    Offered(AfterPop(values, capacity, turn), capacity, turn.third)
  }

  /** The queue, the ticks taken from it and the ticks that found room. */
  datatype Ledger<T> = Ledger(values: seq<T>, taken: seq<T>, accepted: seq<T>)

  function AfterTurn<T>(l: Ledger<T>, capacity: int, turn: Turn<T>): Ledger<T> {
    var values := TurnValues(l.values, capacity, turn);
    Ledger(values, if l.values == [] then l.taken else l.taken + [l.values[0]],
           l.accepted + BeforePop(l.values, capacity, turn)[|l.values|..]
           + values[|AfterPop(l.values, capacity, turn)|..])
  }

  function AfterTurns<T>(values: seq<T>, capacity: int, turns: seq<Turn<T>>): Ledger<T> {
    if turns == [] then Ledger(values, [], []) else
      AfterTurn(AfterTurns(values, capacity, turns[..|turns| - 1]), capacity, turns[|turns| - 1])
  }

  /** Ticks are taken in the order in which they were accepted. */
  lemma {:induction false} TakenInOrder<T>(values: seq<T>, capacity: int, turns: seq<Turn<T>>)
    ensures var l := AfterTurns(values, capacity, turns); l.taken + l.values == values + l.accepted
    decreases |turns|
  {
    if turns != [] {
      var front, turn := turns[..|turns| - 1], turns[|turns| - 1];
      TakenInOrder(values, capacity, front);
      TurnKeepsOrder(values, AfterTurns(values, capacity, front), capacity, turn);
    }
  }

  lemma TurnKeepsOrder<T>(values: seq<T>, l: Ledger<T>, capacity: int, turn: Turn<T>)
    requires l.taken + l.values == values + l.accepted
    ensures var l' := AfterTurn(l, capacity, turn); l'.taken + l'.values == values + l'.accepted
  {
    var l' := AfterTurn(l, capacity, turn);
    var before, rest := BeforePop(l.values, capacity, turn), AfterPop(l.values, capacity, turn);
    var one, two := before[|l.values|..], l'.values[|rest|..];
    assert before == l.values + one && l'.values == rest + two;
    assert l'.taken + rest == l.taken + before by {
      if l.values != [] {
        HeadTail(before);
        Assoc(l.taken, [l.values[0]], rest);
      }
    }
    assert l'.taken + l'.values == l'.taken + rest + two by { Assoc(l'.taken, rest, two); }
    assert l.taken + before == l.taken + l.values + one by { Assoc(l.taken, l.values, one); }
    Assoc(values, l.accepted, one);
    Assoc(values, l.accepted + one, two);
  }

  class TickHandler {
    const queue: SPSCQueue<Item>
    const processors: seq<UnitProcessor>
    var sent: seq<Item>

    constructor (queue: SPSCQueue<Item>, processors: seq<UnitProcessor>)
      ensures this.queue == queue && this.processors == processors && sent == []
    {
      this.queue := queue;
      this.processors := processors;
      sent := [];
    }

    ghost function Lasts(): seq<int>
      reads processors
    {
      seq(|processors|, i requires 0 <= i < |processors| reads processors => processors[i].lastTimestamp)
    }

    ghost function Configs(): seq<Config> {
      seq(|processors|, i requires 0 <= i < |processors| => processors[i].config)
    }

    ghost predicate Valid()
      reads queue, queue.slots
    {
      && queue.Valid()
      && (forall i, j :: 0 <= i < j < |processors| ==> processors[i] != processors[j])
      && forall i :: 0 <= i < |queue.Values()| ==> queue.Values()[i].processor < |processors|
    }

    method HandleTick(item: Item)
      requires item.processor < |processors|
      requires forall i, j :: 0 <= i < j < |processors| ==> processors[i] != processors[j]
      modifies `sent, processors[item.processor]
      ensures Handled(Lasts(), sent) == HandleOne(Handled(old(Lasts()), old(sent)), Configs(), item)
    {
      var ok := processors[item.processor].Validate(item.tick);
      if ok {
        sent := sent + [item];
      }
    }

    ghost predicate AllKnown(items: seq<Item>) {
      forall i :: 0 <= i < |items| ==> items[i].processor < |processors|
    }

    ghost predicate KnownTurn(turn: Turn<Item>) {
      AllKnown(turn.first) && AllKnown(turn.second) && AllKnown(turn.third)
    }

    /** The market-data thread dispatches ticks; those that find the queue full are dropped. */
    method Dispatched(items: seq<Item>)
      requires Valid() && AllKnown(items)
      modifies queue, queue.slots
      ensures Valid() && queue.Values() == Offered(old(queue.Values()), queue.Capacity(), items)
      ensures queue.state.frontNonNull == old(queue.state.frontNonNull)
      ensures Lasts() == old(Lasts()) && sent == old(sent)
    {
      ghost var values, now := queue.Values(), queue.Values();
      assert items[..0] == [];
      for i := 0 to |items|
        invariant Valid() && queue.Values() == now == Offered(values, queue.Capacity(), items[..i])
        invariant queue.state.frontNonNull == old(queue.state.frontNonNull)
      {
        OfferedNext(values, queue.Capacity(), items, i);
        var ok := queue.TryEmplace(items[i]);
        now := if ok then now + [items[i]] else now;
      }
      assert items[..|items|] == items;
    }

    /** Handles the oldest tick and pops it. */
    method TakeOne(turn: Turn<Item>)
      requires Valid() && queue.Values() != [] && KnownTurn(turn)
      modifies `sent, queue, queue.slots, processors
      ensures Valid()
      ensures queue.Values() == Offered(old(queue.Values()), queue.Capacity(), turn.second)[1..]
      ensures Handled(Lasts(), sent) == HandleOne(Handled(old(Lasts()), old(sent)), Configs(), old(queue.Values())[0])
    {
      var current := queue.Front();
      HandleTick(current.value);
      Dispatched(turn.second);
      queue.Pop();
    }

    /** One turn of the loop.  A queue that is not empty has a front to dereference,
        whatever is dispatched in between. */
    method Poll(turn: Turn<Item>)
      requires Valid() && KnownTurn(turn)
      modifies `sent, queue, queue.slots, processors
      ensures Valid()
      ensures queue.Values() == TurnValues(old(queue.Values()), queue.Capacity(), turn)
      ensures Handled(Lasts(), sent) ==
        if old(queue.Values()) == [] then Handled(old(Lasts()), old(sent))
        else HandleOne(Handled(old(Lasts()), old(sent)), Configs(), old(queue.Values())[0])
    {
      var empty := queue.Empty();
      Dispatched(turn.first);
      if !empty {
        TakeOne(turn);
      } else {
        Dispatched(turn.second);
      }
      Dispatched(turn.third);
    }

    /** turns are those in which the loop finds itself still running. */
    method ProcessLoop(turns: seq<Turn<Item>>)
      requires Valid() && forall i :: 0 <= i < |turns| ==> KnownTurn(turns[i])
      modifies `sent, queue, queue.slots, processors
      ensures Valid()
      ensures var l := AfterTurns(old(queue.Values()), queue.Capacity(), turns);
        && queue.Values() == l.values
        && AllKnown(l.taken)
        && Handled(Lasts(), sent) == HandleAll(Handled(old(Lasts()), old(sent)), Configs(), l.taken)
    {
      ghost var start, values := Handled(Lasts(), sent), queue.Values();
      ghost var l := Ledger(values, [], []);
      for i := 0 to |turns|
        invariant Valid() && l == AfterTurns(values, queue.Capacity(), turns[..i])
        invariant queue.Values() == l.values && AllKnown(l.taken)
        invariant Handled(Lasts(), sent) == HandleAll(start, Configs(), l.taken)
      {
        Poll(turns[i]);
        if l.values != [] {
          HandleNext(start, Configs(), l.taken, l.values[0]);
        }
        TurnsNext(values, queue.Capacity(), turns, i);
        l := AfterTurn(l, queue.Capacity(), turns[i]);
      }
      assert turns[..|turns|] == turns;
    }
  }

  lemma TurnsNext<T>(values: seq<T>, capacity: int, turns: seq<Turn<T>>, i: nat)
    requires i < |turns|
    ensures AfterTurns(values, capacity, turns[..i + 1])
      == AfterTurn(AfterTurns(values, capacity, turns[..i]), capacity, turns[i])
  {
    assert turns[..i + 1][..i] == turns[..i];
  }

  lemma HandleNext(h: Handled, configs: seq<Config>, items: seq<Item>, item: Item)
    requires |h.lasts| == |configs| && item.processor < |configs|
    requires forall i :: 0 <= i < |items| ==> items[i].processor < |configs|
    ensures HandleAll(h, configs, items + [item]) == HandleOne(HandleAll(h, configs, items), configs, item)
  {
    Parts(items, [item]);
  }
}
