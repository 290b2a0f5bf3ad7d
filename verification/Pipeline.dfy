/** The tick pipeline: contracts are mapped to worker threads, the market-data thread
    dispatches ticks into their queues, the workers validate and send. */
module Pipeline {
  import opened Powers
  import opened Sequences
  import opened UnitProcessors

  // ------------------------------------------------------------ starting up

  const MAX_TICK_QUEUE_SIZE := 8

  /** One worker per processor core, but no more than contracts. */
  function ThreadCount(cpus: int, contracts: nat): (r: nat)
    ensures 1 <= r && (contracts > 0 ==> r <= contracts) && (cpus > 0 ==> r <= cpus)
    ensures contracts == 0 || cpus <= 0 ==> r == 1
    ensures contracts > 0 && cpus > 0 ==> r == contracts || r == cpus
  {
    var available := if cpus <= 0 then 1 else cpus;
    var least := if available < contracts then available else contracts;
    if least > 1 then least else 1
  }

  function QueueSize(contracts: nat, threads: nat): int
    requires threads > 0
  {
    var multiple := contracts / threads;
    (if multiple > 1 then multiple else 1) * MAX_TICK_QUEUE_SIZE
  }

  /** A queue has eight places for every contract of its worker, up to the one contract
      by which workers differ. */
  lemma QueueSizeShare(contracts: nat, cpus: int)
    ensures var threads := ThreadCount(cpus, contracts);
      var q := QueueSize(contracts, threads);
      && q >= MAX_TICK_QUEUE_SIZE && q % MAX_TICK_QUEUE_SIZE == 0
      && (if contracts > 0 then q * threads <= MAX_TICK_QUEUE_SIZE * contracts else q == MAX_TICK_QUEUE_SIZE)
      && MAX_TICK_QUEUE_SIZE * contracts < (q + MAX_TICK_QUEUE_SIZE) * threads
  {
    var threads := ThreadCount(cpus, contracts);
    var m := contracts / threads;
    assert contracts == m * threads + contracts % threads;
    if contracts > 0 {
      AtLeastOnce(contracts, threads);
      assert QueueSize(contracts, threads) == m * MAX_TICK_QUEUE_SIZE;
      assert m * MAX_TICK_QUEUE_SIZE * threads == MAX_TICK_QUEUE_SIZE * (m * threads);
      assert (m * MAX_TICK_QUEUE_SIZE + MAX_TICK_QUEUE_SIZE) * threads
        == MAX_TICK_QUEUE_SIZE * (m * threads) + MAX_TICK_QUEUE_SIZE * threads;
    }
  }

  /** How many of the first n processors queue q serves, with the queues in turn. */
  function Served(n: nat, queues: nat, q: nat): nat
    requires queues > 0
  {
    if n == 0 then 0 else Served(n - 1, queues, q) + if (n - 1) % queues == q then 1 else 0
  }

  lemma {:induction false} ServedCount(n: nat, queues: nat, q: nat)
    requires q < queues
    ensures Served(n, queues, q) == n / queues + if q < n % queues then 1 else 0
  {
    if n > 0 {
      ServedCount(n - 1, queues, q);
      NextQuotient(n - 1, queues);
    }
  }

  lemma NextQuotient(n: nat, size: nat)
    requires size > 0
    ensures if n % size + 1 < size then (n + 1) / size == n / size && (n + 1) % size == n % size + 1
            else (n + 1) / size == n / size + 1 && (n + 1) % size == 0
  {
    var q, r := n / size, n % size;
    assert n == q * size + r;
    if r + 1 < size {
      DivisionUnique((n + 1) / size, (n + 1) % size, q, r + 1, size);
    } else {
      assert n + 1 == (q + 1) * size;
      DivisionUnique((n + 1) / size, (n + 1) % size, q + 1, 0, size);
    }
  }

  /** A worker serves more contracts than its queue was sized for exactly if its number
      is below the remainder of contracts over threads. */
  lemma QueueTooShort(contracts: nat, cpus: int, q: nat)
    requires q < ThreadCount(cpus, contracts)
    ensures var threads := ThreadCount(cpus, contracts);
      MAX_TICK_QUEUE_SIZE * Served(contracts, threads, q) > QueueSize(contracts, threads) <==> q < contracts % threads
  {
    var threads := ThreadCount(cpus, contracts);
    ServedCount(contracts, threads, q);
    if contracts > 0 {
      AtLeastOnce(contracts, threads);
    }
  }

  /** Three contracts on two cores: worker 0 serves two of them with places for one. */
  lemma FirstQueueTooShort()
    ensures ThreadCount(2, 3) == 2 && Served(3, 2, 0) == 2 && QueueSize(3, 2) == MAX_TICK_QUEUE_SIZE
  {
    ServedCount(3, 2, 0);
  }

  lemma AtLeastOnce(n: nat, size: nat)
    requires 0 < size <= n
    ensures n / size >= 1
  {
    var q := n / size;
    assert n == q * size + n % size;
    if q <= 0 { MulLe(q, 0, size); }
  }

  datatype DispatchUnit = DispatchUnit(queue: nat, processor: nat)

  /** Every name is mapped to its first occurrence, round robin over the queues. */
  ghost predicate RoundRobin(mapping: map<string, DispatchUnit>, names: seq<string>, queues: nat)
    requires queues > 0
  {
    && (forall name :: name in mapping <==> name in names)
    && (forall name :: name in mapping ==> Placed(mapping[name], name, names, queues))
  }

  predicate Placed(u: DispatchUnit, name: string, names: seq<string>, queues: nat)
    requires queues > 0
  {
    var i := u.processor;
    i < |names| && names[i] == name && name !in names[..i] && u.queue == i % queues
  }

  method InitDispatcher(names: seq<string>, queues: nat) returns (mapping: map<string, DispatchUnit>)
    requires queues > 0
    ensures RoundRobin(mapping, names, queues)
  {
    mapping := map[];
    var threadIdx := 0;
    for i := 0 to |names|
      invariant RoundRobin(mapping, names[..i], queues) && threadIdx == i % queues
    {
      ghost var before := mapping;
      if names[i] !in mapping {
        mapping := mapping[names[i] := DispatchUnit(threadIdx, i)];
      }
      RoundRobinStep(before, names, i, queues);
      NextThread(i, queues);
      threadIdx := (threadIdx + 1) % queues;
    }
    assert names[..|names|] == names;
  }

  lemma RoundRobinStep(mapping: map<string, DispatchUnit>, names: seq<string>, i: nat, queues: nat)
    requires queues > 0 && i < |names| && RoundRobin(mapping, names[..i], queues)
    ensures RoundRobin(if names[i] in mapping then mapping else mapping[names[i] := DispatchUnit(i % queues, i)],
                       names[..i + 1], queues)
  {
    assert names[..i + 1] == names[..i] + [names[i]];
    forall name | name in mapping ensures Placed(mapping[name], name, names[..i + 1], queues) {
      assert Placed(mapping[name], name, names[..i], queues);
      assert names[..i + 1][..mapping[name].processor] == names[..i][..mapping[name].processor];
    }
    assert names[..i + 1][..i] == names[..i];
  }

  lemma NextThread(i: nat, queues: nat)
    requires queues > 0
    ensures (i % queues + 1) % queues == (i + 1) % queues
  {
    NextQuotient(i, queues);
    if i % queues + 1 == queues {
      ModOf(1, 0, queues);
    } else {
      ModOf(0, i % queues + 1, queues);
    }
  }

  function ServedNames(mapping: map<string, DispatchUnit>, q: nat): set<string> {
    set name | name in mapping && mapping[name].queue == q
  }

  lemma LastProcessor(mapping: map<string, DispatchUnit>, names: seq<string>, queues: nat)
    requires queues > 0 && names != [] && RoundRobin(mapping, names, queues) && Distinct(names)
    ensures var n := |names| - 1; names[n] in mapping && mapping[names[n]] == DispatchUnit(n % queues, n)
  {
    var n := |names| - 1;
    assert names[n] in names && Placed(mapping[names[n]], names[n], names, queues);
    assert forall j :: 0 <= j < n ==> names[j] != names[n];
  }

  lemma RoundRobinFront(mapping: map<string, DispatchUnit>, names: seq<string>, queues: nat)
    requires queues > 0 && names != [] && RoundRobin(mapping, names, queues) && Distinct(names)
    ensures var n := |names| - 1;
      names[n] in mapping && mapping[names[n]] == DispatchUnit(n % queues, n)
      && RoundRobin(mapping - {names[n]}, names[..n], queues)
  {
    var n := |names| - 1;
    var front, last, before := names[..n], names[n], mapping - {names[n]};
    LastProcessor(mapping, names, queues);
    forall name ensures name in before <==> name in front {
      InFront(names, name);
      assert name in mapping <==> name in names;
    }
    forall name | name in before ensures Placed(before[name], name, front, queues) {
      assert Placed(mapping[name], name, names, queues);
      assert names[..mapping[name].processor] == front[..mapping[name].processor];
    }
  }

  lemma InFront(names: seq<string>, name: string)
    requires names != [] && Distinct(names)
    ensures var n := |names| - 1; name in names[..n] <==> name in names && name != names[n]
  {
    FrontLast(names);
    assert forall j :: 0 <= j < |names| - 1 ==> names[j] != names[|names| - 1];
  }

  /** With a mapping made round robin, that many different contracts go to queue q. */
  lemma {:induction false} RoundRobinServes(mapping: map<string, DispatchUnit>, names: seq<string>, queues: nat, q: nat)
    requires queues > 0 && RoundRobin(mapping, names, queues) && Distinct(names)
    ensures |ServedNames(mapping, q)| == Served(|names|, queues, q)
    decreases |names|
  {
    if names == [] {
      assert ServedNames(mapping, q) == {};
    } else {
      var n := |names| - 1;
      var before := mapping - {names[n]};
      RoundRobinFront(mapping, names, queues);
      RoundRobinServes(before, names[..n], queues, q);
      OneMoreServed(mapping, names[n], q);
    }
  }

  lemma OneMoreServed(mapping: map<string, DispatchUnit>, name: string, q: nat)
    requires name in mapping
    ensures |ServedNames(mapping, q)| == |ServedNames(mapping - {name}, q)| + if mapping[name].queue == q then 1 else 0
  {
    var own := if mapping[name].queue == q then {name} else {};
    assert ServedNames(mapping, q) == ServedNames(mapping - {name}, q) + own;
  }

  // ------------------------------------------------------------- the machine

  datatype Item = Item(processor: nat, tick: Tick)

  /** What is fixed at start-up. */
  datatype Setup = Setup(mapping: map<string, DispatchUnit>, configs: seq<Config>, queues: nat, capacity: nat)

  /** The queues with what each worker is doing, the timestamp of every processor, and
      the logs per processor and in total. */
  datatype State = State(
    queues: seq<seq<Item>>,
    popping: seq<bool>,
    lasts: seq<int>,
    enqueued: seq<seq<Tick>>,
    handled: seq<seq<Tick>>,
    sent: seq<seq<Tick>>,
    known: nat,
    dropped: nat,
    rejected: nat,
    sentTotal: nat)

  datatype Step = Dispatch(name: string, tick: Tick) | Handle(worker: nat) | Pop(worker: nat)

  function Init(u: Setup): State {
    var none := seq(|u.configs|, _ => []);
    State(seq(u.queues, _ => []), seq(u.queues, _ => false), seq(|u.configs|, _ => 0), none, none, none, 0, 0, 0, 0)
  }

  predicate Shaped(u: Setup, s: State) {
    && |s.queues| == |s.popping| == u.queues
    && |s.lasts| == |s.enqueued| == |s.handled| == |s.sent| == |u.configs|
    && (forall name :: name in u.mapping ==>
          u.mapping[name].queue < u.queues && u.mapping[name].processor < |u.configs|)
    && (forall w :: 0 <= w < u.queues ==> forall i :: 0 <= i < |s.queues[w]| ==> s.queues[w][i].processor < |u.configs|)
  }

  /** A worker handles the front of a non-empty queue and pops it afterwards. */
  predicate Enabled(u: Setup, s: State, step: Step)
    requires Shaped(u, s)
  {
    match step
    case Dispatch(_, _) => true
    case Handle(w) => w < u.queues && !s.popping[w] && s.queues[w] != []
    case Pop(w) => w < u.queues && s.popping[w] && s.queues[w] != []
  }

  function Do(u: Setup, s: State, step: Step): State
    requires Shaped(u, s) && Enabled(u, s, step)
  {
    match step
    case Dispatch(name, tick) =>
      if name !in u.mapping then s else
        var q, p := u.mapping[name].queue, u.mapping[name].processor;
        if |s.queues[q]| < u.capacity then
          s.(queues := s.queues[q := s.queues[q] + [Item(p, tick)]],
             enqueued := s.enqueued[p := s.enqueued[p] + [tick]],
             known := s.known + 1)
        else s.(known := s.known + 1, dropped := s.dropped + 1)
    case Handle(w) =>
      var item := s.queues[w][0];
      var p := item.processor;
      var ok := Accepts(s.lasts[p], u.configs[p], item.tick);
      s.(popping := s.popping[w := true],
         lasts := s.lasts[p := NextLast(s.lasts[p], u.configs[p], item.tick)],
         handled := s.handled[p := s.handled[p] + [item.tick]],
         sent := if ok then s.sent[p := s.sent[p] + [item.tick]] else s.sent,
         sentTotal := if ok then s.sentTotal + 1 else s.sentTotal,
         rejected := if ok then s.rejected else s.rejected + 1)
    case Pop(w) => s.(popping := s.popping[w := false], queues := s.queues[w := s.queues[w][1..]])
  }

  // --------------------------------------------------------------- invariant

  /** The ticks a processor forwards from a stream. */
  function Filter(config: Config, ticks: seq<Tick>): seq<Tick> {
    if ticks == [] then [] else
      var front, last := ticks[..|ticks| - 1], ticks[|ticks| - 1];
      Filter(config, front) + if Accepts(LastAfter(config, front), config, last) then [last] else []
  }

  /** What worker w has not handled yet. */
  function Pending(s: State, w: nat): seq<Item>
    requires w < |s.queues| == |s.popping|
  {
    if s.popping[w] && s.queues[w] != [] then s.queues[w][1..] else s.queues[w]
  }

  function TicksFor(p: nat, items: seq<Item>): seq<Tick> {
    if items == [] then [] else
      TicksFor(p, items[..|items| - 1]) + if items[|items| - 1].processor == p then [items[|items| - 1].tick] else []
  }

  /** The ticks in all logs together. */
  function Total(logs: seq<seq<Tick>>): nat {
    if logs == [] then 0 else Total(logs[..|logs| - 1]) + |logs[|logs| - 1]|
  }

  lemma {:induction false} TotalOfUpdate(logs: seq<seq<Tick>>, p: nat, log: seq<Tick>)
    requires p < |logs|
    ensures Total(logs[p := log]) == Total(logs) - |logs[p]| + |log|
    decreases |logs|
  {
    var n := |logs| - 1;
    if p < n {
      TotalOfUpdate(logs[..n], p, log);
      assert logs[p := log][..n] == logs[..n][p := log];
    } else {
      assert logs[p := log][..n] == logs[..n];
    }
  }

  lemma {:induction false} TotalOfNone(n: nat)
    ensures Total(seq(n, _ => [])) == 0
  {
    if n > 0 {
      TotalOfNone(n - 1);
      var logs: seq<seq<Tick>> := seq(n, _ => []);
      assert logs[..n - 1] == seq(n - 1, _ => []);
    }
  }

  /** The counters are what the logs say. */
  predicate CountersAgree(s: State) {
    && s.sentTotal == Total(s.sent)
    && s.rejected == Total(s.handled) - Total(s.sent)
    && s.known - s.dropped == Total(s.enqueued)
  }

  function TotalPending(s: State, n: nat): nat
    requires n <= |s.queues| == |s.popping|
  {
    if n == 0 then 0 else TotalPending(s, n - 1) + |Pending(s, n - 1)|
  }

  ghost predicate Inv(u: Setup, s: State) {
    && Shaped(u, s) && u.queues > 0
    && (forall w :: 0 <= w < u.queues ==> QueueInv(u, s, w))
    && (forall p :: 0 <= p < |u.configs| ==> ProcessorInv(u, s, p))
    && s.known == s.dropped + TotalPending(s, u.queues) + s.rejected + s.sentTotal
    && CountersAgree(s)
  }

  /** A queue holds ticks of its own processors only. */
  ghost predicate QueueInv(u: Setup, s: State, w: nat)
    requires Shaped(u, s) && u.queues > 0 && w < u.queues
  {
    && |s.queues[w]| <= u.capacity
    && (s.popping[w] ==> s.queues[w] != [])
    && forall i :: 0 <= i < |s.queues[w]| ==> s.queues[w][i].processor % u.queues == w
  }

  /** A processor's ticks are handled in dispatch order, its timestamp and the ticks it
      let through are those of the handled stream. */
  ghost predicate ProcessorInv(u: Setup, s: State, p: nat)
    requires Shaped(u, s) && u.queues > 0 && p < |u.configs|
  {
    InStep(u.configs[p], s.enqueued[p], s.handled[p], s.sent[p], s.lasts[p], TicksFor(p, Pending(s, p % u.queues)))
  }

  ghost predicate InStep(config: Config, enqueued: seq<Tick>, handled: seq<Tick>, sent: seq<Tick>, last: int,
                         pending: seq<Tick>) {
    enqueued == handled + pending && last == LastAfter(config, handled) && sent == Filter(config, handled)
  }

  lemma InStepEnqueue(config: Config, enqueued: seq<Tick>, handled: seq<Tick>, sent: seq<Tick>, last: int,
                      pending: seq<Tick>, tick: Tick)
    requires InStep(config, enqueued, handled, sent, last, pending)
    ensures InStep(config, enqueued + [tick], handled, sent, last, pending + [tick])
  {
    Assoc(handled, pending, [tick]);
  }

  lemma InStepHandle(config: Config, enqueued: seq<Tick>, handled: seq<Tick>, sent: seq<Tick>, last: int, tick: Tick,
                     rest: seq<Tick>)
    requires InStep(config, enqueued, handled, sent, last, [tick] + rest)
    ensures InStep(config, enqueued, handled + [tick], if Accepts(last, config, tick) then sent + [tick] else sent,
                   NextLast(last, config, tick), rest)
  {
    Assoc(handled, [tick], rest);
    Parts(handled, [tick]);
  }

  ghost predicate ValidSetup(u: Setup) {
    u.queues > 0 && forall name :: name in u.mapping ==>
      u.mapping[name].processor < |u.configs| && u.mapping[name].queue == u.mapping[name].processor % u.queues
  }

  /** The mapping InitDispatcher makes is a valid set-up. */
  lemma DispatcherSetsUp(u: Setup, names: seq<string>)
    requires u.queues > 0 && RoundRobin(u.mapping, names, u.queues) && |u.configs| == |names|
    ensures ValidSetup(u)
  {
  }

  lemma InitInv(u: Setup)
    requires ValidSetup(u)
    ensures Inv(u, Init(u))
  {
    NothingPending(u, u.queues);
    TotalOfNone(|u.configs|);
  }

  lemma {:induction false} NothingPending(u: Setup, n: nat)
    requires n <= u.queues
    ensures TotalPending(Init(u), n) == 0
  {
    if n > 0 {
      NothingPending(u, n - 1);
    }
  }

  lemma {:induction false} TicksForFirst(p: nat, item: Item, rest: seq<Item>)
    ensures TicksFor(p, [item] + rest) == (if item.processor == p then [item.tick] else []) + TicksFor(p, rest)
  {
    var all := [item] + rest;
    if rest == [] {
      assert all[..0] == [];
    } else {
      TicksForFirst(p, item, rest[..|rest| - 1]);
      assert all[..|all| - 1] == [item] + rest[..|rest| - 1];
    }
  }

  lemma TicksForLast(p: nat, items: seq<Item>, item: Item)
    ensures TicksFor(p, items + [item]) == TicksFor(p, items) + if item.processor == p then [item.tick] else []
  {
    Parts(items, [item]);
  }

  /** Only one worker's pending ticks change, by d. */
  lemma {:induction false} TotalPendingChange(s: State, s': State, w: nat, d: int, n: nat)
    requires |s.queues| == |s.popping| == |s'.queues| == |s'.popping| && w < |s.queues| && n <= |s.queues|
    requires forall v: nat :: v < |s.queues| && v != w ==> |Pending(s', v)| == |Pending(s, v)|
    requires |Pending(s', w)| == |Pending(s, w)| + d
    ensures TotalPending(s', n) == TotalPending(s, n) + if w < n then d else 0
  {
    if n > 0 {
      TotalPendingChange(s, s', w, d, n - 1);
    }
  }

  lemma DispatchIsPending(u: Setup, s: State, name: string, tick: Tick)
    requires ValidSetup(u) && Inv(u, s) && name in u.mapping && |s.queues[u.mapping[name].queue]| < u.capacity
    ensures var s', q := Do(u, s, Dispatch(name, tick)), u.mapping[name].queue;
      Pending(s', q) == Pending(s, q) + [Item(u.mapping[name].processor, tick)]
  {
    assert QueueInv(u, s, u.mapping[name].queue);
  }

  lemma DispatchKeepsInv(u: Setup, s: State, name: string, tick: Tick)
    requires ValidSetup(u) && Inv(u, s) && name in u.mapping && |s.queues[u.mapping[name].queue]| < u.capacity
    ensures Inv(u, Do(u, s, Dispatch(name, tick)))
  {
    var s', q, p := Do(u, s, Dispatch(name, tick)), u.mapping[name].queue, u.mapping[name].processor;
    DispatchIsPending(u, s, name, tick);
    TotalPendingChange(s, s', q, 1, u.queues);
    TotalOfUpdate(s.enqueued, p, s.enqueued[p] + [tick]);
    forall w | 0 <= w < u.queues ensures QueueInv(u, s', w) {
      assert QueueInv(u, s, w);
    }
    forall k | 0 <= k < |u.configs| ensures ProcessorInv(u, s', k) {
      DispatchKeepsProcessor(u, s, name, tick, k);
    }
  }

  lemma DispatchKeepsProcessor(u: Setup, s: State, name: string, tick: Tick, k: nat)
    requires ValidSetup(u) && Inv(u, s) && name in u.mapping && |s.queues[u.mapping[name].queue]| < u.capacity
    requires k < |u.configs|
    ensures Shaped(u, Do(u, s, Dispatch(name, tick))) && ProcessorInv(u, Do(u, s, Dispatch(name, tick)), k)
  {
    var s', q, p := Do(u, s, Dispatch(name, tick)), u.mapping[name].queue, u.mapping[name].processor;
    assert ProcessorInv(u, s, k);
    if k % u.queues == q {
      DispatchIsPending(u, s, name, tick);
      TicksForLast(k, Pending(s, q), Item(p, tick));
      if k == p {
        InStepEnqueue(u.configs[k], s.enqueued[k], s.handled[k], s.sent[k], s.lasts[k], TicksFor(k, Pending(s, q)),
                      tick);
      } else {
        assert TicksFor(k, Pending(s', q)) == TicksFor(k, Pending(s, q));
      }
    } else {
      assert Pending(s', k % u.queues) == Pending(s, k % u.queues);
    }
  }

  lemma HandleKeepsOther(u: Setup, s: State, w: nat, k: nat)
    requires ValidSetup(u) && Inv(u, s) && Enabled(u, s, Handle(w)) && k < |u.configs| && k != s.queues[w][0].processor
    ensures Shaped(u, Do(u, s, Handle(w))) && ProcessorInv(u, Do(u, s, Handle(w)), k)
  {
    var s' := Do(u, s, Handle(w));
    assert ProcessorInv(u, s, k);
    if k % u.queues == w {
      HeadTail(s.queues[w]);
      TicksForFirst(k, s.queues[w][0], Pending(s', w));
      assert TicksFor(k, Pending(s', w)) == TicksFor(k, Pending(s, w));
    } else {
      assert Pending(s', k % u.queues) == Pending(s, k % u.queues);
    }
  }

  lemma HandleKeepsOwn(u: Setup, s: State, w: nat)
    requires ValidSetup(u) && Inv(u, s) && Enabled(u, s, Handle(w))
    ensures Shaped(u, Do(u, s, Handle(w))) && ProcessorInv(u, Do(u, s, Handle(w)), s.queues[w][0].processor)
  {
    var s', item := Do(u, s, Handle(w)), s.queues[w][0];
    var p := item.processor;
    assert QueueInv(u, s, w) && ProcessorInv(u, s, p);
    HeadTail(s.queues[w]);
    TicksForFirst(p, item, Pending(s', w));
    InStepHandle(u.configs[p], s.enqueued[p], s.handled[p], s.sent[p], s.lasts[p], item.tick,
                 TicksFor(p, Pending(s', w)));
  }

  lemma HandleCounts(u: Setup, s: State, w: nat)
    requires Inv(u, s) && Enabled(u, s, Handle(w))
    ensures CountersAgree(Do(u, s, Handle(w)))
  {
    var item := s.queues[w][0];
    var p := item.processor;
    TotalOfUpdate(s.handled, p, s.handled[p] + [item.tick]);
    TotalOfUpdate(s.sent, p, s.sent[p] + [item.tick]);
  }

  lemma HandleKeepsInv(u: Setup, s: State, w: nat)
    requires ValidSetup(u) && Inv(u, s) && Enabled(u, s, Handle(w))
    ensures Inv(u, Do(u, s, Handle(w)))
  {
    var s' := Do(u, s, Handle(w));
    TotalPendingChange(s, s', w, -1, u.queues);
    HandleCounts(u, s, w);
    forall v | 0 <= v < u.queues ensures QueueInv(u, s', v) {
      assert QueueInv(u, s, v);
    }
    forall k | 0 <= k < |u.configs| ensures ProcessorInv(u, s', k) {
      if k == s.queues[w][0].processor {
        HandleKeepsOwn(u, s, w);
      } else {
        HandleKeepsOther(u, s, w, k);
      }
    }
  }

  lemma PopKeepsInv(u: Setup, s: State, w: nat)
    requires ValidSetup(u) && Inv(u, s) && Enabled(u, s, Pop(w))
    ensures Inv(u, Do(u, s, Pop(w)))
  {
    var s' := Do(u, s, Pop(w));
    assert QueueInv(u, s, w);
    forall v: nat | v < u.queues ensures Pending(s', v) == Pending(s, v) {
    }
    TotalPendingChange(s, s', w, 0, u.queues);
    forall v | 0 <= v < u.queues ensures QueueInv(u, s', v) {
      assert QueueInv(u, s, v);
    }
    forall k | 0 <= k < |u.configs| ensures ProcessorInv(u, s', k) {
      assert ProcessorInv(u, s, k);
    }
  }

  lemma StepKeepsInv(u: Setup, s: State, step: Step)
    requires ValidSetup(u) && Inv(u, s) && Enabled(u, s, step)
    ensures Inv(u, Do(u, s, step))
  {
    match step
    case Handle(w) => HandleKeepsInv(u, s, w);
    case Pop(w) => PopKeepsInv(u, s, w);
    case Dispatch(name, tick) =>
      if name in u.mapping && |s.queues[u.mapping[name].queue]| < u.capacity {
        DispatchKeepsInv(u, s, name, tick);
      } else {
        DropKeepsInv(u, s, Do(u, s, step));
      }
  }

  lemma DropKeepsInv(u: Setup, s: State, s': State)
    requires Inv(u, s) && s' == s.(known := s'.known, dropped := s'.dropped)
    requires s'.known - s'.dropped == s.known - s.dropped
    ensures Inv(u, s')
  {
    forall w: nat | w < u.queues ensures Pending(s', w) == Pending(s, w) {
    }
    TotalPendingChange(s, s', 0, 0, u.queues);
    forall v | 0 <= v < u.queues ensures QueueInv(u, s', v) {
      assert QueueInv(u, s, v);
    }
    forall k | 0 <= k < |u.configs| ensures ProcessorInv(u, s', k) {
      assert ProcessorInv(u, s, k);
    }
  }

  // -------------------------------------------------------------- whole runs

  /** The state after running the steps, each of which must be enabled. */
  ghost predicate Reaches(u: Setup, steps: seq<Step>, s: State)
    decreases |steps|
  {
    if steps == [] then s == Init(u) else
      exists before: State ::
        Reaches(u, steps[..|steps| - 1], before) && Shaped(u, before) && Enabled(u, before, steps[|steps| - 1])
        && s == Do(u, before, steps[|steps| - 1])
  }

  lemma {:induction false} RunKeepsInv(u: Setup, steps: seq<Step>, s: State)
    requires ValidSetup(u) && Reaches(u, steps, s)
    ensures Inv(u, s)
    decreases |steps|
  {
    if steps == [] {
      InitInv(u);
    } else {
      var before: State :| Reaches(u, steps[..|steps| - 1], before) && Shaped(u, before)
        && Enabled(u, before, steps[|steps| - 1]) && s == Do(u, before, steps[|steps| - 1]);
      RunKeepsInv(u, steps[..|steps| - 1], before);
      StepKeepsInv(u, before, steps[|steps| - 1]);
    }
  }

  /** In every run: what was sent for a contract is the filter of what was handled, which
      is what was enqueued, in dispatch order, up to what is still pending; and no known
      tick is lost. */
  lemma SentIsFiltered(u: Setup, steps: seq<Step>, s: State, p: nat)
    requires ValidSetup(u) && Reaches(u, steps, s) && p < |u.configs|
    ensures Shaped(u, s) && s.lasts[p] == LastAfter(u.configs[p], s.handled[p])
    ensures s.enqueued[p] == s.handled[p] + TicksFor(p, Pending(s, p % u.queues))
    ensures s.sent[p] == Filter(u.configs[p], s.handled[p])
    ensures s.known == s.dropped + TotalPending(s, u.queues) + s.rejected + s.sentTotal
    ensures s.sentTotal == Total(s.sent) && s.rejected == Total(s.handled) - Total(s.sent)
    ensures s.known - s.dropped == Total(s.enqueued)
  {
    RunKeepsInv(u, steps, s);
    assert ProcessorInv(u, s, p);
  }

  /** In every reachable state: a dispatched tick is dropped if and only if its contract is
      known and its queue full; a known one is otherwise the new last tick of that queue
      and enqueued for its processor; nothing else changes. */
  lemma DroppedIffFull(u: Setup, steps: seq<Step>, s: State, name: string, tick: Tick)
    requires ValidSetup(u) && Reaches(u, steps, s)
    ensures Shaped(u, s)
    ensures var s' := Do(u, s, Dispatch(name, tick));
      if name !in u.mapping then s' == s else
        var q, p := u.mapping[name].queue, u.mapping[name].processor;
        && |s.queues[q]| <= u.capacity && s'.known == s.known + 1
        && (s'.dropped == s.dropped + 1 <==> |s.queues[q]| == u.capacity)
        && (|s.queues[q]| == u.capacity ==> s' == s.(known := s'.known, dropped := s'.dropped))
        && (|s.queues[q]| < u.capacity ==> s' == s.(known := s'.known,
              queues := s.queues[q := s.queues[q] + [Item(p, tick)]],
              enqueued := s.enqueued[p := s.enqueued[p] + [tick]]))
  {
    RunKeepsInv(u, steps, s);
    if name in u.mapping {
      assert QueueInv(u, s, u.mapping[name].queue);
    }
  }

  /** Only worker p % queues ever touches processor p. */
  lemma OneWorkerPerProcessor(u: Setup, steps: seq<Step>, s: State, w: nat, p: nat)
    requires ValidSetup(u) && Reaches(u, steps, s) && p < |u.configs| && w != p % u.queues
    requires Shaped(u, s) && Enabled(u, s, Handle(w))
    ensures s.queues[w][0].processor != p
    ensures var s' := Do(u, s, Handle(w));
      s'.lasts[p] == s.lasts[p] && s'.handled[p] == s.handled[p] && s'.sent[p] == s.sent[p]
  {
    RunKeepsInv(u, steps, s);
    assert QueueInv(u, s, w);
  }
}
