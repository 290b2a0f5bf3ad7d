/** The single-producer single-consumer queue under arbitrary interleavings of its
    atomic steps, assuming sequential consistency. */
module Spsc {
  import opened Jsons
  import opened Powers

  // ------------------------------------------------------------ ring indices

  /** The increment of both indices. */
  function Next(i: nat, size: nat): (r: nat) {
    if i + 1 == size then 0 else i + 1
  }

  lemma NextIsModulo(n: nat, size: nat)
    requires size > 0
    ensures Next(n % size, size) == (n + 1) % size
  {
    var q, r := n / size, n % size;
    assert n == q * size + r;
    if r + 1 == size {
      assert n + 1 == (q + 1) * size;
      ModOf(q + 1, 0, size);
    } else {
      ModOf(q, r + 1, size);
    }
  }

  /** Counters less than size apart are told apart by their residues. */
  lemma ResiduesDiffer(a: nat, b: nat, size: nat)
    requires size > 0 && a < b < a + size
    ensures a % size != b % size
  {
    if a % size == b % size {
      DivisionUnique(a / size, b - a, b / size, 0, size);
    }
  }

  // ------------------------------------------------------------------- state

  datatype Producer<T> =
    | Ready
    | Load(v: T, try: bool)
    | Check(v: T, w: nat, next: nat, try: bool)
    | Reload(v: T, w: nat, next: nat, try: bool)
    | Recheck(v: T, w: nat, next: nat, wasFull: bool)
    | Fill(v: T, w: nat, next: nat)
    | Publish(v: T, next: nat)

  datatype Consumer<T> =
    | Idle
    | FrontLoad
    | FrontCheck(r: nat)
    | FrontReload(r: nat)
    | FrontRecheck(r: nat, wasEmpty: bool)
    | PopLoad
    | Destroy(r: nat)
    | Advance(next: nat, v: T)
    | EmptyWrite
    | EmptyRead(w: nat)

  /** The fields of the queue, where each thread stands, and what has happened:
      the histories of published and of popped values, what the last calls
      returned since the last pop, and whether an undefined access occurred. */
  datatype State<T> = State(
    size: nat,
    slots: seq<Option<T>>,
    writeIdx: nat,
    readIdx: nat,
    readIdxCache: nat,
    writeIdxCache: nat,
    producer: Producer<T>,
    consumer: Consumer<T>,
    pushed: seq<T>,
    popped: seq<T>,
    frontNonNull: bool,
    sawNonEmpty: bool,
    refused: bool,
    gotNull: bool,
    fault: bool)

  /** Capacity is one less than the number of slots. */
  function Init<T>(size: nat): State<T> {
    State(size, seq(size, _ => None), 0, 0, 0, 0, Ready, Idle, [], [], false, false, false, false, false)
  }

  /** The bounded FIFO this queue stands for. */
  function Contents<T>(s: State<T>): seq<T>
    requires |s.popped| <= |s.pushed|
  {
    s.pushed[|s.popped|..]
  }

  datatype Step<T> = Emplace(v: T) | TryEmplace(v: T) | ProducerStep | Front | Pop | Empty | ConsumerStep

  /** Calls start when their thread is between calls; pop only after front has
      returned a non-null pointer since the last pop. */
  predicate Enabled<T>(s: State<T>, step: Step<T>) {
    match step
    case Emplace(_) => s.producer.Ready?
    case TryEmplace(_) => s.producer.Ready?
    case ProducerStep => !s.producer.Ready?
    case Front => s.consumer.Idle?
    case Pop => s.consumer.Idle? && s.frontNonNull
    case Empty => s.consumer.Idle?
    case ConsumerStep => !s.consumer.Idle?
  }

  function Do<T>(s: State<T>, step: Step<T>): State<T> {
    match step
    case Emplace(v) => s.(producer := Load(v, false))
    case TryEmplace(v) => s.(producer := Load(v, true), refused := false)
    case ProducerStep => ProducerDo(s)
    case Front => s.(consumer := FrontLoad, gotNull := false)
    case Pop => s.(consumer := PopLoad)
    case Empty => s.(consumer := EmptyWrite)
    case ConsumerStep => ConsumerDo(s)
  }

  function ProducerDo<T>(s: State<T>): State<T> {
    match s.producer
    case Ready => s
    case Load(v, try) => s.(producer := Check(v, s.writeIdx, Next(s.writeIdx, s.size), try))
    case Check(v, w, next, try) =>
      s.(producer := if next == s.readIdxCache then Reload(v, w, next, try) else Fill(v, w, next))
    case Reload(v, w, next, try) =>
      s.(readIdxCache := s.readIdx,
         producer := if try then Recheck(v, w, next, |s.pushed| - |s.popped| == s.size - 1) else Check(v, w, next, try))
    case Recheck(v, w, next, _) =>
      if next == s.readIdxCache then s.(producer := Ready, refused := true) else s.(producer := Fill(v, w, next))
    case Fill(v, w, next) =>
      if w < |s.slots| && s.slots[w].None? then s.(slots := s.slots[w := Some(v)], producer := Publish(v, next))
      else s.(fault := true)
    case Publish(v, next) => s.(writeIdx := next, pushed := s.pushed + [v], producer := Ready)
  }

  /** Returning &slots_[r]; the caller then reads through it. */
  function Return<T>(s: State<T>, r: nat): State<T> {
    if r < |s.slots| && s.slots[r].Some? then s.(consumer := Idle, frontNonNull := true) else s.(fault := true)
  }

  function ConsumerDo<T>(s: State<T>): State<T> {
    match s.consumer
    case Idle => s
    case FrontLoad => s.(consumer := FrontCheck(s.readIdx))
    case FrontCheck(r) => if r == s.writeIdxCache then s.(consumer := FrontReload(r)) else Return(s, r)
    case FrontReload(r) =>
      s.(writeIdxCache := s.writeIdx, consumer := FrontRecheck(r, |s.pushed| == |s.popped|))
    case FrontRecheck(r, _) => if s.writeIdxCache == r then s.(consumer := Idle, gotNull := true) else Return(s, r)
    case PopLoad => if s.writeIdx != s.readIdx then s.(consumer := Destroy(s.readIdx)) else s.(fault := true)
    case Destroy(r) =>
      if r < |s.slots| && s.slots[r].Some? then
        s.(slots := s.slots[r := None], consumer := Advance(Next(r, s.size), s.slots[r].value))
      else s.(fault := true)
    case Advance(next, v) =>
      s.(readIdx := next, popped := s.popped + [v], consumer := Idle, frontNonNull := false, sawNonEmpty := false)
    case EmptyWrite => s.(consumer := EmptyRead(s.writeIdx))
    case EmptyRead(w) => s.(consumer := Idle, sawNonEmpty := w != s.readIdx)
  }

  // --------------------------------------------------------------- invariant

  /** Slot number i of the history is occupied: it is published or just filled, and
      not yet popped or just destroyed. */
  predicate Occupied<T>(s: State<T>, i: nat) {
    (if s.consumer.Advance? then |s.popped| < i else |s.popped| <= i)
    && (if s.producer.Publish? then i <= |s.pushed| else i < |s.pushed|)
  }

  function ValueAt<T>(s: State<T>, i: nat): T
    requires i < |s.pushed| || (i == |s.pushed| && s.producer.Publish?)
  {
    if i < |s.pushed| then s.pushed[i] else s.producer.v
  }

  /** The cached index is the residue of a counter between lo and hi. */
  ghost predicate Cached(cache: nat, lo: int, hi: nat, size: nat) {
    size > 0 && exists c: nat :: lo <= c <= hi && cache == c % size
  }

  ghost predicate Inv<T>(s: State<T>) {
    var R, W := |s.popped|, |s.pushed|;
    && s.size >= 2 && |s.slots| == s.size
    && R <= W <= R + s.size - 1
    && s.readIdx == R % s.size && s.writeIdx == W % s.size
    && s.popped == s.pushed[..R]
    && Cached(s.readIdxCache, W - s.size + 1, R, s.size)
    && Cached(s.writeIdxCache, R + (if s.frontNonNull then 1 else 0), W, s.size)
    && (s.sawNonEmpty ==> R < W)
    && (forall i: nat :: R <= i < R + s.size ==> SlotInv(s, i))
    && ProducerInv(s) && ConsumerInv(s)
    && !s.fault
  }

  ghost predicate SlotInv<T>(s: State<T>, i: nat)
    requires s.size > 0 && |s.slots| == s.size
  {
    s.slots[i % s.size] ==
      if Occupied(s, i) && (i < |s.pushed| || s.producer.Publish?) then Some(ValueAt(s, i)) else None
  }

  ghost predicate ProducerInv<T>(s: State<T>)
    requires s.size > 0
  {
    var R, W := |s.popped|, |s.pushed|;
    match s.producer
    case Ready => true
    case Load(_, try) => try ==> !s.refused
    case Check(_, w, next, try) => w == W % s.size && next == (W + 1) % s.size && (try ==> !s.refused)
    case Reload(_, w, next, try) => w == W % s.size && next == (W + 1) % s.size && (try ==> !s.refused)
    case Recheck(_, w, next, wasFull) =>
      !s.refused && w == W % s.size && next == (W + 1) % s.size && (wasFull <==> next == s.readIdxCache)
    case Fill(_, w, next) => w == W % s.size && next == (W + 1) % s.size && W + 1 < R + s.size && next != s.readIdxCache
    case Publish(_, next) => next == (W + 1) % s.size && W + 1 < R + s.size && next != s.readIdxCache
  }

  ghost predicate ConsumerInv<T>(s: State<T>)
    requires s.size > 0
  {
    var R, W := |s.popped|, |s.pushed|;
    match s.consumer
    case Idle => true
    case FrontLoad => !s.gotNull
    case FrontCheck(r) => r == s.readIdx && !s.gotNull
    case FrontReload(r) => r == s.readIdx && !s.gotNull
    case FrontRecheck(r, wasEmpty) =>
      r == s.readIdx && !s.gotNull && (wasEmpty <==> s.writeIdxCache == r) && (wasEmpty ==> !s.sawNonEmpty)
    case PopLoad => s.frontNonNull
    case Destroy(r) => s.frontNonNull && r == s.readIdx
    case Advance(next, v) => s.frontNonNull && next == (R + 1) % s.size && R < W && v == s.pushed[R]
    case EmptyWrite => true
    case EmptyRead(w) => w == s.writeIdx || R < W
  }

  lemma InitInv<T>(size: nat)
    requires size >= 2
    ensures Inv(Init<T>(size))
  {
    var s := Init<T>(size);
    assert 0 % size == 0;
    assert Cached(0, 1 - size, 0, size) && Cached(0, 0, 0, size);
  }

  // ----------------------------------------------------- the producer's steps

  /** An unequal cached index is proof of space; the cache may be stale. */
  lemma CacheShowsSpace<T>(s: State<T>)
    requires Inv(s)
    ensures Next(s.writeIdx, s.size) == (|s.pushed| + 1) % s.size
    ensures (|s.pushed| + 1) % s.size != s.readIdxCache ==> |s.pushed| + 1 < |s.popped| + s.size
    ensures (|s.pushed| + 1) % s.size == s.readIdx <==> |s.pushed| - |s.popped| == s.size - 1
  {
    var R, W, size := |s.popped|, |s.pushed|, s.size;
    NextIsModulo(W, size);
    var c: nat :| W - size + 1 <= c <= R && s.readIdxCache == c % size;
    if c == W + 1 - size {
      AddModulo(c, size);
    }
    if W + 1 < R + size {
      ResiduesDiffer(R, W + 1, size);
    } else {
      AddModulo(R, size);
    }
  }

  lemma AddModulo(a: nat, size: nat)
    requires size > 0
    ensures (a + size) % size == a % size
  {
    var q, r := a / size, a % size;
    assert a == q * size + r;
    assert a + size == (q + 1) * size + r;
    ModOf(q + 1, r, size);
  }

  lemma ProducerKeepsInv<T>(s: State<T>)
    requires Inv(s) && !s.producer.Ready?
    ensures Inv(ProducerDo(s))
  {
    match s.producer
    case Load(v, try) => LoadKeepsInv(s);
    case Check(v, w, next, try) => CheckKeepsInv(s);
    case Reload(v, w, next, try) => ReloadKeepsInv(s);
    case Recheck(v, w, next, wasFull) => RecheckKeepsInv(s);
    case Fill(v, w, next) => FillKeepsInv(s);
    case Publish(v, next) => PublishKeepsInv(s);
  }

  lemma LoadKeepsInv<T>(s: State<T>)
    requires Inv(s) && s.producer.Load?
    ensures Inv(ProducerDo(s))
  {
    CacheShowsSpace(s);
    QuietKeepsInv(s, ProducerDo(s));
  }

  lemma CheckKeepsInv<T>(s: State<T>)
    requires Inv(s) && s.producer.Check?
    ensures Inv(ProducerDo(s))
  {
    CacheShowsSpace(s);
    QuietKeepsInv(s, ProducerDo(s));
  }

  lemma RecheckKeepsInv<T>(s: State<T>)
    requires Inv(s) && s.producer.Recheck?
    ensures Inv(ProducerDo(s))
  {
    CacheShowsSpace(s);
    QuietKeepsInv(s, ProducerDo(s));
  }

  lemma ReloadKeepsInv<T>(s: State<T>)
    requires Inv(s) && s.producer.Reload?
    ensures Inv(ProducerDo(s))
  {
    CacheShowsSpace(s);
    assert Cached(s.readIdx, |s.pushed| - s.size + 1, |s.popped|, s.size);
    QuietKeepsInv(s, ProducerDo(s));
  }

  /** A step that moves neither a value nor a counter. */
  lemma QuietKeepsInv<T>(s: State<T>, s': State<T>)
    requires Inv(s)
    requires s' == s.(readIdxCache := s'.readIdxCache, writeIdxCache := s'.writeIdxCache,
                      producer := s'.producer, consumer := s'.consumer, frontNonNull := s'.frontNonNull,
                      sawNonEmpty := s'.sawNonEmpty, refused := s'.refused, gotNull := s'.gotNull)
    requires s'.producer.Publish? == s.producer.Publish? && s'.consumer.Advance? == s.consumer.Advance?
    requires s.producer.Publish? ==> s'.producer == s.producer
    requires s'.readIdxCache == s.readIdxCache || Cached(s'.readIdxCache, |s.pushed| - s.size + 1, |s.popped|, s.size)
    requires (s'.writeIdxCache == s.writeIdxCache && (s'.frontNonNull ==> s.frontNonNull)) ||
      Cached(s'.writeIdxCache, |s.popped| + (if s'.frontNonNull then 1 else 0), |s.pushed|, s.size)
    requires (s'.sawNonEmpty ==> |s.popped| < |s.pushed|) && ProducerInv(s') && ConsumerInv(s')
    ensures Inv(s')
  {
    SlotsKept(s, s');
    var c: nat :| |s.popped| + (if s.frontNonNull then 1 else 0) <= c <= |s.pushed| && s.writeIdxCache == c % s.size;
  }

  /** Steps that move neither a value nor a counter keep every slot. */
  lemma SlotsKept<T>(s: State<T>, s': State<T>)
    requires Inv(s) && s'.slots == s.slots && s'.pushed == s.pushed && s'.popped == s.popped && s'.size == s.size
    requires s'.producer.Publish? == s.producer.Publish? && s'.consumer.Advance? == s.consumer.Advance?
    requires s.producer.Publish? ==> s'.producer == s.producer
    ensures forall i: nat :: |s.popped| <= i < |s.popped| + s.size ==> SlotInv(s', i)
  {
    forall i: nat | |s.popped| <= i < |s.popped| + s.size ensures SlotInv(s', i) {
      assert SlotInv(s, i);
    }
  }

  lemma FillKeepsInv<T>(s: State<T>)
    requires Inv(s) && s.producer.Fill?
    ensures Inv(ProducerDo(s))
  {
    var s', R, W := ProducerDo(s), |s.popped|, |s.pushed|;
    assert SlotInv(s, W);
    forall i: nat | R <= i < R + s.size ensures SlotInv(s', i) {
      assert SlotInv(s, i);
      if i < W {
        ResiduesDiffer(i, W, s.size);
      } else if i > W {
        ResiduesDiffer(W, i, s.size);
      }
    }
  }

  lemma PublishKeepsInv<T>(s: State<T>)
    requires Inv(s) && s.producer.Publish?
    ensures Inv(ProducerDo(s))
  {
    var s', R, W := ProducerDo(s), |s.popped|, |s.pushed|;
    forall i: nat | R <= i < R + s.size ensures SlotInv(s', i) {
      assert SlotInv(s, i);
    }
    assert s'.pushed[..R] == s.pushed[..R];
    var c: nat :| W - s.size + 1 <= c <= R && s.readIdxCache == c % s.size;
    if c == W + 1 - s.size {
      AddModulo(c, s.size);
    }
    assert Cached(s.readIdxCache, W + 1 - s.size + 1, R, s.size);
  }

  // ----------------------------------------------------- the consumer's steps

  lemma CacheShowsValue<T>(s: State<T>)
    requires Inv(s)
    ensures s.readIdx != s.writeIdxCache ==>
      |s.popped| < |s.pushed| && Cached(s.writeIdxCache, |s.popped| + 1, |s.pushed|, s.size)
    ensures s.readIdx == s.writeIdx <==> |s.popped| == |s.pushed|
    ensures s.frontNonNull ==> |s.popped| < |s.pushed|
    ensures |s.popped| < |s.pushed| && !s.consumer.Advance? ==> s.slots[s.readIdx] == Some(s.pushed[|s.popped|])
  {
    var R, W := |s.popped|, |s.pushed|;
    var c: nat :| R + (if s.frontNonNull then 1 else 0) <= c <= W && s.writeIdxCache == c % s.size;
    if R < W {
      ResiduesDiffer(R, W, s.size);
    }
    assert SlotInv(s, R);
  }

  lemma ConsumerKeepsInv<T>(s: State<T>)
    requires Inv(s) && !s.consumer.Idle?
    ensures Inv(ConsumerDo(s))
  {
    match s.consumer
    case FrontLoad => QuietKeepsInv(s, ConsumerDo(s));
    case FrontCheck(r) => FrontCheckKeepsInv(s);
    case FrontReload(r) => FrontReloadKeepsInv(s);
    case FrontRecheck(r, _) => FrontRecheckKeepsInv(s);
    case PopLoad => PopLoadKeepsInv(s);
    case Destroy(r) => DestroyKeepsInv(s);
    case Advance(next, v) => AdvanceKeepsInv(s);
    case EmptyWrite => EmptyKeepsInv(s);
    case EmptyRead(w) => EmptyKeepsInv(s);
  }

  lemma FrontCheckKeepsInv<T>(s: State<T>)
    requires Inv(s) && s.consumer.FrontCheck?
    ensures Inv(ConsumerDo(s))
  {
    CacheShowsValue(s);
    QuietKeepsInv(s, ConsumerDo(s));
  }

  lemma FrontRecheckKeepsInv<T>(s: State<T>)
    requires Inv(s) && s.consumer.FrontRecheck?
    ensures Inv(ConsumerDo(s))
  {
    CacheShowsValue(s);
    QuietKeepsInv(s, ConsumerDo(s));
  }

  lemma PopLoadKeepsInv<T>(s: State<T>)
    requires Inv(s) && s.consumer.PopLoad?
    ensures Inv(ConsumerDo(s))
  {
    CacheShowsValue(s);
    QuietKeepsInv(s, ConsumerDo(s));
  }

  lemma EmptyKeepsInv<T>(s: State<T>)
    requires Inv(s) && (s.consumer.EmptyWrite? || s.consumer.EmptyRead?)
    ensures Inv(ConsumerDo(s))
  {
    CacheShowsValue(s);
    QuietKeepsInv(s, ConsumerDo(s));
  }

  lemma FrontReloadKeepsInv<T>(s: State<T>)
    requires Inv(s) && s.consumer.FrontReload?
    ensures Inv(ConsumerDo(s))
  {
    CacheShowsValue(s);
    assert Cached(s.writeIdx, |s.popped| + (if s.frontNonNull then 1 else 0), |s.pushed|, s.size);
    QuietKeepsInv(s, ConsumerDo(s));
  }

  lemma DestroyKeepsInv<T>(s: State<T>)
    requires Inv(s) && s.consumer.Destroy?
    ensures Inv(ConsumerDo(s))
  {
    CacheShowsValue(s);
    NextIsModulo(|s.popped|, s.size);
    var s', R, W := ConsumerDo(s), |s.popped|, |s.pushed|;
    forall i: nat | R <= i < R + s.size ensures SlotInv(s', i) {
      assert SlotInv(s, i);
      if i > R {
        ResiduesDiffer(R, i, s.size);
      }
    }
  }

  lemma AdvanceKeepsInv<T>(s: State<T>)
    requires Inv(s) && s.consumer.Advance?
    ensures Inv(ConsumerDo(s))
  {
    CacheShowsValue(s);
    var s', R, W := ConsumerDo(s), |s.popped|, |s.pushed|;
    forall i: nat | R + 1 <= i < R + 1 + s.size ensures SlotInv(s', i) {
      if i < R + s.size {
        assert SlotInv(s, i);
      } else {
        assert SlotInv(s, R);
        AddModulo(R, s.size);
      }
    }
    assert s.pushed[..R + 1] == s.pushed[..R] + [s.pushed[R]];
    var c: nat :| R + 1 <= c <= W && s.writeIdxCache == c % s.size;
    assert Cached(s.writeIdxCache, R + 1, W, s.size);
    var d: nat :| W - s.size + 1 <= d <= R && s.readIdxCache == d % s.size;
    assert Cached(s.readIdxCache, W - s.size + 1, R + 1, s.size);
  }

  lemma StepKeepsInv<T>(s: State<T>, step: Step<T>)
    requires Inv(s) && Enabled(s, step)
    ensures Inv(Do(s, step)) && Do(s, step).size == s.size
  {
    match step
    case ProducerStep => ProducerKeepsInv(s);
    case ConsumerStep => ConsumerKeepsInv(s);
    case _ => CallKeepsInv(s, step);
  }

  lemma CallKeepsInv<T>(s: State<T>, step: Step<T>)
    requires Inv(s) && Enabled(s, step) && step != ProducerStep && step != ConsumerStep
    ensures Inv(Do(s, step))
  {
    QuietKeepsInv(s, Do(s, step));
  }

  // -------------------------------------------------------------- whole runs

  /** A run from the empty queue: state i + 1 follows from state i by step i. */
  ghost predicate IsRun<T(!new)>(run: seq<State<T>>, steps: seq<Step<T>>) {
    && |run| == |steps| + 1
    && run[0].size >= 2 && run[0] == Init(run[0].size)
    && forall i: nat :: i < |steps| ==> Follows(run, steps, i)
  }

  ghost predicate Follows<T(!new)>(run: seq<State<T>>, steps: seq<Step<T>>, i: nat)
    requires |run| == |steps| + 1 && i < |steps|
  {
    Enabled(run[i], steps[i]) && run[i + 1] == Do(run[i], steps[i])
  }

  lemma {:induction false} RunKeepsInv<T(!new)>(run: seq<State<T>>, steps: seq<Step<T>>, i: nat)
    requires IsRun(run, steps) && i < |run|
    ensures Inv(run[i]) && run[i].size == run[0].size
  {
    if i == 0 {
      FirstInv(run, steps);
    } else {
      RunKeepsInv(run, steps, i - 1);
      RunStepKeepsInv(run, steps, i - 1);
    }
  }

  lemma RunStepKeepsInv<T(!new)>(run: seq<State<T>>, steps: seq<Step<T>>, i: nat)
    requires IsRun(run, steps) && i < |steps| && Inv(run[i])
    ensures Inv(run[i + 1]) && run[i + 1].size == run[i].size
  {
    assert Follows(run, steps, i);
    NextKeepsInv(run[i], steps[i], run[i + 1]);
  }

  lemma FirstInv<T(!new)>(run: seq<State<T>>, steps: seq<Step<T>>)
    requires IsRun(run, steps)
    ensures Inv(run[0])
  {
    InitInv<T>(run[0].size);
  }

  lemma NextKeepsInv<T>(s: State<T>, step: Step<T>, s': State<T>)
    requires Inv(s) && Enabled(s, step) && s' == Do(s, step)
    ensures Inv(s') && s'.size == s.size
  {
    StepKeepsInv(s, step);
  }

  /** No undefined access ever happens, the popped values are a prefix of the pushed
      ones, and the queue never holds more than its capacity. */
  lemma RunIsSafe<T(!new)>(run: seq<State<T>>, steps: seq<Step<T>>, i: nat)
    requires IsRun(run, steps) && i < |run|
    ensures !run[i].fault && run[i].popped <= run[i].pushed && |Contents(run[i])| <= run[0].size - 1
  {
    RunKeepsInv(run, steps, i);
  }

  lemma ContentsMove<T>(pushed: seq<T>, n: nat, v: T)
    requires n <= |pushed|
    ensures (pushed + [v])[n..] == pushed[n..] + [v]
    ensures n < |pushed| ==> pushed[n..] == [pushed[n]] + pushed[n + 1..]
  {
  }

  /** The producer's steps append to a bounded FIFO, or are invisible. */
  lemma ProducerRefinesFifo<T>(s: State<T>)
    requires Inv(s) && !s.producer.Ready?
    ensures var s' := ProducerDo(s);
      && |s'.popped| <= |s'.pushed|
      && (if s.producer.Publish? then Contents(s') == Contents(s) + [s.producer.v] && |Contents(s)| < s.size - 1
          else Contents(s') == Contents(s))
  {
    if s.producer.Publish? {
      ContentsMove(s.pushed, |s.popped|, s.producer.v);
    } else {
      assert ProducerDo(s).pushed == s.pushed && ProducerDo(s).popped == s.popped;
    }
  }

  /** The consumer's steps take the oldest value of the FIFO, or are invisible. */
  lemma ConsumerRefinesFifo<T>(s: State<T>)
    requires Inv(s) && !s.consumer.Idle?
    ensures var s' := ConsumerDo(s);
      && |s'.popped| <= |s'.pushed|
      && (if s.consumer.Advance? then
            Contents(s) == [s.consumer.v] + Contents(s') && s'.popped == s.popped + [s.consumer.v]
          else Contents(s') == Contents(s))
  {
    if s.consumer.Advance? {
      ContentsMove(s.pushed, |s.popped|, s.consumer.v);
    } else {
      assert ConsumerDo(s).pushed == s.pushed && ConsumerDo(s).popped == s.popped;
    }
  }

  /** The cached index may be stale, yet all it can do is force a reload: the producer
      goes ahead only if there is room, the consumer only if there is a value, and the
      reloaded index decides as the queue was at the reload. */
  lemma StaleCacheOnlyReloads<T>(s: State<T>)
    requires Inv(s)
    ensures s.producer.Check? && |Contents(s)| == s.size - 1 ==> ProducerDo(s).producer.Reload?
    ensures s.producer.Recheck? ==> (ProducerDo(s).refused <==> s.producer.wasFull)
    ensures s.consumer.FrontCheck? && Contents(s) == [] ==> ConsumerDo(s).consumer.FrontReload?
    ensures s.consumer.FrontRecheck? ==> (ConsumerDo(s).gotNull <==> s.consumer.wasEmpty)
  {
    CacheShowsSpace(s);
    CacheShowsValue(s);
  }

  /** Step k loads readIdx_, finding the queue full or not as the pending decision
      records, and the producer does nothing more before state i. */
  ghost predicate FullAtLoad<T(!new)>(run: seq<State<T>>, steps: seq<Step<T>>, k: nat, i: nat) {
    && k < i < |run| && |run| == |steps| + 1
    && steps[k] == ProducerStep && run[k].producer.Reload? && run[k].producer.try
    && run[i].producer.Recheck? && |run[k].popped| <= |run[k].pushed|
    && (run[i].producer.wasFull <==> |Contents(run[k])| == run[k].size - 1)
    && forall m: nat :: k < m < i ==> steps[m] != ProducerStep
  }

  lemma OnlyAfterReload<T>(s: State<T>)
    requires ProducerDo(s).producer.Recheck? && !s.producer.Ready?
    ensures s.producer.Reload? && s.producer.try
    ensures ProducerDo(s).producer.wasFull <==> |s.pushed| - |s.popped| == s.size - 1
  {
  }

  lemma ConsumerLeavesProducer<T>(s: State<T>)
    ensures ConsumerDo(s).producer == s.producer
  {
    if s.consumer.PopLoad? || s.consumer.Destroy? || s.consumer.Advance? {
      PopCounts(s);
    } else if InFront(s) {
      FrontCounts(s);
    }
  }

  lemma BeforeRecheck<T>(s: State<T>, step: Step<T>, s': State<T>)
    requires |s.popped| <= |s.pushed| && Enabled(s, step) && s' == Do(s, step) && s'.producer.Recheck?
    ensures if step == ProducerStep then
        s.producer.Reload? && s.producer.try && (s'.producer.wasFull <==> |Contents(s)| == s.size - 1)
      else s'.producer == s.producer
  {
    match step
    case ProducerStep => OnlyAfterReload(s);
    case ConsumerStep => ConsumerLeavesProducer(s);
    case _ =>
  }

  lemma {:induction false} RecheckOrigin<T(!new)>(run: seq<State<T>>, steps: seq<Step<T>>, i: nat) returns (k: nat)
    requires IsRun(run, steps) && i < |run| && run[i].producer.Recheck?
    ensures FullAtLoad(run, steps, k, i)
  {
    RunKeepsInv(run, steps, i - 1);
    assert Follows(run, steps, i - 1);
    BeforeRecheck(run[i - 1], steps[i - 1], run[i]);
    k := i - 1;
    if steps[i - 1] != ProducerStep {
      k := RecheckOrigin(run, steps, i - 1);
    }
  }

  /** try_emplace returns false only if the queue was full when it loaded readIdx_. */
  lemma RefusedOnlyIfFull<T(!new)>(run: seq<State<T>>, steps: seq<Step<T>>, i: nat) returns (k: nat)
    requires IsRun(run, steps) && i < |steps| && !run[i].refused && run[i + 1].refused
    ensures k < i && FullAtLoad(run, steps, k, i) && |Contents(run[k])| == run[k].size - 1
  {
    RunKeepsInv(run, steps, i);
    assert Follows(run, steps, i);
    k := RecheckOrigin(run, steps, i);
  }

  /** Step k loads writeIdx_, finding the queue empty or not as recorded, and the
      consumer does nothing more before state i. */
  ghost predicate EmptyAtLoad<T(!new)>(run: seq<State<T>>, steps: seq<Step<T>>, k: nat, i: nat) {
    && k < i < |run| && |run| == |steps| + 1
    && steps[k] == ConsumerStep && run[k].consumer.FrontReload?
    && run[i].consumer.FrontRecheck? && |run[k].popped| <= |run[k].pushed|
    && (run[i].consumer.wasEmpty <==> |Contents(run[k])| == 0)
    && forall m: nat :: k < m < i ==> steps[m] != ConsumerStep
  }

  lemma OnlyAfterFrontReload<T>(s: State<T>, s': State<T>)
    requires !s.consumer.Idle? && s' == ConsumerDo(s) && s'.consumer.FrontRecheck? && !s'.fault
    ensures s.consumer.FrontReload? && (s'.consumer.wasEmpty <==> |s.pushed| == |s.popped|)
  {
    if s.consumer.FrontCheck? || s.consumer.FrontRecheck? {
      ReturnEndsCall(s, s.consumer.r);
    } else if !s.consumer.FrontReload? {
      OtherCallsKeepOut(s, s');
      assert false;
    }
  }

  /** Only front leads to its recheck. */
  lemma OtherCallsKeepOut<T>(s: State<T>, s': State<T>)
    requires s' == ConsumerDo(s) && !s.consumer.FrontRecheck? && !s.consumer.FrontCheck? && !s.consumer.FrontReload?
    requires !s'.fault
    ensures !s'.consumer.FrontRecheck?
  {
    if s.consumer.PopLoad? || s.consumer.Destroy? || s.consumer.Advance? {
      PopKeepsOut(s, s');
    }
  }

  lemma PopKeepsOut<T>(s: State<T>, s': State<T>)
    requires s' == ConsumerDo(s) && !s'.fault && (s.consumer.PopLoad? || s.consumer.Destroy? || s.consumer.Advance?)
    ensures !s'.consumer.FrontRecheck?
  {
  }

  lemma ReturnEndsCall<T>(s: State<T>, r: nat)
    ensures Return(s, r).fault || Return(s, r).consumer.Idle?
  {
  }

  lemma ProducerLeavesConsumer<T>(s: State<T>)
    ensures ProducerDo(s).consumer == s.consumer
  {
  }

  lemma BeforeFrontRecheck<T>(s: State<T>, step: Step<T>, s': State<T>)
    requires |s.popped| <= |s.pushed| && Enabled(s, step) && s' == Do(s, step) && s'.consumer.FrontRecheck? && !s'.fault
    ensures if step == ConsumerStep then
        s.consumer.FrontReload? && (s'.consumer.wasEmpty <==> |Contents(s)| == 0)
      else s'.consumer == s.consumer
  {
    match step
    case ProducerStep => ProducerLeavesConsumer(s);
    case ConsumerStep => OnlyAfterFrontReload(s, s');
    case _ =>
  }

  lemma {:induction false} FrontRecheckOrigin<T(!new)>(run: seq<State<T>>, steps: seq<Step<T>>, i: nat) returns (k: nat)
    requires IsRun(run, steps) && i < |run| && run[i].consumer.FrontRecheck?
    ensures EmptyAtLoad(run, steps, k, i)
  {
    FrontRecheckBefore(run, steps, i);
    k := i - 1;
    if steps[i - 1] != ConsumerStep {
      k := FrontRecheckOrigin(run, steps, i - 1);
    }
  }

  /** The recheck either follows its load at once or was already waiting. */
  lemma FrontRecheckBefore<T(!new)>(run: seq<State<T>>, steps: seq<Step<T>>, i: nat)
    requires IsRun(run, steps) && i < |run| && run[i].consumer.FrontRecheck?
    ensures i > 0
    ensures if steps[i - 1] == ConsumerStep then EmptyAtLoad(run, steps, i - 1, i)
            else run[i - 1].consumer == run[i].consumer
  {
    RunKeepsInv(run, steps, i - 1);
    RunKeepsInv(run, steps, i);
    assert Follows(run, steps, i - 1);
    BeforeFrontRecheck(run[i - 1], steps[i - 1], run[i]);
  }

  /** front returns null only if the queue was empty when it loaded writeIdx_. */
  lemma NullOnlyIfEmpty<T(!new)>(run: seq<State<T>>, steps: seq<Step<T>>, i: nat) returns (k: nat)
    requires IsRun(run, steps) && i < |steps| && !run[i].gotNull && run[i + 1].gotNull
    ensures k < i && EmptyAtLoad(run, steps, k, i) && |Contents(run[k])| == 0
  {
    RunKeepsInv(run, steps, i);
    assert Follows(run, steps, i);
    k := FrontRecheckOrigin(run, steps, i);
  }

  /** Step k loads writeIdx_ for empty, and the consumer does nothing more before state i. */
  ghost predicate EmptyLoaded<T(!new)>(run: seq<State<T>>, steps: seq<Step<T>>, k: nat, i: nat) {
    && k < i < |run| && |run| == |steps| + 1
    && steps[k] == ConsumerStep && run[k].consumer.EmptyWrite? && run[i].consumer == EmptyRead(run[k].writeIdx)
    && run[i].readIdx == run[k].readIdx && |run[k].popped| <= |run[k].pushed|
    && forall m: nat :: k < m < i ==> steps[m] != ConsumerStep
  }

  lemma OnlyAfterEmptyWrite<T>(s: State<T>, s': State<T>)
    requires !s.consumer.Idle? && s' == ConsumerDo(s) && s'.consumer.EmptyRead? && !s'.fault
    ensures s.consumer.EmptyWrite? && s'.consumer == EmptyRead(s.writeIdx) && s'.readIdx == s.readIdx
  {
    if s.consumer.FrontCheck? || s.consumer.FrontRecheck? {
      ReturnEndsCall(s, s.consumer.r);
    } else if s.consumer.PopLoad? || s.consumer.Destroy? || s.consumer.Advance? {
      PopIsNotEmpty(s, s');
      assert false;
    }
  }

  lemma PopIsNotEmpty<T>(s: State<T>, s': State<T>)
    requires s' == ConsumerDo(s) && !s'.fault && (s.consumer.PopLoad? || s.consumer.Destroy? || s.consumer.Advance?)
    ensures !s'.consumer.EmptyRead?
  {
  }

  lemma ProducerLeavesReadIndex<T>(s: State<T>)
    ensures ProducerDo(s).consumer == s.consumer && ProducerDo(s).readIdx == s.readIdx
  {
  }

  lemma BeforeEmptyRead<T>(s: State<T>, step: Step<T>, s': State<T>)
    requires Enabled(s, step) && s' == Do(s, step) && s'.consumer.EmptyRead? && !s'.fault
    ensures s'.readIdx == s.readIdx
    ensures if step == ConsumerStep then s.consumer.EmptyWrite? && s'.consumer == EmptyRead(s.writeIdx)
            else s'.consumer == s.consumer
  {
    match step
    case ProducerStep => ProducerLeavesReadIndex(s);
    case ConsumerStep => OnlyAfterEmptyWrite(s, s');
    case _ =>
  }

  lemma {:induction false} EmptyReadOrigin<T(!new)>(run: seq<State<T>>, steps: seq<Step<T>>, i: nat) returns (k: nat)
    requires IsRun(run, steps) && i < |run| && run[i].consumer.EmptyRead?
    ensures EmptyLoaded(run, steps, k, i)
  {
    EmptyReadBefore(run, steps, i);
    k := i - 1;
    if steps[i - 1] != ConsumerStep {
      k := EmptyReadOrigin(run, steps, i - 1);
    }
  }

  lemma EmptyReadBefore<T(!new)>(run: seq<State<T>>, steps: seq<Step<T>>, i: nat)
    requires IsRun(run, steps) && i < |run| && run[i].consumer.EmptyRead?
    ensures i > 0 && run[i].readIdx == run[i - 1].readIdx
    ensures if steps[i - 1] == ConsumerStep then EmptyLoaded(run, steps, i - 1, i)
            else run[i - 1].consumer == run[i].consumer
  {
    RunKeepsInv(run, steps, i - 1);
    RunKeepsInv(run, steps, i);
    assert Follows(run, steps, i - 1);
    BeforeEmptyRead(run[i - 1], steps[i - 1], run[i]);
  }

  /** empty answers as the queue was when it loaded writeIdx_, whatever the producer did
      before it compared that with readIdx_. */
  lemma EmptyAnswersAsAtLoad<T(!new)>(run: seq<State<T>>, steps: seq<Step<T>>, i: nat) returns (k: nat)
    requires IsRun(run, steps) && i < |steps| && run[i].consumer.EmptyRead? && steps[i] == ConsumerStep
    ensures k < i && EmptyLoaded(run, steps, k, i)
    ensures run[i + 1].consumer.Idle? && (run[i + 1].sawNonEmpty <==> |Contents(run[k])| > 0)
  {
    assert Follows(run, steps, i);
    k := EmptyReadOrigin(run, steps, i);
    RunKeepsInv(run, steps, k);
    CacheShowsValue(run[k]);
  }

  /** Where front returns a slot, it holds the oldest value of the FIFO. */
  lemma FrontReturnsOldest<T>(s: State<T>)
    requires Inv(s) && (s.consumer.FrontCheck? || s.consumer.FrontRecheck?) && s.consumer.r != s.writeIdxCache
    ensures ConsumerDo(s) == s.(consumer := Idle, frontNonNull := true)
    ensures Contents(s) != [] && s.consumer.r < |s.slots| && s.slots[s.consumer.r] == Some(Contents(s)[0])
  {
    CacheShowsValue(s);
  }

  // ------------------------------------------ front after a non-empty answer

  predicate InFront<T>(s: State<T>) {
    s.consumer.FrontLoad? || s.consumer.FrontCheck? || s.consumer.FrontReload? || s.consumer.FrontRecheck?
  }

  /** The consumer has called nothing but front since it saw a non-empty queue. */
  ghost predicate AfterNonEmpty<T>(s: State<T>, frontCalled: bool) {
    && s.sawNonEmpty && (s.consumer.Idle? || InFront(s))
    && (frontCalled ==> !s.gotNull && (s.consumer.Idle? ==> s.frontNonNull))
    && (!frontCalled ==> s.consumer.Idle?)
  }

  lemma AfterNonEmptyStep<T>(s: State<T>, step: Step<T>, frontCalled: bool)
    requires Inv(s) && Enabled(s, step) && AfterNonEmpty(s, frontCalled) && !step.Pop? && !step.Empty?
    ensures AfterNonEmpty(Do(s, step), frontCalled || step.Front?)
  {
    StaleCacheOnlyReloads(s);
    StepKeepsInv(s, step);
  }

  /** Once the consumer has seen a non-empty queue, its next front returns a value,
      whatever the producer does in between. */
  lemma {:induction false} FrontAfterNonEmpty<T(!new)>(run: seq<State<T>>, steps: seq<Step<T>>, i: nat, k: nat)
    requires IsRun(run, steps) && i <= k < |run|
    requires run[i].sawNonEmpty && run[i].consumer.Idle?
    requires forall m: nat :: i <= m < k ==> !steps[m].Pop? && !steps[m].Empty?
    ensures AfterNonEmpty(run[k], Front in steps[i..k])
    decreases k - i
  {
    if k > i {
      FrontAfterNonEmpty(run, steps, i, k - 1);
      RunKeepsInv(run, steps, k - 1);
      assert Follows(run, steps, k - 1);
      AfterNonEmptyStep(run[k - 1], steps[k - 1], Front in steps[i..k - 1]);
      assert steps[i..k] == steps[i..k - 1] + [steps[k - 1]];
    }
  }

  // ------------------------------------------------- whole calls, uninterrupted

  /** All four steps of pop. */
  function PopAlone<T>(s: State<T>): State<T> {
    Do(Do(Do(Do(s, Pop), ConsumerStep), ConsumerStep), ConsumerStep)
  }

  lemma PopAloneEffect<T>(s: State<T>)
    requires Inv(s) && s.consumer.Idle? && s.frontNonNull
    ensures var s' := PopAlone(s);
      && Inv(s') && s.readIdx < |s.slots| && Contents(s) != []
      && s' == s.(slots := s.slots[s.readIdx := None], readIdx := Next(s.readIdx, s.size),
                  popped := s.popped + [Contents(s)[0]], frontNonNull := false, sawNonEmpty := false)
      && Contents(s') == Contents(s)[1..]
  {
    CacheShowsValue(s);
    var s1 := Do(s, Pop);
    CallKeepsInv(s, Pop);
    PopLoadKeepsInv(s1);
    var s2 := ConsumerDo(s1);
    DestroyKeepsInv(s2);
    var s3 := ConsumerDo(s2);
    AdvanceKeepsInv(s3);
    ConsumerRefinesFifo(s3);
  }

  /** Filling and publishing. */
  lemma PublishEffect<T>(s: State<T>)
    requires Inv(s) && s.producer.Fill?
    ensures var s' := ProducerDo(ProducerDo(s));
      && Inv(s') && s.producer.w < |s.slots|
      && s' == s.(slots := s.slots[s.producer.w := Some(s.producer.v)], writeIdx := s.producer.next,
                  pushed := s.pushed + [s.producer.v], producer := Ready)
      && Contents(s') == Contents(s) + [s.producer.v]
  {
    FillKeepsInv(s);
    PublishKeepsInv(ProducerDo(s));
    ProducerRefinesFifo(ProducerDo(s));
  }

  // ---------------------------------------------- why pop must follow a front

  /** With its assertion as the only guard, a pop leaves the queue in order exactly if
      the cached write index is ahead of the read index. */
  lemma PopSafeIff<T>(s: State<T>)
    requires Inv(s) && s.consumer.Idle? && s.writeIdx != s.readIdx
    ensures Inv(PopAlone(s)) <==> s.readIdx != s.writeIdxCache
  {
    if s.readIdx == s.writeIdxCache {
      BlindPop(s);
      CacheLeftBehind(s, PopAlone(s));
    } else {
      PopWithCacheAhead(s);
    }
  }

  lemma PopWithCacheAhead<T>(s: State<T>)
    requires Inv(s) && s.consumer.Idle? && s.writeIdx != s.readIdx && s.readIdx != s.writeIdxCache
    ensures Inv(PopAlone(s))
  {
    var t := s.(frontNonNull := true);
    CacheIsAhead(s);
    QuietKeepsInv(s, t);
    PopAloneEffect(t);
    BlindPop(s);
    assert Contents(t) == Contents(s);
  }

  /** A cached index that differs from the read index belongs to a later counter. */
  lemma CacheIsAhead<T>(s: State<T>)
    requires Inv(s) && s.readIdx != s.writeIdxCache
    ensures Cached(s.writeIdxCache, |s.popped| + 1, |s.pushed|, s.size)
  {
    var c: nat :| |s.popped| + (if s.frontNonNull then 1 else 0) <= c <= |s.pushed| && s.writeIdxCache == c % s.size;
    assert c != |s.popped|;
  }

  /** What a pop does whether or not front was called. */
  lemma BlindPop<T>(s: State<T>)
    requires Inv(s) && s.consumer.Idle? && s.writeIdx != s.readIdx
    ensures var s' := PopAlone(s);
      && s.readIdx < |s.slots| && Contents(s) != []
      && s' == s.(slots := s.slots[s.readIdx := None], readIdx := Next(s.readIdx, s.size),
                  popped := s.popped + [Contents(s)[0]], frontNonNull := false, sawNonEmpty := false)
  {
    assert SlotInv(s, |s.popped|);
  }

  lemma CacheLeftBehind<T>(s: State<T>, s': State<T>)
    requires Inv(s) && s.readIdx == s.writeIdxCache && s'.writeIdxCache == s.writeIdxCache
    requires |s'.popped| == |s.popped| + 1 && s'.pushed == s.pushed && s'.size == s.size
    ensures !Inv(s')
  {
    var R := |s.popped|;
    if Inv(s') {
      var c: nat :| R + 1 <= c <= |s.pushed| && s.writeIdxCache == c % s.size;
      ResiduesDiffer(R, c, s.size);
      assert false;
    }
  }

  /** After a pop that left the cached index behind, the next front returns a dead slot
      exactly if nothing but the popped value was inside, nor just being published. */
  lemma BlindPopThenFront<T>(s: State<T>)
    requires Inv(s) && s.consumer.Idle? && s.writeIdx != s.readIdx && s.readIdx == s.writeIdxCache
    ensures Do(Do(Do(PopAlone(s), Front), ConsumerStep), ConsumerStep).fault
      <==> |Contents(s)| == 1 && !s.producer.Publish?
  {
    var R, s' := |s.popped|, PopAlone(s);
    BlindPop(s);
    NextIsModulo(R, s.size);
    ResiduesDiffer(R, R + 1, s.size);
    assert SlotInv(s, R + 1);
    assert s'.readIdx != s'.writeIdxCache;
    assert s'.slots[s'.readIdx] == s.slots[(R + 1) % s.size];
  }

  /** One run into it: the assertion in pop holds, and the next front returns a dead
      slot. */
  lemma PopNeedsFront(v: int)
    ensures var called := Do(Init<int>(2), TryEmplace(v));
      var one := Do(Do(Do(Do(called, ProducerStep), ProducerStep), ProducerStep), ProducerStep);
      && one.consumer.Idle? && one.writeIdx != one.readIdx && !one.fault && !one.frontNonNull
      && var two := PopAlone(one);
      && !two.fault && two.popped == two.pushed == [v]
      && Do(Do(Do(two, Front), ConsumerStep), ConsumerStep).fault
  {
    var one := OneValue(v);
    var two := PopAlone(one);
    assert two.readIdx == 1 && two.slots == [None, None];
  }

  /** The state after one value has been pushed into the smallest queue. */
  lemma OneValue(v: int) returns (one: State<int>)
    ensures var called := Do(Init<int>(2), TryEmplace(v));
      one == Do(Do(Do(Do(called, ProducerStep), ProducerStep), ProducerStep), ProducerStep)
    ensures one == State(2, [Some(v), None], 1, 0, 0, 0, Ready, Idle, [v], [], false, false, false, false, false)
  {
    var s0 := Do(Do(Init<int>(2), TryEmplace(v)), ProducerStep);
    assert s0.producer == Check(v, 0, 1, true);
    var s1 := Do(Do(s0, ProducerStep), ProducerStep);
    assert s1.producer == Publish(v, 1) && s1.slots == [Some(v), None];
    one := Do(s1, ProducerStep);
  }

  // ------------------------------------------------- size while others go on

  /** The difference of the two indices that size() has loaded, corrected if negative. */
  function SizeRead(w: nat, r: nat, size: nat): int {
    if w < r then w - r + size else w - r
  }

  lemma SizeIsModulo(w: nat, r: nat, size: nat)
    requires size > 0
    ensures SizeRead(w % size, r % size, size) == (w - r) % size
  {
    var p, q, x, y := w / size, r / size, w % size, r % size;
    assert w - r == (p - q) * size + (x - y) by { ScaledDifference(p, q, size); }
    if x >= y {
      ModOf(p - q, x - y, size);
    } else {
      assert w - r == (p - q - 1) * size + (x - y + size) by { ScaledDifference(p - q, 1, size); }
      ModOf(p - q - 1, x - y + size, size);
    }
  }

  lemma SizeOfCounters(a: nat, b: nat, size: nat)
    requires size > 0 && b <= a < b + size
    ensures SizeRead(a % size, b % size, size) == a - b
  {
    SizeIsModulo(a, b, size);
    ModOf(0, a - b, size);
  }

  lemma {:induction false} CountersGrow<T(!new)>(run: seq<State<T>>, steps: seq<Step<T>>, i: nat, k: nat)
    requires IsRun(run, steps) && i <= k < |run|
    ensures |run[i].popped| <= |run[k].popped| && |run[i].pushed| <= |run[k].pushed|
    decreases k - i
  {
    if i < k {
      CountersGrow(run, steps, i, k - 1);
      RunKeepsInv(run, steps, k - 1);
      assert Follows(run, steps, k - 1);
      StepCounts(run[k - 1], steps[k - 1], run[k]);
    }
  }

  lemma StepCounts<T>(s: State<T>, step: Step<T>, s': State<T>)
    requires s' == Do(s, step)
    ensures |s.popped| <= |s'.popped| && |s.pushed| <= |s'.pushed|
  {
    match step
    case ProducerStep => ProducerCounts(s);
    case ConsumerStep => ConsumerCounts(s);
    case _ =>
  }

  lemma ProducerCounts<T>(s: State<T>)
    ensures ProducerDo(s).popped == s.popped && |s.pushed| <= |ProducerDo(s).pushed|
  {
    if !s.producer.Publish? {
      assert ProducerDo(s).pushed == s.pushed;
    }
  }

  lemma ConsumerCounts<T>(s: State<T>)
    ensures ConsumerDo(s).pushed == s.pushed && |s.popped| <= |ConsumerDo(s).popped|
  {
    if s.consumer.PopLoad? || s.consumer.Destroy? || s.consumer.Advance? {
      PopCounts(s);
    } else if InFront(s) {
      FrontCounts(s);
    }
  }

  lemma PopCounts<T>(s: State<T>)
    requires s.consumer.PopLoad? || s.consumer.Destroy? || s.consumer.Advance?
    ensures ConsumerDo(s).pushed == s.pushed && |s.popped| <= |ConsumerDo(s).popped|
    ensures ConsumerDo(s).producer == s.producer
  {
  }

  lemma FrontCounts<T>(s: State<T>)
    requires InFront(s)
    ensures ConsumerDo(s).pushed == s.pushed && ConsumerDo(s).popped == s.popped
    ensures ConsumerDo(s).producer == s.producer
  {
    if s.consumer.FrontCheck? || s.consumer.FrontRecheck? {
      ReturnCounts(s, s.consumer.r);
    }
  }

  lemma ReturnCounts<T>(s: State<T>, r: nat)
    ensures Return(s, r).pushed == s.pushed && Return(s, r).popped == s.popped
    ensures Return(s, r).producer == s.producer
  {
  }

  /** size() that loads writeIdx_ first, with any steps before it loads readIdx_: the
      number of values that were inside at the first load and still are at the second,
      exactly if not more than those have been popped meanwhile, or if what has been
      popped beyond them fills whole rounds of the ring. */
  lemma SizeBetweenLoads<T(!new)>(run: seq<State<T>>, steps: seq<Step<T>>, i: nat, k: nat)
    requires IsRun(run, steps) && i <= k < |run|
    ensures CountersInOrder(run[i], run[k])
    ensures var n, size := SizeRead(run[i].writeIdx, run[k].readIdx, run[0].size), run[0].size;
      var remaining := |run[i].pushed| - |run[k].popped|;
      && (n == (if remaining >= 0 then remaining else 0) <==> remaining >= 0 || remaining % size == 0)
      && (|run[k].popped| == |run[i].popped| ==> n == |Contents(run[i])|)
      && (|run[k].pushed| == |run[i].pushed| ==> n == |Contents(run[k])|)
  {
    RunKeepsInv(run, steps, i);
    RunKeepsInv(run, steps, k);
    CountersGrow(run, steps, i, k);
    var R, W, size := |run[k].popped|, |run[i].pushed|, run[0].size;
    SizeIsModulo(W, R, size);
    if R <= W {
      ModOf(0, W - R, size);
    }
  }

  ghost predicate CountersInOrder<T>(s: State<T>, s': State<T>) {
    |s.popped| <= |s'.popped| <= |s'.pushed| && |s.popped| <= |s.pushed| <= |s'.pushed|
  }

  /** size() that loads readIdx_ first: the number of values that were inside at the first
      load or were pushed before the second, exactly if they would all fit. */
  lemma SizeReadIndexFirst<T(!new)>(run: seq<State<T>>, steps: seq<Step<T>>, i: nat, k: nat)
    requires IsRun(run, steps) && i <= k < |run|
    ensures CountersInOrder(run[i], run[k])
    ensures var n, size := SizeRead(run[k].writeIdx, run[i].readIdx, run[0].size), run[0].size;
      var total := |run[k].pushed| - |run[i].popped|;
      && (n == total <==> total < size)
      && (|run[k].popped| == |run[i].popped| ==> n == |Contents(run[k])|)
      && (|run[k].pushed| == |run[i].pushed| ==> n == |Contents(run[i])|)
  {
    RunKeepsInv(run, steps, i);
    RunKeepsInv(run, steps, k);
    CountersGrow(run, steps, i, k);
    var R, W, size := |run[i].popped|, |run[k].pushed|, run[0].size;
    SizeIsModulo(W, R, size);
    if W - R < size {
      ModOf(0, W - R, size);
    }
  }

  lemma ExtendRun<T(!new)>(run: seq<State<T>>, steps: seq<Step<T>>, step: Step<T>)
    returns (run': seq<State<T>>, steps': seq<Step<T>>)
    requires IsRun(run, steps) && Enabled(run[|steps|], step)
    ensures IsRun(run', steps') && run' == run + [Do(run[|steps|], step)] && steps' == steps + [step]
  {
    run', steps' := run + [Do(run[|steps|], step)], steps + [step];
    forall j: nat | j < |steps'| ensures Follows(run', steps', j) {
      if j < |steps| {
        assert Follows(run, steps, j);
      }
    }
  }

  /** A queue with these fields, nothing refused or found empty by the calls in progress. */
  function Quiet(slots: seq<Option<int>>, w: nat, r: nat, wCache: nat, p: Producer<int>, c: Consumer<int>,
                 pushed: seq<int>, popped: seq<int>): State<int>
  {
    var popping := c.PopLoad? || c.Destroy? || c.Advance?;
    State(2, slots, w, r, 0, wCache, p, c, pushed, popped, popping, false, false, false, false)
  }

  /** Pushing v into the empty queue of two slots, and what each step leaves. */
  lemma RunOfPush(v: int) returns (run: seq<State<int>>, steps: seq<Step<int>>)
    ensures IsRun(run, steps) && run[0] == Init(2) && |steps| == 5
    ensures run[5] == State(2, [Some(v), None], 1, 0, 0, 0, Ready, Idle, [v], [], false, false, false, false, false)
  {
    var none: seq<Option<int>> := [None, None];
    run, steps := [Init<int>(2)], [];
    run, steps := ExtendRun(run, steps, TryEmplace(v));
    assert run[1] == Quiet(none, 0, 0, 0, Load(v, true), Idle, [], []);
    run, steps := ExtendRun(run, steps, ProducerStep);
    assert run[2] == Quiet(none, 0, 0, 0, Check(v, 0, 1, true), Idle, [], []);
    run, steps := ExtendRun(run, steps, ProducerStep);
    assert run[3] == Quiet(none, 0, 0, 0, Fill(v, 0, 1), Idle, [], []);
    run, steps := ExtendRun(run, steps, ProducerStep);
    assert run[4] == Quiet([Some(v), None], 0, 0, 0, Publish(v, 1), Idle, [], []);
    run, steps := ExtendRun(run, steps, ProducerStep);
  }

  /** Between the loads of a third thread one value is pushed and popped: the queue is
      empty at both, and size() returns 1. */
  lemma SizeGoesWrong(v: int) returns (run: seq<State<int>>, steps: seq<Step<int>>)
    ensures IsRun(run, steps) && run[0].size == 2
    ensures var s, s' := run[0], run[|steps|];
      s.pushed == [] && s'.pushed == s'.popped == [v] && SizeRead(s.writeIdx, s'.readIdx, 2) == 1
  {
    run, steps := RunOfPushAndPop(v);
  }

  /** With readIdx_ loaded first, right after the push, and another value pushed after the
      pop: the queue holds one value at both loads, and size() returns 0. */
  lemma SizeGoesWrongToo(v: int) returns (run: seq<State<int>>, steps: seq<Step<int>>)
    ensures IsRun(run, steps) && run[0].size == 2 && |steps| > 5
    ensures var s, s' := run[5], run[|steps|];
      && s.pushed == [v] && s.popped == [] && s'.pushed == [v, v] && s'.popped == [v]
      && SizeRead(s'.writeIdx, s.readIdx, 2) == 0
  {
    run, steps := RunOfPushAndPop(v);
    var n, none := |steps|, [None, None];
    run, steps := ExtendRun(run, steps, TryEmplace(v));
    assert run[n + 1] == Quiet(none, 1, 1, 1, Load(v, true), Idle, [v], [v]);
    run, steps := ExtendRun(run, steps, ProducerStep);
    assert run[n + 2] == Quiet(none, 1, 1, 1, Check(v, 1, 0, true), Idle, [v], [v]);
    run, steps := ExtendRun(run, steps, ProducerStep);
    assert run[n + 3] == Quiet(none, 1, 1, 1, Reload(v, 1, 0, true), Idle, [v], [v]);
    run, steps := ExtendRun(run, steps, ProducerStep);
    assert run[n + 4] == Quiet(none, 1, 1, 1, Recheck(v, 1, 0, false), Idle, [v], [v]).(readIdxCache := 1);
    run, steps := ExtendRun(run, steps, ProducerStep);
    assert run[n + 5] == Quiet(none, 1, 1, 1, Fill(v, 1, 0), Idle, [v], [v]).(readIdxCache := 1);
    run, steps := PublishedRun(run, steps, v);
  }

  lemma PublishedRun(before: seq<State<int>>, done: seq<Step<int>>, v: int)
    returns (run: seq<State<int>>, steps: seq<Step<int>>)
    requires IsRun(before, done)
    requires before[|done|] == Quiet([None, None], 1, 1, 1, Fill(v, 1, 0), Idle, [v], [v]).(readIdxCache := 1)
    ensures IsRun(run, steps) && before <= run && |steps| > |done|
    ensures run[|steps|] == Quiet([None, Some(v)], 0, 1, 1, Ready, Idle, [v, v], [v]).(readIdxCache := 1)
  {
    run, steps := ExtendRun(before, done, ProducerStep);
    assert run[|done| + 1] == Quiet([None, Some(v)], 1, 1, 1, Publish(v, 0), Idle, [v], [v]).(readIdxCache := 1);
    run, steps := ExtendRun(run, steps, ProducerStep);
    assert [v] + [v] == [v, v];
  }

  lemma RunOfPushAndPop(v: int) returns (run: seq<State<int>>, steps: seq<Step<int>>)
    ensures IsRun(run, steps) && run[0] == Init(2) && |steps| > 5
    ensures run[5] == State(2, [Some(v), None], 1, 0, 0, 0, Ready, Idle, [v], [], false, false, false, false, false)
    ensures run[|steps|] == Quiet([None, None], 1, 1, 1, Ready, Idle, [v], [v])
  {
    run, steps := RunOfPush(v);
    var slots := [Some(v), None];
    run, steps := ExtendRun(run, steps, Front);
    assert run[6] == Quiet(slots, 1, 0, 0, Ready, FrontLoad, [v], []);
    run, steps := ExtendRun(run, steps, ConsumerStep);
    assert run[7] == Quiet(slots, 1, 0, 0, Ready, FrontCheck(0), [v], []);
    run, steps := ExtendRun(run, steps, ConsumerStep);
    assert run[8] == Quiet(slots, 1, 0, 0, Ready, FrontReload(0), [v], []);
    run, steps := ExtendRun(run, steps, ConsumerStep);
    assert run[9] == Quiet(slots, 1, 0, 1, Ready, FrontRecheck(0, false), [v], []);
    run, steps := ExtendRun(run, steps, ConsumerStep);
    assert run[10] == Quiet(slots, 1, 0, 1, Ready, Idle, [v], []).(frontNonNull := true);
    run, steps := PoppedRun(run, steps, v);
  }

  lemma PoppedRun(before: seq<State<int>>, done: seq<Step<int>>, v: int)
    returns (run: seq<State<int>>, steps: seq<Step<int>>)
    requires IsRun(before, done)
    requires before[|done|] == Quiet([Some(v), None], 1, 0, 1, Ready, Idle, [v], []).(frontNonNull := true)
    ensures IsRun(run, steps) && before <= run && |steps| > |done|
    ensures run[|steps|] == Quiet([None, None], 1, 1, 1, Ready, Idle, [v], [v])
  {
    var n := |done|;
    run, steps := ExtendRun(before, done, Pop);
    assert run[n + 1] == Quiet([Some(v), None], 1, 0, 1, Ready, PopLoad, [v], []);
    run, steps := ExtendRun(run, steps, ConsumerStep);
    assert run[n + 2] == Quiet([Some(v), None], 1, 0, 1, Ready, Destroy(0), [v], []);
    run, steps := ExtendRun(run, steps, ConsumerStep);
    assert run[n + 3] == Quiet([None, None], 1, 0, 1, Ready, Advance(1, v), [v], []);
    run, steps := ExtendRun(run, steps, ConsumerStep);
  }

  // ------------------------------------------------------------- constructor

  const SIZE_MAX: int := TWO64 - 1

  /** The number of slots the constructor settles on; size_t arithmetic wraps. */
  function SlotCount(requested: nat, padding: nat): (r: int)
    requires requested <= SIZE_MAX && 1 <= padding <= 64
  {
    var capacity := if requested < 1 then 1 else requested;
    var slots := (capacity + 1) % TWO64;
    if slots > SIZE_MAX - 2 * padding then SIZE_MAX - 2 * padding else slots
  }

  /** The clamp against overflow comes after the increment that overflows: there is
      a usable queue exactly when the requested capacity is not the largest size_t. */
  lemma UsableCapacity(requested: nat, padding: nat)
    requires requested <= SIZE_MAX && 1 <= padding <= 64
    ensures SlotCount(requested, padding) >= 2 <==> requested != SIZE_MAX
    ensures 1 <= requested < SIZE_MAX - 2 * padding ==> SlotCount(requested, padding) - 1 == requested
    ensures requested < SIZE_MAX ==> SlotCount(requested, padding) + 2 * padding <= SIZE_MAX
  {
  }
}
