/** The queue as the class it is, one call at a time.  Every method body takes the
    atomic steps of the state machine, whose invariant is the class invariant. */
module SpscQueue {
  import opened Jsons
  import opened Powers
  import opened Sequences
  import opened Spsc

  datatype Round<T> = Round(pops: nat, pushes: seq<T>)

  class SPSCQueue<T> {
    const size: nat
    const slots: array<Option<T>>
    var writeIdx: nat
    var readIdxCache: nat
    var readIdx: nat
    var writeIdxCache: nat
    ghost var state: State<T>

    /** The fields are those of a reachable state, possibly inside a call. */
    ghost predicate InCall()
      reads this, slots
    {
      && Inv(state)
      && size == state.size && slots[..] == state.slots
      && writeIdx == state.writeIdx && readIdx == state.readIdx
      && readIdxCache == state.readIdxCache && writeIdxCache == state.writeIdxCache
    }

    ghost predicate Valid()
      reads this, slots
    {
      InCall() && state.producer.Ready? && state.consumer.Idle?
    }

    ghost function Values(): seq<T>
      reads this, slots
      requires InCall()
    {
      Contents(state)
    }

    function Capacity(): int {
      size - 1
    }

    /** Where requested + 1 wraps around there is no slot: see UsableCapacity. */
    constructor (requested: nat, padding: nat)
      requires requested <= SIZE_MAX && 1 <= padding <= 64
      ensures fresh(slots) && slots.Length == SlotCount(requested, padding) == Capacity() + 1
      ensures requested < SIZE_MAX ==> Valid() && Values() == [] && Capacity() >= 1
      ensures requested == SIZE_MAX ==> slots.Length == 0
    {
      UsableCapacity(requested, padding);
      var n := SlotCount(requested, padding);
      size := n;
      slots := new Option<T>[n](_ => None);
      writeIdx, readIdxCache, readIdx, writeIdxCache := 0, 0, 0, 0;
      state := Init<T>(n);
      new;
      if requested < SIZE_MAX {
        InitInv<T>(n);
      }
      assert slots[..] == state.slots;
    }

    /** Fills the slot at the write index and publishes it. */
    method FillAndPublish(v: T, w: nat, next: nat)
      requires InCall() && state.producer == Fill(v, w, next) && state.consumer.Idle?
      modifies this, slots
      ensures Valid() && Values() == old(Contents(state)) + [v]
      ensures state.frontNonNull == old(state.frontNonNull)
    {
      PublishEffect(state);
      slots[w] := Some(v);
      writeIdx := next;
      state := ProducerDo(ProducerDo(state));
    }

    /** Calls and loads the write index. */
    method Begin(v: T, try: bool) returns (w: nat, next: nat)
      requires Valid()
      modifies this
      ensures InCall() && state.producer == Check(v, w, next, try) && state.consumer.Idle?
      ensures Contents(state) == old(Values()) && state.frontNonNull == old(state.frontNonNull)
    {
      ghost var call := if try then Step.TryEmplace(v) else Step.Emplace(v);
      CallKeepsInv(state, call);
      state := Do(state, call);
      LoadKeepsInv(state);
      w := writeIdx;
      next := Next(w, size);
      state := ProducerDo(state);
    }

    /** Reloads the read index after the cached one said the queue is full. */
    method ReloadAndRecheck(v: T, w: nat, next: nat) returns (ok: bool)
      requires InCall() && state.producer == Reload(v, w, next, true) && state.consumer.Idle?
      modifies this
      ensures InCall() && state.producer == (if ok then Fill(v, w, next) else Ready) && state.consumer.Idle?
      ensures ok <==> |old(Contents(state))| < Capacity()
      ensures Contents(state) == old(Contents(state)) && state.frontNonNull == old(state.frontNonNull)
    {
      ReloadKeepsInv(state);
      readIdxCache := readIdx;
      state := ProducerDo(state);
      RecheckKeepsInv(state);
      state := ProducerDo(state);
      return next != readIdxCache;
    }

    method TryEmplace(v: T) returns (ok: bool)
      requires Valid()
      modifies this, slots
      ensures Valid() && state.frontNonNull == old(state.frontNonNull)
      ensures ok <==> |old(Values())| < Capacity()
      ensures Values() == if ok then old(Values()) + [v] else old(Values())
    {
      var w, next := Begin(v, true);
      StaleCacheOnlyReloads(state);
      CheckKeepsInv(state);
      state := ProducerDo(state);
      if next == readIdxCache {
        var room := ReloadAndRecheck(v, w, next);
        if !room {
          return false;
        }
      }
      FillAndPublish(v, w, next);
      return true;
    }

    /** Spins until there is room.  In round k of the wait the consumer takes pops[k]
        values, as far as there are any; taken counts them. */
    method Emplace(v: T, pops: seq<nat>) returns (taken: nat)
      requires Valid() && (|Values()| < Capacity() || SomePop(pops, 0))
      modifies this, slots
      ensures Valid() && taken <= |old(Values())|
      ensures Values() == old(Values())[taken..] + [v]
    {
      var w, next := Begin(v, false);
      var k := 0;
      taken := 0;
      while next == readIdxCache
        invariant InCall() && state.producer == Check(v, w, next, false) && state.consumer.Idle?
        invariant taken <= |old(Values())| && Values() == old(Values())[taken..]
        invariant k <= |pops| && (|Values()| < Capacity() || SomePop(pops, k))
        decreases |pops| - k, if readIdxCache == readIdx then 0 else 1
      {
        CacheShowsSpace(state);
        RoomOrPops(pops, k, |Values()|, Capacity());
        var n := WaitRound(v, w, next, PopsAt(pops, k));
        DropTwice(old(Values()), taken, n);
        taken := taken + n;
        k := if k < |pops| then k + 1 else k;
      }
      FinishEmplace(v, w, next);
    }

    method FinishEmplace(v: T, w: nat, next: nat)
      requires InCall() && state.producer == Check(v, w, next, false) && state.consumer.Idle? && next != readIdxCache
      modifies this, slots
      ensures Valid() && Values() == old(Values()) + [v]
    {
      CheckKeepsInv(state);
      state := ProducerDo(state);
      FillAndPublish(v, w, next);
    }

    /** One round: the consumer takes up to n values, then the index is reloaded. */
    method WaitRound(v: T, w: nat, next: nat, n: nat) returns (taken: nat)
      requires InCall() && state.producer == Check(v, w, next, false) && state.consumer.Idle? && next == readIdxCache
      modifies this, slots
      ensures InCall() && state.producer == Check(v, w, next, false) && state.consumer.Idle?
      ensures readIdxCache == readIdx
      ensures taken == (if n < |old(Values())| then n else |old(Values())|) && Values() == old(Values())[taken..]
    {
      CheckKeepsInv(state);
      state := ProducerDo(state);
      taken := TakeUpTo(n);
      ReloadKeepsInv(state);
      readIdxCache := readIdx;
      state := ProducerDo(state);
    }

    /** The consumer at work, whatever the producer is doing. */
    method TakeUpTo(n: nat) returns (taken: nat)
      requires InCall() && state.consumer.Idle?
      modifies this, slots
      ensures InCall() && state.consumer.Idle? && ProducerKept(old(state), state)
      ensures readIdxCache == old(readIdxCache)
      ensures taken == (if n < |old(Values())| then n else |old(Values())|) && Values() == old(Values())[taken..]
    {
      taken := 0;
      while taken < n
        invariant InCall() && state.consumer.Idle? && ProducerKept(old(state), state)
        invariant readIdxCache == old(readIdxCache)
        invariant taken <= n && taken <= |old(Values())| && Values() == old(Values())[taken..]
      {
        var front := Front();
        if front.None? {
          return;
        }
        Pop();
        taken := taken + 1;
      }
    }

    /** Reloads the write index after the cached one said the queue is empty. */
    method ReloadAndReturn() returns (r: Option<T>)
      requires InCall() && state.consumer == FrontReload(readIdx)
      modifies this
      ensures InCall() && state.consumer.Idle? && ProducerKept(old(state), state) && readIdxCache == old(readIdxCache)
      ensures Values() == old(Values()) && state.pushed == old(state.pushed)
      ensures r == if Values() == [] then None else Some(Values()[0])
      ensures r.Some? ==> state.frontNonNull
    {
      FrontReloadKeepsInv(state);
      writeIdxCache := writeIdx;
      state := ConsumerDo(state);
      CacheShowsValue(state);
      FrontRecheckKeepsInv(state);
      state := ConsumerDo(state);
      if writeIdxCache == readIdx {
        return None;
      }
      return slots[readIdx];
    }

    /** Calls front and loads the read index. */
    ghost method BeginFront()
      requires InCall() && state.consumer.Idle?
      modifies this`state
      ensures InCall() && state.consumer == FrontCheck(readIdx) && ProducerKept(old(state), state)
      ensures Values() == old(Values())
    {
      CallKeepsInv(state, Step.Front);
      state := Do(state, Step.Front);
      ConsumerKeepsInv(state);
      state := ConsumerDo(state);
    }

    /** The oldest value, or None for the null pointer. */
    method Front() returns (r: Option<T>)
      requires InCall() && state.consumer.Idle?
      modifies this
      ensures InCall() && state.consumer.Idle? && ProducerKept(old(state), state) && readIdxCache == old(readIdxCache)
      ensures Values() == old(Values()) && state.pushed == old(state.pushed)
      ensures r == if Values() == [] then None else Some(Values()[0])
      ensures r.Some? ==> state.frontNonNull
    {
      BeginFront();
      CacheShowsValue(state);
      FrontCheckKeepsInv(state);
      state := ConsumerDo(state);
      if readIdx == writeIdxCache {
        r := ReloadAndReturn();
        return;
      }
      return slots[readIdx];
    }

    method Pop()
      requires InCall() && state.consumer.Idle? && state.frontNonNull
      modifies this, slots
      ensures InCall() && state.consumer.Idle? && ProducerKept(old(state), state) && readIdxCache == old(readIdxCache)
      ensures old(Values()) != [] && Values() == old(Values())[1..]
      ensures state.popped == old(state.popped) + [old(Values())[0]] && state.pushed == old(state.pushed)
    {
      PopAloneEffect(state);
      slots[readIdx] := None;
      readIdx := Next(readIdx, size);
      state := PopAlone(state);
    }

    /** What the other threads do meanwhile, in whole calls. */
    method Others(rounds: seq<Round<T>>)
      requires Valid()
      modifies this, slots
      ensures Valid() && (rounds == [] ==> state == old(state))
    {
      for i := 0 to |rounds|
        invariant Valid() && (rounds == [] ==> state == old(state))
      {
        var taken := TakeUpTo(rounds[i].pops);
        for j := 0 to |rounds[i].pushes|
          invariant Valid()
        {
          var ok := TryEmplace(rounds[i].pushes[j]);
        }
      }
    }

    /** The signed difference of the indices, corrected when they have wrapped.  The order
        of the two loads is open, and between them other threads may act. */
    method Size(writeFirst: bool, rounds: seq<Round<T>>) returns (n: int)
      requires Valid()
      modifies this, slots
      ensures Valid()
      ensures writeFirst ==> n == (|old(state.pushed)| - |state.popped|) % size
      ensures !writeFirst ==> n == (|state.pushed| - |old(state.popped)|) % size
      ensures rounds == [] ==> n == |Values()| && Values() == old(Values())
    {
      SizeOfCounters(|state.pushed|, |state.popped|, size);
      var w, r := writeIdx, readIdx;
      ghost var before := state;
      Others(rounds);
      SizeIsModulo(|before.pushed|, |state.popped|, size);
      SizeIsModulo(|state.pushed|, |before.popped|, size);
      if writeFirst {
        r := readIdx;
      } else {
        w := writeIdx;
      }
      n := WrappedDifference(w, r);
    }

    method WrappedDifference(w: nat, r: nat) returns (n: int)
      ensures n == SizeRead(w, r, size)
    {
      n := w - r;
      if n < 0 {
        n := n + size;
      }
    }

    method Empty() returns (r: bool)
      requires Valid()
      ensures r <==> Values() == []
    {
      CacheShowsValue(state);
      return writeIdx == readIdx;
    }

    /** The destructor: no slot is left holding a value. */
    method Drain()
      requires Valid()
      modifies this, slots
      ensures Valid() && Values() == [] && forall i :: 0 <= i < slots.Length ==> slots[..][i] == None
      ensures state.popped == old(state.pushed)
    {
      var front := Front();
      while front.Some?
        invariant Valid() && state.pushed == old(state.pushed)
        invariant front.Some? ==> state.frontNonNull
        invariant front.None? ==> Values() == []
        decreases |Values()|, front.Some?
      {
        Pop();
        front := Front();
      }
      EmptySlots(state);
      assert state.popped == state.pushed[..|state.popped|] == state.pushed;
    }
  }

  predicate SomePop(pops: seq<nat>, k: nat) {
    exists i :: k <= i < |pops| && pops[i] > 0
  }

  function PopsAt(pops: seq<nat>, k: nat): nat {
    if k < |pops| then pops[k] else 0
  }

  lemma RoomOrPops(pops: seq<nat>, k: nat, count: nat, capacity: nat)
    requires count <= capacity && capacity > 0 && (count < capacity || SomePop(pops, k))
    ensures var n := PopsAt(pops, k);
      count - (if n < count then n else count) < capacity || SomePop(pops, k + 1)
  {
  }

  /** The consumer does not touch the producer's side. */
  ghost predicate ProducerKept<T>(s: State<T>, s': State<T>) {
    s'.producer == s.producer && s'.size == s.size && s'.pushed == s.pushed
  }

  lemma EmptySlots<T>(s: State<T>)
    requires Inv(s) && |Contents(s)| == 0 && s.producer.Ready?
    ensures forall i :: 0 <= i < s.size ==> s.slots[i] == None
  {
    forall i | 0 <= i < s.size ensures s.slots[i] == None {
      var n := CounterFor(i, |s.popped|, s.size);
      assert SlotInv(s, n);
    }
  }

  /** Every slot is the slot of one of size successive counters. */
  lemma CounterFor(i: nat, r: nat, size: nat) returns (n: nat)
    requires i < size
    ensures r <= n < r + size && n % size == i
  {
    var p, a := r / size, r % size;
    assert r == p * size + a;
    if a <= i {
      n := p * size + i;
      ModOf(p, i, size);
    } else {
      n := (p + 1) * size + i;
      ModOf(p + 1, i, size);
    }
  }
}
