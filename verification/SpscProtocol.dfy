/** The two-thread protocol behind the single-producer / single-consumer ring.

    Each C++ memory access of `push` and `pop` is one step, and the steps of the two threads
    interleave freely. An atomic index is the sequence of values ever stored to it; an acquire
    load of the other side's index may return ANY of them from the last one observed onwards
    (coherence and nothing more). A release store publishes how many slot accesses of its
    thread came before it, an acquire load of that value makes them known to the loader, and a
    read of a slot may return any write to it that is not superseded by a known later one. */
module SpscProtocol {
  import opened Types
  import opened Arithmetic

  datatype Store = Store(index: nat, released: nat)

  datatype Producer<T> =
    | PIdle
    | PLoadTail(item: T, head: nat, next: nat)
    | PWriteSlot(item: T, head: nat, next: nat)
    | PStoreHead(item: T, head: nat, next: nat)

  datatype Consumer<T> =
    | CIdle
    | CLoadHead(tail: nat)
    | CReadSlot(tail: nat)
    | CStoreTail(tail: nat, item: T)

  datatype State<T> = State(
    headStores: seq<Store>,     // every value of head_, oldest first
    tailStores: seq<Store>,     // every value of tail_, oldest first
    initial: T,                 // what a slot holds before its first write
    slotWrites: seq<(nat, T)>,      // slot writes of the producer, in program order
    slotReads: seq<nat>,            // slot reads of the consumer, in program order
    prod: Producer<T>,
    prodSeen: nat,              // position in tailStores the producer last observed
    prodKnows: nat,             // how many reads happen before the producer's next step
    cons: Consumer<T>,
    consSeen: nat,              // position in headStores the consumer last observed
    consKnows: nat,             // how many writes happen before the consumer's next step
    pushed: seq<T>,             // items whose push returned true
    popped: seq<T>)             // items a pop returned

  datatype Step<T> =
    | CallPush(item: T)
    | LoadTail(at: nat)
    | WriteSlot
    | StoreHead
    | CallPop
    | LoadHead(at: nat)
    | ReadSlot(from: Option<nat>)
    | StoreTail

  function Start<T>(initial: T): State<T> {
    State([Store(0, 0)], [Store(0, 0)], initial, [], [], PIdle, 0, 0, CIdle, 0, 0, [], [])
  }

  /** The values a read of `slot` may return, named by the write they come from. */
  ghost predicate Readable<T>(s: State<T>, slot: nat, from: Option<nat>) {
    match from
    case None => forall m :: 0 <= m < s.consKnows && m < |s.slotWrites| ==> s.slotWrites[m].0 != slot
    case Some(w) =>
      && w < |s.slotWrites| && s.slotWrites[w].0 == slot
      && forall m :: w < m < s.consKnows && m < |s.slotWrites| ==> s.slotWrites[m].0 != slot
  }

  ghost predicate Enabled<T>(s: State<T>, step: Step<T>) {
    match step
    case CallPush(_) => s.prod.PIdle? && s.headStores != []
    case LoadTail(at) => s.prod.PLoadTail? && s.prodSeen <= at < |s.tailStores|
    case WriteSlot => s.prod.PWriteSlot?
    case StoreHead => s.prod.PStoreHead?
    case CallPop => s.cons.CIdle? && s.tailStores != []
    case LoadHead(at) => s.cons.CLoadHead? && s.consSeen <= at < |s.headStores|
    case ReadSlot(from) => s.cons.CReadSlot? && Readable(s, s.cons.tail, from)
    case StoreTail => s.cons.CStoreTail?
  }

  function Max(a: nat, b: nat): nat { if a < b then b else a }

  ghost function Do<T>(k: nat, s: State<T>, step: Step<T>): State<T>
    requires Enabled(s, step)
  {
    match step
    case CallPush(item) =>
      var head := s.headStores[|s.headStores| - 1].index;
      s.(prod := PLoadTail(item, head, Mask(head + 1, k)))
    case LoadTail(at) =>
      var seen := s.tailStores[at];
      s.(prodSeen := at, prodKnows := Max(s.prodKnows, seen.released),
         prod := if s.prod.next == seen.index then PIdle
                 else PWriteSlot(s.prod.item, s.prod.head, s.prod.next))
    case WriteSlot =>
      s.(slotWrites := s.slotWrites + [(s.prod.head, s.prod.item)],
         prod := PStoreHead(s.prod.item, s.prod.head, s.prod.next))
    case StoreHead =>
      s.(headStores := s.headStores + [Store(s.prod.next, |s.slotWrites|)],
         pushed := s.pushed + [s.prod.item], prod := PIdle)
    case CallPop =>
      s.(cons := CLoadHead(s.tailStores[|s.tailStores| - 1].index))
    case LoadHead(at) =>
      var seen := s.headStores[at];
      s.(consSeen := at, consKnows := Max(s.consKnows, seen.released),
         cons := if s.cons.tail == seen.index then CIdle else CReadSlot(s.cons.tail))
    case ReadSlot(from) =>
      s.(slotReads := s.slotReads + [s.cons.tail],
         cons := CStoreTail(s.cons.tail, if from.None? then s.initial else s.slotWrites[from.value].1))
    case StoreTail =>
      s.(tailStores := s.tailStores + [Store(Mask(s.cons.tail + 1, k), |s.slotReads|)],
         popped := s.popped + [s.cons.item], cons := CIdle)
  }

  /** The state after an interleaving, or None when some step was not enabled in its turn. */
  ghost function Run<T>(k: nat, s: State<T>, steps: seq<Step<T>>): Option<State<T>>
    decreases |steps|
  {
    if steps == [] then Some(s)
    else
      var n := |steps| - 1;
      match Run(k, s, steps[..n])
      case None => None
      case Some(before) => if Enabled(before, steps[n]) then Some(Do(k, before, steps[n])) else None
  }

  // ---- What holds in every reachable state ----

  /** Items whose slot write has been done, whether or not head_ has moved yet. */
  function Written<T>(s: State<T>): seq<T> {
    if s.prod.PStoreHead? then s.pushed + [s.prod.item] else s.pushed
  }

  ghost predicate IndexHistory(cap: nat, stores: seq<Store>, moves: nat)
    requires cap > 0
  {
    |stores| == moves + 1 && forall i :: 0 <= i <= moves ==> stores[i] == Store(i % cap, i)
  }

  ghost predicate ProducerInv<T>(k: nat, s: State<T>) {
    var cap, n := Pow2(k), |s.pushed|;
    && IndexHistory(cap, s.headStores, n)
    && |s.slotWrites| == |Written(s)|
    && (forall i :: 0 <= i < |s.slotWrites| ==> s.slotWrites[i] == (i % cap, Written(s)[i]))
    && s.prodSeen <= |s.popped| && s.prodKnows == s.prodSeen
    && n - s.prodSeen <= cap - 1
    && (!s.prod.PIdle? ==> s.prod.head == n % cap && s.prod.next == (n + 1) % cap)
    && (s.prod.PWriteSlot? || s.prod.PStoreHead? ==> n - s.prodSeen <= cap - 2)
  }

  ghost predicate ConsumerInv<T>(k: nat, s: State<T>) {
    var cap, t := Pow2(k), |s.popped|;
    && IndexHistory(cap, s.tailStores, t)
    && |s.slotReads| == (if s.cons.CStoreTail? then t + 1 else t)
    && (forall i :: 0 <= i < |s.slotReads| ==> s.slotReads[i] == i % cap)
    && t <= s.consSeen <= |s.pushed| && s.consKnows == s.consSeen
    && s.popped <= s.pushed
    && (!s.cons.CIdle? ==> s.cons.tail == t % cap)
    && (s.cons.CReadSlot? || s.cons.CStoreTail? ==> t < s.consSeen)
    && (s.cons.CStoreTail? ==> t < |s.pushed| && s.cons.item == s.pushed[t])
  }

  ghost predicate Inv<T>(k: nat, s: State<T>) {
    ProducerInv(k, s) && ConsumerInv(k, s)
  }

  /** The consumer has only one value it can read: the write of the item it is about to pop. */
  lemma OnlyOneReadable<T>(k: nat, s: State<T>, from: Option<nat>)
    requires Inv(k, s) && s.cons.CReadSlot?
    requires Readable(s, s.cons.tail, from)
    ensures from == Some(|s.popped|)
  {
    var cap, t := Pow2(k), |s.popped|;
    assert s.slotWrites[t].0 == t % cap;
    if from.Some? && t <= from.value {
      assert s.slotWrites[from.value].0 == from.value % cap;
      SameRemainder(t, from.value, cap);
    }
  }

  lemma ProducerKeepsInv<T>(k: nat, s: State<T>, step: Step<T>)
    requires Inv(k, s) && Enabled(s, step)
    requires step.CallPush? || step.LoadTail? || step.WriteSlot? || step.StoreHead?
    ensures Inv(k, Do(k, s, step))
  {
    var cap, n := Pow2(k), |s.pushed|;
    RemainderOfSum(n, 1, cap);
    if step.LoadTail? && s.prod.next != s.tailStores[step.at].index {
      if n - step.at == cap - 1 {
        RemainderOfPeriod(step.at, cap);
      }
    }
  }

  lemma StoreTailKeepsInv<T>(k: nat, s: State<T>, step: Step<T>)
    requires Inv(k, s) && Enabled(s, step) && step.StoreTail?
    ensures Inv(k, Do(k, s, step))
  {
    RemainderOfSum(|s.popped|, 1, Pow2(k));
  }

  lemma ConsumerKeepsInv<T>(k: nat, s: State<T>, step: Step<T>)
    requires Inv(k, s) && Enabled(s, step)
    requires step.CallPop? || step.LoadHead? || step.ReadSlot? || step.StoreTail?
    ensures Inv(k, Do(k, s, step))
  {
    if step.StoreTail? {
      StoreTailKeepsInv(k, s, step);
    } else if step.ReadSlot? {
      OnlyOneReadable(k, s, step.from);
    }
  }

  lemma {:induction false} ReachableInv<T>(k: nat, initial: T, steps: seq<Step<T>>, s: State<T>)
    requires Run(k, Start(initial), steps) == Some(s)
    ensures Inv(k, s)
    decreases |steps|
  {
    if steps != [] {
      var n := |steps| - 1;
      var before := Run(k, Start(initial), steps[..n]).value;
      ReachableInv(k, initial, steps[..n], before);
      var step := steps[n];
      if step.CallPush? || step.LoadTail? || step.WriteSlot? || step.StoreHead? {
        ProducerKeepsInv(k, before, step);
      } else {
        ConsumerKeepsInv(k, before, step);
      }
    }
  }

  // ---- One whole call while the other thread does not move ----

  lemma {:induction false} RunTwo<T>(k: nat, s: State<T>, a: Step<T>, b: Step<T>)
    requires Enabled(s, a) && Enabled(Do(k, s, a), b)
    ensures Run(k, s, [a, b]) == Some(Do(k, Do(k, s, a), b))
  {
    assert [a, b][..1] == [a] && [a][..0] == [];
    assert Run(k, s, [a]) == Some(Do(k, s, a));
  }

  lemma {:induction false} RunSnoc<T>(k: nat, s: State<T>, steps: seq<Step<T>>, last: Step<T>)
    ensures Run(k, s, steps + [last])
         == match Run(k, s, steps)
            case None => None
            case Some(before) => if Enabled(before, last) then Some(Do(k, before, last)) else None
  {
    assert (steps + [last])[..|steps|] == steps;
  }

  lemma {:induction false} RunAppend<T>(k: nat, s: State<T>, first: seq<Step<T>>, mid: State<T>, later: seq<Step<T>>)
    requires Run(k, s, first) == Some(mid)
    ensures Run(k, s, first + later) == Run(k, mid, later)
    decreases |later|
  {
    if later == [] {
      assert first + later == first;
    } else {
      var front, last := later[..|later| - 1], later[|later| - 1];
      RunAppend(k, s, first, mid, front);
      RunSnoc(k, s, first + front, last);
      RunSnoc(k, mid, front, last);
      assert later == front + [last] && first + later == first + front + [last];
    }
  }

  /** The steps of a push that loads the newest tail. */
  ghost function PushSteps<T>(k: nat, s: State<T>, item: T): seq<Step<T>> {
    [CallPush(item), LoadTail(|s.popped|)]
    + if |s.pushed| - |s.popped| < Pow2(k) - 1 then [WriteSlot, StoreHead] else []
  }

  lemma {:induction false} PushAlone<T>(k: nat, s: State<T>, item: T) returns (after: State<T>)
    requires Inv(k, s) && s.prod.PIdle?
    ensures Run(k, s, PushSteps(k, s, item)) == Some(after)
    ensures Inv(k, after) && after.prod.PIdle? && after.cons == s.cons && after.popped == s.popped
    ensures after.pushed == s.pushed + if |s.pushed| - |s.popped| < Pow2(k) - 1 then [item] else []
  {
    var loaded := AskToPush(k, s, item);
    after := loaded;
    var ask := [CallPush(item), LoadTail(|s.popped|)];
    if loaded.prod.PWriteSlot? {
      after := FinishPush(k, loaded);
      RunAppend(k, s, ask, loaded, [WriteSlot, StoreHead]);
    } else {
      assert PushSteps(k, s, item) == ask;
    }
  }

  lemma AskToPush<T>(k: nat, s: State<T>, item: T) returns (loaded: State<T>)
    requires Inv(k, s) && s.prod.PIdle?
    ensures Run(k, s, [CallPush(item), LoadTail(|s.popped|)]) == Some(loaded)
    ensures Inv(k, loaded) && loaded.cons == s.cons && loaded.popped == s.popped && loaded.pushed == s.pushed
    ensures if |s.pushed| - |s.popped| < Pow2(k) - 1 then loaded.prod.PWriteSlot? && loaded.prod.item == item
            else loaded.prod.PIdle?
  {
    var asked := Do(k, s, CallPush(item));
    ProducerKeepsInv(k, s, CallPush(item));
    loaded := Do(k, asked, LoadTail(|s.popped|));
    ProducerKeepsInv(k, asked, LoadTail(|s.popped|));
    RefusedIffFull(k, asked, |s.popped|);
    RunTwo(k, s, CallPush(item), LoadTail(|s.popped|));
  }

  lemma FinishPush<T>(k: nat, s: State<T>) returns (after: State<T>)
    requires Inv(k, s) && s.prod.PWriteSlot?
    ensures Run(k, s, [WriteSlot, StoreHead]) == Some(after)
    ensures Inv(k, after) && after.prod.PIdle? && after.cons == s.cons && after.popped == s.popped
    ensures after.pushed == s.pushed + [s.prod.item]
  {
    var written := Do(k, s, WriteSlot);
    ProducerKeepsInv(k, s, WriteSlot);
    after := Do(k, written, StoreHead);
    ProducerKeepsInv(k, written, StoreHead);
    RunTwo(k, s, WriteSlot, StoreHead);
  }

  /** The steps of a pop that loads the newest head. */
  ghost function PopSteps<T>(s: State<T>): seq<Step<T>> {
    [CallPop, LoadHead(|s.pushed|)]
    + if |s.popped| < |s.pushed| then [ReadSlot(Some(|s.popped|)), StoreTail] else []
  }

  lemma {:induction false} PopAlone<T>(k: nat, s: State<T>) returns (after: State<T>)
    requires Inv(k, s) && s.cons.CIdle?
    ensures Run(k, s, PopSteps(s)) == Some(after)
    ensures Inv(k, after) && after.cons.CIdle? && after.prod == s.prod && after.pushed == s.pushed
    ensures after.popped == s.pushed[..if |s.popped| < |s.pushed| then |s.popped| + 1 else |s.popped|]
  {
    var loaded := AskToPop(k, s);
    after := loaded;
    var ask := [CallPop, LoadHead(|s.pushed|)];
    if loaded.cons.CReadSlot? {
      after := FinishPop(k, loaded);
      RunAppend(k, s, ask, loaded, [ReadSlot(Some(|s.popped|)), StoreTail]);
    } else {
      assert PopSteps(s) == ask;
    }
  }

  lemma AskToPop<T>(k: nat, s: State<T>) returns (loaded: State<T>)
    requires Inv(k, s) && s.cons.CIdle?
    ensures Run(k, s, [CallPop, LoadHead(|s.pushed|)]) == Some(loaded)
    ensures Inv(k, loaded) && loaded.prod == s.prod && loaded.popped == s.popped && loaded.pushed == s.pushed
    ensures if |s.popped| < |s.pushed| then loaded.cons.CReadSlot? else loaded.cons.CIdle?
  {
    var asked := Do(k, s, CallPop);
    ConsumerKeepsInv(k, s, CallPop);
    loaded := Do(k, asked, LoadHead(|s.pushed|));
    ConsumerKeepsInv(k, asked, LoadHead(|s.pushed|));
    EmptyIffCaughtUp(k, asked, |s.pushed|);
    RunTwo(k, s, CallPop, LoadHead(|s.pushed|));
  }

  lemma FinishPop<T>(k: nat, s: State<T>) returns (after: State<T>)
    requires Inv(k, s) && s.cons.CReadSlot?
    ensures Run(k, s, [ReadSlot(Some(|s.popped|)), StoreTail]) == Some(after)
    ensures Inv(k, after) && after.cons.CIdle? && after.prod == s.prod && after.pushed == s.pushed
    ensures |s.popped| < |s.pushed| && after.popped == s.popped + [s.pushed[|s.popped|]]
  {
    var read := ReadSlot(Some(|s.popped|));
    FrontIsReadable(k, s);
    var taken := Do(k, s, read);
    ConsumerKeepsInv(k, s, read);
    after := Do(k, taken, StoreTail);
    ConsumerKeepsInv(k, taken, StoreTail);
    RunTwo(k, s, read, StoreTail);
  }

  lemma FrontIsReadable<T>(k: nat, s: State<T>)
    requires Inv(k, s) && s.cons.CReadSlot?
    ensures Readable(s, s.cons.tail, Some(|s.popped|))
  {
    var cap, t := Pow2(k), |s.popped|;
    forall m | t < m < s.consKnows && m < |s.slotWrites|
      ensures s.slotWrites[m].0 != s.cons.tail
    {
      if m % cap == t % cap { SameRemainder(t, m, cap); }
    }
  }

  lemma {:induction false} RefusedIffFull<T>(k: nat, s: State<T>, at: nat)
    requires Inv(k, s) && Enabled(s, LoadTail(at))
    ensures Do(k, s, LoadTail(at)).prod.PIdle? <==> |s.pushed| - at == Pow2(k) - 1
  {
    var cap, n := Pow2(k), |s.pushed|;
    assert s.tailStores[at].index == at % cap;
    RemainderOfPeriod(at, cap);
    if (n + 1) % cap == at % cap && n + 1 < at + cap {
      SameRemainder(at, n + 1, cap);
    }
  }

  lemma EmptyIffCaughtUp<T>(k: nat, s: State<T>, at: nat)
    requires Inv(k, s) && Enabled(s, LoadHead(at))
    ensures Do(k, s, LoadHead(at)).cons.CIdle? <==> |s.popped| == at
  {
    var cap, t := Pow2(k), |s.popped|;
    assert s.headStores[at].index == at % cap;
    if t % cap == at % cap { SameRemainder(t, at, cap); }
  }

  // ---- Main results ----

  /** First in, first out, no loss, no duplication, bounded occupancy: on every interleaving,
      under every stale-but-coherent choice of the loads. */
  lemma {:induction false} PoppedIsPrefixOfPushed<T>(k: nat, initial: T, steps: seq<Step<T>>, s: State<T>)
    requires Run(k, Start(initial), steps) == Some(s)
    ensures s.popped <= s.pushed
    ensures |s.pushed| - |s.popped| <= Pow2(k) - 1
  {
    ReachableInv(k, initial, steps, s);
  }

  /** No data race: a write to a slot comes after (happens-before) every read of that slot, and
      a read comes after every write to it. In particular the two are never enabled together
      on one slot. */
  lemma {:induction false} NoSlotRace<T>(k: nat, initial: T, steps: seq<Step<T>>, s: State<T>)
    requires Run(k, Start(initial), steps) == Some(s)
    ensures s.prod.PWriteSlot? ==>
              forall r :: 0 <= r < |s.slotReads| && s.slotReads[r] == s.prod.head ==> r < s.prodKnows
    ensures s.cons.CReadSlot? ==>
              forall w :: 0 <= w < |s.slotWrites| && s.slotWrites[w].0 == s.cons.tail ==> w < s.consKnows
    ensures s.prod.PWriteSlot? && s.cons.CReadSlot? ==> s.prod.head != s.cons.tail
  {
    ReachableInv(k, initial, steps, s);
    var cap, n, t := Pow2(k), |s.pushed|, |s.popped|;
    if s.prod.PWriteSlot? {
      forall r | 0 <= r < |s.slotReads| && s.slotReads[r] == s.prod.head
        ensures r < s.prodKnows
      {
        if r >= s.prodKnows {
          assert r % cap == n % cap;
          SameRemainder(r, n, cap);
          assert false;
        }
      }
    }
    if s.cons.CReadSlot? {
      forall w | 0 <= w < |s.slotWrites| && s.slotWrites[w].0 == s.cons.tail
        ensures w < s.consKnows
      {
        if w >= s.consKnows {
          assert t % cap == w % cap;
          SameRemainder(t, w, cap);
          assert false;
        }
      }
    }
    if s.prod.PWriteSlot? && s.cons.CReadSlot? && s.prod.head == s.cons.tail {
      SameRemainder(t, n, cap);
    }
  }

  /** A push is refused exactly when Capacity - 1 items were unpopped as of the tail it loaded,
      and a pop comes back empty exactly when it has already popped everything as of the head
      it loaded; a load of the newest value therefore gives the exact answer. */
  lemma {:induction false} RefusalIsExact<T>(k: nat, initial: T, steps: seq<Step<T>>, s: State<T>, step: Step<T>)
    requires Run(k, Start(initial), steps) == Some(s) && Enabled(s, step)
    ensures step.LoadTail? ==>
              (Do(k, s, step).prod.PIdle? <==> |s.pushed| - step.at == Pow2(k) - 1)
    ensures step.LoadHead? ==> (Do(k, s, step).cons.CIdle? <==> |s.popped| == step.at)
  {
    ReachableInv(k, initial, steps, s);
    if step.LoadTail? { RefusedIffFull(k, s, step.at); }
    if step.LoadHead? { EmptyIffCaughtUp(k, s, step.at); }
  }

  /** size(): the masked difference of the two newest indices, taken on unsigned 64-bit
      operands, counts the items pushed and not yet popped; empty() says there are none. */
  lemma {:induction false} MaskedDifferenceCounts<T>(k: nat, initial: T, steps: seq<Step<T>>, s: State<T>)
    requires Run(k, Start(initial), steps) == Some(s)
    requires k <= 64
    ensures s.headStores != [] && s.tailStores != []
    ensures var head, tail := s.headStores[|s.headStores| - 1].index, s.tailStores[|s.tailStores| - 1].index;
            && Mask(SubU64(head, tail), k) == |s.pushed| - |s.popped|
            && (head == tail <==> s.pushed == s.popped)
  {
    ReachableInv(k, initial, steps, s);
    IndexDifference(k, |s.pushed|, |s.popped|);
  }

  lemma MoveFactor(p: nat, q: nat)
    ensures p * (2 * q) == 2 * p * q
  {
  }

  lemma {:induction false} PowersDivide64(k: nat)
    requires k <= 64
    ensures Pow2(64 - k) * Pow2(k) == TWO_64
    decreases 64 - k
  {
    if k == 64 {
      Pow2Of64();
    } else {
      PowersDivide64(k + 1);
      assert Pow2(64 - k) == 2 * Pow2(63 - k);
      assert Pow2(k + 1) == 2 * Pow2(k);
      MoveFactor(Pow2(63 - k), Pow2(k));
    }
  }

  lemma Pow2Of64()
    ensures Pow2(64) == TWO_64
  {
    assert Pow2(8) == 256;
    assert Pow2(16) == 0x1_0000;
    assert Pow2(24) == 0x100_0000;
    assert Pow2(32) == 0x1_0000_0000;
    assert Pow2(40) == 0x100_0000_0000;
    assert Pow2(48) == 0x1_0000_0000_0000;
    assert Pow2(56) == 0x100_0000_0000_0000;
  }

  lemma RemainderGap(cap: nat, n: nat, t: nat)
    requires cap > 0 && t <= n < t + cap
    ensures n % cap - t % cap == if t % cap <= n % cap then n - t else n - t - cap
  {
    var a, b, turns := n % cap, t % cap, n / cap - t / cap;
    assert n == cap * (n / cap) + a && t == cap * (t / cap) + b;
    assert cap * turns == (n - t) - (a - b);
    MultipleIsFar(cap, turns);
    MultipleIsFar(cap, turns - 1);
    assert cap * (turns - 1) == cap * turns - cap;
  }

  lemma WrappedRemainder(cap: nat, m: nat, diff: nat)
    requires diff < cap && m >= 1
    ensures (diff - cap + m * cap) % cap == diff
  {
    assert cap * (m - 1) == m * cap - cap;
    DivModUnique(diff - cap + m * cap, cap, m - 1, diff);
  }

  lemma {:induction false} IndexDifference(k: nat, n: nat, t: nat)
    requires k <= 64 && t <= n < t + Pow2(k)
    ensures Mask(SubU64(n % Pow2(k), t % Pow2(k)), k) == n - t
    ensures n % Pow2(k) == t % Pow2(k) <==> n == t
  {
    var cap, m := Pow2(k), Pow2(64 - k);
    var a, b := n % cap, t % cap;
    PowersDivide64(k);
    RemainderGap(cap, n, t);
    WrappedRemainder(cap, m, n - t);
    MultipleIsFar(cap, m);
    assert cap <= TWO_64;
    assert SubU64(a, b) == if b <= a then n - t else n - t - cap + m * cap;
    DivModUnique(n - t, cap, 0, n - t);
  }
}
