/** The ring as one thread at a time sees it: `push`, `pop`, `empty` and `size` over the shared
    indices and the slot array. Each call performs exactly the protocol's steps, with loads of
    the newest indices, so the protocol's results apply to every mix of calls. */
module SpscQueue {
  import opened Types
  import opened Arithmetic
  import opened SpscProtocol

  lemma {:induction false} NextMeetsTail(k: nat, n: nat, t: nat)
    requires t <= n < t + Pow2(k)
    ensures (n % Pow2(k) + 1) % Pow2(k) == (n + 1) % Pow2(k)
    ensures (n + 1) % Pow2(k) == t % Pow2(k) <==> n - t == Pow2(k) - 1
  {
    var cap := Pow2(k);
    RemainderOfSum(n, 1, cap);
    RemainderOfPeriod(t, cap);
    if (n + 1) % cap == t % cap && n + 1 < t + cap { SameRemainder(t, n + 1, cap); }
  }

  /** Every item from number t on still sits in its slot. */
  ghost predicate SlotsHold<T>(slots: seq<T>, pushed: seq<T>, t: nat) {
    |slots| > 0 && forall i :: t <= i < |pushed| ==> slots[i % |slots|] == pushed[i]
  }

  lemma SlotsHoldOneMore<T>(slots: seq<T>, pushed: seq<T>, t: nat, item: T)
    requires SlotsHold(slots, pushed, t) && t <= |pushed| < t + |slots|
    ensures SlotsHold(slots[|pushed| % |slots| := item], pushed + [item], t)
  {
    var n, cap := |pushed|, |slots|;
    forall i | t <= i < n
      ensures i % cap != n % cap
    {
      if i % cap == n % cap { SameRemainder(i, n, cap); }
    }
  }

  class SpscQueue<T(0)> {
    const k: nat                  // Capacity is 2^k
    const buf: array<T>
    var head: nat
    var tail: nat
    ghost var proto: State<T>

    ghost predicate Valid()
      reads this, buf
    {
      var cap := Pow2(k);
      && buf.Length == cap && k <= 64
      && Inv(k, proto) && proto.prod.PIdle? && proto.cons.CIdle?
      && head == |proto.pushed| % cap && tail == |proto.popped| % cap
      && SlotsHold(buf[..], proto.pushed, |proto.popped|)
    }

    /** The items pushed and not yet popped, oldest first. */
    ghost function Contents(): (items: seq<T>)
      reads this, buf
      requires Valid()
      ensures |items| <= Pow2(k) - 1
    {
      proto.pushed[|proto.popped|..]
    }

    constructor (k: nat, initial: T)
      requires k <= 64
      ensures Valid() && Contents() == [] && this.k == k && proto == Start(initial) && fresh(buf)
    {
      this.k := k;
      head, tail := 0, 0;
      buf := new T[Pow2(k)](_ => initial);
      proto := Start(initial);
    }

    method Push(item: T) returns (ok: bool)
      requires Valid()
      modifies this`head, this`proto, buf
      ensures Valid()
      ensures ok <==> |old(Contents())| < Pow2(k) - 1
      ensures Contents() == old(Contents()) + (if ok then [item] else [])
      ensures proto.pushed == old(proto.pushed) + (if ok then [item] else [])
      ensures proto.popped == old(proto.popped)
      ensures Run(k, old(proto), PushSteps(k, old(proto), item)) == Some(proto)
    {
      ghost var cap, n, t := Pow2(k), |proto.pushed|, |proto.popped|;
      ghost var after := PushAlone(k, proto, item);
      NextMeetsTail(k, n, t);
      var next := Mask(head + 1, k);
      if next == tail {
        proto := after;
        return false;
      }
      SlotsHoldOneMore(buf[..], proto.pushed, t, item);
      buf[head] := item;
      assert buf[..] == old(buf[..])[n % cap := item];
      head := next;
      proto := after;
      return true;
    }

    method Pop() returns (item: Option<T>)
      requires Valid()
      modifies this`tail, this`proto
      ensures Valid()
      ensures item.None? <==> old(Contents()) == []
      ensures old(Contents()) == (if item.Some? then [item.value] else []) + Contents()
      ensures proto.pushed == old(proto.pushed)
      ensures proto.popped == old(proto.popped) + (if item.Some? then [item.value] else [])
      ensures Run(k, old(proto), PopSteps(old(proto))) == Some(proto)
    {
      ghost var after := PopAlone(k, proto);
      IndexDifference(k, |proto.pushed|, |proto.popped|);
      RemainderOfSum(|proto.popped|, 1, Pow2(k));
      if tail == head {
        proto := after;
        return None;
      }
      var front := buf[tail];
      tail := Mask(tail + 1, k);
      proto := after;
      return Some(front);
    }

    method Empty() returns (r: bool)
      requires Valid()
      ensures r <==> Contents() == []
    {
      IndexDifference(k, |proto.pushed|, |proto.popped|);
      r := head == tail;
    }

    method Size() returns (n: nat)
      requires Valid()
      ensures n == |Contents()|
    {
      IndexDifference(k, |proto.pushed|, |proto.popped|);
      n := Mask(SubU64(head, tail), k);
    }
  }
}
