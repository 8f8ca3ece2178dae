/** The fixed-capacity slab pool: an intrusive free list threaded through the unused slots. */
module MemoryPool {
  import opened Types

  /** A slot is a union: either the free-list link or the bytes of an object, the last one
      written. A pointer to a slot is its index; the null pointer is None. */
  datatype Slot<T> = Link(next: Option<nat>) | Object(value: T)

  /** The pointer the list puts in front of position i. */
  function PointerAt(list: seq<nat>, i: nat): Option<nat> {
    if i < |list| then Some(list[i]) else None
  }

  /** `list` is the chain that starts at `first` and follows the links to a null one. */
  ghost predicate Chain<T>(slots: seq<Slot<T>>, first: Option<nat>, list: seq<nat>) {
    && first == PointerAt(list, 0)
    && forall i :: 0 <= i < |list| ==>
         list[i] < |slots| && slots[list[i]] == Link(PointerAt(list, i + 1))
  }

  ghost predicate Distinct(list: seq<nat>) {
    forall i, j :: 0 <= i < j < |list| ==> list[i] != list[j]
  }

  ghost function Members(list: seq<nat>): set<nat> {
    set p | p in list
  }

  ghost function AllSlots(n: nat): (all: set<nat>)
    ensures |all| == n && forall p :: p in all <==> 0 <= p < n
  {
    if n == 0 then {} else AllSlots(n - 1) + {n - 1}
  }

  lemma {:induction false} DistinctCount(list: seq<nat>)
    requires Distinct(list)
    ensures |Members(list)| == |list|
  {
    if list != [] {
      var n := |list| - 1;
      DistinctCount(list[..n]);
      assert Members(list) == Members(list[..n]) + {list[n]};
    }
  }

  /** The slots of a pool of n that are not in the free list. */
  ghost function LiveSlots(n: nat, list: seq<nat>): set<nat> {
    set p: nat | p < n && p !in list
  }

  /** Free and live slots partition the pool, so the free count fixes the live count; nothing is
      free exactly when all n slots are live. */
  lemma LiveCount(n: nat, list: seq<nat>)
    requires Distinct(list) && forall i :: 0 <= i < |list| ==> list[i] < n
    ensures |LiveSlots(n, list)| == n - |list|
  {
    DistinctCount(list);
    assert Members(list) <= AllSlots(n);
    assert LiveSlots(n, list) == AllSlots(n) - Members(list);
  }

  /** The free list is determined by the links: no other list is a chain from the same head. */
  lemma {:induction false} ChainIsUnique<T>(slots: seq<Slot<T>>, first: Option<nat>, a: seq<nat>, b: seq<nat>)
    requires Chain(slots, first, a) && Chain(slots, first, b)
    ensures a == b
    decreases |a|
  {
    if a != [] && b != [] {
      forall i | 0 <= i < |a| - 1
        ensures a[1..][i] < |slots| && slots[a[1..][i]] == Link(PointerAt(a[1..], i + 1))
      {
        assert a[1..][i] == a[i + 1];
      }
      forall i | 0 <= i < |b| - 1
        ensures b[1..][i] < |slots| && slots[b[1..][i]] == Link(PointerAt(b[1..], i + 1))
      {
        assert b[1..][i] == b[i + 1];
      }
      ChainIsUnique(slots, slots[a[0]].next, a[1..], b[1..]);
      assert a == [a[0]] + a[1..] && b == [b[0]] + b[1..];
    }
  }

  /** A slot outside the list, linked to its head, becomes the new head. */
  lemma Relink<T>(slots: seq<Slot<T>>, first: Option<nat>, list: seq<nat>, s: nat)
    requires Chain(slots, first, list) && Distinct(list) && s < |slots| && s !in list
    ensures Chain(slots[s := Link(first)], Some(s), [s] + list) && Distinct([s] + list)
    ensures LiveSlots(|slots|, [s] + list) == LiveSlots(|slots|, list) - {s}
  {
    var longer := [s] + list;
    assert forall i :: 0 < i < |longer| ==> longer[i] == list[i - 1];
    forall p: nat
      ensures p in LiveSlots(|slots|, longer) <==> p in LiveSlots(|slots|, list) - {s}
    {
    }
  }

  /** Unlinking the first free slot leaves the chain that starts at its link. */
  lemma Unlink<T>(slots: seq<Slot<T>>, first: Option<nat>, list: seq<nat>)
    requires Chain(slots, first, list) && Distinct(list) && list != []
    ensures first == Some(list[0]) && list[0] < |slots| && slots[list[0]].Link?
    ensures Chain(slots, slots[list[0]].next, list[1..]) && Distinct(list[1..])
    ensures list[0] !in list[1..] && forall p :: p in list <==> p == list[0] || p in list[1..]
  {
    assert forall i :: 0 <= i < |list[1..]| ==> list[1..][i] == list[i + 1];
  }

  class MemoryPool<T(0)> {
    const slots: array<Slot<T>>
    var freeHead: Option<nat>
    var freeCount: nat
    ghost var freeList: seq<nat>

    ghost predicate Valid()
      reads this, slots
    {
      && slots.Length > 0
      && Chain(slots[..], freeHead, freeList) && Distinct(freeList)
      && freeCount == |freeList|
    }

    /** The slots handed out and not yet given back. */
    ghost function Live(): (live: set<nat>)
      reads this
    {
      LiveSlots(slots.Length, freeList)
    }

    constructor (n: nat)
      requires n > 0
      ensures Valid() && fresh(slots) && slots.Length == n
      ensures freeCount == n && Live() == {}
      ensures freeList == seq(n, i => i)
    {
      slots := new Slot<T>[n](_ => Link(None));
      new;
      for i := 0 to n - 1
        modifies slots
        invariant forall j :: 0 <= j < i ==> slots[j] == Link(Some(j + 1))
      {
        slots[i] := Link(Some(i + 1));
      }
      slots[n - 1] := Link(None);
      freeHead := Some(0);
      freeCount := n;
      freeList := seq(n, i => i);
      forall p: nat | p < n
        ensures p in freeList
      {
        assert freeList[p] == p;
      }
    }

    /** Takes the head of the free list and value-initialises it; null iff nothing is free. */
    method Alloc(zero: T) returns (p: Option<nat>)
      requires Valid()
      modifies this, slots
      ensures Valid()
      ensures p == PointerAt(old(freeList), 0)
      ensures p.None? <==> |old(Live())| == slots.Length
      ensures p.None? ==> freeList == old(freeList) && slots[..] == old(slots[..])
      ensures p.Some? ==> p.value !in old(Live()) && Live() == old(Live()) + {p.value}
      ensures p.Some? ==> freeList == old(freeList)[1..] && p.value < slots.Length
      ensures p.Some? ==> slots[..] == old(slots[..])[p.value := Object(zero)]
    {
      p := AllocRaw();
      if p.Some? {
        slots[p.value] := Object(zero);
      }
    }

    /** Same, but the storage is left as it was: its bytes still hold the old link. */
    method AllocRaw() returns (p: Option<nat>)
      requires Valid()
      modifies this
      ensures Valid()
      ensures p == PointerAt(old(freeList), 0)
      ensures p.None? <==> |old(Live())| == slots.Length
      ensures p.None? ==> freeList == old(freeList)
      ensures p.Some? ==> p.value !in old(Live()) && Live() == old(Live()) + {p.value}
      ensures p.Some? ==> freeList == old(freeList)[1..] && p.value < slots.Length
    {
      ExhaustedIffAllLive();
      if freeHead.None? {
        return None;
      }
      Unlink(slots[..], freeHead, freeList);
      var s := freeHead.value;
      freeHead := slots[s].next;
      freeCount := freeCount - 1;
      freeList := freeList[1..];
      p := Some(s);
    }

    /** Gives a slot back. The caller must own it: freeing a slot twice is undefined. */
    method Free(p: Option<nat>)
      requires Valid()
      requires p.Some? ==> p.value in Live()
      modifies this, slots
      ensures Valid()
      ensures freeList == (if p.Some? then [p.value] else []) + old(freeList)
      ensures Live() == if p.Some? then old(Live()) - {p.value} else old(Live())
      ensures forall q :: q in Live() ==> slots[q] == old(slots[q])
    {
      if p.None? {
        return;
      }
      var s := p.value;
      Relink(slots[..], freeHead, freeList, s);
      slots[s] := Link(freeHead);
      assert slots[..] == old(slots[..])[s := Link(freeHead)];
      freeHead := Some(s);
      freeCount := freeCount + 1;
      freeList := [s] + freeList;
    }

    /** What the owner of a live object does: write through the pointer. */
    method Store(p: nat, value: T)
      requires Valid() && p in Live()
      modifies slots
      ensures Valid() && slots[..] == old(slots[..])[p := Object(value)]
    {
      assert p !in freeList;
      slots[p] := Object(value);
    }

    lemma ExhaustedIffAllLive()
      requires Valid()
      ensures freeHead.None? <==> |Live()| == slots.Length
    {
      LiveCount(slots.Length, freeList);
    }
  }
}
