/** The circular array of time buckets, as the list of recent buckets it stands for. */
module BucketRing {
  import opened Arithmetic
  import opened BucketWindow

  lemma SlotIs(head: nat, i: nat, max: nat)
    requires head < max && i < max
    ensures (head + max - i) % max == if i <= head then head - i else head + max - i
  {
    if i <= head {
      DivModUnique(head + max - i, max, 1, head - i);
    } else {
      DivModUnique(head + max - i, max, 0, head + max - i);
    }
  }

  /** The array slot of the i-th most recent bucket. */
  function Slot(head: nat, i: nat, max: nat): (s: nat)
    requires head < max && i < max
    ensures s == if i <= head then head - i else head + max - i
    ensures s < max
  {
    SlotIs(head, i, max);
    (head + max - i) % max
  }

  /** The recent buckets of an array, newest first. */
  function RecentOf(buckets: seq<Bucket>, head: nat, count: nat): (r: seq<Bucket>)
    requires head < |buckets| && count <= |buckets|
    ensures |r| == count
  {
    seq(count, i requires 0 <= i < count => buckets[Slot(head, i, |buckets|)])
  }

  function Next(head: nat, max: nat): (next: nat)
    requires head < max
    ensures next == if head + 1 == max then 0 else head + 1
  {
    DivModUnique(head + 1, max, if head + 1 == max then 1 else 0, if head + 1 == max then 0 else head + 1);
    (head + 1) % max
  }

  lemma PushedRecent(buckets: seq<Bucket>, head: nat, count: nat, b: Bucket)
    requires head < |buckets| && 0 < count <= |buckets|
    ensures var next, n := Next(head, |buckets|), Min(count + 1, |buckets|);
            RecentOf(buckets[next := b], next, n) == ([b] + RecentOf(buckets, head, count))[..n]
  {
    var next, n := Next(head, |buckets|), Min(count + 1, |buckets|);
    var was, now := RecentOf(buckets, head, count), RecentOf(buckets[next := b], next, n);
    forall i | 1 <= i < n
      ensures now[i] == was[i - 1]
    {
      assert Slot(next, i, |buckets|) == Slot(head, i - 1, |buckets|) != next;
    }
  }

  lemma ChangedRecent(buckets: seq<Bucket>, head: nat, count: nat, b: Bucket)
    requires head < |buckets| && 0 < count <= |buckets|
    ensures RecentOf(buckets[head := b], head, count) == RecentOf(buckets, head, count)[0 := b]
  {
  }

  class Ring {
    const buckets: array<Bucket>
    var head: nat
    var count: nat

    ghost predicate Valid()
      reads this
    {
      head < buckets.Length && count <= buckets.Length
    }

    ghost function Recent(): (r: seq<Bucket>)
      requires Valid()
      reads this, buckets
      ensures |r| == count
    {
      RecentOf(buckets[..], head, count)
    }

    constructor (max: nat)
      requires max > 0
      ensures Valid() && Recent() == [] && buckets.Length == max && fresh(buckets)
    {
      buckets := new Bucket[max](_ => Bucket(0, 0, 0));
      head, count := 0, 0;
    }

    method Reset()
      modifies this, buckets
      requires Valid()
      ensures Valid() && Recent() == []
    {
      forall i | 0 <= i < buckets.Length {
        buckets[i] := Bucket(0, 0, 0);
      }
      head, count := 0, 0;
    }

    /** The i-th most recent bucket. */
    method Get(i: nat) returns (b: Bucket)
      requires Valid() && i < count
      ensures b == Recent()[i]
    {
      b := buckets[(head + buckets.Length - i) % buckets.Length];
      assert Slot(head, i, buckets.Length) == (head + buckets.Length - i) % buckets.Length;
    }

    method Push(ts: nat)
      requires Valid() && count > 0
      modifies this, buckets
      ensures Valid()
      ensures Recent() == ([Bucket(ts, 0, 0)] + old(Recent()))[..Min(old(count) + 1, buckets.Length)]
    {
      PushedRecent(buckets[..], head, count, Bucket(ts, 0, 0));
      head := Next(head, buckets.Length);
      buckets[head] := Bucket(ts, 0, 0);
      assert buckets[..] == old(buckets[..])[head := Bucket(ts, 0, 0)];
      if count < buckets.Length {
        count := count + 1;
      }
    }

    method Advance(now: nat, width: nat, cap: nat)
      requires Valid() && width > 0
      modifies this, buckets
      ensures Valid() && Recent() == BucketWindow.Advance(old(Recent()), now, width, cap, buckets.Length)
    {
      if count == 0 {
        buckets[0] := Bucket(now, 0, 0);
        head, count := 0, 1;
        assert Recent() == [Bucket(now, 0, 0)];
        return;
      }
      ghost var was := Recent();
      var start := buckets[head].ts;
      assert was[0] == buckets[head];
      if now < start + width {
        return;
      }
      var steps := (now - start) / width;
      var toAdd := if steps < cap then steps else cap;
      for i := 0 to toAdd
        invariant Valid() && count > 0
        invariant Recent() == PushMany(was, width, buckets.Length, i)
        invariant Recent()[0].ts == start + i * width
      {
        ghost var before := Recent();
        assert (i + 1) * width == i * width + width;
        Push(start + (i + 1) * width);
        assert Recent() == PushEmpty(before, width, buckets.Length);
      }
    }

    /** Adds to the newest bucket. */
    method Credit(a: nat, b: nat)
      requires Valid() && count > 0
      modifies buckets
      ensures Valid() && Recent() == BucketWindow.Credit(old(Recent()), a, b)
    {
      var b' := Bucket(buckets[head].ts, buckets[head].a + a, buckets[head].b + b);
      ChangedRecent(buckets[..], head, count, b');
      buckets[head] := b';
      assert buckets[..] == old(buckets[..])[head := b'];
    }
  }
}
