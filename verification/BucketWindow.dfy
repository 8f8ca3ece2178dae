/** The list of recent time buckets that both sliding-window factors keep, newest first. */
module BucketWindow {
  import opened Arithmetic

  /** A bucket counts two kinds of things: bought and sold volume, or bid and ask cancels. */
  datatype Bucket = Bucket(ts: nat, a: nat, b: nat)

  function Min(a: nat, b: nat): nat { if a < b then a else b }

  /** Opens the next bucket; a ring of `max` forgets its oldest one when it is full. */
  function PushEmpty(r: seq<Bucket>, width: nat, max: nat): (r': seq<Bucket>)
    requires r != [] && max > 0
    ensures r' != []
  {
    ([Bucket(r[0].ts + width, 0, 0)] + r)[..Min(|r| + 1, max)]
  }

  function PushMany(r: seq<Bucket>, width: nat, max: nat, n: nat): (r': seq<Bucket>)
    requires r != [] && max > 0
    ensures r' != []
  {
    if n == 0 then r else PushEmpty(PushMany(r, width, max, n - 1), width, max)
  }

  /** Brings the newest bucket up to `now`, opening at most `cap` buckets. */
  function Advance(r: seq<Bucket>, now: nat, width: nat, cap: nat, max: nat): (r': seq<Bucket>)
    requires width > 0 && max > 0
    ensures r' != []
  {
    if r == [] then [Bucket(now, 0, 0)]
    else if now < r[0].ts + width then r
    else PushMany(r, width, max, Min((now - r[0].ts) / width, cap))
  }

  function Credit(r: seq<Bucket>, a: nat, b: nat): (r': seq<Bucket>)
    requires r != []
    ensures |r'| == |r|
  {
    r[0 := Bucket(r[0].ts, r[0].a + a, r[0].b + b)]
  }

  // ---- Stamps ----

  /** Consecutive buckets are one width apart. */
  ghost predicate Stamped(r: seq<Bucket>, width: nat) {
    forall i {:trigger r[i]} :: 0 < i < |r| ==> r[i - 1].ts == r[i].ts + width
  }

  lemma {:induction false} PushManyStamps(r: seq<Bucket>, width: nat, max: nat, n: nat)
    requires r != [] && 0 < |r| <= max && Stamped(r, width)
    ensures Stamped(PushMany(r, width, max, n), width) && |PushMany(r, width, max, n)| <= max
    ensures PushMany(r, width, max, n)[0].ts == r[0].ts + n * width
  {
    if n > 0 {
      PushManyStamps(r, width, max, n - 1);
      assert n * width == (n - 1) * width + width;
    }
  }

  /** Whatever the clock does, advancing keeps the stamps evenly spaced and never turns the
      newest one back. */
  lemma AdvanceStamps(r: seq<Bucket>, now: nat, width: nat, cap: nat, max: nat)
    requires width > 0 && |r| <= max && max > 0 && Stamped(r, width)
    ensures Stamped(Advance(r, now, width, cap, max), width) && |Advance(r, now, width, cap, max)| <= max
    ensures r != [] ==> r[0].ts <= Advance(r, now, width, cap, max)[0].ts
  {
    if r != [] && now >= r[0].ts + width {
      var n := Min((now - r[0].ts) / width, cap);
      PushManyStamps(r, width, max, n);
      MultipleIsFar(width, n);
      assert n * width == width * n;
    }
  }

  /** The i-th most recent bucket is stamped i widths before the newest. */
  lemma {:induction false} StampOf(r: seq<Bucket>, width: nat, i: nat)
    requires Stamped(r, width) && i < |r|
    ensures r[i].ts == r[0].ts - i * width
  {
    if i > 0 {
      StampOf(r, width, i - 1);
      assert r[i - 1].ts == r[i].ts + width;
      assert i * width == (i - 1) * width + width;
    }
  }

  // ---- Stamps and wall time ----

  /** The newest bucket contains this time. */
  predicate HeadCovers(r: seq<Bucket>, width: nat, now: nat)
    requires r != []
  {
    r[0].ts <= now < r[0].ts + width
  }

  /** This time is not before the newest bucket, and no more than `cap` buckets after it. */
  predicate Reaches(r: seq<Bucket>, now: nat, width: nat, cap: nat) {
    r == [] || r[0].ts <= now < r[0].ts + (cap + 1) * width
  }

  lemma StepsToReach(gap: nat, width: nat, cap: nat)
    requires width > 0
    ensures var n := Min(gap / width, cap);
            n * width <= gap && (gap < (n + 1) * width <==> gap < (cap + 1) * width)
  {
    var q, n := gap / width, Min(gap / width, cap);
    assert gap == width * q + gap % width;
    assert n * width <= width * q by {
      MultipleIsFar(width, q - n);
      assert width * (q - n) == width * q - n * width;
    }
    if q <= cap {
      MultipleIsFar(width, cap - q);
      assert (cap + 1) * width - (q + 1) * width == width * (cap - q);
      assert (q + 1) * width == width * q + width;
    }
  }

  /** Advancing leaves a newest bucket that contains the time if and only if it was in reach. */
  lemma {:induction false} AdvanceCoversIff(r: seq<Bucket>, now: nat, width: nat, cap: nat, max: nat)
    requires width > 0 && max > 0 && |r| <= max && Stamped(r, width)
    ensures HeadCovers(Advance(r, now, width, cap, max), width, now) <==> Reaches(r, now, width, cap)
  {
    if r != [] {
      assert (cap + 1) * width >= width by {
        assert (cap + 1) * width == cap * width + width;
      }
      if now >= r[0].ts + width {
        var gap := now - r[0].ts;
        var n := Min(gap / width, cap);
        StepsToReach(gap, width, cap);
        assert (n + 1) * width == n * width + width;
        PushManyStamps(r, width, max, n);
      }
    }
  }

  /** How many of the most recent buckets a scan takes before it meets one older than the
      cutoff and breaks off. */
  function Within(r: seq<Bucket>, cutoff: nat): (n: nat)
    ensures n <= |r|
    ensures forall i :: 0 <= i < n ==> r[i].ts >= cutoff
    ensures n < |r| ==> r[n].ts < cutoff
  {
    if r == [] || r[0].ts < cutoff then 0 else 1 + Within(r[1..], cutoff)
  }

  lemma {:induction false} StampsDescend(r: seq<Bucket>, width: nat, i: nat, j: nat)
    requires Stamped(r, width) && i <= j < |r|
    ensures r[j].ts <= r[i].ts
    decreases j - i
  {
    if i < j {
      StampsDescend(r, width, i, j - 1);
      assert r[j - 1].ts == r[j].ts + width;
    }
  }

  /** Breaking off at the first old bucket misses nothing: the scan takes exactly the buckets
      that are young enough. */
  lemma {:induction false} BreakMissesNothing(r: seq<Bucket>, width: nat, cutoff: nat, i: nat)
    requires Stamped(r, width) && i < |r|
    ensures r[i].ts >= cutoff <==> i < Within(r, cutoff)
  {
    var n := Within(r, cutoff);
    if n <= i { StampsDescend(r, width, n, i); }
  }

  /** The start of the window that ends in the bucket stamped `now`. */
  function Cutoff(now: nat, window: nat): nat {
    if now >= window then now - window else 0
  }
}
