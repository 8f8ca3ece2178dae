/** The cancellation-rate factor: per-side z-scores of the newest bucket's cancel count within a
    one-second window, and a 95th-percentile threshold over the last thirty seconds of them. */
module CancelFactor {
  import opened Types
  import opened BucketWindow
  import opened BucketRing
  import opened Statistics

  const BUCKET_NS: nat := 10_000_000
  const WINDOW_NS: nat := 1_000_000_000
  const QUANTILE_NS: nat := 30_000_000_000
  const MAX_BUCKETS: nat := 200

  /** A recorded pair of z-scores and the stamp of the bucket it was computed for. */
  datatype Sample = Sample(ts: nat, zBid: real, zAsk: real)

  datatype Cancel = Cancel(recent: seq<Bucket>, zBid: real, zAsk: real, samples: seq<Sample>)

  const START := Cancel([], 0.0, 0.0, [])

  // ---- One event ----

  function BidCounts(r: seq<Bucket>): (xs: seq<real>)
    ensures |xs| == |r|
  {
    seq(|r|, i requires 0 <= i < |r| => r[i].a as real)
  }

  function AskCounts(r: seq<Bucket>): (xs: seq<real>)
    ensures |xs| == |r|
  {
    seq(|r|, i requires 0 <= i < |r| => r[i].b as real)
  }

  /** The z-score of the first count among all of them. */
  function ScoreOf(sqrt: real -> real, xs: seq<real>): real
    requires IsSqrt(sqrt) && xs != []
  {
    ZScore(sqrt, xs[0], Sum(xs), SumSq(xs), |xs| as real)
  }

  function Opened(r: seq<Bucket>, now: nat): (r': seq<Bucket>)
    ensures r' != []
  {
    Advance(r, now, BUCKET_NS, MAX_BUCKETS, MAX_BUCKETS)
  }

  /** A Delete is counted on the side it carries; a Delete of a trade is not counted. */
  function Count(r: seq<Bucket>, ev: LOBEvent): (r': seq<Bucket>)
    requires r != []
    ensures |r'| == |r|
  {
    if !ev.action.Delete? || ev.side.Trade? then r
    else if ev.side.Bid? then Credit(r, 1, 0)
    else Credit(r, 0, 1)
  }

  /** Front-only popping of the samples older than the cutoff. */
  function Expire(samples: seq<Sample>, cutoff: nat): seq<Sample> {
    if samples != [] && samples[0].ts < cutoff then Expire(samples[1..], cutoff) else samples
  }

  function InWindow(r: seq<Bucket>): nat
    requires r != []
  {
    Within(r, Cutoff(r[0].ts, WINDOW_NS))
  }

  function Recompute(sqrt: real -> real, c: Cancel): Cancel
    requires IsSqrt(sqrt) && c.recent != []
  {
    var n := InWindow(c.recent);
    if |c.recent| < 2 || n < 2 then c
    else
      var now := c.recent[0].ts;
      var zBid := ScoreOf(sqrt, BidCounts(c.recent[..n]));
      var zAsk := ScoreOf(sqrt, AskCounts(c.recent[..n]));
      Cancel(c.recent, zBid, zAsk,
             Expire(c.samples + [Sample(now, zBid, zAsk)], Cutoff(now, QUANTILE_NS)))
  }

  function Step(sqrt: real -> real, c: Cancel, ev: LOBEvent): Cancel
    requires IsSqrt(sqrt)
  {
    Recompute(sqrt, c.(recent := Count(Opened(c.recent, ev.timestampNs), ev)))
  }

  function Larger(s: Sample): real {
    if s.zBid < s.zAsk then s.zAsk else s.zBid
  }

  function Maxima(samples: seq<Sample>): (xs: seq<real>)
    ensures |xs| == |samples|
  {
    seq(|samples|, i requires 0 <= i < |samples| => Larger(samples[i]))
  }

  /** The 95th percentile of the recent maxima, or 2 when there are none. */
  function Threshold(samples: seq<Sample>): real {
    if samples == [] then 2.0 else Percentile95(Maxima(samples))
  }

  // ---- Runs, with every sample ever recorded beside them ----

  datatype Run = Run(c: Cancel, all: seq<Sample>)

  /** Whether an event that leaves these buckets records a sample. */
  predicate Records(r: seq<Bucket>)
    requires r != []
  {
    |r| >= 2 && InWindow(r) >= 2
  }

  function RunStep(sqrt: real -> real, run: Run, ev: LOBEvent): Run
    requires IsSqrt(sqrt)
  {
    var c := Step(sqrt, run.c, ev);
    Run(c, if Records(Count(Opened(run.c.recent, ev.timestampNs), ev))
           then run.all + [Sample(c.recent[0].ts, c.zBid, c.zAsk)] else run.all)
  }

  function RunAll(sqrt: real -> real, evs: seq<LOBEvent>): Run
    requires IsSqrt(sqrt)
  {
    if evs == [] then Run(START, [])
    else RunStep(sqrt, RunAll(sqrt, evs[..|evs| - 1]), evs[|evs| - 1])
  }

  lemma {:induction false} RunAdvances(sqrt: real -> real, evs: seq<LOBEvent>)
    requires IsSqrt(sqrt) && evs != []
    ensures var n := |evs| - 1; RunAll(sqrt, evs).c == Step(sqrt, RunAll(sqrt, evs[..n]).c, evs[n])
  {
  }

  // ---- The shape of the ring in every reachable state ----

  ghost predicate RingOk(r: seq<Bucket>) {
    Stamped(r, BUCKET_NS) && |r| <= MAX_BUCKETS
  }

  lemma StepKeepsRing(r: seq<Bucket>, ev: LOBEvent)
    requires RingOk(r)
    ensures RingOk(Count(Opened(r, ev.timestampNs), ev))
    ensures r != [] ==> r[0].ts <= Count(Opened(r, ev.timestampNs), ev)[0].ts
    ensures |r| <= |Count(Opened(r, ev.timestampNs), ev)|
  {
    AdvanceStamps(r, ev.timestampNs, BUCKET_NS, MAX_BUCKETS, MAX_BUCKETS);
    AdvanceGrows(r, ev.timestampNs);
  }

  lemma AdvanceGrows(r: seq<Bucket>, now: nat)
    requires RingOk(r)
    ensures |r| <= |Opened(r, now)|
  {
    if r != [] && now >= r[0].ts + BUCKET_NS {
      PushManyGrows(r, Min((now - r[0].ts) / BUCKET_NS, MAX_BUCKETS));
    }
  }

  lemma {:induction false} PushManyGrows(r: seq<Bucket>, n: nat)
    requires 0 < |r| <= MAX_BUCKETS
    ensures |r| <= |PushMany(r, BUCKET_NS, MAX_BUCKETS, n)| <= MAX_BUCKETS
  {
    if n > 0 { PushManyGrows(r, n - 1); }
  }

  /** The geometry of the ring: with two buckets or more, the one-second window takes at least 2
      and never more than 101 of them. */
  lemma WindowSize(r: seq<Bucket>)
    requires RingOk(r) && |r| >= 2
    ensures 2 <= InWindow(r) <= 101
  {
    var cutoff := Cutoff(r[0].ts, WINDOW_NS);
    assert r[0].ts == r[1].ts + BUCKET_NS;
    BreakMissesNothing(r, BUCKET_NS, cutoff, 1);
    if InWindow(r) > 101 {
      StampOf(r, BUCKET_NS, 101);
      BreakMissesNothing(r, BUCKET_NS, cutoff, 101);
      assert false;
    }
  }

  // ---- The z-scores are bounded ----

  ghost predicate WithinTen(z: real) {
    -10.0 <= z <= 10.0
  }

  lemma SquareAtMost100(z: real, n: real)
    requires z * z <= n - 1.0 && n <= 101.0
    ensures WithinTen(z)
  {
    ProductSign(z - 10.0, z + 10.0);
    ProductSign(-z - 10.0, -z + 10.0);
    assert (z - 10.0) * (z + 10.0) == z * z - 100.0;
    assert (-z - 10.0) * (-z + 10.0) == z * z - 100.0;
  }

  lemma ScoreWithinTen(sqrt: real -> real, xs: seq<real>)
    requires IsSqrt(sqrt) && 1 <= |xs| <= 101
    ensures WithinTen(ScoreOf(sqrt, xs))
  {
    ZScoreBound(sqrt, xs, |xs| as real, xs[0], Sum(xs), SumSq(xs));
    SquareAtMost100(ScoreOf(sqrt, xs), |xs| as real);
  }

  lemma RecomputeWithinTen(sqrt: real -> real, c: Cancel)
    requires IsSqrt(sqrt) && c.recent != [] && RingOk(c.recent)
    requires WithinTen(c.zBid) && WithinTen(c.zAsk)
    ensures WithinTen(Recompute(sqrt, c).zBid) && WithinTen(Recompute(sqrt, c).zAsk)
  {
    if |c.recent| >= 2 {
      WindowSize(c.recent);
      var n := InWindow(c.recent);
      ScoreWithinTen(sqrt, BidCounts(c.recent[..n]));
      ScoreWithinTen(sqrt, AskCounts(c.recent[..n]));
    }
  }

  /** On every event stream, with a clock that may even run backwards, both z-scores stay within
      [-10, 10]. */
  lemma {:induction false} ZScoresWithinTen(sqrt: real -> real, evs: seq<LOBEvent>)
    requires IsSqrt(sqrt)
    ensures var c := RunAll(sqrt, evs).c;
            RingOk(c.recent) && WithinTen(c.zBid) && WithinTen(c.zAsk)
  {
    if evs != [] {
      var n := |evs| - 1;
      ZScoresWithinTen(sqrt, evs[..n]);
      var c := RunAll(sqrt, evs[..n]).c;
      StepKeepsRing(c.recent, evs[n]);
      RecomputeWithinTen(sqrt, c.(recent := Count(Opened(c.recent, evs[n].timestampNs), evs[n])));
    }
  }

  ghost predicate WithinWindow(z: real, n: nat) {
    z * z <= n as real - 1.0
  }

  lemma ScoreBound(sqrt: real -> real, xs: seq<real>, z: real, n: nat)
    requires IsSqrt(sqrt) && xs != [] && z == ScoreOf(sqrt, xs) && n == |xs|
    ensures WithinWindow(z, n)
  {
    ZScoreBound(sqrt, xs, n as real, xs[0], Sum(xs), SumSq(xs));
  }

  lemma RecomputeBound(sqrt: real -> real, c: Cancel, c': Cancel, n: nat)
    requires IsSqrt(sqrt) && RingOk(c.recent) && |c.recent| >= 2
    requires c' == Recompute(sqrt, c) && n == InWindow(c.recent)
    ensures WithinWindow(c'.zBid, n) && WithinWindow(c'.zAsk, n) && c'.recent == c.recent
  {
    WindowSize(c.recent);
    assert c'.zBid == ScoreOf(sqrt, BidCounts(c.recent[..n])) && c'.zAsk == ScoreOf(sqrt, AskCounts(c.recent[..n]));
    ScoreBound(sqrt, BidCounts(c.recent[..n]), c'.zBid, n);
    ScoreBound(sqrt, AskCounts(c.recent[..n]), c'.zAsk, n);
  }

  /** On every event stream, once there are two buckets, the square of either score is at most the
      number of buckets in the current window less one. */
  lemma {:induction false} ZScoresWithinWindow(sqrt: real -> real, evs: seq<LOBEvent>)
    requires IsSqrt(sqrt) && |RunAll(sqrt, evs).c.recent| >= 2
    ensures var c := RunAll(sqrt, evs).c;
            WithinWindow(c.zBid, InWindow(c.recent)) && WithinWindow(c.zAsk, InWindow(c.recent))
  {
    var n := |evs| - 1;
    var c := RunAll(sqrt, evs[..n]).c;
    ZScoresWithinTen(sqrt, evs[..n]);
    RunAdvances(sqrt, evs);
    StepKeepsRing(c.recent, evs[n]);
    var counted := c.(recent := Count(Opened(c.recent, evs[n].timestampNs), evs[n]));
    RecomputeBound(sqrt, counted, RunAll(sqrt, evs).c, InWindow(counted.recent));
  }

  // ---- What a z-score is ----

  /** The n newest buckets are those stamped within a window of the head. */
  ghost predicate Newest(r: seq<Bucket>, n: nat)
    requires r != []
  {
    n <= |r| && forall i :: 0 <= i < |r| ==> (i < n <==> r[i].ts + WINDOW_NS >= r[0].ts)
  }

  lemma WindowIsNewest(r: seq<Bucket>)
    requires RingOk(r) && r != []
    ensures Newest(r, InWindow(r))
  {
    forall i | 0 <= i < |r|
      ensures i < InWindow(r) <==> r[i].ts + WINDOW_NS >= r[0].ts
    {
      BreakMissesNothing(r, BUCKET_NS, Cutoff(r[0].ts, WINDOW_NS), i);
    }
    assert Newest(r, InWindow(r));
  }

  ghost predicate MeanAndVariance(n: real, s: real, q: real, mu: real, v: real) {
    n > 0.0 && mu == s / n && v == q / n - mu * mu
  }

  /** z is a distance, upwards positive, in units of the root of v, or as it is when v is not positive. */
  ghost predicate InUnitsOfRoot(sqrt: real -> real, z: real, distance: real, v: real) {
    var sigma := if v > 0.0 then sqrt(v) else 1.0;
    sigma > 0.0 && z * sigma == distance
  }

  lemma ZScoreIsDistance(sqrt: real -> real, z: real, c: real, s: real, q: real, n: real, mu: real, v: real)
    requires IsSqrt(sqrt) && MeanAndVariance(n, s, q, mu, v) && z == ZScore(sqrt, c, s, q, n)
    ensures InUnitsOfRoot(sqrt, z, c - mu, v)
  {
    assert RootAt(sqrt, v);
    assert mu == Mean(s, n);
    assert v == Variance(q, n, mu);
    QuotientProduct(c - mu, if v > 0.0 then sqrt(v) else 1.0, z);
  }

  /** The sign of a score says on which side of the mean the count is. */
  ghost predicate SignTells(z: real, c: real, mu: real) {
    (z > 0.0 <==> c > mu) && (z < 0.0 <==> c < mu)
  }

  lemma SignOfDistance(sqrt: real -> real, z: real, c: real, mu: real, v: real)
    requires InUnitsOfRoot(sqrt, z, c - mu, v)
    ensures SignTells(z, c, mu)
  {
    var sigma := if v > 0.0 then sqrt(v) else 1.0;
    ProductSign(z, sigma);
    ProductSign(-z, sigma);
  }

  /** The mean and the variance of the counts. */
  ghost predicate Moments(xs: seq<real>, mu: real, v: real) {
    MeanAndVariance(|xs| as real, Sum(xs), SumSq(xs), mu, v)
  }

  /** The score is the newest count less the mean of all, in standard deviations, and its sign says on which
      side of the mean that count is. */
  ghost predicate Standardises(sqrt: real -> real, xs: seq<real>, z: real) {
    xs != [] && forall mu, v :: Moments(xs, mu, v) ==> InUnitsOfRoot(sqrt, z, xs[0] - mu, v) && SignTells(z, xs[0], mu)
  }

  lemma ScoreStandardises(sqrt: real -> real, xs: seq<real>, z: real)
    requires IsSqrt(sqrt) && xs != [] && z == ScoreOf(sqrt, xs)
    ensures Standardises(sqrt, xs, z)
  {
    forall mu, v | Moments(xs, mu, v)
      ensures InUnitsOfRoot(sqrt, z, xs[0] - mu, v) && SignTells(z, xs[0], mu)
    {
      ZScoreIsDistance(sqrt, z, xs[0], Sum(xs), SumSq(xs), |xs| as real, mu, v);
      SignOfDistance(sqrt, z, xs[0], mu, v);
    }
  }

  // ---- What the buckets count ----

  /** The Deletes of one side that came while the newest bucket had this stamp. */
  function DeletesIn(sqrt: real -> real, evs: seq<LOBEvent>, side: MDEntryType, ts: nat): nat
    requires IsSqrt(sqrt)
  {
    if evs == [] then 0
    else
      var n := |evs| - 1;
      var r := RunAll(sqrt, evs).c.recent;
      DeletesIn(sqrt, evs[..n], side, ts)
        + if evs[n].action.Delete? && evs[n].side == side && r != [] && r[0].ts == ts then 1 else 0
  }

  lemma {:induction false} RunSnoc(sqrt: real -> real, before: seq<LOBEvent>, ev: LOBEvent)
    requires IsSqrt(sqrt)
    ensures RunAll(sqrt, before + [ev]).c == Step(sqrt, RunAll(sqrt, before).c, ev)
  {
    assert (before + [ev])[..|before|] == before;
  }

  /** Advancing carries buckets over as they are, and opens empty ones ahead of them. */
  ghost predicate Carried(r: seq<Bucket>, r': seq<Bucket>) {
    forall b :: b in r' ==> b in r || (b.a == b.b == 0 && (r == [] || r[0].ts < b.ts))
  }

  lemma PushCarries(r: seq<Bucket>, r': seq<Bucket>)
    requires r != [] && r' != [] && Carried(r, r') && r[0].ts <= r'[0].ts
    ensures Carried(r, PushEmpty(r', BUCKET_NS, MAX_BUCKETS))
  {
    var z := Bucket(r'[0].ts + BUCKET_NS, 0, 0);
    forall b | b in PushEmpty(r', BUCKET_NS, MAX_BUCKETS)
      ensures b == z || b in r'
    {
      assert b in [z] + r';
    }
  }

  lemma {:induction false} PushManyCarries(r: seq<Bucket>, n: nat)
    requires r != []
    ensures Carried(r, PushMany(r, BUCKET_NS, MAX_BUCKETS, n))
    ensures r[0].ts <= PushMany(r, BUCKET_NS, MAX_BUCKETS, n)[0].ts
  {
    if n > 0 {
      var before := PushMany(r, BUCKET_NS, MAX_BUCKETS, n - 1);
      PushManyCarries(r, n - 1);
      PushCarries(r, before);
      assert PushMany(r, BUCKET_NS, MAX_BUCKETS, n) == PushEmpty(before, BUCKET_NS, MAX_BUCKETS);
    }
  }

  lemma OpenedCarries(r: seq<Bucket>, now: nat)
    requires RingOk(r)
    ensures Carried(r, Opened(r, now)) && RingOk(Opened(r, now))
    ensures r != [] ==> r[0].ts <= Opened(r, now)[0].ts
  {
    AdvanceStamps(r, now, BUCKET_NS, MAX_BUCKETS, MAX_BUCKETS);
    if r != [] && now >= r[0].ts + BUCKET_NS {
      PushManyCarries(r, Min((now - r[0].ts) / BUCKET_NS, MAX_BUCKETS));
    }
  }

  /** The counts of all buckets are the Deletes of the run, and none lies ahead. */
  ghost predicate Tallied(sqrt: real -> real, evs: seq<LOBEvent>, r: seq<Bucket>)
    requires IsSqrt(sqrt)
  {
    && (forall b :: b in r ==> b.a == DeletesIn(sqrt, evs, Bid, b.ts) && b.b == DeletesIn(sqrt, evs, Offer, b.ts))
    && (forall ts: nat, side :: r == [] || r[0].ts < ts ==> DeletesIn(sqrt, evs, side, ts) == 0)
  }

  lemma {:induction false} CarryingKeepsTallied(sqrt: real -> real, evs: seq<LOBEvent>, r: seq<Bucket>,
                                                r': seq<Bucket>)
    requires IsSqrt(sqrt) && Tallied(sqrt, evs, r) && Carried(r, r')
    requires r' != [] && (r != [] ==> r[0].ts <= r'[0].ts)
    ensures Tallied(sqrt, evs, r')
  {
  }

  lemma {:induction false} DeletesSnoc(sqrt: real -> real, before: seq<LOBEvent>, ev: LOBEvent, side: MDEntryType,
                                       ts: nat, r: seq<Bucket>)
    requires IsSqrt(sqrt) && r != [] && RunAll(sqrt, before + [ev]).c.recent == r
    ensures DeletesIn(sqrt, before + [ev], side, ts)
         == DeletesIn(sqrt, before, side, ts)
            + if ev.action.Delete? && ev.side == side && r[0].ts == ts then 1 else 0
  {
    assert (before + [ev])[..|before|] == before;
  }

  lemma CountingKeepsTallied(sqrt: real -> real, before: seq<LOBEvent>, ev: LOBEvent, r: seq<Bucket>)
    requires IsSqrt(sqrt) && RingOk(r) && r != [] && Tallied(sqrt, before, r)
    requires RunAll(sqrt, before + [ev]).c.recent == Count(r, ev)
    ensures Tallied(sqrt, before + [ev], Count(r, ev))
  {
    var r', all := Count(r, ev), before + [ev];
    forall ts: nat, side
      ensures DeletesIn(sqrt, all, side, ts)
           == DeletesIn(sqrt, before, side, ts)
              + if ev.action.Delete? && ev.side == side && r[0].ts == ts then 1 else 0
    {
      DeletesSnoc(sqrt, before, ev, side, ts, r');
    }
    forall b | b in r'
      ensures b.a == DeletesIn(sqrt, all, Bid, b.ts) && b.b == DeletesIn(sqrt, all, Offer, b.ts)
    {
      var i :| 0 <= i < |r'| && r'[i] == b;
      assert r[i] in r;
      if i > 0 {
        StampOf(r, BUCKET_NS, i);
        assert r'[i] == r[i];
      }
    }
  }

  lemma {:induction false} RunTallies(sqrt: real -> real, evs: seq<LOBEvent>)
    requires IsSqrt(sqrt)
    ensures RingOk(RunAll(sqrt, evs).c.recent) && Tallied(sqrt, evs, RunAll(sqrt, evs).c.recent)
  {
    if evs != [] {
      var before, ev := evs[..|evs| - 1], evs[|evs| - 1];
      assert evs == before + [ev];
      RunTallies(sqrt, before);
      RunSnoc(sqrt, before, ev);
      var r := RunAll(sqrt, before).c.recent;
      OpenedCarries(r, ev.timestampNs);
      StepKeepsRing(r, ev);
      CarryingKeepsTallied(sqrt, before, r, Opened(r, ev.timestampNs));
      CountingKeepsTallied(sqrt, before, ev, Opened(r, ev.timestampNs));
    }
  }

  /** On every event stream the two counts of a bucket are the Bid and the Offer Deletes that came while
      it was the newest. */
  lemma {:induction false} BucketsCountDeletes(sqrt: real -> real, evs: seq<LOBEvent>, i: nat)
    requires IsSqrt(sqrt) && i < |RunAll(sqrt, evs).c.recent|
    ensures var b := RunAll(sqrt, evs).c.recent[i];
            b.a == DeletesIn(sqrt, evs, Bid, b.ts) && b.b == DeletesIn(sqrt, evs, Offer, b.ts)
  {
    RunTallies(sqrt, evs);
    assert RunAll(sqrt, evs).c.recent[i] in RunAll(sqrt, evs).c.recent;
  }

  lemma StepCoversIff(r: seq<Bucket>, ev: LOBEvent)
    requires RingOk(r)
    ensures HeadCovers(Count(Opened(r, ev.timestampNs), ev), BUCKET_NS, ev.timestampNs) <==>
              r == [] || r[0].ts <= ev.timestampNs < r[0].ts + 201 * BUCKET_NS
  {
    AdvanceCoversIff(r, ev.timestampNs, BUCKET_NS, MAX_BUCKETS, MAX_BUCKETS);
  }

  /** And it is the bucket its time stamp falls into if and only if that is not before the last event's
      bucket, nor more than the ring's 200 buckets of 10 ms after it. */
  lemma {:induction false} DeleteInOwnBucketIff(sqrt: real -> real, before: seq<LOBEvent>, ev: LOBEvent)
    requires IsSqrt(sqrt)
    ensures var r, r' := RunAll(sqrt, before).c.recent, RunAll(sqrt, before + [ev]).c.recent;
            && r' != []
            && (HeadCovers(r', BUCKET_NS, ev.timestampNs) <==>
                  r == [] || r[0].ts <= ev.timestampNs < r[0].ts + 201 * BUCKET_NS)
  {
    RunSnoc(sqrt, before, ev);
    RunTallies(sqrt, before);
    StepCoversIff(RunAll(sqrt, before).c.recent, ev);
  }

  /** The Deletes of one side in each of the n newest buckets, newest first. */
  function NewestDeletes(sqrt: real -> real, evs: seq<LOBEvent>, side: MDEntryType, n: nat): (xs: seq<real>)
    requires IsSqrt(sqrt) && n <= |RunAll(sqrt, evs).c.recent|
    ensures |xs| == n
  {
    var r := RunAll(sqrt, evs).c.recent;
    seq(n, i requires 0 <= i < n => DeletesIn(sqrt, evs, side, r[i].ts) as real)
  }

  lemma {:induction false} LastScores(sqrt: real -> real, evs: seq<LOBEvent>)
    requires IsSqrt(sqrt) && |RunAll(sqrt, evs).c.recent| >= 2
    ensures var c := RunAll(sqrt, evs).c;
            && RingOk(c.recent)
            && c.zBid == ScoreOf(sqrt, BidCounts(c.recent[..InWindow(c.recent)]))
            && c.zAsk == ScoreOf(sqrt, AskCounts(c.recent[..InWindow(c.recent)]))
  {
    var n := |evs| - 1;
    RunTallies(sqrt, evs);
    RunAdvances(sqrt, evs);
    WindowSize(RunAll(sqrt, evs).c.recent);
  }

  lemma {:induction false} CountsOfWindow(sqrt: real -> real, evs: seq<LOBEvent>, n: nat)
    requires IsSqrt(sqrt) && n <= |RunAll(sqrt, evs).c.recent|
    ensures NewestDeletes(sqrt, evs, Bid, n) == BidCounts(RunAll(sqrt, evs).c.recent[..n])
    ensures NewestDeletes(sqrt, evs, Offer, n) == AskCounts(RunAll(sqrt, evs).c.recent[..n])
  {
    forall i | 0 <= i < n
      ensures NewestDeletes(sqrt, evs, Bid, n)[i] == RunAll(sqrt, evs).c.recent[i].a as real
      ensures NewestDeletes(sqrt, evs, Offer, n)[i] == RunAll(sqrt, evs).c.recent[i].b as real
    {
      BucketsCountDeletes(sqrt, evs, i);
    }
  }

  /** On every event stream, once there are two buckets: over the Deletes of one side in the buckets within
      a second of the head, its score is the newest count less the mean, in standard deviations. It is
      positive exactly when the newest count is above the mean. */
  lemma {:induction false} ScoresStandardise(sqrt: real -> real, evs: seq<LOBEvent>, n: nat)
    requires IsSqrt(sqrt) && |RunAll(sqrt, evs).c.recent| >= 2 && n == InWindow(RunAll(sqrt, evs).c.recent)
    ensures Newest(RunAll(sqrt, evs).c.recent, n) && n >= 2
    ensures Standardises(sqrt, NewestDeletes(sqrt, evs, Bid, n), RunAll(sqrt, evs).c.zBid)
    ensures Standardises(sqrt, NewestDeletes(sqrt, evs, Offer, n), RunAll(sqrt, evs).c.zAsk)
  {
    var c := RunAll(sqrt, evs).c;
    LastScores(sqrt, evs);
    WindowIsNewest(c.recent);
    WindowSize(c.recent);
    CountsOfWindow(sqrt, evs, n);
    ScoreStandardises(sqrt, NewestDeletes(sqrt, evs, Bid, n), c.zBid);
    ScoreStandardises(sqrt, NewestDeletes(sqrt, evs, Offer, n), c.zAsk);
  }

  // ---- The samples are the recent history ----

  function Since(all: seq<Sample>, cutoff: nat): seq<Sample> {
    if all == [] then []
    else Since(all[..|all| - 1], cutoff) + if all[|all| - 1].ts >= cutoff then [all[|all| - 1]] else []
  }

  ghost predicate Ordered(s: seq<Sample>) {
    forall i, j :: 0 <= i <= j < |s| ==> s[i].ts <= s[j].ts
  }

  /** In an ordered list, popping old samples off the front is the same as dropping every old
      sample. */
  lemma {:induction false} ExpireIsFilter(s: seq<Sample>, cutoff: nat)
    requires Ordered(s)
    ensures Expire(s, cutoff) == Since(s, cutoff)
    decreases |s|
  {
    if s != [] && s[0].ts < cutoff {
      ExpireIsFilter(s[1..], cutoff);
      SinceFront(s, cutoff);
    } else {
      SinceKeepsAll(s, cutoff);
    }
  }

  lemma {:induction false} SinceFront(s: seq<Sample>, cutoff: nat)
    requires s != [] && s[0].ts < cutoff
    ensures Since(s, cutoff) == Since(s[1..], cutoff)
    decreases |s|
  {
    var n := |s| - 1;
    if n == 0 {
      assert s[..0] == [] == s[1..];
    } else {
      SinceFront(s[..n], cutoff);
      assert s[..n][1..] == s[1..][..n - 1];
    }
  }

  lemma {:induction false} SinceKeepsAll(s: seq<Sample>, cutoff: nat)
    requires forall i :: 0 <= i < |s| ==> s[i].ts >= cutoff
    ensures Since(s, cutoff) == s
  {
    if s != [] {
      var n := |s| - 1;
      SinceKeepsAll(s[..n], cutoff);
      assert s[..n] + [s[n]] == s;
    }
  }

  lemma {:induction false} SinceSnoc(s: seq<Sample>, x: Sample, cutoff: nat)
    ensures Since(s + [x], cutoff) == Since(s, cutoff) + if x.ts >= cutoff then [x] else []
  {
    assert (s + [x])[..|s|] == s;
  }

  /** Filtering by a later cutoff can start from what an earlier one left. */
  lemma {:induction false} SinceTwice(s: seq<Sample>, cutoff: nat, later: nat)
    requires cutoff <= later
    ensures Since(Since(s, cutoff), later) == Since(s, later)
  {
    if s != [] {
      var n := |s| - 1;
      SinceTwice(s[..n], cutoff, later);
      var left := Since(s[..n], cutoff);
      if s[n].ts >= cutoff {
        assert Since(s, cutoff) == left + [s[n]];
        SinceSnoc(left, s[n], later);
      } else {
        assert Since(s, cutoff) == left + [] == left;
        assert Since(s, later) == Since(s[..n], later) + [] == Since(s[..n], later);
      }
    }
  }

  lemma {:induction false} SinceSublist(s: seq<Sample>, cutoff: nat, top: nat)
    requires Ordered(s) && forall i :: 0 <= i < |s| ==> s[i].ts <= top
    ensures Ordered(Since(s, cutoff)) && forall i :: 0 <= i < |Since(s, cutoff)| ==> Since(s, cutoff)[i].ts <= top
  {
    if s != [] {
      SinceSublist(s[..|s| - 1], cutoff, s[|s| - 1].ts);
    }
  }

  /** What ties the deque to the full history: stamps never decrease, and it is the history
      since a cutoff that no later event can undercut. */
  ghost predicate History(run: Run) {
    var r := run.c.recent;
    && RingOk(r) && Ordered(run.all)
    && (run.all != [] ==> r != [] && run.all[|run.all| - 1].ts == r[0].ts)
    && (|r| >= 2 <==> run.all != [])
    && (if run.all == [] then run.c.samples == [] && run.c.zBid == run.c.zAsk == 0.0
        else && run.c.samples == Since(run.all, Cutoff(r[0].ts, QUANTILE_NS))
             && run.all[|run.all| - 1] == Sample(r[0].ts, run.c.zBid, run.c.zAsk))
  }

  lemma {:induction false} RecordKeepsHistory(all: seq<Sample>, samples: seq<Sample>, s: Sample, from: nat, cutoff: nat)
    requires Ordered(all) && (all != [] ==> all[|all| - 1].ts <= s.ts)
    requires samples == Since(all, from) && from <= cutoff
    ensures Ordered(all + [s]) && Expire(samples + [s], cutoff) == Since(all + [s], cutoff)
  {
    assert Expire(samples + [s], cutoff) == Since(samples + [s], cutoff) by {
      SinceSublist(all, from, s.ts);
      ExpireIsFilter(samples + [s], cutoff);
    }
    assert Since(samples + [s], cutoff) == Since(all + [s], cutoff) by {
      SinceSnoc(samples, s, cutoff);
      SinceSnoc(all, s, cutoff);
      SinceTwice(all, from, cutoff);
    }
  }

  lemma StepKeepsHistory(sqrt: real -> real, run: Run, ev: LOBEvent)
    requires IsSqrt(sqrt) && History(run)
    ensures History(RunStep(sqrt, run, ev))
  {
    var r := Count(Opened(run.c.recent, ev.timestampNs), ev);
    var after := RunStep(sqrt, run, ev);
    StepKeepsRing(run.c.recent, ev);
    if |r| >= 2 {
      WindowSize(r);
      var s := Sample(r[0].ts, after.c.zBid, after.c.zAsk);
      var from := if run.all == [] then 0 else Cutoff(run.c.recent[0].ts, QUANTILE_NS);
      RecordKeepsHistory(run.all, run.c.samples, s, from, Cutoff(r[0].ts, QUANTILE_NS));
      assert after.all == run.all + [s];
    }
  }

  lemma {:induction false} RunKeepsHistory(sqrt: real -> real, evs: seq<LOBEvent>)
    requires IsSqrt(sqrt)
    ensures History(RunAll(sqrt, evs))
  {
    if evs != [] {
      RunKeepsHistory(sqrt, evs[..|evs| - 1]);
      StepKeepsHistory(sqrt, RunAll(sqrt, evs[..|evs| - 1]), evs[|evs| - 1]);
    }
  }

  /** The samples kept after any run are exactly those of the whole history stamped within
      thirty seconds of the newest bucket, and the newest of them holds the current z-scores. */
  lemma {:induction false} SamplesAreRecentHistory(sqrt: real -> real, evs: seq<LOBEvent>)
    requires IsSqrt(sqrt)
    ensures var run := RunAll(sqrt, evs);
            if run.all == [] then run.c == START.(recent := run.c.recent)
            else && run.c.recent != []
                 && run.c.samples == Since(run.all, Cutoff(run.c.recent[0].ts, QUANTILE_NS))
                 && run.c.samples != []
                 && run.c.samples[|run.c.samples| - 1] == Sample(run.c.recent[0].ts, run.c.zBid, run.c.zAsk)
  {
    RunKeepsHistory(sqrt, evs);
  }

  /** The newest sample holds the current z-scores; before the first one they are 0. */
  ghost predicate NewestIsCurrent(c: Cancel) {
    if c.samples == [] then c.zBid == c.zAsk == 0.0
    else c.samples[|c.samples| - 1].zBid == c.zBid && c.samples[|c.samples| - 1].zAsk == c.zAsk
  }

  lemma {:induction false} RunNewestIsCurrent(sqrt: real -> real, evs: seq<LOBEvent>)
    requires IsSqrt(sqrt)
    ensures NewestIsCurrent(RunAll(sqrt, evs).c)
  {
    SamplesAreRecentHistory(sqrt, evs);
  }

  /** How many samples exceed the threshold: at most one in twenty of the others. */
  lemma {:induction false} FewExceedThreshold(samples: seq<Sample>)
    requires samples != []
    ensures CountAbove(Maxima(samples), Threshold(samples)) <= (|samples| + 18) / 20
  {
    FewAbovePercentile(Maxima(samples));
  }

  // ---- The factor object ----

  ghost predicate SumsOf(xs: seq<real>, s: real, q: real) {
    s == Sum(xs) && q == SumSq(xs)
  }

  /** One more count into a sum and a sum of squares. */
  method Accumulate(s: real, q: real, x: real, ghost xs: seq<real>) returns (s': real, q': real)
    requires SumsOf(xs, s, q)
    ensures SumsOf(xs + [x], s', q')
  {
    SumSnoc(xs, x);
    s' := s + x;
    q' := q + x * x;
  }

  lemma ScoreFromSums(sqrt: real -> real, xs: seq<real>, c: real, s: real, q: real)
    requires IsSqrt(sqrt) && xs != [] && c == xs[0] && SumsOf(xs, s, q)
    ensures ScoreOf(sqrt, xs) == ZScore(sqrt, c, s, q, |xs| as real)
  {
  }

  class CancelFactor {
    const sqrt: real -> real
    const ring: Ring
    var zBid: real
    var zAsk: real
    var recentZBid: seq<real>     // the three deques
    var recentZAsk: seq<real>
    var recentTs: seq<nat>

    ghost predicate Valid()
      reads this, ring
    {
      && IsSqrt(sqrt) && ring.Valid() && ring.buckets.Length == MAX_BUCKETS
      && |recentZBid| == |recentZAsk| == |recentTs|
    }

    ghost function State(): Cancel
      requires Valid()
      reads this, ring, ring.buckets
    {
      Cancel(ring.Recent(), zBid, zAsk, Zip(recentTs, recentZBid, recentZAsk))
    }

    constructor (sqrt: real -> real)
      requires IsSqrt(sqrt)
      ensures Valid() && State() == START && this.sqrt == sqrt && fresh(ring) && fresh(ring.buckets)
    {
      this.sqrt := sqrt;
      ring := new Ring(MAX_BUCKETS);
      zBid, zAsk := 0.0, 0.0;
      recentZBid, recentZAsk, recentTs := [], [], [];
    }

    method Reset()
      requires Valid()
      modifies this, ring, ring.buckets
      ensures Valid() && State() == START
    {
      ring.Reset();
      zBid, zAsk := 0.0, 0.0;
      recentZBid, recentZAsk, recentTs := [], [], [];
    }

    method OnEvent(ev: LOBEvent)
      requires Valid()
      modifies this, ring, ring.buckets
      ensures Valid() && State() == Step(sqrt, old(State()), ev)
    {
      ring.Advance(ev.timestampNs, BUCKET_NS, MAX_BUCKETS);
      if ev.action.Delete? {
        match ev.side {
          case Bid => ring.Credit(1, 0);
          case Offer => ring.Credit(0, 1);
          case Trade =>
        }
      }
      RecomputeZScores();
    }

    method RecomputeZScores()
      requires Valid() && ring.count > 0
      modifies this
      ensures Valid() && State() == Recompute(sqrt, old(State()))
    {
      if ring.count < 2 {
        return;
      }
      ghost var c := State();
      var newest := ring.Get(0);
      var n, bid, ask := WindowScores(newest, c.recent);
      if n < 2 {
        return;
      }
      zBid, zAsk := bid, ask;
      Record(newest.ts);
    }

    /** Both z-scores of the newest bucket within its window of n buckets. */
    method WindowScores(newest: Bucket, ghost r: seq<Bucket>) returns (n: nat, bid: real, ask: real)
      requires IsSqrt(sqrt) && ring.Valid() && r == ring.Recent() && r != [] && newest == r[0]
      ensures n == InWindow(r)
      ensures n >= 2 ==> bid == ScoreOf(sqrt, BidCounts(r[..n])) && ask == ScoreOf(sqrt, AskCounts(r[..n]))
    {
      bid, ask := 0.0, 0.0;
      var cutoff := if newest.ts >= WINDOW_NS then newest.ts - WINDOW_NS else 0;
      var sumBid, sumAsk, sqBid, sqAsk;
      n, sumBid, sumAsk, sqBid, sqAsk := SumWindow(cutoff, r);
      if n >= 2 {
        ScoreFromSums(sqrt, BidCounts(r[..n]), newest.a as real, sumBid, sqBid);
        ScoreFromSums(sqrt, AskCounts(r[..n]), newest.b as real, sumAsk, sqAsk);
        bid := ZScore(sqrt, newest.a as real, sumBid, sqBid, n as real);
        ask := ZScore(sqrt, newest.b as real, sumAsk, sqAsk, n as real);
      }
    }

    /** Sums and sums of squares over the window, newest bucket first. */
    method SumWindow(cutoff: nat, ghost r: seq<Bucket>)
      returns (n: nat, sumBid: real, sumAsk: real, sqBid: real, sqAsk: real)
      requires ring.Valid() && r == ring.Recent()
      ensures n == Within(r, cutoff)
      ensures SumsOf(BidCounts(r[..n]), sumBid, sqBid) && SumsOf(AskCounts(r[..n]), sumAsk, sqAsk)
    {
      n, sumBid, sumAsk, sqBid, sqAsk := 0, 0.0, 0.0, 0.0, 0.0;
      ghost var w := Within(r, cutoff);
      ghost var bids, asks := [], [];
      while n < ring.count
        invariant n <= w
        invariant |bids| == |asks| == n
        invariant forall i :: 0 <= i < n ==> bids[i] == r[i].a as real && asks[i] == r[i].b as real
        invariant SumsOf(bids, sumBid, sqBid) && SumsOf(asks, sumAsk, sqAsk)
      {
        var b := ring.Get(n);
        if b.ts < cutoff {
          break;
        }
        assert b == r[n] && n < w;
        sumBid, sqBid := Accumulate(sumBid, sqBid, b.a as real, bids);
        sumAsk, sqAsk := Accumulate(sumAsk, sqAsk, b.b as real, asks);
        bids, asks := bids + [b.a as real], asks + [b.b as real];
        n := n + 1;
      }
      assert n == w && bids == BidCounts(r[..n]) && asks == AskCounts(r[..n]);
    }

    /** Appends the current z-scores to the deques and pops what has expired off their fronts. */
    method Record(now: nat)
      requires Valid()
      modifies this`recentZBid, this`recentZAsk, this`recentTs
      ensures Valid()
      ensures Zip(recentTs, recentZBid, recentZAsk)
           == Expire(old(Zip(recentTs, recentZBid, recentZAsk)) + [Sample(now, zBid, zAsk)], Cutoff(now, QUANTILE_NS))
    {
      ghost var all := Zip(recentTs, recentZBid, recentZAsk) + [Sample(now, zBid, zAsk)];
      recentZBid := recentZBid + [zBid];
      recentZAsk := recentZAsk + [zAsk];
      recentTs := recentTs + [now];
      assert Zip(recentTs, recentZBid, recentZAsk) == all;
      var cutoff := if now >= QUANTILE_NS then now - QUANTILE_NS else 0;
      while recentTs != [] && recentTs[0] < cutoff
        invariant |recentZBid| == |recentZAsk| == |recentTs|
        invariant Expire(Zip(recentTs, recentZBid, recentZAsk), cutoff) == Expire(all, cutoff)
        decreases |recentTs|
      {
        ghost var before := Zip(recentTs, recentZBid, recentZAsk);
        recentTs := recentTs[1..];
        recentZBid := recentZBid[1..];
        recentZAsk := recentZAsk[1..];
        assert Zip(recentTs, recentZBid, recentZAsk) == before[1..];
      }
    }

    method DynamicThreshold() returns (t: real)
      requires Valid()
      ensures t == Threshold(State().samples)
    {
      if recentZBid == [] {
        return 2.0;
      }
      ghost var maxima := Maxima(Zip(recentTs, recentZBid, recentZAsk));
      var combined := [];
      for i := 0 to |recentZBid|
        invariant combined == maxima[..i]
      {
        combined := combined + [if recentZBid[i] < recentZAsk[i] then recentZAsk[i] else recentZBid[i]];
      }
      assert combined == maxima;
      combined := Sort(combined);
      t := combined[PercentileIndex(|combined|)];
    }
  }

  /** Three deques of equal length as one list of samples. */
  function Zip(ts: seq<nat>, zBid: seq<real>, zAsk: seq<real>): (s: seq<Sample>)
    requires |ts| == |zBid| == |zAsk|
    ensures |s| == |ts|
  {
    seq(|ts|, i requires 0 <= i < |ts| => Sample(ts[i], zBid[i], zAsk[i]))
  }
}
