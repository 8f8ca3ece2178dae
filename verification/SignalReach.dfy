/** How tight the bound on the cancel z-scores is: every engine with a floor below 10 does emit a
    signal on some event stream. */
module SignalReach {
  import opened Types
  import opened Arithmetic
  import opened Statistics
  import opened BucketWindow
  import D = DeltaFactor
  import C = CancelFactor
  import opened SignalEngine

  // ---- Counts of a quiet second, and of one with a single cancel at its end ----

  /** The variance of one cancel in 101 buckets. Its root is 10 / 101. */
  const SPIKE_VARIANCE: real := 100.0 / 10201.0

  ghost predicate Zeros(xs: seq<real>) {
    forall i :: 0 <= i < |xs| ==> xs[i] == 0.0
  }

  lemma {:induction false} ZeroSums(xs: seq<real>)
    requires Zeros(xs)
    ensures Sum(xs) == 0.0 && SumSq(xs) == 0.0
  {
    if xs != [] { ZeroSums(xs[..|xs| - 1]); }
  }

  lemma ZeroZScore(sqrt: real -> real, n: real)
    requires IsSqrt(sqrt) && n > 0.0
    ensures ZScore(sqrt, 0.0, 0.0, 0.0, n) == 0.0
  {
  }

  lemma ZeroScore(sqrt: real -> real, xs: seq<real>)
    requires IsSqrt(sqrt) && xs != [] && Zeros(xs)
    ensures C.ScoreOf(sqrt, xs) == 0.0
  {
    ZeroSums(xs);
    ZeroZScore(sqrt, |xs| as real);
  }

  lemma RootOfHundred(sqrt: real -> real, sigma: real)
    requires IsSqrt(sqrt) && ExactAt(sqrt, SPIKE_VARIANCE) && sigma == sqrt(SPIKE_VARIANCE)
    ensures sigma == 10.0 / 101.0
  {
    assert RootAt(sqrt, SPIKE_VARIANCE);
    assert sigma > 0.0 && sigma * sigma == 100.0 / 10201.0;
    assert (sigma - 10.0 / 101.0) * (sigma + 10.0 / 101.0) == 0.0;
  }

  /** One cancel in the newest of 101 otherwise empty buckets scores exactly 10. */
  lemma SpikeScore(sqrt: real -> real, xs: seq<real>)
    requires IsSqrt(sqrt) && ExactAt(sqrt, SPIKE_VARIANCE) && |xs| == 101 && xs[0] == 1.0 && Zeros(xs[1..])
    ensures C.ScoreOf(sqrt, xs) == 10.0
  {
    SumFront(xs);
    ZeroSums(xs[1..]);
    assert Variance(1.0, 101.0, Mean(1.0, 101.0)) == SPIKE_VARIANCE;
    RootOfHundred(sqrt, sqrt(SPIKE_VARIANCE));
  }

  // ---- The cancel factor over n quiet buckets ----

  ghost predicate Quiet(evs: seq<LOBEvent>) {
    forall i :: 0 <= i < |evs| ==> evs[i].timestampNs == i * C.BUCKET_NS && !evs[i].action.Delete?
  }

  ghost predicate Empty(r: seq<Bucket>) {
    forall i :: 0 <= i < |r| ==> r[i].a == r[i].b == 0
  }

  ghost predicate AllZero(samples: seq<C.Sample>) {
    forall i :: 0 <= i < |samples| ==> samples[i].zBid == samples[i].zAsk == 0.0
  }

  ghost predicate AfterQuiet(c: C.Cancel, n: nat)
    requires n > 0
  {
    && |c.recent| == n && c.recent[0].ts == (n - 1) * C.BUCKET_NS && Empty(c.recent) && C.RingOk(c.recent)
    && c.zBid == c.zAsk == 0.0 && |c.samples| == n - 1 && AllZero(c.samples)
  }

  lemma OneBucketLater(r: seq<Bucket>, n: nat)
    requires 0 < n < C.MAX_BUCKETS && |r| == n && r[0].ts == (n - 1) * C.BUCKET_NS
    ensures C.Opened(r, n * C.BUCKET_NS) == [Bucket(n * C.BUCKET_NS, 0, 0)] + r
  {
    DivModUnique(C.BUCKET_NS, C.BUCKET_NS, 1, 0);
    assert PushMany(r, C.BUCKET_NS, C.MAX_BUCKETS, 0) == r;
    assert PushMany(r, C.BUCKET_NS, C.MAX_BUCKETS, 1) == PushEmpty(r, C.BUCKET_NS, C.MAX_BUCKETS);
  }

  lemma {:induction false} EarlySamplesStay(samples: seq<C.Sample>, now: nat)
    requires now <= C.QUANTILE_NS
    ensures C.Expire(samples, Cutoff(now, C.QUANTILE_NS)) == samples
  {
  }

  lemma QuietRecompute(sqrt: real -> real, c: C.Cancel)
    requires IsSqrt(sqrt) && |c.recent| >= 2 && C.RingOk(c.recent) && Empty(c.recent)
    requires c.recent[0].ts <= C.QUANTILE_NS
    ensures C.Recompute(sqrt, c) == C.Cancel(c.recent, 0.0, 0.0, c.samples + [C.Sample(c.recent[0].ts, 0.0, 0.0)])
  {
    C.WindowSize(c.recent);
    var n := C.InWindow(c.recent);
    ZeroScore(sqrt, C.BidCounts(c.recent[..n]));
    ZeroScore(sqrt, C.AskCounts(c.recent[..n]));
    EarlySamplesStay(c.samples + [C.Sample(c.recent[0].ts, 0.0, 0.0)], c.recent[0].ts);
  }

  lemma QuietCount(r: seq<Bucket>, ev: LOBEvent, n: nat)
    requires 0 < n <= 100 && |r| == n && r[0].ts == (n - 1) * C.BUCKET_NS && Empty(r) && C.RingOk(r)
    requires ev.timestampNs == n * C.BUCKET_NS && !ev.action.Delete?
    ensures var r' := [Bucket(n * C.BUCKET_NS, 0, 0)] + r;
            C.Count(C.Opened(r, ev.timestampNs), ev) == r' && Empty(r') && C.RingOk(r')
  {
    OneBucketLater(r, n);
    C.StepKeepsRing(r, ev);
  }

  lemma QuietStep(sqrt: real -> real, c: C.Cancel, ev: LOBEvent, n: nat)
    requires IsSqrt(sqrt) && 0 < n <= 100 && AfterQuiet(c, n)
    requires ev.timestampNs == n * C.BUCKET_NS && !ev.action.Delete?
    ensures AfterQuiet(C.Step(sqrt, c, ev), n + 1)
  {
    var r := [Bucket(n * C.BUCKET_NS, 0, 0)] + c.recent;
    QuietCount(c.recent, ev, n);
    QuietRecompute(sqrt, c.(recent := r));
    assert C.Step(sqrt, c, ev) == C.Cancel(r, 0.0, 0.0, c.samples + [C.Sample(r[0].ts, 0.0, 0.0)]);
  }

  lemma FirstQuiet(sqrt: real -> real, ev: LOBEvent)
    requires IsSqrt(sqrt) && ev.timestampNs == 0 && !ev.action.Delete?
    ensures AfterQuiet(C.Step(sqrt, C.START, ev), 1)
  {
    assert C.Opened([], 0) == [Bucket(0, 0, 0)];
  }

  lemma {:induction false} QuietRun(sqrt: real -> real, evs: seq<LOBEvent>)
    requires IsSqrt(sqrt) && 0 < |evs| <= 101 && Quiet(evs)
    ensures AfterQuiet(C.RunAll(sqrt, evs).c, |evs|)
  {
    var n := |evs| - 1;
    C.RunAdvances(sqrt, evs);
    if n == 0 {
      assert C.RunAll(sqrt, evs[..0]).c == C.START;
      FirstQuiet(sqrt, evs[0]);
    } else {
      QuietRun(sqrt, evs[..n]);
      QuietStep(sqrt, C.RunAll(sqrt, evs[..n]).c, evs[n], n);
    }
  }

  // ---- One offer cancelled after 100 quiet buckets ----

  lemma {:induction false} WithinAll(r: seq<Bucket>)
    ensures Within(r, 0) == |r|
  {
    if r != [] { WithinAll(r[1..]); }
  }

  lemma SpikeRecompute(sqrt: real -> real, c: C.Cancel)
    requires IsSqrt(sqrt) && ExactAt(sqrt, SPIKE_VARIANCE) && |c.recent| == 101 && c.recent[0].ts == 100 * C.BUCKET_NS
    requires c.recent[0].a == 0 && c.recent[0].b == 1 && Empty(c.recent[1..])
    ensures C.Recompute(sqrt, c)
         == C.Cancel(c.recent, 0.0, 10.0, c.samples + [C.Sample(c.recent[0].ts, 0.0, 10.0)])
  {
    var r := c.recent;
    WithinAll(r);
    assert C.InWindow(r) == 101 && r[..101] == r;
    assert forall i :: 1 <= i < 101 ==> r[i] == r[1..][i - 1];
    ZeroScore(sqrt, C.BidCounts(r));
    SpikeScore(sqrt, C.AskCounts(r));
    EarlySamplesStay(c.samples + [C.Sample(r[0].ts, 0.0, 10.0)], r[0].ts);
  }

  lemma SpikeCount(r: seq<Bucket>, ev: LOBEvent)
    requires |r| == 100 && r[0].ts == 99 * C.BUCKET_NS
    requires ev.timestampNs == 100 * C.BUCKET_NS && ev.action.Delete? && ev.side.Offer?
    ensures C.Count(C.Opened(r, ev.timestampNs), ev) == [Bucket(100 * C.BUCKET_NS, 0, 1)] + r
  {
    OneBucketLater(r, 100);
  }

  lemma SpikeStep(sqrt: real -> real, c: C.Cancel, ev: LOBEvent)
    requires IsSqrt(sqrt) && ExactAt(sqrt, SPIKE_VARIANCE) && AfterQuiet(c, 100)
    requires ev.timestampNs == 100 * C.BUCKET_NS && ev.action.Delete? && ev.side.Offer?
    ensures var c' := C.Step(sqrt, c, ev); c'.zAsk == 10.0 && C.Threshold(c'.samples) <= 0.0
  {
    var r := [Bucket(100 * C.BUCKET_NS, 0, 1)] + c.recent;
    var spike := C.Sample(r[0].ts, 0.0, 10.0);
    assert r[1..] == c.recent;
    SpikeCount(c.recent, ev);
    SpikeRecompute(sqrt, c.(recent := r));
    assert C.Step(sqrt, c, ev) == C.Cancel(r, 0.0, 10.0, c.samples + [spike]);
    SpikeThreshold(c.samples, spike);
  }

  /** 100 quiet buckets and the cancel of one offer. */
  lemma {:induction false} SpikeRun(sqrt: real -> real, evs: seq<LOBEvent>)
    requires IsSqrt(sqrt) && ExactAt(sqrt, SPIKE_VARIANCE) && |evs| == 101 && Quiet(evs[..100])
    requires evs[100].timestampNs == 100 * C.BUCKET_NS && evs[100].action.Delete? && evs[100].side.Offer?
    ensures var c := C.RunAll(sqrt, evs).c; c.zAsk == 10.0 && C.Threshold(c.samples) <= 0.0
  {
    C.RunAdvances(sqrt, evs);
    QuietRun(sqrt, evs[..100]);
    SpikeStep(sqrt, C.RunAll(sqrt, evs[..100]).c, evs[100]);
  }

  lemma {:induction false} NoneAbove(xs: seq<real>)
    requires Zeros(xs)
    ensures CountAbove(xs, 0.0) == 0
  {
    if xs != [] { NoneAbove(xs[1..]); }
  }

  lemma {:induction false} CountAboveSnoc(xs: seq<real>, x: real, t: real)
    ensures CountAbove(xs + [x], t) == CountAbove(xs, t) + if x > t then 1 else 0
  {
    if xs == [] {
      assert xs + [x] == [x] && [x][1..] == [];
    } else {
      CountAboveSnoc(xs[1..], x, t);
      assert (xs + [x])[1..] == xs[1..] + [x];
    }
  }

  /** A single high sample among a hundred does not lift the 95th percentile off 0. */
  lemma SpikeThreshold(samples: seq<C.Sample>, spike: C.Sample)
    requires |samples| == 99 && AllZero(samples)
    ensures C.Threshold(samples + [spike]) <= 0.0
  {
    var xs := C.Maxima(samples);
    assert C.Maxima(samples + [spike]) == xs + [C.Larger(spike)];
    NoneAbove(xs);
    CountAboveSnoc(xs, C.Larger(spike), 0.0);
    PercentileAtMost(xs + [C.Larger(spike)], 0.0);
  }

  // ---- The stream that makes an engine fire ----

  /** A bid at 2, two offers at 3, quiet until a trade of q at 1, and the cancel of the second offer,
      101 events 10 ms apart. */
  function WitnessEvent(i: nat, q: nat): LOBEvent {
    var at := i * C.BUCKET_NS;
    if i == 0 then LOBEvent(at, 1, 2, 1, New, Bid)
    else if i == 1 then LOBEvent(at, 2, 3, 1, New, Offer)
    else if i == 2 then LOBEvent(at, 3, 3, 1, New, Offer)
    else if i < 99 then LOBEvent(at, 0, 0, 0, New, Bid)
    else if i == 99 then LOBEvent(at, 4, 1, q, New, Trade)
    else LOBEvent(at, 3, 3, 1, Delete, Offer)
  }

  /** The event with the best prices of the book it leaves. */
  function WitnessTick(i: nat, q: nat): Tick {
    Tick(WitnessEvent(i, q), 2, if i == 0 then 0 else 3)
  }

  function Witness(n: nat, q: nat): (ticks: seq<Tick>)
    ensures |ticks| == n
  {
    seq(n, i requires 0 <= i < n => WitnessTick(i, q))
  }

  lemma WitnessPrefix(n: nat, m: nat, q: nat)
    requires n <= m
    ensures Witness(m, q)[..n] == Witness(n, q)
  {
  }

  /** The ask z-score of the last event is 10 and the adaptive threshold is at most 0. */
  lemma {:induction false} WitnessCancels(sqrt: real -> real, p: Params, q: nat, n: nat)
    requires IsSqrt(sqrt) && ExactAt(sqrt, SPIKE_VARIANCE) && n == 101
    ensures var c := RunAll(sqrt, p, Witness(n, q)).cancel;
            c.zAsk == 10.0 && C.Threshold(c.samples) <= 0.0
  {
    var ticks := Witness(n, q);
    RunsCancel(sqrt, p, ticks);
    WitnessSpikes(q, n);
    SpikeRun(sqrt, Events(ticks));
  }

  lemma WitnessSpikes(q: nat, n: nat)
    requires n == 101
    ensures var evs := Events(Witness(n, q));
            && Quiet(evs[..100]) && evs[100].timestampNs == 100 * C.BUCKET_NS
            && evs[100].action.Delete? && evs[100].side.Offer?
  {
  }

  // ---- Its imbalance acceleration ----

  lemma {:induction false} NoTradesNoHistory(cfg: D.Config, inputs: seq<D.Input>)
    requires cfg.width > 0 && forall i :: 0 <= i < |inputs| ==> !inputs[i].ev.side.Trade?
    ensures D.RunAll(cfg, inputs).history == []
  {
    if inputs != [] { NoTradesNoHistory(cfg, inputs[..|inputs| - 1]); }
  }

  lemma WitnessSteady(n: nat, q: nat)
    ensures D.SteadyClock(DeltaConfig(), DeltaInputs(Witness(n, q)))
  {
  }

  lemma {:induction false} NetFromHistory(inputs: seq<D.Input>)
    requires inputs != []
    ensures var run := D.RunAll(DeltaConfig(), inputs);
            run.d.recent != []
            && run.d.net == D.VolumeSince(run.history, Cutoff(run.d.recent[0].ts, DELTA_WINDOW_NS))
  {
    D.WindowExactWhenRingIsLonger(DeltaConfig(), inputs);
    D.RunHasBuckets(DeltaConfig(), inputs);
  }

  lemma {:induction false} HistoryAdvances(inputs: seq<D.Input>, m: nat, volume: int)
    requires |inputs| == m + 1
    requires volume == D.SignedVolume(D.WithMid(D.RunAll(DeltaConfig(), inputs[..m]).d, inputs[m].midprice).midprice,
                                      inputs[m].ev)
    ensures var before, run := D.RunAll(DeltaConfig(), inputs[..m]), D.RunAll(DeltaConfig(), inputs);
            run.d.recent != [] && run.history
            == before.history
               + if volume == 0 then [] else [D.Fill(run.d.recent[0].ts, inputs[m].ev.timestampNs, volume)]
  {
    D.RunHasBuckets(DeltaConfig(), inputs);
  }

  lemma WitnessHistory99(q: nat, n: nat)
    requires n == 99
    ensures D.RunAll(DeltaConfig(), DeltaInputs(Witness(n, q))).history == []
    ensures D.RunAll(DeltaConfig(), DeltaInputs(Witness(n, q))).d.net == 0
  {
    NoTradesNoHistory(DeltaConfig(), DeltaInputs(Witness(n, q)));
    NetFromHistory(DeltaInputs(Witness(n, q)));
  }

  ghost predicate OneSale(h: seq<D.Fill>, q: nat) {
    |h| == 1 && h[0].volume == 0 - q && h[0].at == 99 * C.BUCKET_NS && h[0].at < h[0].bucket + C.BUCKET_NS
  }

  lemma {:induction false} SaleInWindow(h: seq<D.Fill>, q: nat, cutoff: nat)
    requires OneSale(h, q) && cutoff <= 98 * C.BUCKET_NS
    ensures D.VolumeSince(h, cutoff) == 0 - q
  {
    assert h[..0] == [];
  }

  /** The sale is counted in its own bucket, and is still in the window one event later. */
  lemma WitnessHistory(q: nat, n: nat)
    requires n == 100 || n == 101
    requires q > 0
    ensures OneSale(D.RunAll(DeltaConfig(), DeltaInputs(Witness(n, q))).history, q)
    ensures D.RunAll(DeltaConfig(), DeltaInputs(Witness(n, q))).d.net == 0 - q
  {
    var inputs := DeltaInputs(Witness(n, q));
    var m := n - 1;
    WitnessPrefix(m, n, q);
    assert inputs[..m] == DeltaInputs(Witness(m, q));
    if n == 100 {
      WitnessHistory99(q, m);
      HistoryAdvances(inputs, m, 0 - q);
    } else {
      WitnessHistory(q, m);
      HistoryAdvances(inputs, m, 0);
    }
    WitnessSteady(n, q);
    D.SteadyClockLands(DeltaConfig(), inputs);
    var run := D.RunAll(DeltaConfig(), inputs);
    assert run.history[0] in run.history;
    NetFromHistory(inputs);
    SaleInWindow(run.history, q, Cutoff(run.d.recent[0].ts, DELTA_WINDOW_NS));
  }

  lemma WitnessAccelerates(q: nat, n: nat)
    requires n == 101 && q > 0
    ensures D.RunAll(DeltaConfig(), DeltaInputs(Witness(n, q))).d.acceleration == q
  {
    var inputs := DeltaInputs(Witness(n, q));
    WitnessPrefix(n - 1, n, q);
    WitnessPrefix(n - 2, n, q);
    assert inputs[..n - 1] == DeltaInputs(Witness(n - 1, q));
    assert inputs[..n - 2] == DeltaInputs(Witness(n - 2, q));
    D.AccelerationIsSecondDifference(DeltaConfig(), inputs);
    WitnessHistory(q, n);
    WitnessHistory(q, n - 1);
    WitnessHistory99(q, n - 2);
  }

  // ---- A signal in terms of the whole history ----

  /** The signed volume of all trades of the history that lie within the window. */
  function WindowVolume(inputs: seq<D.Input>): int {
    if inputs == [] then 0
    else
      D.RunHasBuckets(DeltaConfig(), inputs);
      var run := D.RunAll(DeltaConfig(), inputs);
      D.VolumeSince(run.history, Cutoff(run.d.recent[0].ts, DELTA_WINDOW_NS))
  }

  lemma {:induction false} NetIsWindowVolume(inputs: seq<D.Input>)
    ensures D.RunAll(DeltaConfig(), inputs).d.net == WindowVolume(inputs)
  {
    if inputs != [] {
      NetFromHistory(inputs);
    }
  }

  /** The second difference of the window volume over the last three events. */
  function Acceleration(inputs: seq<D.Input>): int
    requires inputs != []
  {
    var n := |inputs|;
    WindowVolume(inputs) - 2 * WindowVolume(inputs[..n - 1]) + if n >= 2 then WindowVolume(inputs[..n - 2]) else 0
  }

  lemma {:induction false} AccelerationFromHistory(inputs: seq<D.Input>)
    requires inputs != []
    ensures D.RunAll(DeltaConfig(), inputs).d.acceleration == Acceleration(inputs)
  {
    var n := |inputs|;
    D.AccelerationIsSecondDifference(DeltaConfig(), inputs);
    NetIsWindowVolume(inputs);
    NetIsWindowVolume(inputs[..n - 1]);
    if n >= 2 {
      NetIsWindowVolume(inputs[..n - 2]);
    }
  }

  /** The samples ever recorded that lie within 30 s of the newest bucket. */
  function RecentSamples(sqrt: real -> real, evs: seq<LOBEvent>): seq<C.Sample>
    requires IsSqrt(sqrt)
  {
    var run := C.RunAll(sqrt, evs);
    if run.all == [] || run.c.recent == [] then [] else C.Since(run.all, Cutoff(run.c.recent[0].ts, C.QUANTILE_NS))
  }

  /** On every run an engine buys if and only if the second difference of the window volumes of the
      whole trade history is over its threshold, and the ask score over the floor and over the
      percentile of all samples of the last 30 s; it sells on the mirror image, unless it buys. */
  lemma {:induction false} SignalFromHistory(sqrt: real -> real, p: Params, ticks: seq<Tick>)
    requires IsSqrt(sqrt) && ticks != []
    ensures var accel, c := Acceleration(DeltaInputs(ticks)) as real, C.RunAll(sqrt, Events(ticks)).c;
            var percentile := C.Threshold(RecentSamples(sqrt, Events(ticks)));
            && (Emits(sqrt, p, ticks) == Buy <==>
                  accel > p.thresholdDelta && c.zAsk > p.floor && c.zAsk > percentile)
            && (Emits(sqrt, p, ticks) == Sell <==>
                  Emits(sqrt, p, ticks) != Buy && accel < -p.thresholdDelta && c.zBid > p.floor && c.zBid > percentile)
  {
    SignalIsGenuine(sqrt, p, ticks);
    RunsDelta(sqrt, p, ticks);
    RunsCancel(sqrt, p, ticks);
    AccelerationFromHistory(DeltaInputs(ticks));
    C.SamplesAreRecentHistory(sqrt, Events(ticks));
  }

  // ---- The bound is exact ----

  lemma {:induction false} LowFloorFires(sqrt: real -> real, p: Params, q: nat, n: nat)
    requires IsSqrt(sqrt) && ExactAt(sqrt, SPIKE_VARIANCE) && p.floor < 10.0
    requires n == 101 && q > 0 && q as real > p.thresholdDelta
    ensures Fires(sqrt, p, Witness(n, q))
  {
    var ticks := Witness(n, q);
    var e := RunAll(sqrt, p, ticks);
    WitnessCancels(sqrt, p, q, n);
    RunsDelta(sqrt, p, ticks);
    WitnessAccelerates(q, n);
    assert Decide(p, e.delta, e.cancel) == Buy;
    FiresIffLastDecides(sqrt, p, ticks);
  }

  lemma {:induction false} FiresIffLastDecides(sqrt: real -> real, p: Params, ticks: seq<Tick>)
    requires IsSqrt(sqrt) && ticks != []
    ensures var e := RunAll(sqrt, p, ticks); Fires(sqrt, p, ticks) <==> !Decide(p, e.delta, e.cancel).Flat?
  {
  }

  /** An engine is silent on every event stream and every book if and only if its cancel floor is
      at least 10, whatever its delta threshold. */
  lemma {:induction false} SilentIff(sqrt: real -> real, p: Params)
    requires IsSqrt(sqrt) && ExactAt(sqrt, SPIKE_VARIANCE)
    ensures (forall ticks: seq<Tick> :: !Fires(sqrt, p, ticks)) <==> p.floor >= 10.0
  {
    if p.floor >= 10.0 {
      forall ticks: seq<Tick>
        ensures !Fires(sqrt, p, ticks)
      {
        HighFloorNeverFires(sqrt, p, ticks);
      }
    } else {
      var q := if p.thresholdDelta < 0.0 then 1 else p.thresholdDelta.Floor + 1;
      LowFloorFires(sqrt, p, q, 101);
    }
  }
}
