/** The tick-imbalance factor: net traded volume over a sliding window of buckets, and its
    discrete second derivative. */
module DeltaFactor {
  import opened Types
  import opened Arithmetic
  import opened BucketWindow
  import opened BucketRing

  const MAX_BUCKETS: nat := 64

  /** `width` is the bucket length, `cap` the most buckets one event may open. */
  datatype Config = Config(window: nat, width: nat, cap: nat)

  function NumBuckets(window: nat, width: nat): (n: nat)
    requires width > 0
    ensures 1 <= n <= MAX_BUCKETS
  {
    Min((window + width - 1) / width + 1, MAX_BUCKETS)
  }

  lemma Multiples(q: nat, width: nat)
    requires width > 0
    ensures q <= 62 ==> q * width <= 62 * width
    ensures q >= 62 ==> 62 * width <= q * width
  {
    MultipleIsFar(width, q - 62);
    assert width * (q - 62) == q * width - 62 * width;
  }

  /** So many buckets as span the window with one to spare, and no more; no more than the ring has. */
  lemma BucketsSpanWindow(window: nat, width: nat, n: nat)
    requires width > 0 && n == NumBuckets(window, width)
    ensures n < MAX_BUCKETS ==> window <= (n - 1) * width
    ensures (n - 2) * width < window || n == 1
    ensures n == 1 <==> window == 0
  {
    var q, r := (window + width - 1) / width, (window + width - 1) % width;
    assert window + width - 1 == width * q + r;
    assert width * q == q * width && (q - 1) * width == q * width - width;
    if q == 0 {
      assert q * width == 0;
    } else {
      MultipleIsFar(width, q);
    }
    if q >= 63 {
      Multiples(q - 1, width);
    }
  }

  /** A configuration the constructor can produce. */
  predicate Built(cfg: Config) {
    cfg.width > 0 && cfg.cap == NumBuckets(cfg.window, cfg.width)
  }

  datatype Delta = Delta(
    recent: seq<Bucket>,
    midprice: int,
    net: int,
    prev: int,
    prevPrev: int,
    acceleration: int)

  const START := Delta([], 0, 0, 0, 0, 0)

  // ---- One event ----

  /** Buyer-initiated volume counts up, seller-initiated volume down, everything else nothing. */
  function SignedVolume(midprice: int, ev: LOBEvent): int {
    if !ev.side.Trade? || ev.qty <= 0 then 0
    else if midprice <= 0 || ev.price >= midprice then ev.qty
    else -ev.qty
  }

  function CreditSigned(r: seq<Bucket>, v: int): (r': seq<Bucket>)
    requires r != []
    ensures |r'| == |r|
  {
    if v >= 0 then Credit(r, v, 0) else Credit(r, 0, -v)
  }

  function Net(r: seq<Bucket>): int {
    if r == [] then 0 else Net(r[..|r| - 1]) + r[|r| - 1].a - r[|r| - 1].b
  }

  function Opened(cfg: Config, r: seq<Bucket>, now: nat): (r': seq<Bucket>)
    requires cfg.width > 0
    ensures r' != []
  {
    Advance(r, now, cfg.width, cfg.cap, MAX_BUCKETS)
  }

  /** Net volume of the buckets a scan of the window takes. */
  function WindowNet(r: seq<Bucket>, window: nat): int
    requires r != []
  {
    Net(r[..Within(r, Cutoff(r[0].ts, window))])
  }

  function Step(cfg: Config, d: Delta, ev: LOBEvent): Delta
    requires cfg.width > 0
  {
    var r := CreditSigned(Opened(cfg, d.recent, ev.timestampNs), SignedVolume(d.midprice, ev));
    var net := WindowNet(r, cfg.window);
    Delta(r, d.midprice, net, d.net, d.prev, net - 2 * d.net + d.prev)
  }

  // ---- Runs, with the whole trade history beside them ----

  /** An event, preceded by a midprice update when the book had one to give. */
  datatype Input = Input(midprice: Option<int>, ev: LOBEvent)

  /** A classified trade: the bucket it was put in, its own time stamp, its signed volume. */
  datatype Fill = Fill(bucket: nat, at: nat, volume: int)

  datatype Run = Run(d: Delta, history: seq<Fill>)

  function WithMid(d: Delta, midprice: Option<int>): Delta {
    if midprice.Some? then d.(midprice := midprice.value) else d
  }

  function RunStep(cfg: Config, run: Run, input: Input): Run
    requires cfg.width > 0
  {
    var d := WithMid(run.d, input.midprice);
    var volume := SignedVolume(d.midprice, input.ev);
    var d' := Step(cfg, d, input.ev);
    Run(d', if volume == 0 then run.history
            else run.history + [Fill(d'.recent[0].ts, input.ev.timestampNs, volume)])
  }

  function RunAll(cfg: Config, inputs: seq<Input>): Run
    requires cfg.width > 0
  {
    if inputs == [] then Run(START, [])
    else RunStep(cfg, RunAll(cfg, inputs[..|inputs| - 1]), inputs[|inputs| - 1])
  }

  /** Signed volume of the whole history in buckets stamped at or after the cutoff. */
  function VolumeSince(history: seq<Fill>, cutoff: nat): int {
    if history == [] then 0
    else
      var last := history[|history| - 1];
      VolumeSince(history[..|history| - 1], cutoff) + if last.bucket >= cutoff then last.volume else 0
  }

  // ---- The ring loses nothing that is still in the window ----

  /** Net volume of all the buckets that are young enough, wherever they are in the list. */
  function NetSince(r: seq<Bucket>, cutoff: nat): int {
    if r == [] then 0
    else
      var last := r[|r| - 1];
      NetSince(r[..|r| - 1], cutoff) + if last.ts >= cutoff then last.a - last.b else 0
  }

  lemma {:induction false} NetOfWithin(r: seq<Bucket>, width: nat, cutoff: nat)
    requires Stamped(r, width)
    ensures Net(r[..Within(r, cutoff)]) == NetSince(r, cutoff)
  {
    var n := Within(r, cutoff);
    NetSinceTake(r, width, cutoff, |r|);
    assert r[..|r|] == r;
  }

  lemma {:induction false} NetSinceTake(r: seq<Bucket>, width: nat, cutoff: nat, m: nat)
    requires Stamped(r, width) && m <= |r|
    ensures NetSince(r[..m], cutoff) == Net(r[..Min(m, Within(r, cutoff))])
  {
    if m > 0 {
      NetSinceTake(r, width, cutoff, m - 1);
      BreakMissesNothing(r, width, cutoff, m - 1);
      assert r[..m][..m - 1] == r[..m - 1];
    }
  }

  /** Opening an empty bucket in front adds nothing. */
  lemma {:induction false} NetSinceEmptyFront(z: Bucket, r: seq<Bucket>, cutoff: nat)
    requires z.a == z.b == 0
    ensures NetSince([z] + r, cutoff) == NetSince(r, cutoff)
  {
    if r == [] {
      assert [z] + r == [z];
      assert [z][..0] == [];
    } else {
      NetSinceEmptyFront(z, r[..|r| - 1], cutoff);
      assert ([z] + r)[..|r|] == [z] + r[..|r| - 1];
    }
  }

  lemma {:induction false} NetSinceCredit(r: seq<Bucket>, v: int, cutoff: nat)
    requires r != []
    ensures NetSince(CreditSigned(r, v), cutoff) == NetSince(r, cutoff) + if r[0].ts >= cutoff then v else 0
  {
    var n := |r| - 1;
    if n == 0 {
      assert r[..0] == [] == CreditSigned(r, v)[..0];
    } else {
      NetSinceCredit(r[..n], v, cutoff);
      assert CreditSigned(r, v)[..n] == CreditSigned(r[..n], v);
    }
  }

  /** Cutoffs at which the ring still has everything: all of them until it has wrapped, then
      those younger than the bucket it would have held next. */
  ghost predicate Covered(r: seq<Bucket>, width: nat, cutoff: nat) {
    |r| < MAX_BUCKETS || (|r| == MAX_BUCKETS && cutoff + width > r[|r| - 1].ts)
  }

  ghost predicate Faithful(r: seq<Bucket>, width: nat, history: seq<Fill>) {
    forall cutoff: nat :: Covered(r, width, cutoff) ==> VolumeSince(history, cutoff) == NetSince(r, cutoff)
  }

  lemma PushKeepsFaithful(r: seq<Bucket>, width: nat, history: seq<Fill>)
    requires width > 0 && 0 < |r| <= MAX_BUCKETS && Stamped(r, width) && Faithful(r, width, history)
    ensures Faithful(PushEmpty(r, width, MAX_BUCKETS), width, history)
  {
    var r', z := PushEmpty(r, width, MAX_BUCKETS), Bucket(r[0].ts + width, 0, 0);
    forall cutoff: nat | Covered(r', width, cutoff)
      ensures VolumeSince(history, cutoff) == NetSince(r', cutoff)
    {
      var n := |r| - 1;
      if |r| < MAX_BUCKETS {
        assert r' == [z] + r;
        NetSinceEmptyFront(z, r, cutoff);
      } else {
        assert r' == [z] + r[..n];
        assert r'[|r'| - 1].ts == r[n].ts + width;
        NetSinceEmptyFront(z, r[..n], cutoff);
        assert Covered(r, width, cutoff);
      }
    }
  }

  lemma {:induction false} PushManyKeepsFaithful(r: seq<Bucket>, width: nat, history: seq<Fill>, n: nat)
    requires width > 0 && 0 < |r| <= MAX_BUCKETS && Stamped(r, width) && Faithful(r, width, history)
    ensures Faithful(PushMany(r, width, MAX_BUCKETS, n), width, history)
  {
    if n > 0 {
      var before := PushMany(r, width, MAX_BUCKETS, n - 1);
      PushManyKeepsFaithful(r, width, history, n - 1);
      PushManyStamps(r, width, MAX_BUCKETS, n - 1);
      PushKeepsFaithful(before, width, history);
      assert PushMany(r, width, MAX_BUCKETS, n) == PushEmpty(before, width, MAX_BUCKETS);
    }
  }

  lemma OpenedKeepsFaithful(cfg: Config, r: seq<Bucket>, history: seq<Fill>, now: nat)
    requires cfg.width > 0 && |r| <= MAX_BUCKETS && Stamped(r, cfg.width) && Faithful(r, cfg.width, history)
    requires r == [] ==> history == []
    ensures Faithful(Opened(cfg, r, now), cfg.width, history)
  {
    if r == [] {
      forall cutoff: nat
        ensures NetSince([Bucket(now, 0, 0)], cutoff) == 0
      {
        assert [Bucket(now, 0, 0)][..0] == [];
      }
    } else if now >= r[0].ts + cfg.width {
      PushManyKeepsFaithful(r, cfg.width, history, Min((now - r[0].ts) / cfg.width, cfg.cap));
    }
  }

  lemma CreditKeepsFaithful(r: seq<Bucket>, width: nat, history: seq<Fill>, at: nat, v: int)
    requires r != [] && Faithful(r, width, history)
    ensures Faithful(CreditSigned(r, v), width,
                     if v == 0 then history else history + [Fill(r[0].ts, at, v)])
  {
    var r', h := CreditSigned(r, v), history + [Fill(r[0].ts, at, v)];
    assert h[..|h| - 1] == history;
    forall cutoff: nat | Covered(r', width, cutoff)
      ensures VolumeSince(h, cutoff) == NetSince(r', cutoff)
      ensures v == 0 ==> VolumeSince(history, cutoff) == NetSince(r', cutoff)
    {
      assert r'[|r'| - 1].ts == r[|r| - 1].ts;
      assert Covered(r, width, cutoff);
      NetSinceCredit(r, v, cutoff);
    }
  }

  ghost predicate RunInv(cfg: Config, run: Run) {
    && Stamped(run.d.recent, cfg.width) && |run.d.recent| <= MAX_BUCKETS
    && Faithful(run.d.recent, cfg.width, run.history)
    && (run.d.recent == [] ==> run.history == [])
  }

  lemma StepKeepsInv(cfg: Config, run: Run, input: Input)
    requires cfg.width > 0 && RunInv(cfg, run)
    ensures RunInv(cfg, RunStep(cfg, run, input))
  {
    var now := input.ev.timestampNs;
    var d := WithMid(run.d, input.midprice);
    var r := Opened(cfg, run.d.recent, now);
    AdvanceStamps(run.d.recent, now, cfg.width, cfg.cap, MAX_BUCKETS);
    OpenedKeepsFaithful(cfg, run.d.recent, run.history, now);
    CreditKeepsFaithful(r, cfg.width, run.history, now, SignedVolume(d.midprice, input.ev));
  }

  lemma {:induction false} RunKeepsInv(cfg: Config, inputs: seq<Input>)
    requires cfg.width > 0
    ensures RunInv(cfg, RunAll(cfg, inputs))
  {
    if inputs != [] {
      RunKeepsInv(cfg, inputs[..|inputs| - 1]);
      StepKeepsInv(cfg, RunAll(cfg, inputs[..|inputs| - 1]), inputs[|inputs| - 1]);
    }
  }

  /** The net imbalance after a run is that of the whole history inside the window. */
  ghost predicate WindowExact(cfg: Config, inputs: seq<Input>)
    requires cfg.width > 0
  {
    var run := RunAll(cfg, inputs);
    inputs == [] || run.d.net == VolumeSince(run.history, Cutoff(run.d.recent[0].ts, cfg.window))
  }

  lemma {:induction false} NetIsScan(cfg: Config, inputs: seq<Input>)
    requires cfg.width > 0 && inputs != []
    ensures var d := RunAll(cfg, inputs).d;
            d.recent != [] && d.net == WindowNet(d.recent, cfg.window)
  {
  }

  /** The whole window lies within what the ring covers. */
  lemma CoversWindow(r: seq<Bucket>, width: nat, window: nat)
    requires 0 < |r| <= MAX_BUCKETS && Stamped(r, width) && window < MAX_BUCKETS * width
    ensures Covered(r, width, Cutoff(r[0].ts, window))
  {
    StampOf(r, width, |r| - 1);
  }

  /** While the window is shorter than the ring, no event stream makes it lose a trade: not by
      overwriting, not by a capped advance, not by a clock running backwards. */
  lemma {:induction false} WindowExactWhenRingIsLonger(cfg: Config, inputs: seq<Input>)
    requires cfg.width > 0 && cfg.window < MAX_BUCKETS * cfg.width
    ensures WindowExact(cfg, inputs)
  {
    if inputs != [] {
      var run := RunAll(cfg, inputs);
      RunKeepsInv(cfg, inputs);
      NetIsScan(cfg, inputs);
      NetOfWithin(run.d.recent, cfg.width, Cutoff(run.d.recent[0].ts, cfg.window));
      CoversWindow(run.d.recent, cfg.width, cfg.window);
    }
  }

  // ---- And a longer window does lose one ----

  function Quiet(at: nat): Input {
    Input(None, LOBEvent(at, 0, 0, 0, New, Bid))
  }

  /** One trade at time 0 and then n quiet events, one per bucket. */
  function Silence(width: nat, n: nat): seq<Input> {
    if n == 0 then [Input(None, LOBEvent(0, 0, 0, 1, New, Trade))]
    else Silence(width, n - 1) + [Quiet(n * width)]
  }

  /** Buckets n, n-1, ..., 0 of a silence, all empty but the one at time 0. */
  ghost predicate AfterSilence(r: seq<Bucket>, width: nat, n: nat) {
    && |r| == Min(n + 1, MAX_BUCKETS) && r[0].ts == n * width
    && (forall i :: 0 <= i < |r| && i != n ==> r[i].a == r[i].b == 0)
  }

  lemma OneMoreEmpty(r: seq<Bucket>, width: nat, n: nat)
    requires n > 0 && 0 < |r| && AfterSilence(r, width, n - 1)
    ensures AfterSilence(PushEmpty(r, width, MAX_BUCKETS), width, n)
  {
    assert n * width == (n - 1) * width + width;
    var longer := [Bucket(r[0].ts + width, 0, 0)] + r;
    assert forall i :: 0 < i < |longer| ==> longer[i] == r[i - 1];
  }

  /** A quiet event one bucket later opens exactly one empty bucket. */
  lemma QuietOpensOne(cfg: Config, r: seq<Bucket>, n: nat)
    requires Built(cfg) && n > 0 && 0 < |r| && r[0].ts == (n - 1) * cfg.width
    ensures Opened(cfg, r, n * cfg.width) == PushEmpty(r, cfg.width, MAX_BUCKETS)
  {
    assert n * cfg.width == (n - 1) * cfg.width + cfg.width;
    DivModUnique(cfg.width, cfg.width, 1, 0);
    assert PushMany(r, cfg.width, MAX_BUCKETS, 0) == r;
    assert PushMany(r, cfg.width, MAX_BUCKETS, 1) == PushEmpty(r, cfg.width, MAX_BUCKETS);
  }

  lemma QuietStep(cfg: Config, run: Run, n: nat)
    requires Built(cfg) && n > 0 && 0 < |run.d.recent| && AfterSilence(run.d.recent, cfg.width, n - 1)
    ensures var after := RunStep(cfg, run, Quiet(n * cfg.width));
            after.history == run.history && AfterSilence(after.d.recent, cfg.width, n)
  {
    QuietOpensOne(cfg, run.d.recent, n);
    OneMoreEmpty(run.d.recent, cfg.width, n);
    var r := PushEmpty(run.d.recent, cfg.width, MAX_BUCKETS);
    assert CreditSigned(r, 0) == r;
  }

  lemma {:induction false} SilenceRuns(cfg: Config, n: nat)
    requires Built(cfg)
    ensures var run := RunAll(cfg, Silence(cfg.width, n));
            run.history == [Fill(0, 0, 1)] && AfterSilence(run.d.recent, cfg.width, n)
  {
    var inputs := Silence(cfg.width, n);
    if n == 0 {
      assert inputs[..0] == [];
    } else {
      SilenceRuns(cfg, n - 1);
      assert inputs[..|inputs| - 1] == Silence(cfg.width, n - 1);
      QuietStep(cfg, RunAll(cfg, Silence(cfg.width, n - 1)), n);
    }
  }

  lemma {:induction false} NetOfEmpty(r: seq<Bucket>)
    requires forall i :: 0 <= i < |r| ==> r[i].a == r[i].b == 0
    ensures Net(r) == 0
  {
    if r != [] { NetOfEmpty(r[..|r| - 1]); }
  }

  lemma {:induction false} LongWindowLosesTrade(cfg: Config, n: nat)
    requires Built(cfg) && cfg.window >= n * cfg.width && n == MAX_BUCKETS
    ensures !WindowExact(cfg, Silence(cfg.width, n))
  {
    var inputs := Silence(cfg.width, n);
    SilenceRuns(cfg, n);
    NetIsScan(cfg, inputs);
    var d := RunAll(cfg, inputs).d;
    NetOfEmpty(d.recent[..Within(d.recent, Cutoff(d.recent[0].ts, cfg.window))]);
    var h := [Fill(0, 0, 1)];
    assert h[..0] == [] && VolumeSince(h, 0) == 1;
  }

  /** The constructor clips the number of buckets to the ring without a word. The window sum is
      exact on every event stream if and only if the window is shorter than the whole ring. */
  lemma {:induction false} WindowExactIff(cfg: Config)
    requires Built(cfg)
    ensures (forall inputs: seq<Input> :: WindowExact(cfg, inputs)) <==> cfg.window < MAX_BUCKETS * cfg.width
  {
    if cfg.window < MAX_BUCKETS * cfg.width {
      forall inputs: seq<Input>
        ensures WindowExact(cfg, inputs)
      {
        WindowExactWhenRingIsLonger(cfg, inputs);
      }
    } else {
      LongWindowLosesTrade(cfg, MAX_BUCKETS);
    }
  }

  // ---- Bucket stamps and wall time ----

  predicate InItsBucket(f: Fill, width: nat) {
    f.bucket <= f.at < f.bucket + width
  }

  /** The advance loop can bring the newest bucket up to this time. */
  predicate InReach(cfg: Config, r: seq<Bucket>, now: nat) {
    Reaches(r, now, cfg.width, cfg.cap)
  }

  /** After an event the newest bucket contains its time if and only if that was in reach, whatever
      the clock did. */
  lemma {:induction false} HeadCoversIff(cfg: Config, r: seq<Bucket>, now: nat)
    requires cfg.width > 0 && |r| <= MAX_BUCKETS && Stamped(r, cfg.width)
    ensures HeadCovers(Opened(cfg, r, now), cfg.width, now) <==> InReach(cfg, r, now)
  {
    AdvanceCoversIff(r, now, cfg.width, cfg.cap, MAX_BUCKETS);
  }

  predicate IsTrade(ev: LOBEvent) {
    ev.side.Trade? && ev.qty > 0
  }

  /** Event n of the run is in reach of the buckets it meets. */
  predicate ReachedAt(cfg: Config, inputs: seq<Input>, n: nat)
    requires cfg.width > 0 && n < |inputs|
  {
    InReach(cfg, RunAll(cfg, inputs[..n]).d.recent, inputs[n].ev.timestampNs)
  }

  ghost predicate AllFiled(history: seq<Fill>, width: nat) {
    forall f :: f in history ==> InItsBucket(f, width)
  }

  ghost predicate TradesReached(cfg: Config, inputs: seq<Input>)
    requires cfg.width > 0
  {
    forall n :: 0 <= n < |inputs| && IsTrade(inputs[n].ev) ==> ReachedAt(cfg, inputs, n)
  }

  lemma StepFiles(cfg: Config, run: Run, input: Input)
    requires cfg.width > 0 && RunInv(cfg, run)
    ensures AllFiled(RunStep(cfg, run, input).history, cfg.width) <==>
              && AllFiled(run.history, cfg.width)
              && (IsTrade(input.ev) ==> InReach(cfg, run.d.recent, input.ev.timestampNs))
  {
    var next := RunStep(cfg, run, input);
    HeadCoversIff(cfg, run.d.recent, input.ev.timestampNs);
    if IsTrade(input.ev) {
      var f := next.history[|run.history|];
      assert next.history == run.history + [f];
      assert f in next.history && forall g :: g in run.history ==> g in next.history;
    }
  }

  lemma {:induction false} ReachedSnoc(cfg: Config, before: seq<Input>, last: Input)
    requires cfg.width > 0
    ensures TradesReached(cfg, before + [last]) <==>
              && TradesReached(cfg, before)
              && (IsTrade(last.ev) ==> InReach(cfg, RunAll(cfg, before).d.recent, last.ev.timestampNs))
  {
    var all, k := before + [last], |before|;
    forall m | 0 <= m < k
      ensures all[m] == before[m] && (ReachedAt(cfg, all, m) <==> ReachedAt(cfg, before, m))
    {
      assert all[..m] == before[..m];
    }
    assert all[..k] == before && all[k] == last;
    assert ReachedAt(cfg, all, k) <==> InReach(cfg, RunAll(cfg, before).d.recent, last.ev.timestampNs);
  }

  lemma {:induction false} RunSnoc(cfg: Config, before: seq<Input>, last: Input)
    requires cfg.width > 0
    ensures RunAll(cfg, before + [last]) == RunStep(cfg, RunAll(cfg, before), last)
  {
    assert (before + [last])[..|before|] == before;
  }

  /** Every trade of a run is counted in the bucket its own time stamp falls into if and only if
      each came in reach of the buckets it met, on any clock. */
  lemma {:induction false} TradesLandInTheirBucket(cfg: Config, inputs: seq<Input>)
    requires cfg.width > 0
    ensures AllFiled(RunAll(cfg, inputs).history, cfg.width) <==> TradesReached(cfg, inputs)
  {
    if inputs != [] {
      var before, last := inputs[..|inputs| - 1], inputs[|inputs| - 1];
      assert inputs == before + [last];
      TradesLandInTheirBucket(cfg, before);
      RunKeepsInv(cfg, before);
      StepFiles(cfg, RunAll(cfg, before), last);
      RunSnoc(cfg, before, last);
      ReachedSnoc(cfg, before, last);
    }
  }

  /** A clock that never goes back and never jumps further than the buckets one event may open. */
  ghost predicate SteadyClock(cfg: Config, inputs: seq<Input>) {
    forall i {:trigger inputs[i]} :: 0 < i < |inputs| ==>
      inputs[i - 1].ev.timestampNs <= inputs[i].ev.timestampNs
                                   <= inputs[i - 1].ev.timestampNs + cfg.cap * cfg.width
  }

  lemma StepReaches(cfg: Config, run: Run, input: Input, next: nat)
    requires cfg.width > 0 && RunInv(cfg, run) && InReach(cfg, run.d.recent, input.ev.timestampNs)
    requires input.ev.timestampNs <= next <= input.ev.timestampNs + cfg.cap * cfg.width
    ensures InReach(cfg, RunStep(cfg, run, input).d.recent, next)
  {
    HeadCoversIff(cfg, run.d.recent, input.ev.timestampNs);
    assert (cfg.cap + 1) * cfg.width == cfg.cap * cfg.width + cfg.width;
  }

  /** On such a clock everything is in reach, so every trade lands. */
  lemma {:induction false} SteadyClockReaches(cfg: Config, inputs: seq<Input>, n: nat)
    requires cfg.width > 0 && SteadyClock(cfg, inputs) && n < |inputs|
    ensures ReachedAt(cfg, inputs, n)
  {
    if n == 0 {
      assert inputs[..0] == [];
    } else {
      var before, last := inputs[..n - 1], inputs[n - 1];
      SteadyClockReaches(cfg, inputs, n - 1);
      RunKeepsInv(cfg, before);
      assert inputs[..n] == before + [last];
      RunSnoc(cfg, before, last);
      assert last.ev.timestampNs <= inputs[n].ev.timestampNs <= last.ev.timestampNs + cfg.cap * cfg.width;
      StepReaches(cfg, RunAll(cfg, before), last, inputs[n].ev.timestampNs);
    }
  }

  lemma StepCovers(cfg: Config, run: Run, input: Input)
    requires cfg.width > 0 && RunInv(cfg, run) && InReach(cfg, run.d.recent, input.ev.timestampNs)
    ensures HeadCovers(RunStep(cfg, run, input).d.recent, cfg.width, input.ev.timestampNs)
  {
    HeadCoversIff(cfg, run.d.recent, input.ev.timestampNs);
  }

  lemma {:induction false} SteadyClockLands(cfg: Config, inputs: seq<Input>)
    requires cfg.width > 0 && SteadyClock(cfg, inputs) && inputs != []
    ensures AllFiled(RunAll(cfg, inputs).history, cfg.width)
    ensures var r := RunAll(cfg, inputs).d.recent;
            r != [] && HeadCovers(r, cfg.width, inputs[|inputs| - 1].ev.timestampNs)
  {
    var before, last := inputs[..|inputs| - 1], inputs[|inputs| - 1];
    assert inputs == before + [last];
    forall m | 0 <= m < |inputs|
      ensures ReachedAt(cfg, inputs, m)
    {
      SteadyClockReaches(cfg, inputs, m);
    }
    TradesLandInTheirBucket(cfg, inputs);
    assert ReachedAt(cfg, inputs, |before|);
    RunKeepsInv(cfg, before);
    StepCovers(cfg, RunAll(cfg, before), last);
    RunSnoc(cfg, before, last);
  }

  // ---- The window in terms of the trades' own stamps ----

  /** The signed volume of the trades of a history that happened at or after the cutoff. */
  function OwnVolumeSince(history: seq<Fill>, cutoff: nat): int {
    if history == [] then 0
    else
      var last := history[|history| - 1];
      OwnVolumeSince(history[..|history| - 1], cutoff) + if last.at >= cutoff then last.volume else 0
  }

  /** All buckets a history was put in start a whole number of widths from this time. */
  ghost predicate Aligned(history: seq<Fill>, width: nat, time: nat)
    requires width > 0
  {
    forall f :: f in history ==> f.bucket % width == time % width
  }

  lemma WholeWidths(ts: nat, n: nat, width: nat)
    requires width > 0
    ensures (ts + n * width) % width == ts % width
  {
    assert ts + n * width == width * (ts / width + n) + ts % width;
    DivModUnique(ts + n * width, width, ts / width + n, ts % width);
  }

  lemma OpenedIsAligned(cfg: Config, r: seq<Bucket>, now: nat)
    requires cfg.width > 0 && r != [] && |r| <= MAX_BUCKETS && Stamped(r, cfg.width)
    ensures Opened(cfg, r, now)[0].ts % cfg.width == r[0].ts % cfg.width
  {
    if now >= r[0].ts + cfg.width {
      var n := Min((now - r[0].ts) / cfg.width, cfg.cap);
      PushManyStamps(r, cfg.width, MAX_BUCKETS, n);
      WholeWidths(r[0].ts, n, cfg.width);
    }
  }

  lemma StepIsAligned(cfg: Config, run: Run, input: Input)
    requires cfg.width > 0 && RunInv(cfg, run)
    requires run.d.recent != [] ==> Aligned(run.history, cfg.width, run.d.recent[0].ts)
    ensures var next := RunStep(cfg, run, input);
            next.d.recent != [] && Aligned(next.history, cfg.width, next.d.recent[0].ts)
  {
    if run.d.recent != [] {
      OpenedIsAligned(cfg, run.d.recent, input.ev.timestampNs);
    }
  }

  lemma {:induction false} RunIsAligned(cfg: Config, inputs: seq<Input>)
    requires cfg.width > 0 && inputs != []
    ensures var run := RunAll(cfg, inputs);
            run.d.recent != [] && Aligned(run.history, cfg.width, run.d.recent[0].ts)
  {
    var before, last := inputs[..|inputs| - 1], inputs[|inputs| - 1];
    assert inputs == before + [last];
    RunSnoc(cfg, before, last);
    RunKeepsInv(cfg, before);
    if before == [] {
      StepIsAligned(cfg, Run(START, []), last);
    } else {
      RunIsAligned(cfg, before);
      StepIsAligned(cfg, RunAll(cfg, before), last);
    }
  }

  /** A trade in its own bucket is past an aligned cutoff exactly when its bucket is. */
  lemma SameSideOfCutoff(f: Fill, width: nat, cutoff: nat)
    requires width > 0 && InItsBucket(f, width) && (cutoff == 0 || f.bucket % width == cutoff % width)
    ensures f.at >= cutoff <==> f.bucket >= cutoff
  {
    if cutoff > 0 && f.bucket < cutoff && f.at >= cutoff {
      SameRemainder(f.bucket, cutoff, width);
    }
  }

  lemma {:induction false} OwnVolumeIsVolume(history: seq<Fill>, width: nat, cutoff: nat)
    requires width > 0 && AllFiled(history, width) && (cutoff == 0 || Aligned(history, width, cutoff))
    ensures OwnVolumeSince(history, cutoff) == VolumeSince(history, cutoff)
  {
    if history != [] {
      var front, last := history[..|history| - 1], history[|history| - 1];
      assert last in history && forall f :: f in front ==> f in history;
      OwnVolumeIsVolume(front, width, cutoff);
      SameSideOfCutoff(last, width, cutoff);
    }
  }

  lemma AlignedCutoff(head: nat, window: nat, width: nat)
    requires width > 0 && window % width == 0 && Cutoff(head, window) != 0
    ensures Cutoff(head, window) % width == head % width
  {
    var cutoff := head - window;
    assert window == width * (window / width);
    assert head == cutoff + (window / width) * width;
    WholeWidths(cutoff, window / width, width);
  }

  /** The two results together: with a window of whole buckets shorter than the ring, on every run
      whose trades all came in reach, the net is the signed volume of the trades whose own stamp is
      at or after the cutoff, and of no other. */
  lemma {:induction false} NetIsOwnVolume(cfg: Config, inputs: seq<Input>)
    requires cfg.width > 0 && inputs != [] && TradesReached(cfg, inputs)
    requires cfg.window < MAX_BUCKETS * cfg.width && cfg.window % cfg.width == 0
    ensures var run := RunAll(cfg, inputs);
            run.d.recent != []
            && run.d.net == OwnVolumeSince(run.history, Cutoff(run.d.recent[0].ts, cfg.window))
  {
    var run := RunAll(cfg, inputs);
    RunIsAligned(cfg, inputs);
    var cutoff := Cutoff(run.d.recent[0].ts, cfg.window);
    WindowExactWhenRingIsLonger(cfg, inputs);
    TradesLandInTheirBucket(cfg, inputs);
    if cutoff != 0 {
      AlignedCutoff(run.d.recent[0].ts, cfg.window, cfg.width);
    }
    OwnVolumeIsVolume(run.history, cfg.width, cutoff);
  }

  // ---- Bought and sold ----

  /** The midprice given last, 0 before the first. */
  function LastMid(inputs: seq<Input>): int {
    if inputs == [] then 0
    else
      var last := inputs[|inputs| - 1].midprice;
      if last.Some? then last.value else LastMid(inputs[..|inputs| - 1])
  }

  /** The last event is a trade the buyer started: one at or above the midprice, or with none known. */
  predicate LastIsBought(inputs: seq<Input>) {
    && inputs != [] && IsTrade(inputs[|inputs| - 1].ev)
    && (LastMid(inputs) > 0 ==> inputs[|inputs| - 1].ev.price >= LastMid(inputs))
  }

  /** One the seller started: below a known midprice. */
  predicate LastIsSold(inputs: seq<Input>) {
    && inputs != [] && IsTrade(inputs[|inputs| - 1].ev)
    && LastMid(inputs) > 0 && inputs[|inputs| - 1].ev.price < LastMid(inputs)
  }

  /** What the last input records, when it leaves this newest bucket. */
  function LastFill(inputs: seq<Input>, head: nat): seq<Fill>
    requires inputs != []
  {
    var ev := inputs[|inputs| - 1].ev;
    if LastIsBought(inputs) then [Fill(head, ev.timestampNs, ev.qty)]
    else if LastIsSold(inputs) then [Fill(head, ev.timestampNs, -ev.qty)]
    else []
  }

  /** What the inputs say the history should be. */
  function FillsOf(cfg: Config, inputs: seq<Input>): seq<Fill>
    requires cfg.width > 0
  {
    if inputs == [] then []
    else
      RunHasBuckets(cfg, inputs);
      FillsOf(cfg, inputs[..|inputs| - 1]) + LastFill(inputs, RunAll(cfg, inputs).d.recent[0].ts)
  }

  /** Quantity of the trades bought, by their own stamps, at or after the cutoff. */
  function BoughtSince(inputs: seq<Input>, cutoff: nat): nat {
    if inputs == [] then 0
    else
      var ev := inputs[|inputs| - 1].ev;
      BoughtSince(inputs[..|inputs| - 1], cutoff)
        + if LastIsBought(inputs) && ev.timestampNs >= cutoff then ev.qty else 0
  }

  function SoldSince(inputs: seq<Input>, cutoff: nat): nat {
    if inputs == [] then 0
    else
      var ev := inputs[|inputs| - 1].ev;
      SoldSince(inputs[..|inputs| - 1], cutoff)
        + if LastIsSold(inputs) && ev.timestampNs >= cutoff then ev.qty else 0
  }

  lemma {:induction false} MidIsLast(cfg: Config, inputs: seq<Input>)
    requires cfg.width > 0
    ensures RunAll(cfg, inputs).d.midprice == LastMid(inputs)
  {
    if inputs != [] {
      MidIsLast(cfg, inputs[..|inputs| - 1]);
    }
  }

  /** On every run the trades recorded are those of the inputs, each under the stamp of the bucket that was
      newest then: one at or above the last midprice, or with none known, counts up by its quantity, one
      below it counts down by its quantity, and nothing else is recorded. */
  lemma {:induction false} HistoryIsFills(cfg: Config, inputs: seq<Input>)
    requires cfg.width > 0
    ensures RunAll(cfg, inputs).history == FillsOf(cfg, inputs)
  {
    if inputs != [] {
      var before, last := inputs[..|inputs| - 1], inputs[|inputs| - 1];
      HistoryIsFills(cfg, before);
      MidIsLast(cfg, inputs);
      assert RunAll(cfg, inputs) == RunStep(cfg, RunAll(cfg, before), last);
    }
  }

  lemma {:induction false} OwnVolumeSnoc(history: seq<Fill>, f: Fill, cutoff: nat)
    ensures OwnVolumeSince(history + [f], cutoff)
         == OwnVolumeSince(history, cutoff) + if f.at >= cutoff then f.volume else 0
  {
    assert (history + [f])[..|history|] == history;
  }

  lemma {:induction false} LastFlow(fills: seq<Fill>, inputs: seq<Input>, head: nat, cutoff: nat)
    requires inputs != []
    ensures var ev := inputs[|inputs| - 1].ev;
            OwnVolumeSince(fills + LastFill(inputs, head), cutoff)
            == OwnVolumeSince(fills, cutoff)
               + (if LastIsBought(inputs) && ev.timestampNs >= cutoff then ev.qty else 0)
               - (if LastIsSold(inputs) && ev.timestampNs >= cutoff then ev.qty else 0)
  {
    var last := LastFill(inputs, head);
    if last == [] {
      assert fills + last == fills;
    } else {
      assert last == [last[0]];
      OwnVolumeSnoc(fills, last[0], cutoff);
    }
  }

  lemma {:induction false} OwnVolumeIsFlow(cfg: Config, inputs: seq<Input>, cutoff: nat)
    requires cfg.width > 0
    ensures OwnVolumeSince(FillsOf(cfg, inputs), cutoff) == BoughtSince(inputs, cutoff) - SoldSince(inputs, cutoff)
  {
    if inputs != [] {
      var front := inputs[..|inputs| - 1];
      OwnVolumeIsFlow(cfg, front, cutoff);
      RunHasBuckets(cfg, inputs);
      LastFlow(FillsOf(cfg, front), inputs, RunAll(cfg, inputs).d.recent[0].ts, cutoff);
    }
  }

  /** With a window of whole buckets shorter than the ring, on every run whose trades all came in reach, the
      net is the quantity bought less the quantity sold within the window. */
  lemma {:induction false} NetIsBoughtLessSold(cfg: Config, inputs: seq<Input>)
    requires cfg.width > 0 && inputs != [] && TradesReached(cfg, inputs)
    requires cfg.window < MAX_BUCKETS * cfg.width && cfg.window % cfg.width == 0
    ensures var d := RunAll(cfg, inputs).d;
            d.recent != []
            && var cutoff := Cutoff(d.recent[0].ts, cfg.window);
               d.net == BoughtSince(inputs, cutoff) - SoldSince(inputs, cutoff)
  {
    NetIsOwnVolume(cfg, inputs);
    HistoryIsFills(cfg, inputs);
    OwnVolumeIsFlow(cfg, inputs, Cutoff(RunAll(cfg, inputs).d.recent[0].ts, cfg.window));
  }

  // ---- A trade that comes too late ----

  lemma {:induction false} QuietStart(cfg: Config, quiet: seq<Input>)
    requires cfg.width > 0 && |quiet| == 1 && quiet[0] == Quiet(0)
    ensures var run := RunAll(cfg, quiet);
            run.d.recent == [Bucket(0, 0, 0)] && run.history == [] && run.d.midprice == 0
  {
    assert quiet[..0] == [];
    assert CreditSigned([Bucket(0, 0, 0)], 0) == [Bucket(0, 0, 0)];
  }

  lemma OneMoreFactor(a: nat, b: nat)
    ensures (a + 1) * b == a * b + b
  {
  }

  /** An event too far ahead leaves the head `cap` buckets on. */
  lemma HeadStops(cfg: Config, r: seq<Bucket>, late: nat)
    requires Built(cfg) && r != [] && |r| <= MAX_BUCKETS && Stamped(r, cfg.width)
    requires late == r[0].ts + (cfg.cap + 1) * cfg.width
    ensures Opened(cfg, r, late)[0].ts == r[0].ts + cfg.cap * cfg.width
  {
    var gap := late - r[0].ts;
    assert gap == cfg.cap * cfg.width + cfg.width;
    assert gap == cfg.width * (cfg.cap + 1) + 0;
    DivModUnique(gap, cfg.width, cfg.cap + 1, 0);
    PushManyStamps(r, cfg.width, MAX_BUCKETS, cfg.cap);
  }

  lemma TradeIsFiled(cfg: Config, run: Run, at: nat)
    requires cfg.width > 0
    ensures var next := RunStep(cfg, run, Input(None, LOBEvent(at, 0, 0, 1, New, Trade)));
            run.d.midprice <= 0 ==>
              next.history == run.history + [Fill(Opened(cfg, run.d.recent, at)[0].ts, at, 1)]
  {
  }

  /** A trade that comes one bucket after the last in reach, after a quiet start, is counted in the
      bucket before its own, where the head has stopped. */
  lemma {:induction false} LateTradeIsMisfiled(cfg: Config, late: nat, quiet: seq<Input>)
    requires Built(cfg) && late == (cfg.cap + 1) * cfg.width && |quiet| == 1 && quiet[0] == Quiet(0)
    ensures RunAll(cfg, quiet + [Input(None, LOBEvent(late, 0, 0, 1, New, Trade))]).history
         == [Fill(cfg.cap * cfg.width, late, 1)]
    ensures !InItsBucket(Fill(cfg.cap * cfg.width, late, 1), cfg.width)
  {
    var one := RunAll(cfg, quiet);
    OneMoreFactor(cfg.cap, cfg.width);
    QuietStart(cfg, quiet);
    HeadStops(cfg, one.d.recent, late);
    TradeIsFiled(cfg, one, late);
    RunSnoc(cfg, quiet, Input(None, LOBEvent(late, 0, 0, 1, New, Trade)));
  }

  lemma {:induction false} RunHasBuckets(cfg: Config, inputs: seq<Input>)
    requires cfg.width > 0 && inputs != []
    ensures RunAll(cfg, inputs).d.recent != []
  {
  }

  /** The factor's value is the second difference of the net imbalances of the last three
      events, with 0 before the first. */
  lemma {:induction false} AccelerationIsSecondDifference(cfg: Config, inputs: seq<Input>)
    requires cfg.width > 0 && inputs != []
    ensures var n := |inputs|;
            RunAll(cfg, inputs).d.acceleration
            == RunAll(cfg, inputs).d.net - 2 * RunAll(cfg, inputs[..n - 1]).d.net
               + if n >= 2 then RunAll(cfg, inputs[..n - 2]).d.net else 0
  {
    var n := |inputs|;
    if n >= 2 {
      assert inputs[..n - 1][..n - 2] == inputs[..n - 2];
    }
  }

  // ---- The factor object ----

  class DeltaFactor {
    const cfg: Config
    const ring: Ring
    var midprice: int
    var net: int
    var prev: int
    var prevPrev: int
    var acceleration: int

    ghost predicate Valid()
      reads this, ring
    {
      ring.Valid() && ring.buckets.Length == MAX_BUCKETS && cfg.width > 0
    }

    ghost function State(): Delta
      requires Valid()
      reads this, ring, ring.buckets
    {
      Delta(ring.Recent(), midprice, net, prev, prevPrev, acceleration)
    }

    constructor (window: nat, width: nat)
      requires width > 0
      ensures Valid() && State() == START && fresh(ring) && fresh(ring.buckets)
      ensures cfg == Config(window, width, NumBuckets(window, width))
    {
      cfg := Config(window, width, NumBuckets(window, width));
      ring := new Ring(MAX_BUCKETS);
      midprice, net, prev, prevPrev, acceleration := 0, 0, 0, 0, 0;
    }

    /** A zero bucket length is an error. */
    static method Create(window: nat, width: nat) returns (f: Option<DeltaFactor>)
      ensures f.None? <==> width == 0
      ensures f.Some? ==> f.value.Valid() && f.value.State() == START && fresh(f.value)
                          && fresh(f.value.ring) && fresh(f.value.ring.buckets)
      ensures f.Some? ==> f.value.cfg == Config(window, width, NumBuckets(window, width))
    {
      if width == 0 {
        return None;
      }
      var d := new DeltaFactor(window, width);
      f := Some(d);
    }

    /** Forgets everything but the midprice. */
    method Reset()
      requires Valid()
      modifies this, ring, ring.buckets
      ensures Valid() && State() == START.(midprice := old(midprice))
      ensures State() == START <==> old(midprice) == 0
    {
      ring.Reset();
      net, prev, prevPrev, acceleration := 0, 0, 0, 0;
    }

    method SetMidprice(mid: int)
      requires Valid()
      modifies this`midprice
      ensures Valid() && State() == old(State()).(midprice := mid)
    {
      midprice := mid;
    }

    method OnEvent(ev: LOBEvent)
      requires Valid()
      modifies this, ring, ring.buckets
      ensures Valid() && State() == Step(cfg, old(State()), ev)
    {
      ghost var d := State();
      ring.Advance(ev.timestampNs, cfg.width, cfg.cap);
      ghost var grown := ring.Recent();
      assert grown == Opened(cfg, d.recent, ev.timestampNs);
      if ev.side.Trade? && ev.qty > 0 {
        if midprice <= 0 || ev.price >= midprice {
          ring.Credit(ev.qty, 0);
        } else {
          ring.Credit(0, ev.qty);
        }
      }
      ghost var r := ring.Recent();
      assert grown[0 := Bucket(grown[0].ts, grown[0].a, grown[0].b)] == grown;
      assert r == CreditSigned(grown, SignedVolume(d.midprice, ev));
      Recompute(r);
    }

    method Recompute(ghost r: seq<Bucket>)
      requires Valid() && r == ring.Recent() && r != []
      modifies this`net, this`prev, this`prevPrev, this`acceleration
      ensures net == WindowNet(r, cfg.window)
      ensures prev == old(net) && prevPrev == old(prev)
      ensures acceleration == net - 2 * prev + prevPrev
    {
      var newest := ring.Get(0);
      var cutoff := if newest.ts >= cfg.window then newest.ts - cfg.window else 0;
      var sum := SumSince(cutoff, r);
      prevPrev := prev;
      prev := net;
      net := sum;
      acceleration := net - 2 * prev + prevPrev;
    }

    /** Adds up the recent buckets, newest first, until one is older than the cutoff. */
    method SumSince(cutoff: nat, ghost r: seq<Bucket>) returns (sum: int)
      requires Valid() && r == ring.Recent()
      ensures sum == Net(r[..Within(r, cutoff)])
    {
      var buySum, sellSum := 0, 0;
      var i := 0;
      ghost var n := Within(r, cutoff);
      while i < ring.count
        invariant i <= n
        invariant buySum - sellSum == Net(r[..i])
      {
        var b := ring.Get(i);
        if b.ts < cutoff {
          break;
        }
        buySum := buySum + b.a;
        sellSum := sellSum + b.b;
        assert r[..i + 1][..i] == r[..i];
        i := i + 1;
      }
      assert i == n;
      sum := buySum - sellSum;
    }
  }
}
