/** The dual-factor signal engine: imbalance acceleration and a cancel z-score above an adaptive
    threshold together make a signal. */
module SignalEngine {
  import opened Types
  import opened Statistics
  import D = DeltaFactor
  import C = CancelFactor

  const DELTA_WINDOW_NS: nat := 100_000_000
  const DELTA_BUCKET_NS: nat := 10_000_000

  function DeltaConfig(): D.Config {
    D.Config(DELTA_WINDOW_NS, DELTA_BUCKET_NS, D.NumBuckets(DELTA_WINDOW_NS, DELTA_BUCKET_NS))
  }

  const NO_SIGNAL := Signal(0, 0, 0, 0.0, Flat)

  /** The thresholds the engine is built with; `floor` is the least cancel z-score it takes. */
  datatype Params = Params(thresholdDelta: real, floor: real)

  datatype Engine = Engine(delta: D.Delta, cancel: C.Cancel, last: Signal)

  const START := Engine(D.START, C.START, NO_SIGNAL)

  /** An event and the best prices of the book at that moment, whatever book that is. */
  datatype Tick = Tick(ev: LOBEvent, bid: int, ask: int)

  function Midprice(bid: int, ask: int): Option<int> {
    if bid > 0 && ask > 0 then Some((bid + ask) / 2) else None
  }

  function Larger(a: real, b: real): real { if a < b then b else a }

  function CancelThreshold(p: Params, c: C.Cancel): real {
    Larger(p.floor, C.Threshold(c.samples))
  }

  function Decide(p: Params, d: D.Delta, c: C.Cancel): Direction {
    var accel, threshold := d.acceleration as real, CancelThreshold(p, c);
    if accel > p.thresholdDelta && c.zAsk > threshold then Buy
    else if accel < -p.thresholdDelta && c.zBid > threshold then Sell
    else Flat
  }

  function MakeSignal(t: Tick, d: D.Delta, c: C.Cancel, dir: Direction): Signal {
    Signal(t.ev.timestampNs, if dir.Buy? then t.ask else t.bid, d.acceleration,
           if dir.Buy? then c.zAsk else c.zBid, dir)
  }

  function DeltaInput(t: Tick): D.Input {
    D.Input(Midprice(t.bid, t.ask), t.ev)
  }

  function DeltaStep(d: D.Delta, t: Tick): D.Delta {
    D.Step(DeltaConfig(), D.WithMid(d, Midprice(t.bid, t.ask)), t.ev)
  }

  /** The re-evaluation after both factors have taken the event. */
  function Conclude(p: Params, e: Engine, t: Tick): Engine {
    var dir := Decide(p, e.delta, e.cancel);
    if dir.Flat? then e else e.(last := MakeSignal(t, e.delta, e.cancel, dir))
  }

  function Feed(sqrt: real -> real, e: Engine, t: Tick): Engine
    requires IsSqrt(sqrt)
  {
    Engine(DeltaStep(e.delta, t), C.Step(sqrt, e.cancel, t.ev), e.last)
  }

  function Step(sqrt: real -> real, p: Params, e: Engine, t: Tick): Engine
    requires IsSqrt(sqrt)
  {
    Conclude(p, Feed(sqrt, e, t), t)
  }

  /** The direction of the signal that the last tick gives rise to, if any. */
  function Outcome(sqrt: real -> real, p: Params, e: Engine, t: Tick): Direction
    requires IsSqrt(sqrt)
  {
    Decide(p, Feed(sqrt, e, t).delta, Feed(sqrt, e, t).cancel)
  }

  function RunAll(sqrt: real -> real, p: Params, ticks: seq<Tick>): Engine
    requires IsSqrt(sqrt)
  {
    if ticks == [] then START
    else Step(sqrt, p, RunAll(sqrt, p, ticks[..|ticks| - 1]), ticks[|ticks| - 1])
  }

  /** What an engine fed these ticks from the start says to the last of them. */
  function Emits(sqrt: real -> real, p: Params, ticks: seq<Tick>): Direction
    requires IsSqrt(sqrt)
  {
    if ticks == [] then Flat
    else Outcome(sqrt, p, RunAll(sqrt, p, ticks[..|ticks| - 1]), ticks[|ticks| - 1])
  }

  ghost predicate Fires(sqrt: real -> real, p: Params, ticks: seq<Tick>)
    requires IsSqrt(sqrt)
  {
    !Emits(sqrt, p, ticks).Flat?
  }

  // ---- The engine runs its two factors ----

  function Events(ticks: seq<Tick>): (evs: seq<LOBEvent>)
    ensures |evs| == |ticks|
  {
    seq(|ticks|, i requires 0 <= i < |ticks| => ticks[i].ev)
  }

  function DeltaInputs(ticks: seq<Tick>): (inputs: seq<D.Input>)
    ensures |inputs| == |ticks|
  {
    seq(|ticks|, i requires 0 <= i < |ticks| => DeltaInput(ticks[i]))
  }

  lemma {:induction false} CancelSteps(sqrt: real -> real, p: Params, ticks: seq<Tick>)
    requires IsSqrt(sqrt) && ticks != []
    ensures var n := |ticks| - 1;
            RunAll(sqrt, p, ticks).cancel == C.Step(sqrt, RunAll(sqrt, p, ticks[..n]).cancel, ticks[n].ev)
  {
  }

  lemma EventsGrow(ticks: seq<Tick>)
    requires ticks != []
    ensures var n := |ticks| - 1; Events(ticks)[..n] == Events(ticks[..n]) && Events(ticks)[n] == ticks[n].ev
  {
  }

  lemma {:induction false} RunsCancel(sqrt: real -> real, p: Params, ticks: seq<Tick>)
    requires IsSqrt(sqrt)
    ensures RunAll(sqrt, p, ticks).cancel == C.RunAll(sqrt, Events(ticks)).c
  {
    if ticks == [] {
      assert Events(ticks) == [];
    } else {
      RunsCancel(sqrt, p, ticks[..|ticks| - 1]);
      CancelSteps(sqrt, p, ticks);
      EventsGrow(ticks);
      C.RunAdvances(sqrt, Events(ticks));
    }
  }

  lemma {:induction false} RunsDelta(sqrt: real -> real, p: Params, ticks: seq<Tick>)
    requires IsSqrt(sqrt)
    ensures RunAll(sqrt, p, ticks).delta == D.RunAll(DeltaConfig(), DeltaInputs(ticks)).d
  {
    if ticks != [] {
      var n := |ticks| - 1;
      RunsDelta(sqrt, p, ticks[..n]);
      assert DeltaInputs(ticks)[..n] == DeltaInputs(ticks[..n]);
    }
  }

  /** The last tick with two best prices. */
  function LastTwoSided(ticks: seq<Tick>): Option<Tick> {
    if ticks == [] then None
    else
      var t := ticks[|ticks| - 1];
      if t.bid > 0 && t.ask > 0 then Some(t) else LastTwoSided(ticks[..|ticks| - 1])
  }

  /** The price trades are classified by lies halfway between the two best prices last seen together,
      half a unit rounded down, and is 0 before there were any. */
  lemma {:induction false} MidIsHalfway(sqrt: real -> real, p: Params, ticks: seq<Tick>)
    requires IsSqrt(sqrt)
    ensures var m := RunAll(sqrt, p, ticks).delta.midprice;
            match LastTwoSided(ticks)
            case None => m == 0
            case Some(t) => (m - t.bid == t.ask - m || m - t.bid + 1 == t.ask - m)
  {
    if ticks != [] {
      MidIsHalfway(sqrt, p, ticks[..|ticks| - 1]);
    }
  }

  // ---- What a signal means ----

  /** A floor of 10 or more silences the engine: whatever the events, the book and the delta
      threshold, no signal is ever emitted. */
  lemma {:induction false} HighFloorNeverFires(sqrt: real -> real, p: Params, ticks: seq<Tick>)
    requires IsSqrt(sqrt) && p.floor >= 10.0
    ensures !Fires(sqrt, p, ticks)
  {
    if ticks != [] {
      RunsCancel(sqrt, p, ticks);
      C.ZScoresWithinTen(sqrt, Events(ticks));
    }
  }

  lemma OneSampleIsItsOwnThreshold(samples: seq<C.Sample>)
    requires |samples| == 1
    ensures C.Threshold(samples) == C.Larger(samples[0])
  {
    var m := C.Maxima(samples);
    assert Sort(m) == Insert(m[0], Sort(m[1..]));
  }

  lemma DecideNeedsBoth(p: Params, d: D.Delta, c: C.Cancel)
    requires !Decide(p, d, c).Flat?
    ensures Larger(c.zBid, c.zAsk) > C.Threshold(c.samples) && Larger(c.zBid, c.zAsk) > p.floor
  {
  }

  lemma {:induction false} FiresOnLast(sqrt: real -> real, p: Params, ticks: seq<Tick>)
    requires IsSqrt(sqrt) && Fires(sqrt, p, ticks)
    ensures var e := RunAll(sqrt, p, ticks); !Decide(p, e.delta, e.cancel).Flat?
  {
  }

  /** The newest sample stands out among the recent ones. */
  ghost predicate NewestIsRare(samples: seq<C.Sample>) {
    && |samples| >= 2
    && C.Larger(samples[|samples| - 1]) > C.Threshold(samples)
    && CountAbove(C.Maxima(samples), C.Threshold(samples)) <= (|samples| + 18) / 20
  }

  lemma RareIfCurrentExceeds(c: C.Cancel)
    requires C.NewestIsCurrent(c) && Larger(c.zBid, c.zAsk) > C.Threshold(c.samples)
    ensures NewestIsRare(c.samples)
  {
    C.FewExceedThreshold(c.samples);
    if |c.samples| == 1 { OneSampleIsItsOwnThreshold(c.samples); }
  }

  /** When a signal fires, the sample recorded for this very event exceeds the adaptive
      threshold, and at most one in twenty of the other recent samples does: the threshold is
      never the fallback. */
  lemma {:induction false} SignalIsRare(sqrt: real -> real, p: Params, ticks: seq<Tick>)
    requires IsSqrt(sqrt) && Fires(sqrt, p, ticks)
    ensures NewestIsRare(RunAll(sqrt, p, ticks).cancel.samples)
  {
    var e := RunAll(sqrt, p, ticks);
    assert Larger(e.cancel.zBid, e.cancel.zAsk) > C.Threshold(e.cancel.samples) by {
      FiresOnLast(sqrt, p, ticks);
      DecideNeedsBoth(p, e.delta, e.cancel);
    }
    assert C.NewestIsCurrent(e.cancel) by {
      RunsCancel(sqrt, p, ticks);
      C.RunNewestIsCurrent(sqrt, Events(ticks));
    }
    RareIfCurrentExceeds(e.cancel);
  }

  /** An engine buys if and only if the acceleration is over its threshold and the ask score over
      both the floor and the adaptive threshold; it sells on the mirror image, unless it buys, and the
      signal it leaves names the event, the values that triggered and the best price of the side hit. */
  lemma {:induction false} SignalIsGenuine(sqrt: real -> real, p: Params, ticks: seq<Tick>)
    requires IsSqrt(sqrt) && ticks != []
    ensures var e, t := RunAll(sqrt, p, ticks), ticks[|ticks| - 1];
            var floor := C.Threshold(e.cancel.samples);
            && (Emits(sqrt, p, ticks) == Buy <==>
                  e.delta.acceleration as real > p.thresholdDelta && e.cancel.zAsk > p.floor && e.cancel.zAsk > floor)
            && (Emits(sqrt, p, ticks) == Sell <==>
                  Emits(sqrt, p, ticks) != Buy && e.delta.acceleration as real < -p.thresholdDelta
                  && e.cancel.zBid > p.floor && e.cancel.zBid > floor)
            && (Emits(sqrt, p, ticks) == Buy ==>
                  e.last == Signal(t.ev.timestampNs, t.ask, e.delta.acceleration, e.cancel.zAsk, Buy))
            && (Emits(sqrt, p, ticks) == Sell ==>
                  e.last == Signal(t.ev.timestampNs, t.bid, e.delta.acceleration, e.cancel.zBid, Sell))
  {
  }

  // ---- The engine object ----

  class SignalEngine {
    const sqrt: real -> real
    const params: Params
    const delta: D.DeltaFactor
    const cancel: C.CancelFactor
    var lastSignal: Signal
    ghost const Repr: set<object>

    ghost predicate Valid()
      reads Repr
    {
      && {this, delta, delta.ring, delta.ring.buckets, cancel, cancel.ring, cancel.ring.buckets} <= Repr
      && IsSqrt(sqrt) && delta.Valid() && cancel.Valid() && cancel.sqrt == sqrt
      && delta.cfg == DeltaConfig()
      && delta.ring != cancel.ring && delta.ring.buckets != cancel.ring.buckets
    }

    ghost function State(): Engine
      requires Valid()
      reads Repr
    {
      Engine(delta.State(), cancel.State(), lastSignal)
    }

    constructor (sqrt: real -> real, params: Params)
      requires IsSqrt(sqrt)
      ensures Valid() && fresh(Repr) && State() == START && this.params == params && this.sqrt == sqrt
    {
      this.sqrt := sqrt;
      this.params := params;
      var d := new D.DeltaFactor(DELTA_WINDOW_NS, DELTA_BUCKET_NS);
      var c := new C.CancelFactor(sqrt);
      delta, cancel := d, c;
      lastSignal := NO_SIGNAL;
      Repr := {this, d, d.ring, d.ring.buckets, c, c.ring, c.ring.buckets};
    }

    /** Feeds one event to both factors and re-evaluates; says whether a signal came out. */
    method OnEvent(ev: LOBEvent, bid: int, ask: int) returns (fired: bool)
      requires Valid()
      modifies Repr
      ensures Valid()
      ensures State() == Step(sqrt, params, old(State()), Tick(ev, bid, ask))
      ensures fired <==> !Outcome(sqrt, params, old(State()), Tick(ev, bid, ask)).Flat?
    {
      FeedFactors(ev, bid, ask);
      fired := Evaluate(ev, bid, ask);
    }

    method FeedFactors(ev: LOBEvent, bid: int, ask: int)
      requires Valid()
      modifies delta, delta.ring, delta.ring.buckets, cancel, cancel.ring, cancel.ring.buckets
      ensures Valid()
      ensures State() == Feed(sqrt, old(State()), Tick(ev, bid, ask))
    {
      ghost var d, c := delta.State(), cancel.State();
      if bid > 0 && ask > 0 {
        delta.SetMidprice((bid + ask) / 2);
      }
      assert delta.State() == D.WithMid(d, Midprice(bid, ask));
      delta.OnEvent(ev);
      assert delta.State() == DeltaStep(d, Tick(ev, bid, ask));
      assert cancel.State() == c;
      cancel.OnEvent(ev);
      assert delta.State() == DeltaStep(d, Tick(ev, bid, ask));
    }

    method Evaluate(ev: LOBEvent, bid: int, ask: int) returns (fired: bool)
      requires Valid()
      modifies this`lastSignal
      ensures Valid() && State() == Conclude(params, old(State()), Tick(ev, bid, ask))
      ensures fired <==> !Decide(params, State().delta, State().cancel).Flat?
    {
      var adaptive := cancel.DynamicThreshold();
      var threshold := Larger(params.floor, adaptive);
      var accel := delta.acceleration as real;
      var dir := Flat;
      if accel > params.thresholdDelta && cancel.zAsk > threshold {
        dir := Buy;
      } else if accel < -params.thresholdDelta && cancel.zBid > threshold {
        dir := Sell;
      }
      if dir.Flat? {
        return false;
      }
      lastSignal := Signal(ev.timestampNs, if dir.Buy? then ask else bid, delta.acceleration,
                           if dir.Buy? then cancel.zAsk else cancel.zBid, dir);
      return true;
    }

    /** Forgets everything but the last midprice. */
    method Reset()
      requires Valid()
      modifies Repr
      ensures Valid()
      ensures State() == START.(delta := D.START.(midprice := old(delta.midprice)))
    {
      delta.Reset();
      cancel.Reset();
      lastSignal := NO_SIGNAL;
    }
  }
}
