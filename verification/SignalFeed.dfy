/** The engines of the backtest, seen from outside. */
module SignalFeed {
  import opened Types
  import opened Statistics
  import S = SignalEngine

  const DEFAULT_FLOOR: real := 1.5

  /** The second engine is meant to follow the delta factor alone: its cancel floor is out of reach. */
  const SF_FLOOR: real := 1_000_000_000.0

  function DualParams(threshold: real): S.Params { S.Params(threshold, DEFAULT_FLOOR) }

  function SfParams(threshold: real): S.Params { S.Params(threshold, SF_FLOOR) }

  /** An engine from outside: what it says to the last of the ticks it has been fed. */
  type Gun = seq<S.Tick> -> Direction

  function GunOf(sqrt: real -> real, p: S.Params): Gun
    requires IsSqrt(sqrt)
  {
    (ticks: seq<S.Tick>) => S.Emits(sqrt, p, ticks)
  }

  /** An engine that has been fed these ticks since it was built. */
  ghost predicate Fed(e: S.SignalEngine, sqrt: real -> real, p: S.Params, seen: seq<S.Tick>)
    reads e.Repr
  {
    IsSqrt(sqrt) && e.Valid() && e.sqrt == sqrt && e.params == p && e.State() == S.RunAll(sqrt, p, seen)
  }

  lemma {:induction false} FedMore(sqrt: real -> real, p: S.Params, seen: seq<S.Tick>, t: S.Tick)
    requires IsSqrt(sqrt)
    ensures var e := S.RunAll(sqrt, p, seen);
            && S.RunAll(sqrt, p, seen + [t]) == S.Step(sqrt, p, e, t)
            && S.Emits(sqrt, p, seen + [t]) == S.Outcome(sqrt, p, e, t)
  {
    assert (seen + [t])[..|seen|] == seen;
  }

  ghost predicate FromTick(sig: Signal, t: S.Tick, dir: Direction) {
    && sig.direction == dir && sig.triggerTimeNs == t.ev.timestampNs
    && sig.l1Price == if dir.Buy? then t.ask else t.bid
  }

  lemma StepSignal(sqrt: real -> real, p: S.Params, e: S.Engine, t: S.Tick)
    requires IsSqrt(sqrt) && !S.Outcome(sqrt, p, e, t).Flat?
    ensures FromTick(S.Step(sqrt, p, e, t).last, t, S.Outcome(sqrt, p, e, t))
  {
  }

  /** Feeds an engine one event; on a signal, its direction, stamp and price are in lastSignal. */
  method FeedEngine(e: S.SignalEngine, p: S.Params, ev: LOBEvent, bid: int, ask: int, ghost seen: seq<S.Tick>)
    returns (fired: bool, ghost dir: Direction)
    requires Fed(e, e.sqrt, p, seen)
    modifies e.Repr
    ensures Fed(e, e.sqrt, p, seen + [S.Tick(ev, bid, ask)])
    ensures dir == GunOf(e.sqrt, p)(seen + [S.Tick(ev, bid, ask)]) && (fired <==> dir != Flat)
    ensures fired ==> FromTick(e.lastSignal, S.Tick(ev, bid, ask), dir)
  {
    ghost var was, t := e.State(), S.Tick(ev, bid, ask);
    FedMore(e.sqrt, p, seen, t);
    fired := e.OnEvent(ev, bid, ask);
    dir := S.Emits(e.sqrt, p, seen + [t]);
    if fired {
      StepSignal(e.sqrt, p, was, t);
    }
  }
}
