/** The two engines of the backtest, fed side by side. */
module EnginePair {
  import opened Types
  import opened Statistics
  import S = SignalEngine
  import opened SignalFeed

  class Pair {
    const sqrt: real -> real
    const threshold: real
    const engine: S.SignalEngine
    const sfEngine: S.SignalEngine
    ghost var seen: seq<S.Tick>
    ghost const Repr: set<object>

    /** Both engines have been fed the ticks seen so far. */
    ghost predicate Valid()
      reads Repr
    {
      && this in Repr && engine.Repr <= Repr && sfEngine.Repr <= Repr
      && this !in engine.Repr && this !in sfEngine.Repr && engine.Repr !! sfEngine.Repr
      && Fed(engine, sqrt, DualParams(threshold), seen)
      && Fed(sfEngine, sqrt, SfParams(threshold), seen)
    }

    constructor (sqrt: real -> real, threshold: real)
      requires IsSqrt(sqrt)
      ensures Valid() && fresh(Repr) && seen == []
      ensures this.sqrt == sqrt && this.threshold == threshold
    {
      this.sqrt := sqrt;
      this.threshold := threshold;
      var dual := new S.SignalEngine(sqrt, DualParams(threshold));
      var single := new S.SignalEngine(sqrt, SfParams(threshold));
      engine, sfEngine, seen := dual, single, [];
      Repr := {this} + dual.Repr + single.Repr;
    }

    /** Runs both engines on one event; sig is the first one's signal, if it fired. */
    method Feed(ev: LOBEvent, bid: int, ask: int)
      returns (fired: bool, sig: Signal, sfFired: bool, ghost dir: Direction, ghost sfDir: Direction)
      requires Valid()
      modifies Repr
      ensures Valid() && seen == old(seen) + [S.Tick(ev, bid, ask)]
      ensures IsSqrt(sqrt)
      ensures dir == GunOf(sqrt, DualParams(threshold))(seen) && (fired <==> dir != Flat)
      ensures sfDir == GunOf(sqrt, SfParams(threshold))(seen) && (sfFired <==> sfDir != Flat)
      ensures fired ==> FromTick(sig, S.Tick(ev, bid, ask), dir)
    {
      fired, dir := FeedEngine(engine, DualParams(threshold), ev, bid, ask, seen);
      sig := engine.lastSignal;
      sfFired, sfDir := FeedEngine(sfEngine, SfParams(threshold), ev, bid, ask, seen);
      seen := seen + [S.Tick(ev, bid, ask)];
    }
  }
}
