/** The backtest program: the objects it drives and its main loop. */
module Backtest {
  import opened Types
  import opened Statistics
  import B = OrderBook
  import S = SignalEngine
  import opened SignalFeed
  import opened EnginePair
  import opened Evaluation
  import opened R = Replay

  /** One scored or dropped signal added to the counters. */
  function Add(c: Counters, p: PendingSignal, h: seq<PricePoint>): Counters {
    Counters(c.wins + Judge(p, h, Wins), c.losses + Judge(p, h, Losses), c.sfWins + Judge(p, h, SfWins),
             c.sfTotal + Judge(p, h, SfTotal), c.move + Judge(p, h, Move))
  }

  /** The evaluation pass stands before signal k of the list `was`. */
  ghost predicate PassAt(was: seq<PendingSignal>, k: nat, now: nat, h: seq<PricePoint>, c: Counters,
                         pending: seq<PendingSignal>, it: nat, result: Counters)
  {
    && k <= |was| && it == |StillPending(was[..k], now)|
    && pending == StillPending(was[..k], now) + was[k..]
    && result == Count(c, was[..k], now, h)
  }

  lemma CountSnoc(c: Counters, ps: seq<PendingSignal>, k: nat, now: nat, h: seq<PricePoint>)
    requires k < |ps|
    ensures Count(c, ps[..k + 1], now, h)
         == if Elapsed(now, ps[k].trigger) then Add(Count(c, ps[..k], now, h), ps[k], h)
            else Count(c, ps[..k], now, h)
  {
    assert ps[..k + 1][..k] == ps[..k];
  }

  lemma PassGoesOn(was: seq<PendingSignal>, k: nat, now: nat, h: seq<PricePoint>, c: Counters,
                   pending: seq<PendingSignal>, it: nat, result: Counters)
    requires PassAt(was, k, now, h, c, pending, it, result) && it < |pending|
    ensures k < |was| && pending[it] == was[k]
    ensures if Elapsed(now, pending[it].trigger)
            then PassAt(was, k + 1, now, h, c, pending[..it] + pending[it + 1..], it, Add(result, pending[it], h))
            else PassAt(was, k + 1, now, h, c, pending, it + 1, result)
  {
    CountSnoc(c, was, k, now, h);
    var kept := StillPending(was[..k], now);
    assert was[..k + 1] == was[..k] + [was[k]];
    StillPendingSnoc(was[..k], was[k], now);
    assert was[k..] == [was[k]] + was[k + 1..];
    assert pending[..it] + pending[it + 1..] == kept + was[k + 1..];
    assert pending == kept + [was[k]] + was[k + 1..];
  }

  /** The evaluation between its two halves: the price noted and the elapsed signals judged, the
      new signal not yet queued. */
  ghost predicate Settled(e: Eval, t: S.Tick, now: Eval) {
    && now.history == e.history + PointOf(Tick(t.ev.timestampNs, t.bid, t.ask, None))
    && now.counters == Count(e.counters, e.pending, t.ev.timestampNs, now.history)
    && now.pending == StillPending(e.pending, t.ev.timestampNs)
    && now.total == e.total && now.buys == e.buys && now.sells == e.sells
  }

  class Backtester {
    const book: B.OrderBook
    const engines: Pair
    var priceHistory: seq<PricePoint>
    var pending: seq<PendingSignal>
    var totalSignals: nat
    var buySignals: nat
    var sellSignals: nat
    var result: Counters          // its `move` is in price units
    var totalMoveTicks: real      // the same in ticks, as the report has it

    ghost predicate Valid()
      reads engines, engines.Repr
    {
      engines.Valid() && this !in engines.Repr && book !in engines.Repr
    }

    ghost predicate InTicks()
      reads this
    {
      totalMoveTicks * PRICE_SCALE as real == result.move as real
    }

    ghost function EvalState(): Eval
      reads this
    {
      Eval(priceHistory, pending, totalSignals, buySignals, sellSignals, result)
    }

    ghost function Whole(): State
      reads this, book, engines
    {
      State(book.State(), engines.seen, EvalState())
    }

    constructor (sqrt: real -> real, threshold: real)
      requires IsSqrt(sqrt)
      ensures Valid() && InTicks() && Whole() == Begin()
      ensures engines.sqrt == sqrt && engines.threshold == threshold
    {
      book := new B.OrderBook();
      engines := new Pair(sqrt, threshold);
      priceHistory, pending := [], [];
      totalSignals, buySignals, sellSignals := 0, 0, 0;
      result, totalMoveTicks := Counters(0, 0, 0, 0, 0), 0.0;
    }

    /** Judges an elapsed signal by the first point of the history not before its target. */
    method ScoreElapsed(p: PendingSignal)
      requires InTicks()
      modifies this`result, this`totalMoveTicks
      ensures InTicks() && result == Add(old(result), p, priceHistory)
    {
      var targetTs := AddU64(p.trigger, LOOK_FORWARD_NS);
      var pit := LowerBound(priceHistory, targetTs, 0, |priceHistory|);
      if pit < |priceHistory| {
        var diff := if p.shot.direction.Buy? then priceHistory[pit].ask - p.shot.entryPrice
                    else p.shot.entryPrice - priceHistory[pit].bid;
        var win := diff >= PRICE_SCALE;
        totalMoveTicks := totalMoveTicks + diff as real / PRICE_SCALE as real;
        result := result.(move := result.move + diff);
        if win {
          result := result.(wins := result.wins + 1);
        } else {
          result := result.(losses := result.losses + 1);
        }
        if p.shot.sf {
          result := result.(sfTotal := result.sfTotal + 1);
          if win {
            result := result.(sfWins := result.sfWins + 1);
          }
        }
      }
    }

    /** Goes over the pending signals, scoring and erasing the elapsed ones in place. */
    method EvaluatePending(now: nat)
      requires InTicks()
      modifies this`pending, this`result, this`totalMoveTicks
      ensures InTicks() && pending == StillPending(old(pending), now)
      ensures result == Count(old(result), old(pending), now, priceHistory)
    {
      ghost var was, k, h := pending, 0, priceHistory;
      var it := 0;
      while it < |pending|
        invariant InTicks()
        invariant PassAt(was, k, now, h, old(result), pending, it, result)
        decreases |was| - k
      {
        var p := pending[it];
        PassGoesOn(was, k, now, h, old(result), pending, it, result);
        if SubU64(now, p.trigger) >= LOOK_FORWARD_NS {
          ScoreElapsed(p);
          pending := pending[..it] + pending[it + 1..];
        } else {
          it := it + 1;
        }
        k := k + 1;
      }
      assert was[..k] == was;
    }

    /** Applies the event to the book and notes the best prices if both sides have one. */
    method UpdateBook(ev: LOBEvent) returns (bid: int, ask: int)
      modifies this`priceHistory, book
      ensures book.State() == B.Apply(old(book.State()), ev)
      ensures S.Tick(ev, bid, ask) == EngineTick(book.State(), ev)
      ensures priceHistory == old(priceHistory) + PointOf(Tick(ev.timestampNs, bid, ask, None))
    {
      var moved := book.Update(ev);
      bid, ask := B.BestBid(book.State()), B.BestAsk(book.State());
      if bid > 0 && ask > 0 {
        priceHistory := priceHistory + [PricePoint(ev.timestampNs, bid, ask)];
      }
    }

    /** The book update and the evaluation of what has elapsed. */
    method Settle(ev: LOBEvent) returns (bid: int, ask: int)
      requires InTicks()
      modifies this`priceHistory, this`pending, this`result, this`totalMoveTicks, book
      ensures InTicks()
      ensures book.State() == B.Apply(old(book.State()), ev)
      ensures S.Tick(ev, bid, ask) == EngineTick(book.State(), ev)
      ensures Settled(old(EvalState()), S.Tick(ev, bid, ask), EvalState())
    {
      bid, ask := UpdateBook(ev);
      EvaluatePending(ev.timestampNs);
    }

    /** Counts a fired signal and queues it for evaluation. */
    method QueueSignal(fired: bool, sig: Signal, sfFired: bool,
                       ghost e: Eval, ghost t: S.Tick, ghost dir: Direction, ghost sfDir: Direction)
      requires Settled(e, t, EvalState())
      requires (fired <==> dir != Flat) && (sfFired <==> sfDir != Flat)
      requires fired ==> FromTick(sig, t, dir)
      modifies this`totalSignals, this`buySignals, this`sellSignals, this`pending
      ensures EvalState() == Step(e, EvalTick(t, dir, sfDir))
    {
      if fired {
        totalSignals := totalSignals + 1;
        if sig.direction.Buy? {
          buySignals := buySignals + 1;
        }
        if sig.direction.Sell? {
          sellSignals := sellSignals + 1;
        }
        pending := pending + [PendingSignal(sig.triggerTimeNs, Shot(sig.direction, sig.l1Price, sfFired))];
      }
    }

    ghost function Dual(): Gun
      requires IsSqrt(engines.sqrt)
    {
      GunOf(engines.sqrt, DualParams(engines.threshold))
    }

    ghost function Sf(): Gun
      requires IsSqrt(engines.sqrt)
    {
      GunOf(engines.sqrt, SfParams(engines.threshold))
    }

    /** The two engines and the queueing of what the first one says. */
    method FeedEngines(ev: LOBEvent, bid: int, ask: int, ghost e: Eval)
      requires Valid() && IsSqrt(engines.sqrt)
      requires Settled(e, S.Tick(ev, bid, ask), EvalState())
      modifies this`totalSignals, this`buySignals, this`sellSignals, this`pending, engines.Repr
      ensures Valid() && engines.seen == old(engines.seen) + [S.Tick(ev, bid, ask)]
      ensures EvalState() == Step(e, EvalTick(S.Tick(ev, bid, ask), Dual()(engines.seen), Sf()(engines.seen)))
    {
      var fired, sig, sfFired, dir, sfDir := engines.Feed(ev, bid, ask);
      QueueSignal(fired, sig, sfFired, e, S.Tick(ev, bid, ask), dir, sfDir);
    }

    /** One record of the log. */
    method OnRecord(ev: LOBEvent)
      requires Valid() && InTicks() && IsSqrt(engines.sqrt)
      modifies this, book, engines.Repr
      ensures Valid() && InTicks() && Whole() == Advance(Dual(), Sf(), old(Whole()), ev)
    {
      ghost var e := EvalState();
      var bid, ask := Settle(ev);
      FeedEngines(ev, bid, ask, e);
    }

    /** The log has been replayed up to here. */
    ghost predicate Replayed(log: seq<LOBEvent>)
      requires IsSqrt(engines.sqrt)
      reads this, book, engines
    {
      After(Dual(), Sf(), log, Whole())
    }

    method NextRecord(log: seq<LOBEvent>, rec: nat)
      requires rec < |log| && Valid() && InTicks() && IsSqrt(engines.sqrt) && Replayed(log[..rec])
      modifies this, book, engines.Repr
      ensures Valid() && InTicks() && Replayed(log[..rec + 1])
    {
      AfterOneMore(Dual(), Sf(), log, rec, Whole());
      OnRecord(log[rec]);
    }

    /** The main loop over the log. */
    method ReplayLog(log: seq<LOBEvent>)
      requires Valid() && InTicks() && IsSqrt(engines.sqrt) && Whole() == Begin()
      modifies this, book, engines.Repr
      ensures Valid() && InTicks() && Replayed(log)
    {
      for rec := 0 to |log|
        invariant Valid() && InTicks() && Replayed(log[..rec])
      {
        NextRecord(log, rec);
      }
      assert log[..|log|] == log;
    }

    /** The whole backtest. */
    method Run(log: seq<LOBEvent>)
      requires Valid() && InTicks() && IsSqrt(engines.sqrt) && Whole() == Begin()
      modifies this, book, engines.Repr
      ensures Valid() && InTicks() && Replayed(log) && result.sfTotal == result.sfWins == 0
    {
      ReplayLog(log);
      NeverCountsAfter(engines.sqrt, engines.threshold, Dual(), log, Whole());
    }
  }
}
