/** The backtest on values: one pass over a log of events through the book, two signal engines
    and the forward evaluation. */
module Replay {
  import opened Types
  import opened Statistics
  import B = OrderBook
  import S = SignalEngine
  import opened SignalFeed
  import opened Evaluation

  datatype State = State(book: B.Book, seen: seq<S.Tick>, eval: Eval)

  function Begin(): State {
    State(B.EMPTY_BOOK, [], Evaluation.Start())
  }

  // ---- One record ----

  function EngineTick(book: B.Book, ev: LOBEvent): S.Tick {
    S.Tick(ev, B.BestBid(book), B.BestAsk(book))
  }

  function ShotOf(dir: Direction, sfDir: Direction, t: S.Tick): Option<Shot> {
    if dir.Flat? then None else Some(Shot(dir, if dir.Buy? then t.ask else t.bid, !sfDir.Flat?))
  }

  function EvalTick(t: S.Tick, dir: Direction, sfDir: Direction): Tick {
    Tick(t.ev.timestampNs, t.bid, t.ask, ShotOf(dir, sfDir, t))
  }

  function Advance(dual: Gun, sf: Gun, s: State, ev: LOBEvent): State {
    var book := B.Apply(s.book, ev);
    var t := EngineTick(book, ev);
    var seen := s.seen + [t];
    State(book, seen, Step(s.eval, EvalTick(t, dual(seen), sf(seen))))
  }

  function Replay(dual: Gun, sf: Gun, evs: seq<LOBEvent>): State {
    if evs == [] then Begin()
    else Advance(dual, sf, Replay(dual, sf, evs[..|evs| - 1]), evs[|evs| - 1])
  }

  // ---- The replay as a run of the book and of the evaluation ----

  /** What the engines see: each event with the best prices of the book just after it. */
  function Seen(evs: seq<LOBEvent>): (ts: seq<S.Tick>)
    ensures |ts| == |evs|
  {
    if evs == [] then []
    else Seen(evs[..|evs| - 1]) + [EngineTick(B.ApplyAll(B.EMPTY_BOOK, evs), evs[|evs| - 1])]
  }

  /** What the evaluation sees. */
  function EvalTicks(dual: Gun, sf: Gun, evs: seq<LOBEvent>): (ts: seq<Tick>)
    ensures |ts| == |evs|
  {
    if evs == [] then []
    else
      var n := |evs| - 1;
      EvalTicks(dual, sf, evs[..n]) + [EvalTick(Seen(evs)[n], dual(Seen(evs)), sf(Seen(evs)))]
  }

  lemma {:induction false} ReplayGrows(dual: Gun, sf: Gun, evs: seq<LOBEvent>)
    requires evs != []
    ensures var n := |evs| - 1; Replay(dual, sf, evs) == Advance(dual, sf, Replay(dual, sf, evs[..n]), evs[n])
  {
  }

  /** The state after a log. */
  ghost predicate After(dual: Gun, sf: Gun, evs: seq<LOBEvent>, s: State) {
    s == Replay(dual, sf, evs)
  }

  lemma AfterOneMore(dual: Gun, sf: Gun, log: seq<LOBEvent>, n: nat, s: State)
    requires n < |log| && After(dual, sf, log[..n], s)
    ensures After(dual, sf, log[..n + 1], Advance(dual, sf, s, log[n]))
  {
    assert log[..n + 1][..n] == log[..n];
    ReplayGrows(dual, sf, log[..n + 1]);
  }

  lemma {:induction false} EvalTicksGrow(dual: Gun, sf: Gun, evs: seq<LOBEvent>)
    requires evs != []
    ensures var n, ticks := |evs| - 1, EvalTicks(dual, sf, evs);
            && ticks[..n] == EvalTicks(dual, sf, evs[..n])
            && ticks[n] == EvalTick(Seen(evs)[n], dual(Seen(evs)), sf(Seen(evs)))
  {
  }

  lemma {:induction false} ReplaySees(dual: Gun, sf: Gun, evs: seq<LOBEvent>)
    ensures Replay(dual, sf, evs).book == B.ApplyAll(B.EMPTY_BOOK, evs)
    ensures Replay(dual, sf, evs).seen == Seen(evs)
  {
    if evs != [] {
      ReplaySees(dual, sf, evs[..|evs| - 1]);
      ReplayGrows(dual, sf, evs);
    }
  }

  lemma {:induction false} ReplayEvaluates(dual: Gun, sf: Gun, evs: seq<LOBEvent>)
    ensures Replay(dual, sf, evs).eval == RunAll(EvalTicks(dual, sf, evs))
  {
    if evs != [] {
      var n := |evs| - 1;
      ReplayEvaluates(dual, sf, evs[..n]);
      ReplaySees(dual, sf, evs[..n]);
      ReplaySees(dual, sf, evs);
      ReplayGrows(dual, sf, evs);
      EvalTicksGrow(dual, sf, evs);
      RunSteps(EvalTicks(dual, sf, evs));
    }
  }

  // ---- Main results ----

  ghost predicate Silent(sf: Gun) {
    forall ticks: seq<S.Tick> :: sf(ticks) == Flat
  }

  lemma {:induction false} SfEngineIsSilent(sqrt: real -> real, threshold: real)
    requires IsSqrt(sqrt)
    ensures Silent(GunOf(sqrt, SfParams(threshold)))
  {
    forall ticks: seq<S.Tick>
      ensures S.Emits(sqrt, SfParams(threshold), ticks) == Flat
    {
      S.HighFloorNeverFires(sqrt, SfParams(threshold), ticks);
    }
  }

  lemma {:induction false} ShotAt(dual: Gun, sf: Gun, evs: seq<LOBEvent>, i: nat)
    requires i < |evs|
    ensures EvalTicks(dual, sf, evs)[i]
         == EvalTick(Seen(evs[..i + 1])[i], dual(Seen(evs[..i + 1])), sf(Seen(evs[..i + 1])))
  {
    var n := |evs| - 1;
    if i < n {
      ShotAt(dual, sf, evs[..n], i);
      assert evs[..n][..i + 1] == evs[..i + 1];
    } else {
      assert evs[..i + 1] == evs;
    }
  }

  lemma {:induction false} ShotsAreDirected(dual: Gun, sf: Gun, evs: seq<LOBEvent>)
    ensures Directed(EvalTicks(dual, sf, evs))
    ensures Silent(sf) ==>
              forall i :: 0 <= i < |evs| && EvalTicks(dual, sf, evs)[i].shot.Some? ==>
                !EvalTicks(dual, sf, evs)[i].shot.value.sf
  {
    forall i | 0 <= i < |evs|
      ensures EvalTicks(dual, sf, evs)[i].shot.Some? ==> !EvalTicks(dual, sf, evs)[i].shot.value.direction.Flat?
      ensures Silent(sf) && EvalTicks(dual, sf, evs)[i].shot.Some? ==> !EvalTicks(dual, sf, evs)[i].shot.value.sf
    {
      ShotAt(dual, sf, evs, i);
    }
  }

  /** The single-factor comparison of the backtest is empty on every log and with any dual engine:
      its own engine never fires, because a z-score never exceeds 10, so both counters stay 0. */
  lemma {:induction false} SingleFactorNeverCounts(sqrt: real -> real, threshold: real, dual: Gun, evs: seq<LOBEvent>)
    requires IsSqrt(sqrt)
    ensures var c := Replay(dual, GunOf(sqrt, SfParams(threshold)), evs).eval.counters;
            c.sfTotal == 0 && c.sfWins == 0
  {
    var sf := GunOf(sqrt, SfParams(threshold));
    var ticks := EvalTicks(dual, sf, evs);
    SfEngineIsSilent(sqrt, threshold);
    ReplayEvaluates(dual, sf, evs);
    ShotsAreDirected(dual, sf, evs);
    SfNeedsShot(ticks, |ticks|);
    CountersAreTotals(ticks, RunAll(ticks).counters);
  }

  lemma NeverCountsAfter(sqrt: real -> real, threshold: real, dual: Gun, evs: seq<LOBEvent>, s: State)
    requires IsSqrt(sqrt) && After(dual, GunOf(sqrt, SfParams(threshold)), evs, s)
    ensures s.eval.counters.sfTotal == s.eval.counters.sfWins == 0
  {
    SingleFactorNeverCounts(sqrt, threshold, dual, evs);
  }

  /** On every log and with any engines, each emitted signal is won, lost, dropped or pending at
      the end, and nothing is counted twice. */
  lemma {:induction false} BacktestConserves(dual: Gun, sf: Gun, evs: seq<LOBEvent>)
    ensures var e := Replay(dual, sf, evs).eval;
            && e.total == e.buys + e.sells
            && e.total == e.counters.wins + e.counters.losses
                          + CountDropped(EvalTicks(dual, sf, evs), |evs|) + |e.pending|
            && 0 <= e.counters.sfWins <= e.counters.sfTotal <= e.counters.wins + e.counters.losses
  {
    ReplayEvaluates(dual, sf, evs);
    ShotsAreDirected(dual, sf, evs);
    SignalsConserved(EvalTicks(dual, sf, evs));
  }
}
