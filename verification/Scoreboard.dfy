/** What the counters of the backtest count: each by itself, over the fates of the signals. */
module Scoreboard {
  import opened Types
  import opened Evaluation
  import opened SignalFeed
  import B = OrderBook
  import S = SignalEngine
  import Replay

  /** Scored with a gain of at least a tick. */
  predicate Won(f: Fate) { f.Scored? && f.gain >= 100 }

  predicate Lost(f: Fate) { f.Scored? && f.gain < 100 }

  /** Scored, and the delta-only engine fired as well. */
  predicate ScoredSf(f: Fate) { f.Scored? && f.shot.sf }

  predicate WonSf(f: Fate) { Won(f) && f.shot.sf }

  /** Which of the first m signals had a fate of this kind. */
  function Those(ticks: seq<Tick>, m: nat, kind: Fate -> bool): set<nat>
    requires m <= |ticks|
  {
    set i: nat | i < m && kind(FateOf(ticks, i))
  }

  /** The gains of the scored ones among the first m signals, added up. */
  function Gains(ticks: seq<Tick>, m: nat): int
    requires m <= |ticks|
  {
    if m == 0 then 0
    else
      var f := FateOf(ticks, m - 1);
      Gains(ticks, m - 1) + if f.Scored? then f.gain else 0
  }

  lemma ThoseGrow(ticks: seq<Tick>, m: nat, kind: Fate -> bool)
    requires m < |ticks|
    ensures |Those(ticks, m + 1, kind)| == |Those(ticks, m, kind)| + if kind(FateOf(ticks, m)) then 1 else 0
  {
    assert Those(ticks, m + 1, kind) == Those(ticks, m, kind) + if kind(FateOf(ticks, m)) then {m} else {};
  }

  /** A counter that adds one for each signal of this kind. */
  lemma {:induction false} TotalIsSize(ticks: seq<Tick>, m: nat, c: Counter, kind: Fate -> bool)
    requires m <= |ticks| && forall f :: Points(f, c) == if kind(f) then 1 else 0
    ensures TotalOf(ticks, m, c) == |Those(ticks, m, kind)|
  {
    if m > 0 {
      TotalIsSize(ticks, m - 1, c, kind);
      TotalGrows(ticks, m - 1, c);
      ThoseGrow(ticks, m - 1, kind);
    }
  }

  lemma {:induction false} MoveIsGains(ticks: seq<Tick>, m: nat)
    requires m <= |ticks|
    ensures TotalOf(ticks, m, Move) == Gains(ticks, m)
  {
    if m > 0 {
      MoveIsGains(ticks, m - 1);
      TotalGrows(ticks, m - 1, Move);
    }
  }

  lemma KindsOfPoints(f: Fate)
    ensures Points(f, Wins) == (if Won(f) then 1 else 0) && Points(f, Losses) == (if Lost(f) then 1 else 0)
    ensures Points(f, SfWins) == (if WonSf(f) then 1 else 0) && Points(f, SfTotal) == (if ScoredSf(f) then 1 else 0)
  {
  }

  /** The five counters, each by itself. */
  ghost predicate Counts(ticks: seq<Tick>, s: Counters) {
    var n := |ticks|;
    && s.wins == |Those(ticks, n, Won)| && s.losses == |Those(ticks, n, Lost)|
    && s.sfWins == |Those(ticks, n, WonSf)| && s.sfTotal == |Those(ticks, n, ScoredSf)|
    && s.move == Gains(ticks, n)
  }

  lemma {:induction false} AllKindsCount(ticks: seq<Tick>)
    ensures TotalOf(ticks, |ticks|, Wins) == |Those(ticks, |ticks|, Won)|
    ensures TotalOf(ticks, |ticks|, Losses) == |Those(ticks, |ticks|, Lost)|
    ensures TotalOf(ticks, |ticks|, SfWins) == |Those(ticks, |ticks|, WonSf)|
    ensures TotalOf(ticks, |ticks|, SfTotal) == |Those(ticks, |ticks|, ScoredSf)|
  {
    forall f: Fate
      ensures Points(f, Wins) == (if Won(f) then 1 else 0) && Points(f, Losses) == (if Lost(f) then 1 else 0)
      ensures Points(f, SfWins) == (if WonSf(f) then 1 else 0) && Points(f, SfTotal) == (if ScoredSf(f) then 1 else 0)
    {
      KindsOfPoints(f);
    }
    TotalIsSize(ticks, |ticks|, Wins, Won);
    TotalIsSize(ticks, |ticks|, Losses, Lost);
    TotalIsSize(ticks, |ticks|, SfWins, WonSf);
    TotalIsSize(ticks, |ticks|, SfTotal, ScoredSf);
  }

  /** On every run, with any clock: wins are the signals scored with a gain of at least a tick, losses those
      scored with less, the single-factor counters the same among the signals on which that engine fired, and
      the move is the sum of all gains. */
  lemma {:induction false} CountersCount(ticks: seq<Tick>)
    ensures Counts(ticks, RunAll(ticks).counters)
  {
    var s := RunAll(ticks).counters;
    CountersAreTotals(ticks, s);
    AllKindsCount(ticks);
    MoveIsGains(ticks, |ticks|);
  }

  // ---- The signals themselves ----

  predicate Gives(t: Tick, dir: Direction) {
    t.shot.Some? && t.shot.value.direction == dir
  }

  /** Which events gave a signal in this direction. */
  function Fired(ticks: seq<Tick>, dir: Direction): set<nat> {
    set i: nat | i < |ticks| && Gives(ticks[i], dir)
  }

  lemma {:induction false} FiredSnoc(ticks: seq<Tick>, t: Tick, dir: Direction)
    ensures |Fired(ticks + [t], dir)| == |Fired(ticks, dir)| + if Gives(t, dir) then 1 else 0
  {
    var n, all := |ticks|, ticks + [t];
    forall i: nat
      ensures i in Fired(all, dir) <==> i in Fired(ticks, dir) || (i == n && Gives(t, dir))
    {
      assert i < n ==> all[i] == ticks[i];
    }
    assert Fired(all, dir) == Fired(ticks, dir) + if Gives(t, dir) then {n} else {};
  }

  /** On every run the buys counted are the events that gave a buy, the sells those that gave a sell. */
  lemma {:induction false} BuysAndSells(ticks: seq<Tick>)
    ensures RunAll(ticks).buys == |Fired(ticks, Buy)|
    ensures RunAll(ticks).sells == |Fired(ticks, Sell)|
  {
    if ticks != [] {
      var front, t := ticks[..|ticks| - 1], ticks[|ticks| - 1];
      assert ticks == front + [t];
      BuysAndSells(front);
      RunSteps(ticks);
      FiredSnoc(front, t, Buy);
      FiredSnoc(front, t, Sell);
    }
  }

  // ---- The same on a clock that does not run backwards, in stamps and prices ----

  /** Event j is the first five seconds or more after event i. */
  ghost predicate FirstPast(ticks: seq<Tick>, i: nat, j: nat) {
    && i < j < |ticks| && ticks[j].ts >= ticks[i].ts + 5_000_000_000
    && forall k :: i < k < j ==> ticks[k].ts < ticks[i].ts + 5_000_000_000
  }

  /** The signal of event i gains g: from the price it named up to the best ask of the resolving event if it
      was a buy, or down to its best bid if it was a sell; an event without both best prices gives no gain. */
  ghost predicate GainsAt(ticks: seq<Tick>, i: nat, j: nat, g: int) {
    && FirstPast(ticks, i, j) && ticks[i].shot.Some? && ticks[j].bid > 0 && ticks[j].ask > 0
    && var shot := ticks[i].shot.value;
       g == if shot.direction.Buy? then ticks[j].ask - shot.entryPrice else shot.entryPrice - ticks[j].bid
  }

  lemma ElapsedOnSteady(now: nat, trigger: nat)
    requires trigger <= now < TWO_64
    ensures Elapsed(now, trigger) <==> now >= trigger + 5_000_000_000
  {
  }

  lemma {:induction false} ResolvedIffFirstPast(ticks: seq<Tick>, i: nat, j: nat)
    requires Steady(ticks) && i < |ticks|
    ensures ResolvedAt(ticks, i) == Some(j) <==> FirstPast(ticks, i, j)
  {
    forall k | i < k < |ticks|
      ensures Elapsed(ticks[k].ts, ticks[i].ts) <==> ticks[k].ts >= ticks[i].ts + 5_000_000_000
    {
      assert ticks[i].ts <= ticks[k].ts;
      ElapsedOnSteady(ticks[k].ts, ticks[i].ts);
    }
    ResolvedIsFirst(ticks, i);
  }

  /** On a steady clock a signal is scored with gain g if and only if the first event past its horizon, by
      its stamps and best prices, gives that gain. */
  lemma {:induction false} ScoredIff(ticks: seq<Tick>, i: nat, g: int)
    requires Steady(ticks) && i < |ticks|
    ensures FateOf(ticks, i).Scored? && FateOf(ticks, i).gain == g <==> exists j: nat :: GainsAt(ticks, i, j, g)
  {
    FateIsSimple(ticks, i);
    forall j: nat
      ensures ResolvedAt(ticks, i) == Some(j) <==> FirstPast(ticks, i, j)
    {
      ResolvedIffFirstPast(ticks, i, j);
    }
    if FateOf(ticks, i).Scored? && FateOf(ticks, i).gain == g {
      assert GainsAt(ticks, i, ResolvedAt(ticks, i).value, g);
    }
  }

  // ---- The backtest of a log ----

  /** What the evaluation gets from record i: its stamp, the best prices of the book after it, and, if the
      first engine fires, its direction with the price of the side hit and whether the second fired too. */
  ghost predicate FromRecord(dual: Gun, sf: Gun, evs: seq<LOBEvent>, i: nat, seen: seq<S.Tick>, t: Tick)
    requires i < |evs|
  {
    var book := B.ApplyAll(B.EMPTY_BOOK, evs[..i + 1]);
    && t.ts == evs[i].timestampNs && t.bid == B.BestBid(book) && t.ask == B.BestAsk(book)
    && (t.shot.None? <==> dual(seen) == Flat)
    && (t.shot.Some? ==> && t.shot.value.direction == dual(seen) && (t.shot.value.sf <==> sf(seen) != Flat)
                         && t.shot.value.entryPrice == if dual(seen) == Buy then t.ask else t.bid)
  }

  lemma {:induction false} TickFromRecord(dual: Gun, sf: Gun, evs: seq<LOBEvent>, i: nat)
    requires i < |evs|
    ensures FromRecord(dual, sf, evs, i, Replay.Seen(evs[..i + 1]), Replay.EvalTicks(dual, sf, evs)[i])
  {
    Replay.ShotAt(dual, sf, evs, i);
    assert evs[..i + 1][|evs[..i + 1]| - 1] == evs[i];
  }

  /** On every log and with any engines the report counts the fates of the signals its records gave. */
  lemma {:induction false} BacktestCounts(dual: Gun, sf: Gun, evs: seq<LOBEvent>)
    ensures var ticks := Replay.EvalTicks(dual, sf, evs);
            && Counts(ticks, Replay.Replay(dual, sf, evs).eval.counters)
            && forall i :: 0 <= i < |evs| ==> FromRecord(dual, sf, evs, i, Replay.Seen(evs[..i + 1]), ticks[i])
  {
    Replay.ReplayEvaluates(dual, sf, evs);
    CountersCount(Replay.EvalTicks(dual, sf, evs));
    forall i | 0 <= i < |evs|
      ensures FromRecord(dual, sf, evs, i, Replay.Seen(evs[..i + 1]), Replay.EvalTicks(dual, sf, evs)[i])
    {
      TickFromRecord(dual, sf, evs, i);
    }
  }
}
