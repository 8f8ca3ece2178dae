/** The forward evaluation of signals in the backtest: a list of pending signals, a price history
    searched by bisection, and the counters; against what each signal should have been worth. */
module Evaluation {
  import opened Types

  const LOOK_FORWARD_NS: nat := 5_000_000_000

  /** What one replayed event brings: its stamp, the best prices after it, the signal if any. */
  datatype Shot = Shot(direction: Direction, entryPrice: int, sf: bool)

  datatype Tick = Tick(ts: nat, bid: int, ask: int, shot: Option<Shot>)

  datatype PricePoint = PricePoint(ts: nat, bid: int, ask: int)

  datatype PendingSignal = PendingSignal(trigger: nat, shot: Shot)

  /** What the report counts; `Move` adds up price moves, in units of a hundredth of a tick. */
  datatype Counter = Wins | Losses | SfWins | SfTotal | Move

  datatype Eval = Eval(
    history: seq<PricePoint>,
    pending: seq<PendingSignal>,
    total: nat,
    buys: nat,
    sells: nat,
    counters: Counters)

  datatype Counters = Counters(wins: int, losses: int, sfWins: int, sfTotal: int, move: int)

  function Get(s: Counters, c: Counter): int {
    match c
    case Wins => s.wins
    case Losses => s.losses
    case SfWins => s.sfWins
    case SfTotal => s.sfTotal
    case Move => s.move
  }

  function Start(): Eval {
    Eval([], [], 0, 0, 0, Counters(0, 0, 0, 0, 0))
  }

  // ---- One event ----

  /** The horizon test, on unsigned 64-bit stamps. */
  predicate Elapsed(now: nat, trigger: nat) {
    SubU64(now, trigger) >= LOOK_FORWARD_NS
  }

  /** Bisection for the first point not before the target, among `count` points from `first`. */
  function LowerBound(h: seq<PricePoint>, target: nat, first: nat, count: nat): (k: nat)
    requires first + count <= |h|
    ensures first <= k <= first + count
    decreases count
  {
    if count == 0 then first
    else
      var half := count / 2;
      if h[first + half].ts < target then LowerBound(h, target, first + half + 1, count - half - 1)
      else LowerBound(h, target, first, half)
  }

  /** The price move in the signal's favour at a point. */
  function Gain(shot: Shot, at: PricePoint): int {
    if shot.direction.Buy? then at.ask - shot.entryPrice else shot.entryPrice - at.bid
  }

  /** What a signal scored with this gain adds to a counter. */
  function Worth(c: Counter, shot: Shot, gain: int): int {
    var win := gain >= PRICE_SCALE;
    match c
    case Wins => if win then 1 else 0
    case Losses => if win then 0 else 1
    case SfWins => if win && shot.sf then 1 else 0
    case SfTotal => if shot.sf then 1 else 0
    case Move => gain
  }

  /** What an elapsed signal is judged by: a point of the history, or none. */
  function Found(p: PendingSignal, h: seq<PricePoint>): Option<PricePoint> {
    var k := LowerBound(h, AddU64(p.trigger, LOOK_FORWARD_NS), 0, |h|);
    if k < |h| then Some(h[k]) else None
  }

  function Judge(p: PendingSignal, h: seq<PricePoint>, c: Counter): int {
    match Found(p, h)
    case None => 0
    case Some(at) => Worth(c, p.shot, Gain(p.shot, at))
  }

  function StillPending(ps: seq<PendingSignal>, now: nat): seq<PendingSignal> {
    if ps == [] then []
    else
      var last := ps[|ps| - 1];
      StillPending(ps[..|ps| - 1], now) + if Elapsed(now, last.trigger) then [] else [last]
  }

  function JudgeAll(ps: seq<PendingSignal>, now: nat, h: seq<PricePoint>, c: Counter): int {
    if ps == [] then 0
    else
      var last := ps[|ps| - 1];
      JudgeAll(ps[..|ps| - 1], now, h, c) + if Elapsed(now, last.trigger) then Judge(last, h, c) else 0
  }

  function PointOf(t: Tick): seq<PricePoint> {
    if t.bid > 0 && t.ask > 0 then [PricePoint(t.ts, t.bid, t.ask)] else []
  }

  function SignalOf(t: Tick): seq<PendingSignal> {
    if t.shot.Some? then [PendingSignal(t.ts, t.shot.value)] else []
  }

  function Count(s: Counters, ps: seq<PendingSignal>, now: nat, h: seq<PricePoint>): Counters {
    Counters(s.wins + JudgeAll(ps, now, h, Wins), s.losses + JudgeAll(ps, now, h, Losses),
             s.sfWins + JudgeAll(ps, now, h, SfWins), s.sfTotal + JudgeAll(ps, now, h, SfTotal),
             s.move + JudgeAll(ps, now, h, Move))
  }

  function Step(e: Eval, t: Tick): Eval {
    var h := e.history + PointOf(t);
    Eval(h, StillPending(e.pending, t.ts) + SignalOf(t),
         e.total + |SignalOf(t)|,
         e.buys + (if t.shot.Some? && t.shot.value.direction.Buy? then 1 else 0),
         e.sells + (if t.shot.Some? && t.shot.value.direction.Sell? then 1 else 0),
         Count(e.counters, e.pending, t.ts, h))
  }

  function RunAll(ticks: seq<Tick>): Eval {
    if ticks == [] then Start() else Step(RunAll(ticks[..|ticks| - 1]), ticks[|ticks| - 1])
  }

  // ---- What a run should amount to, signal by signal ----

  function HistoryOf(ticks: seq<Tick>): seq<PricePoint> {
    if ticks == [] then [] else HistoryOf(ticks[..|ticks| - 1]) + PointOf(ticks[|ticks| - 1])
  }

  /** The first event after event i that is past the horizon of event i. */
  function ResolvedAt(ticks: seq<Tick>, i: nat): (j: Option<nat>)
    requires i < |ticks|
    ensures j.Some? ==> i < j.value < |ticks|
  {
    var n := |ticks| - 1;
    if n == i then None
    else
      match ResolvedAt(ticks[..n], i)
      case Some(j) => Some(j)
      case None => if Elapsed(ticks[n].ts, ticks[i].ts) then Some(n) else None
  }

  /** It is the first: past the horizon itself, with none before it that is. */
  lemma {:induction false} ResolvedIsFirst(ticks: seq<Tick>, i: nat)
    requires i < |ticks|
    ensures match ResolvedAt(ticks, i)
            case None => forall k :: i < k < |ticks| ==> !Elapsed(ticks[k].ts, ticks[i].ts)
            case Some(j) => Elapsed(ticks[j].ts, ticks[i].ts)
                            && forall k :: i < k < j ==> !Elapsed(ticks[k].ts, ticks[i].ts)
  {
    if i + 1 < |ticks| {
      ResolvedIsFirst(ticks[..|ticks| - 1], i);
    }
  }

  datatype Fate = NoSignal | Open | Dropped | Scored(shot: Shot, gain: int)

  function Recorded(t: Tick): PendingSignal
    requires t.shot.Some?
  {
    PendingSignal(t.ts, t.shot.value)
  }

  /** The fate of a signal judged by a history. */
  function Closed(p: PendingSignal, h: seq<PricePoint>): Fate {
    match Found(p, h)
    case None => Dropped
    case Some(at) => Scored(p.shot, Gain(p.shot, at))
  }

  /** What becomes of the signal of event i, from the run alone. */
  function FateOf(ticks: seq<Tick>, i: nat): Fate
    requires i < |ticks|
  {
    if ticks[i].shot.None? then NoSignal
    else
      match ResolvedAt(ticks, i)
      case None => Open
      case Some(j) => Closed(Recorded(ticks[i]), HistoryOf(ticks[..j + 1]))
  }

  function Points(f: Fate, c: Counter): int {
    if f.Scored? then Worth(c, f.shot, f.gain) else 0
  }

  /** What the signals of the first m events are worth to a counter, added up. */
  function TotalOf(ticks: seq<Tick>, m: nat, c: Counter): int
    requires m <= |ticks|
  {
    if m == 0 then 0 else TotalOf(ticks, m - 1, c) + Points(FateOf(ticks, m - 1), c)
  }

  /** The signals of the first m events that are still open, in order. */
  function OpenSignals(ticks: seq<Tick>, m: nat): seq<PendingSignal>
    requires m <= |ticks|
  {
    if m == 0 then []
    else OpenSignals(ticks, m - 1) + if FateOf(ticks, m - 1).Open? then SignalOf(ticks[m - 1]) else []
  }

  lemma ClosedIsJudged(p: PendingSignal, h: seq<PricePoint>, c: Counter)
    ensures !Closed(p, h).Open? && !Closed(p, h).NoSignal? && Points(Closed(p, h), c) == Judge(p, h, c)
  {
  }

  lemma {:induction false} ResolutionMoves(ticks: seq<Tick>, i: nat)
    requires i + 1 < |ticks|
    ensures var n := |ticks| - 1;
            ResolvedAt(ticks, i)
            == if ResolvedAt(ticks[..n], i).Some? then ResolvedAt(ticks[..n], i)
               else if Elapsed(ticks[n].ts, ticks[i].ts) then Some(n) else None
  {
  }

  lemma {:induction false} ClosedFateKept(ticks: seq<Tick>, i: nat)
    requires i + 1 < |ticks| && ticks[i].shot.Some? && ResolvedAt(ticks[..|ticks| - 1], i).Some?
    ensures FateOf(ticks, i) == FateOf(ticks[..|ticks| - 1], i)
  {
    var n := |ticks| - 1;
    var j := ResolvedAt(ticks[..n], i).value;
    ResolutionMoves(ticks, i);
    assert ticks[..n][..j + 1] == ticks[..j + 1];
  }

  lemma OpenFateCloses(ticks: seq<Tick>, i: nat)
    requires i + 1 < |ticks| && ticks[i].shot.Some? && ResolvedAt(ticks[..|ticks| - 1], i).None?
    requires Elapsed(ticks[|ticks| - 1].ts, ticks[i].ts)
    ensures FateOf(ticks, i) == Closed(Recorded(ticks[i]), HistoryOf(ticks))
  {
    ResolutionMoves(ticks, i);
    assert ticks[..|ticks| - 1 + 1] == ticks;
  }

  lemma {:induction false} OpenMeansUnresolved(ticks: seq<Tick>, i: nat)
    requires i < |ticks|
    ensures FateOf(ticks, i).Open? <==> ticks[i].shot.Some? && ResolvedAt(ticks, i).None?
    ensures FateOf(ticks, i).NoSignal? <==> ticks[i].shot.None?
  {
    if ticks[i].shot.Some? && ResolvedAt(ticks, i).Some? {
      ClosedIsJudged(Recorded(ticks[i]), HistoryOf(ticks[..ResolvedAt(ticks, i).value + 1]), Wins);
    }
  }

  /** One more event closes the open signals it is past the horizon of, and touches no other. */
  lemma {:induction false} FateMoves(ticks: seq<Tick>, i: nat)
    requires i + 1 < |ticks|
    ensures var n := |ticks| - 1;
            var was, becomes := FateOf(ticks[..n], i), FateOf(ticks, i);
            if !was.Open? then becomes == was
            else ticks[i].shot.Some?
                 && becomes == if Elapsed(ticks[n].ts, ticks[i].ts) then Closed(Recorded(ticks[i]), HistoryOf(ticks))
                           else Open
  {
    var n := |ticks| - 1;
    OpenMeansUnresolved(ticks[..n], i);
    if ticks[i].shot.Some? {
      if ResolvedAt(ticks[..n], i).Some? {
        ClosedFateKept(ticks, i);
      } else if Elapsed(ticks[n].ts, ticks[i].ts) {
        OpenFateCloses(ticks, i);
      } else {
        ResolutionMoves(ticks, i);
        OpenMeansUnresolved(ticks, i);
      }
    }
  }

  lemma {:induction false} StillPendingSnoc(ps: seq<PendingSignal>, p: PendingSignal, now: nat)
    ensures StillPending(ps + [p], now) == StillPending(ps, now) + if Elapsed(now, p.trigger) then [] else [p]
  {
    assert (ps + [p])[..|ps|] == ps;
  }

  lemma {:induction false} JudgeAllSnoc(ps: seq<PendingSignal>, p: PendingSignal, now: nat, h: seq<PricePoint>,
                                        c: Counter)
    ensures JudgeAll(ps + [p], now, h, c)
         == JudgeAll(ps, now, h, c) + if Elapsed(now, p.trigger) then Judge(p, h, c) else 0
  {
    assert (ps + [p])[..|ps|] == ps;
  }

  lemma OpenSignalsGrow(ticks: seq<Tick>, i: nat)
    requires i < |ticks|
    ensures OpenSignals(ticks, i + 1)
         == OpenSignals(ticks, i) + if FateOf(ticks, i).Open? then [Recorded(ticks[i])] else []
  {
    OpenMeansUnresolved(ticks, i);
  }

  /** Going over the open signals once brings the list up to date. */
  lemma {:induction false} OnePassKeepsOpen(ticks: seq<Tick>, m: nat)
    requires m + 1 <= |ticks|
    ensures OpenSignals(ticks, m) == StillPending(OpenSignals(ticks[..|ticks| - 1], m), ticks[|ticks| - 1].ts)
  {
    if m > 0 {
      var before, now, i := ticks[..|ticks| - 1], ticks[|ticks| - 1].ts, m - 1;
      OnePassKeepsOpen(ticks, i);
      FateMoves(ticks, i);
      OpenSignalsGrow(before, i);
      OpenSignalsGrow(ticks, i);
      if FateOf(before, i).Open? {
        StillPendingSnoc(OpenSignals(before, i), Recorded(ticks[i]), now);
        ClosedIsJudged(Recorded(ticks[i]), HistoryOf(ticks), Wins);
      } else {
        assert OpenSignals(before, m) == OpenSignals(before, i) + [] == OpenSignals(before, i);
      }
    }
  }

  lemma TotalGrows(ticks: seq<Tick>, i: nat, c: Counter)
    requires i < |ticks|
    ensures TotalOf(ticks, i + 1, c) == TotalOf(ticks, i, c) + Points(FateOf(ticks, i), c)
  {
  }

  /** Closing or keeping one open signal changes its points by what going over it adds. */
  lemma OneSignalCounts(ticks: seq<Tick>, i: nat, c: Counter)
    requires i + 1 < |ticks|
    ensures var before, now, h := ticks[..|ticks| - 1], ticks[|ticks| - 1].ts, HistoryOf(ticks);
            Points(FateOf(ticks, i), c) - Points(FateOf(before, i), c)
            == JudgeAll(OpenSignals(before, i + 1), now, h, c) - JudgeAll(OpenSignals(before, i), now, h, c)
  {
    var before, now := ticks[..|ticks| - 1], ticks[|ticks| - 1].ts;
    FateMoves(ticks, i);
    OpenSignalsGrow(before, i);
    if FateOf(before, i).Open? {
      JudgeAllSnoc(OpenSignals(before, i), Recorded(ticks[i]), now, HistoryOf(ticks), c);
      ClosedIsJudged(Recorded(ticks[i]), HistoryOf(ticks), c);
    } else {
      assert OpenSignals(before, i + 1) == OpenSignals(before, i) + [] == OpenSignals(before, i);
    }
  }

  /** And brings every counter up to date. */
  lemma {:induction false} OnePassCounts(ticks: seq<Tick>, m: nat, c: Counter)
    requires m + 1 <= |ticks|
    ensures var before, now := ticks[..|ticks| - 1], ticks[|ticks| - 1].ts;
            TotalOf(ticks, m, c) == TotalOf(before, m, c) + JudgeAll(OpenSignals(before, m), now, HistoryOf(ticks), c)
  {
    if m > 0 {
      var before, i := ticks[..|ticks| - 1], m - 1;
      OnePassCounts(ticks, i, c);
      TotalGrows(ticks, i, c);
      TotalGrows(before, i, c);
      OneSignalCounts(ticks, i, c);
    }
  }

  lemma NewestSignal(ticks: seq<Tick>, c: Counter)
    requires ticks != []
    ensures var n := |ticks| - 1;
            && OpenSignals(ticks, n + 1) == OpenSignals(ticks, n) + SignalOf(ticks[n])
            && TotalOf(ticks, n + 1, c) == TotalOf(ticks, n, c)
  {
    OpenSignalsGrow(ticks, |ticks| - 1);
  }

  lemma {:induction false} RunSteps(ticks: seq<Tick>)
    requires ticks != []
    ensures var n := |ticks| - 1; RunAll(ticks) == Step(RunAll(ticks[..n]), ticks[n])
    ensures var n := |ticks| - 1; HistoryOf(ticks) == HistoryOf(ticks[..n]) + PointOf(ticks[n])
  {
  }

  lemma {:induction false} CountGets(s: Counters, ps: seq<PendingSignal>, now: nat, h: seq<PricePoint>, c: Counter)
    ensures Get(Count(s, ps, now, h), c) == Get(s, c) + JudgeAll(ps, now, h, c)
  {
  }

  /** On every run, with any clock: the pending list is the open signals in order, and every
      counter is the sum of what each signal is worth at the first event past its horizon. */
  lemma {:induction false} RunIsTally(ticks: seq<Tick>, c: Counter)
    ensures var e := RunAll(ticks);
            && e.history == HistoryOf(ticks)
            && e.pending == OpenSignals(ticks, |ticks|)
            && Get(e.counters, c) == TotalOf(ticks, |ticks|, c)
  {
    if ticks != [] {
      var n := |ticks| - 1;
      var e := RunAll(ticks[..n]);
      RunIsTally(ticks[..n], c);
      RunSteps(ticks);
      CountGets(e.counters, e.pending, ticks[n].ts, HistoryOf(ticks), c);
      OnePassKeepsOpen(ticks, n);
      OnePassCounts(ticks, n, c);
      NewestSignal(ticks, c);
    }
  }

  // ---- Conservation ----

  function CountShots(ticks: seq<Tick>, m: nat): nat
    requires m <= |ticks|
  {
    if m == 0 then 0 else CountShots(ticks, m - 1) + |SignalOf(ticks[m - 1])|
  }

  function CountDropped(ticks: seq<Tick>, m: nat): nat
    requires m <= |ticks|
  {
    if m == 0 then 0 else CountDropped(ticks, m - 1) + if FateOf(ticks, m - 1).Dropped? then 1 else 0
  }

  lemma FateBalance(f: Fate)
    ensures Points(f, Wins) + Points(f, Losses) == if f.Scored? then 1 else 0
    ensures 0 <= Points(f, SfWins) <= Points(f, SfTotal) <= Points(f, Wins) + Points(f, Losses)
    ensures Points(f, SfWins) <= Points(f, Wins)
  {
  }

  lemma {:induction false} FatesPartition(ticks: seq<Tick>, m: nat)
    requires m <= |ticks|
    ensures CountShots(ticks, m)
         == TotalOf(ticks, m, Wins) + TotalOf(ticks, m, Losses) + CountDropped(ticks, m) + |OpenSignals(ticks, m)|
  {
    if m > 0 {
      var i := m - 1;
      FatesPartition(ticks, i);
      TotalGrows(ticks, i, Wins);
      TotalGrows(ticks, i, Losses);
      OpenSignalsGrow(ticks, i);
      OpenMeansUnresolved(ticks, i);
      FateBalance(FateOf(ticks, i));
    }
  }

  lemma {:induction false} SfWithinTotals(ticks: seq<Tick>, m: nat)
    requires m <= |ticks|
    ensures 0 <= TotalOf(ticks, m, SfWins) <= TotalOf(ticks, m, SfTotal)
    ensures TotalOf(ticks, m, SfTotal) <= TotalOf(ticks, m, Wins) + TotalOf(ticks, m, Losses)
  {
    if m > 0 {
      SfWithinTotals(ticks, m - 1);
      FateBalance(FateOf(ticks, m - 1));
    }
  }

  /** Only buy and sell signals are ever emitted. */
  ghost predicate Directed(ticks: seq<Tick>) {
    forall i :: 0 <= i < |ticks| && ticks[i].shot.Some? ==> !ticks[i].shot.value.direction.Flat?
  }

  lemma StepCounts(e: Eval, t: Tick)
    ensures Step(e, t).total == e.total + |SignalOf(t)|
    ensures t.shot.Some? && !t.shot.value.direction.Flat? ==>
              Step(e, t).buys + Step(e, t).sells == e.buys + e.sells + 1
    ensures t.shot.None? ==> Step(e, t).buys + Step(e, t).sells == e.buys + e.sells
  {
  }

  lemma {:induction false} TotalIsShots(ticks: seq<Tick>)
    ensures RunAll(ticks).total == CountShots(ticks, |ticks|)
  {
    if ticks != [] {
      var n := |ticks| - 1;
      TotalIsShots(ticks[..n]);
      CountShotsPrefix(ticks, n);
      RunSteps(ticks);
      StepCounts(RunAll(ticks[..n]), ticks[n]);
    }
  }

  lemma {:induction false} TotalIsBuysAndSells(ticks: seq<Tick>)
    requires Directed(ticks)
    ensures RunAll(ticks).total == RunAll(ticks).buys + RunAll(ticks).sells
  {
    if ticks != [] {
      var n := |ticks| - 1;
      TotalIsBuysAndSells(ticks[..n]);
      RunSteps(ticks);
      StepCounts(RunAll(ticks[..n]), ticks[n]);
    }
  }

  lemma {:induction false} CountShotsPrefix(ticks: seq<Tick>, m: nat)
    requires m < |ticks|
    ensures CountShots(ticks[..|ticks| - 1], m) == CountShots(ticks, m)
  {
    if m > 0 { CountShotsPrefix(ticks, m - 1); }
  }

  lemma {:induction false} CounterIsTotal(ticks: seq<Tick>, s: Counters, c: Counter)
    requires s == RunAll(ticks).counters
    ensures Get(s, c) == TotalOf(ticks, |ticks|, c) && RunAll(ticks).pending == OpenSignals(ticks, |ticks|)
  {
    RunIsTally(ticks, c);
  }

  lemma {:induction false} CountersAreTotals(ticks: seq<Tick>, s: Counters)
    requires s == RunAll(ticks).counters
    ensures s.wins == TotalOf(ticks, |ticks|, Wins) && s.losses == TotalOf(ticks, |ticks|, Losses)
    ensures s.sfWins == TotalOf(ticks, |ticks|, SfWins) && s.sfTotal == TotalOf(ticks, |ticks|, SfTotal)
    ensures s.move == TotalOf(ticks, |ticks|, Move)
    ensures |RunAll(ticks).pending| == |OpenSignals(ticks, |ticks|)|
  {
    CounterIsTotal(ticks, s, Wins);
    CounterIsTotal(ticks, s, Losses);
    CounterIsTotal(ticks, s, SfWins);
    CounterIsTotal(ticks, s, SfTotal);
    CounterIsTotal(ticks, s, Move);
  }

  /** Every signal is accounted for exactly once: won, lost, dropped, or still pending. */
  lemma {:induction false} SignalsConserved(ticks: seq<Tick>)
    requires Directed(ticks)
    ensures var e := RunAll(ticks);
            && e.total == e.buys + e.sells
            && e.total == e.counters.wins + e.counters.losses + CountDropped(ticks, |ticks|) + |e.pending|
            && 0 <= e.counters.sfWins <= e.counters.sfTotal <= e.counters.wins + e.counters.losses
  {
    CountersAreTotals(ticks, RunAll(ticks).counters);
    TotalIsShots(ticks);
    TotalIsBuysAndSells(ticks);
    FatesPartition(ticks, |ticks|);
    SfWithinTotals(ticks, |ticks|);
  }

  lemma {:induction false} SfNeedsShot(ticks: seq<Tick>, m: nat)
    requires m <= |ticks|
    requires forall i :: 0 <= i < |ticks| && ticks[i].shot.Some? ==> !ticks[i].shot.value.sf
    ensures TotalOf(ticks, m, SfTotal) == TotalOf(ticks, m, SfWins) == 0
  {
    if m > 0 {
      SfNeedsShot(ticks, m - 1);
      ScoredShot(ticks, m - 1);
    }
  }

  lemma ScoredShot(ticks: seq<Tick>, i: nat)
    requires i < |ticks|
    ensures FateOf(ticks, i).Scored? ==> ticks[i].shot == Some(FateOf(ticks, i).shot)
  {
  }

  // ---- On a clock that does not run backwards ----

  ghost predicate Steady(ticks: seq<Tick>) {
    && (forall i :: 0 <= i < |ticks| ==> ticks[i].ts < TWO_64)
    && (forall i, j :: 0 <= i <= j < |ticks| ==> ticks[i].ts <= ticks[j].ts)
  }

  lemma {:induction false} BisectionFinds(h: seq<PricePoint>, target: nat, first: nat, count: nat, k: nat)
    requires first <= k <= first + count <= |h|
    requires forall i :: first <= i < k ==> h[i].ts < target
    requires forall i :: k <= i < first + count ==> h[i].ts >= target
    ensures LowerBound(h, target, first, count) == k
    decreases count
  {
    if count > 0 {
      var half := count / 2;
      if h[first + half].ts < target {
        BisectionFinds(h, target, first + half + 1, count - half - 1, k);
      } else {
        BisectionFinds(h, target, first, half, k);
      }
    }
  }

  lemma {:induction false} HistoryBounded(ticks: seq<Tick>, bound: nat)
    requires forall i :: 0 <= i < |ticks| ==> ticks[i].ts < bound
    ensures forall k :: 0 <= k < |HistoryOf(ticks)| ==> HistoryOf(ticks)[k].ts < bound
  {
    if ticks != [] { HistoryBounded(ticks[..|ticks| - 1], bound); }
  }

  lemma {:induction false} EarlierIsBeforeTarget(ticks: seq<Tick>, i: nat, j: nat)
    requires Steady(ticks) && i < |ticks| && ResolvedAt(ticks, i) == Some(j)
    ensures j < |ticks| && ticks[i].ts + LOOK_FORWARD_NS <= ticks[j].ts < TWO_64
    ensures forall k :: 0 <= k < j ==> ticks[k].ts < ticks[i].ts + LOOK_FORWARD_NS
  {
    ResolvedIsFirst(ticks, i);
    assert ticks[i].ts <= ticks[j].ts;
    forall k | 0 <= k < j
      ensures ticks[k].ts < ticks[i].ts + LOOK_FORWARD_NS
    {
      if i < k {
        assert ticks[i].ts <= ticks[k].ts && !Elapsed(ticks[k].ts, ticks[i].ts);
      } else {
        assert ticks[k].ts <= ticks[i].ts;
      }
    }
  }

  lemma SearchInSplit(p: PendingSignal, earlier: seq<PricePoint>, newer: seq<PricePoint>, target: nat)
    requires target == p.trigger + LOOK_FORWARD_NS < TWO_64 && |newer| <= 1
    requires forall k :: 0 <= k < |earlier| ==> earlier[k].ts < target
    requires forall k :: 0 <= k < |newer| ==> newer[k].ts >= target
    ensures Found(p, earlier + newer) == if newer == [] then None else Some(newer[0])
  {
    BisectionFinds(earlier + newer, target, 0, |earlier + newer|, |earlier|);
  }

  /** When a signal's horizon elapses, every earlier price point is still before its target, so
      the search finds the point of the very event that closes it, or nothing. */
  lemma {:induction false} FoundIsCurrent(ticks: seq<Tick>, i: nat, j: nat)
    requires Steady(ticks) && i < |ticks| && ticks[i].shot.Some? && ResolvedAt(ticks, i) == Some(j)
    ensures j < |ticks|
    ensures Found(Recorded(ticks[i]), HistoryOf(ticks[..j + 1]))
         == if ticks[j].bid > 0 && ticks[j].ask > 0
            then Some(PricePoint(ticks[j].ts, ticks[j].bid, ticks[j].ask)) else None
  {
    var target := ticks[i].ts + LOOK_FORWARD_NS;
    EarlierIsBeforeTarget(ticks, i, j);
    HistoryBounded(ticks[..j], target);
    RunSteps(ticks[..j + 1]);
    assert ticks[..j + 1][..j] == ticks[..j];
    SearchInSplit(Recorded(ticks[i]), HistoryOf(ticks[..j]), PointOf(ticks[j]), target);
  }

  /** The evaluation without history or search: a signal is worth the move to the best prices
      after the first event at or past its horizon, and is dropped exactly when that event
      leaves the book without two positive best prices. */
  function SimpleFate(ticks: seq<Tick>, i: nat): Fate
    requires i < |ticks|
  {
    if ticks[i].shot.None? then NoSignal
    else
      match ResolvedAt(ticks, i)
      case None => Open
      case Some(j) =>
        var shot, t := ticks[i].shot.value, ticks[j];
        if t.bid <= 0 || t.ask <= 0 then Dropped
        else Scored(shot, if shot.direction.Buy? then t.ask - shot.entryPrice else shot.entryPrice - t.bid)
  }

  lemma {:induction false} FateIsSimple(ticks: seq<Tick>, i: nat)
    requires Steady(ticks) && i < |ticks|
    ensures FateOf(ticks, i) == SimpleFate(ticks, i)
  {
    if ticks[i].shot.Some? && ResolvedAt(ticks, i).Some? {
      FoundIsCurrent(ticks, i, ResolvedAt(ticks, i).value);
    }
  }

  function SimpleTotal(ticks: seq<Tick>, m: nat, c: Counter): int
    requires m <= |ticks|
  {
    if m == 0 then 0 else SimpleTotal(ticks, m - 1, c) + Points(SimpleFate(ticks, m - 1), c)
  }

  lemma {:induction false} SimpleTotalIsTotal(ticks: seq<Tick>, m: nat, c: Counter)
    requires Steady(ticks) && m <= |ticks|
    ensures TotalOf(ticks, m, c) == SimpleTotal(ticks, m, c)
  {
    if m > 0 {
      SimpleTotalIsTotal(ticks, m - 1, c);
      FateIsSimple(ticks, m - 1);
    }
  }

  /** On a steady clock the bisecting evaluation loop computes the same counters as the simple
      evaluation. */
  lemma {:induction false} LoopRefinesSimple(ticks: seq<Tick>, c: Counter)
    requires Steady(ticks)
    ensures Get(RunAll(ticks).counters, c) == SimpleTotal(ticks, |ticks|, c)
  {
    RunIsTally(ticks, c);
    SimpleTotalIsTotal(ticks, |ticks|, c);
  }

  ghost predicate Ordered(ps: seq<PendingSignal>) {
    forall i, j :: 0 <= i <= j < |ps| ==> ps[i].trigger <= ps[j].trigger
  }

  lemma {:induction false} OpenSignalsOrdered(ticks: seq<Tick>, m: nat)
    requires Steady(ticks) && m <= |ticks|
    ensures Ordered(OpenSignals(ticks, m))
    ensures forall i :: 0 <= i < |OpenSignals(ticks, m)| ==>
              m > 0 && OpenSignals(ticks, m)[i].trigger <= ticks[m - 1].ts
  {
    if m > 0 {
      OpenSignalsOrdered(ticks, m - 1);
    }
  }

  lemma TailSnoc(ps: seq<PendingSignal>, k: nat)
    requires k < |ps|
    ensures ps[..|ps| - 1][k..] + [ps[|ps| - 1]] == ps[k..]
  {
  }

  lemma ElapsedIsDownward(now: nat, trigger: nat, trigger': nat)
    requires trigger <= trigger' <= now < TWO_64 && Elapsed(now, trigger')
    ensures Elapsed(now, trigger)
  {
  }

  /** On a steady clock the signals removed at an event are the first ones of the list: what
      stays is a tail of it. */
  lemma {:induction false} ErasesPrefix(ps: seq<PendingSignal>, now: nat) returns (k: nat)
    requires Ordered(ps) && now < TWO_64 && forall i :: 0 <= i < |ps| ==> ps[i].trigger <= now
    ensures k <= |ps| && StillPending(ps, now) == ps[k..]
    ensures forall i :: 0 <= i < |ps| ==> (Elapsed(now, ps[i].trigger) <==> i < k)
  {
    if ps == [] {
      k := 0;
    } else {
      var n := |ps| - 1;
      var front := ps[..n];
      k := ErasesPrefix(front, now);
      assert ps == front + [ps[n]];
      StillPendingSnoc(front, ps[n], now);
      assert forall i :: 0 <= i < n ==> front[i] == ps[i];
      if Elapsed(now, ps[n].trigger) {
        forall i | 0 <= i < n
          ensures Elapsed(now, ps[i].trigger)
        {
          ElapsedIsDownward(now, ps[i].trigger, ps[n].trigger);
        }
        assert k >= n;
        k := n + 1;
      } else {
        TailSnoc(ps, k);
      }
    }
  }

  /** So it is on every run with such a clock: the next event erases the front of the pending list
      and leaves the rest. */
  lemma {:induction false} RunErasesPrefix(ticks: seq<Tick>, t: Tick) returns (k: nat)
    requires Steady(ticks + [t])
    ensures var pending := RunAll(ticks).pending;
            && k <= |pending| && StillPending(pending, t.ts) == pending[k..]
            && forall i :: 0 <= i < |pending| ==> (Elapsed(t.ts, pending[i].trigger) <==> i < k)
  {
    var all, n := ticks + [t], |ticks|;
    assert all[n] == t && forall i :: 0 <= i < n ==> all[i] == ticks[i];
    assert Steady(ticks);
    RunIsTally(ticks, Wins);
    OpenSignalsOrdered(ticks, n);
    k := ErasesPrefix(RunAll(ticks).pending, t.ts);
  }
}
