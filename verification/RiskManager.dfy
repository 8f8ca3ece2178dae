/** The risk manager: what may be sent, and what each fill costs. */
module RiskManager {
  import opened Types
  import opened Arithmetic

  datatype Config = Config(
    maxDailyLoss: real,
    tickSize: real,
    cooldownConsecSlips: int,
    cooldownSlipTicks: real,
    singleSlipAbort: real,
    cooldownDurationNs: nat,
    positionTimeoutNs: nat)

  const DEFAULT_CONFIG := Config(50.0, 1.0, 3, 2.0, 5.0, 60_000_000_000, 5_000_000_000)

  datatype Risk = Risk(
    hasPosition: bool,
    openOrder: Order,
    positionOpenNs: nat,
    pnl: real,
    fused: bool,
    consecSlips: int,
    cooldownStartNs: nat,
    trades: nat)

  const FRESH := Risk(false, NO_ORDER, 0, 0.0, false, 0, 0, 0)

  // ---- The callbacks ----

  /** A start of 0 stands for no cooldown; the difference is unsigned. */
  predicate InCooldown(cfg: Config, start: nat, now: nat) {
    start != 0 && SubU64(now, start) < cfg.cooldownDurationNs
  }

  predicate Admits(cfg: Config, r: Risk, now: nat) {
    !r.fused && !r.hasPosition && !InCooldown(cfg, r.cooldownStartNs, now)
  }

  function Distance(a: int, b: int): nat {
    if a < b then b - a else a - b
  }

  /** Slippage in ticks; none when either price is missing. */
  function Slippage(o: Order): (ticks: real)
    ensures ticks >= 0.0
  {
    if o.fillPrice == 0 || o.signalL1 == 0 then 0.0
    else Distance(o.fillPrice, o.signalL1) as real / PRICE_SCALE as real
  }

  function AfterOrderSent(r: Risk, o: Order, now: nat): Risk {
    r.(hasPosition := true, openOrder := o, positionOpenNs := now)
  }

  function AfterReject(r: Risk): Risk {
    r.(hasPosition := false)
  }

  /** The accounting of a fill: the position is gone whatever was filled, the slippage is booked. */
  function Booked(cfg: Config, r: Risk, slip: real): Risk {
    r.(hasPosition := false, trades := r.trades + 1, pnl := r.pnl - slip * cfg.tickSize)
  }

  /** A fill beyond the abort threshold starts a cooldown and leaves before the fuse is looked at. */
  function AfterFill(cfg: Config, r: Risk, slip: real, now: nat): Risk {
    var b := Booked(cfg, r, slip);
    if slip > cfg.singleSlipAbort then b.(cooldownStartNs := now, consecSlips := 0)
    else
      var counted :=
        if slip <= cfg.cooldownSlipTicks then b.(consecSlips := 0)
        else if b.consecSlips + 1 >= cfg.cooldownConsecSlips then b.(cooldownStartNs := now, consecSlips := 0)
        else b.(consecSlips := b.consecSlips + 1);
      counted.(fused := counted.fused || counted.pnl < -cfg.maxDailyLoss)
  }

  predicate TimedOut(cfg: Config, r: Risk, now: nat) {
    r.hasPosition && SubU64(now, r.positionOpenNs) >= cfg.positionTimeoutNs
  }

  function AfterReset(r: Risk): Risk {
    r.(pnl := 0.0, fused := false, consecSlips := 0, cooldownStartNs := 0, hasPosition := false, trades := 0)
  }

  // ---- Runs ----

  /** The calls that change the risk manager. A signal check or a timer tick changes nothing. */
  datatype Call =
    | OrderSent(order: Order, now: nat)
    | Fill(order: Order, now: nat)
    | Reject
    | Reset

  function Step(cfg: Config, r: Risk, c: Call): Risk {
    match c
    case OrderSent(o, now) => AfterOrderSent(r, o, now)
    case Fill(o, now) => AfterFill(cfg, r, Slippage(o), now)
    case Reject => AfterReject(r)
    case Reset => AfterReset(r)
  }

  function Run(cfg: Config, calls: seq<Call>): Risk {
    if calls == [] then FRESH else Step(cfg, Run(cfg, calls[..|calls| - 1]), calls[|calls| - 1])
  }

  // ---- The fills of the day, and what follows from them alone ----

  datatype DayFill = DayFill(slip: real, now: nat)

  /** The fills since the last reset. */
  function Fills(calls: seq<Call>): seq<DayFill> {
    if calls == [] then []
    else
      var before, c := Fills(calls[..|calls| - 1]), calls[|calls| - 1];
      if c.Reset? then [] else if c.Fill? then before + [DayFill(Slippage(c.order), c.now)] else before
  }

  function SlipSum(fs: seq<DayFill>): real {
    if fs == [] then 0.0 else SlipSum(fs[..|fs| - 1]) + fs[|fs| - 1].slip
  }

  function Loss(cfg: Config, fs: seq<DayFill>): real {
    cfg.tickSize * SlipSum(fs)
  }

  /** Over the cooldown threshold but not over the abort threshold. */
  predicate OverSlipped(cfg: Config, f: DayFill) {
    cfg.cooldownSlipTicks < f.slip <= cfg.singleSlipAbort
  }

  /** The length of the unbroken run of over-slipped fills at the end. */
  function Trailing(cfg: Config, fs: seq<DayFill>): nat {
    if fs == [] || !OverSlipped(cfg, fs[|fs| - 1]) then 0 else 1 + Trailing(cfg, fs[..|fs| - 1])
  }

  function Limit(cfg: Config): (n: nat)
    ensures n >= 1
  {
    if cfg.cooldownConsecSlips < 1 then 1 else cfg.cooldownConsecSlips
  }

  /** The counter for a trailing run of t: it starts over when it gets to the limit. */
  function Counter(cfg: Config, t: nat): (c: nat)
    ensures c < Limit(cfg)
  {
    t % Limit(cfg)
  }

  /** The last fill starts a cooldown: it is an abort, or it completes another full run of
      over-slipped fills. */
  predicate Triggers(cfg: Config, fs: seq<DayFill>) {
    fs != [] && (fs[|fs| - 1].slip > cfg.singleSlipAbort
                 || (OverSlipped(cfg, fs[|fs| - 1]) && Counter(cfg, Trailing(cfg, fs)) == 0))
  }

  predicate TriggersAt(cfg: Config, fs: seq<DayFill>, k: nat) {
    k < |fs| && Triggers(cfg, fs[..k + 1])
  }

  /** The stamp of the last fill that started a cooldown, 0 without one. */
  function LastTrigger(cfg: Config, fs: seq<DayFill>): nat {
    if fs == [] then 0
    else if Triggers(cfg, fs) then fs[|fs| - 1].now else LastTrigger(cfg, fs[..|fs| - 1])
  }

  /** Fill k is no abort and leaves the day past the loss limit. */
  predicate BlowsAt(cfg: Config, fs: seq<DayFill>, k: nat) {
    k < |fs| && fs[k].slip <= cfg.singleSlipAbort && Loss(cfg, fs[..k + 1]) > cfg.maxDailyLoss
  }

  ghost predicate Blown(cfg: Config, fs: seq<DayFill>) {
    exists k: nat :: BlowsAt(cfg, fs, k)
  }

  /** What the fields are, in terms of the fills since the last reset. */
  ghost predicate Accounts(cfg: Config, r: Risk, fs: seq<DayFill>) {
    && r.pnl == -Loss(cfg, fs)
    && r.trades == |fs|
    && r.consecSlips == Counter(cfg, Trailing(cfg, fs))
    && r.cooldownStartNs == LastTrigger(cfg, fs)
    && (r.fused <==> Blown(cfg, fs))
  }

  lemma LossGrows(tick: real, sum: real, slip: real, pnl: real)
    requires pnl == -(tick * sum)
    ensures pnl - slip * tick == -(tick * (sum + slip))
  {
  }

  lemma CountUp(t: nat, n: nat)
    requires n >= 1
    ensures (t + 1) % n == if t % n + 1 == n then 0 else t % n + 1
  {
    var q := t / n;
    assert t == n * q + t % n;
    if t % n + 1 == n {
      assert n * (q + 1) == n * q + n;
      DivModUnique(t + 1, n, q + 1, 0);
    } else {
      DivModUnique(t + 1, n, q, t % n + 1);
    }
  }

  lemma CounterUp(cfg: Config, t: nat)
    ensures Counter(cfg, 0) == 0
    ensures Counter(cfg, t + 1)
         == if Counter(cfg, t) + 1 >= cfg.cooldownConsecSlips then 0 else Counter(cfg, t) + 1
  {
    CountUp(t, Limit(cfg));
  }

  lemma {:induction false} TrailingSnoc(cfg: Config, fs: seq<DayFill>, f: DayFill)
    ensures Trailing(cfg, fs + [f]) == if OverSlipped(cfg, f) then Trailing(cfg, fs) + 1 else 0
  {
    assert (fs + [f])[..|fs|] == fs;
  }

  lemma BlownSnoc(cfg: Config, fs: seq<DayFill>, f: DayFill)
    ensures Blown(cfg, fs + [f]) <==> Blown(cfg, fs) || BlowsAt(cfg, fs + [f], |fs|)
  {
    var all := fs + [f];
    forall k: nat | k < |fs|
      ensures BlowsAt(cfg, all, k) <==> BlowsAt(cfg, fs, k)
    {
      assert all[..k + 1] == fs[..k + 1];
    }
    if Blown(cfg, fs) {
      var k: nat :| BlowsAt(cfg, fs, k);
      assert BlowsAt(cfg, all, k);
    }
  }

  lemma FillAccounts(cfg: Config, r: Risk, fs: seq<DayFill>, slip: real, now: nat)
    requires Accounts(cfg, r, fs)
    ensures Accounts(cfg, AfterFill(cfg, r, slip, now), fs + [DayFill(slip, now)])
  {
    var all := fs + [DayFill(slip, now)];
    assert all[..|fs|] == fs && all[..|fs| + 1] == all;
    LossGrows(cfg.tickSize, SlipSum(fs), slip, r.pnl);
    TrailingSnoc(cfg, fs, DayFill(slip, now));
    CounterUp(cfg, Trailing(cfg, fs));
    BlownSnoc(cfg, fs, DayFill(slip, now));
  }

  /** Every field is what the fills since the last reset say: the result is minus the tick size
      times the total slippage, the slip counter is the trailing run of over-slipped fills
      modulo its limit, the cooldown starts at the last trigger, and the fuse is blown exactly
      when some fill that was no abort left the day past its limit. */
  lemma {:induction false} AccountsHold(cfg: Config, calls: seq<Call>)
    ensures Accounts(cfg, Run(cfg, calls), Fills(calls))
  {
    if calls == [] {
      assert !Blown(cfg, []);
    } else {
      var before, c := calls[..|calls| - 1], calls[|calls| - 1];
      AccountsHold(cfg, before);
      if c.Fill? {
        FillAccounts(cfg, Run(cfg, before), Fills(before), Slippage(c.order), c.now);
      } else if c.Reset? {
        assert !Blown(cfg, []);
      }
    }
  }

  /** The counter never reaches its limit: on reaching it a cooldown starts. */
  lemma {:induction false} CounterBelowLimit(cfg: Config, calls: seq<Call>)
    requires cfg.cooldownConsecSlips >= 1
    ensures 0 <= Run(cfg, calls).consecSlips < cfg.cooldownConsecSlips
  {
    AccountsHold(cfg, calls);
  }

  // ---- The fuse ----

  /** Once blown, the fuse stays blown through any calls but a reset. */
  lemma {:induction false} FusePersists(cfg: Config, calls: seq<Call>, more: seq<Call>)
    requires Run(cfg, calls).fused && forall i :: 0 <= i < |more| ==> !more[i].Reset?
    ensures Run(cfg, calls + more).fused
    decreases |more|
  {
    if more == [] {
      assert calls + more == calls;
    } else {
      var n := |more| - 1;
      FusePersists(cfg, calls, more[..n]);
      assert (calls + more)[..|calls| + n] == calls + more[..n];
    }
  }

  /** The fills up to the last one that was no abort. */
  function UpToLastPlain(cfg: Config, fs: seq<DayFill>): seq<DayFill> {
    if fs == [] || fs[|fs| - 1].slip <= cfg.singleSlipAbort then fs else UpToLastPlain(cfg, fs[..|fs| - 1])
  }

  ghost predicate SlipsForward(fs: seq<DayFill>) {
    forall k :: 0 <= k < |fs| ==> fs[k].slip >= 0.0
  }

  lemma {:induction false} FillsSlipForward(calls: seq<Call>)
    ensures SlipsForward(Fills(calls))
  {
    if calls != [] {
      FillsSlipForward(calls[..|calls| - 1]);
    }
  }

  lemma ProductGrows(tick: real, a: real, b: real)
    requires tick >= 0.0 && a <= b
    ensures tick * a <= tick * b
  {
  }

  lemma {:induction false} LossNeverShrinks(cfg: Config, fs: seq<DayFill>, k: nat)
    requires k <= |fs| && cfg.tickSize >= 0.0 && SlipsForward(fs)
    ensures Loss(cfg, fs[..k]) <= Loss(cfg, fs)
    decreases |fs|
  {
    if k == |fs| {
      assert fs[..k] == fs;
    } else {
      var front := fs[..|fs| - 1];
      LossNeverShrinks(cfg, front, k);
      assert front[..k] == fs[..k];
      ProductGrows(cfg.tickSize, SlipSum(front), SlipSum(fs));
    }
  }

  lemma {:induction false} BlownIff(cfg: Config, fs: seq<DayFill>)
    requires cfg.tickSize >= 0.0 && SlipsForward(fs)
    ensures var plain := UpToLastPlain(cfg, fs);
            Blown(cfg, fs) <==> plain != [] && Loss(cfg, plain) > cfg.maxDailyLoss
  {
    if fs == [] {
      assert !Blown(cfg, fs);
    } else {
      var front, last := fs[..|fs| - 1], fs[|fs| - 1];
      assert fs == front + [last] && fs[..|fs|] == fs;
      BlownSnoc(cfg, front, last);
      if last.slip <= cfg.singleSlipAbort {
        if Blown(cfg, fs) {
          var k: nat :| BlowsAt(cfg, fs, k);
          LossNeverShrinks(cfg, fs, k + 1);
        }
      } else {
        BlownIff(cfg, front);
      }
    }
  }

  /** The fuse in closed form: it is blown exactly when the loss was past the limit at the last
      fill of the day that was no abort. */
  lemma {:induction false} FusedIff(cfg: Config, calls: seq<Call>)
    requires cfg.tickSize >= 0.0
    ensures var plain := UpToLastPlain(cfg, Fills(calls));
            Run(cfg, calls).fused <==> plain != [] && Loss(cfg, plain) > cfg.maxDailyLoss
  {
    AccountsHold(cfg, calls);
    FillsSlipForward(calls);
    BlownIff(cfg, Fills(calls));
  }

  lemma {:induction false} PlainIsPrefix(cfg: Config, fs: seq<DayFill>)
    ensures UpToLastPlain(cfg, fs) <= fs
    ensures UpToLastPlain(cfg, fs) == fs <==> fs == [] || fs[|fs| - 1].slip <= cfg.singleSlipAbort
  {
    if fs != [] && fs[|fs| - 1].slip > cfg.singleSlipAbort {
      PlainIsPrefix(cfg, fs[..|fs| - 1]);
    }
  }

  /** A blown fuse means a loss past the limit; a loss past the limit without a blown fuse means
      that the last fill was an abort. */
  lemma {:induction false} FuseAgainstLoss(cfg: Config, calls: seq<Call>)
    requires cfg.tickSize >= 0.0
    ensures var r, fs := Run(cfg, calls), Fills(calls);
            && (r.fused ==> r.pnl < -cfg.maxDailyLoss)
            && (r.pnl < -cfg.maxDailyLoss && !r.fused ==>
                  fs == [] || fs[|fs| - 1].slip > cfg.singleSlipAbort)
  {
    var fs := Fills(calls);
    AccountsHold(cfg, calls);
    FusedIff(cfg, calls);
    FillsSlipForward(calls);
    PlainIsPrefix(cfg, fs);
    LossNeverShrinks(cfg, fs, |UpToLastPlain(cfg, fs)|);
    assert fs[..|UpToLastPlain(cfg, fs)|] == UpToLastPlain(cfg, fs);
  }

  ghost predicate LossMeansFused(cfg: Config, r: Risk) {
    r.pnl < -cfg.maxDailyLoss ==> r.fused
  }

  /** The abort path skips the fuse: one fill 60 ticks off loses more than the default limit and
      the day goes on. */
  lemma AbortSkipsFuse(o: Order)
    requires o.signalL1 == 200_000 && o.fillPrice == 206_000
    ensures !LossMeansFused(DEFAULT_CONFIG, Run(DEFAULT_CONFIG, [Fill(o, 1)]))
  {
    assert Slippage(o) == 60.0;
    assert [Fill(o, 1)][..0] == [];
    assert Run(DEFAULT_CONFIG, [Fill(o, 1)]) == AfterFill(DEFAULT_CONFIG, FRESH, 60.0, 1);
  }

  /** A fill that finds the daily loss rule in force leaves it in force unless it is an abort that
      carries an unfused day past the limit, and only then. */
  lemma LossRuleKeptIff(cfg: Config, r: Risk, slip: real, now: nat)
    requires LossMeansFused(cfg, r)
    ensures LossMeansFused(cfg, AfterFill(cfg, r, slip, now)) <==>
            !(slip > cfg.singleSlipAbort && !r.fused && r.pnl - slip * cfg.tickSize < -cfg.maxDailyLoss)
  {
  }

  // ---- The cooldown ----

  /** The clock reads something other than 0, never goes back, and ends no later than `now`. */
  ghost predicate Clocked(fs: seq<DayFill>, now: nat) {
    && (forall i :: 0 <= i < |fs| ==> 0 < fs[i].now <= now)
    && (forall i, j :: 0 <= i <= j < |fs| ==> fs[i].now <= fs[j].now)
  }

  lemma {:induction false} LastTriggerIsLast(cfg: Config, fs: seq<DayFill>, now: nat)
    requires Clocked(fs, now)
    ensures LastTrigger(cfg, fs) == 0 ==> forall k: nat :: !TriggersAt(cfg, fs, k)
    ensures LastTrigger(cfg, fs) != 0 ==>
              exists k: nat :: TriggersAt(cfg, fs, k) && fs[k].now == LastTrigger(cfg, fs)
    ensures forall k: nat :: TriggersAt(cfg, fs, k) ==> fs[k].now <= LastTrigger(cfg, fs) <= now
  {
    if fs != [] {
      var n := |fs| - 1;
      LastTriggerIsLast(cfg, fs[..n], now);
      assert fs[..n + 1] == fs;
      forall k: nat | k < n
        ensures TriggersAt(cfg, fs, k) <==> TriggersAt(cfg, fs[..n], k)
      {
        assert fs[..n][..k + 1] == fs[..k + 1];
      }
      if Triggers(cfg, fs) {
        assert TriggersAt(cfg, fs, n);
      } else if LastTrigger(cfg, fs) != 0 {
        var k: nat :| TriggersAt(cfg, fs[..n], k) && fs[..n][k].now == LastTrigger(cfg, fs[..n]);
        assert TriggersAt(cfg, fs, k) && fs[k].now == LastTrigger(cfg, fs);
      }
    }
  }

  /** Fill k started a cooldown that is not over yet. */
  predicate Cooling(cfg: Config, fs: seq<DayFill>, k: nat, now: nat) {
    TriggersAt(cfg, fs, k) && now - fs[k].now < cfg.cooldownDurationNs
  }

  ghost predicate SomeCooling(cfg: Config, fs: seq<DayFill>, now: nat) {
    exists k: nat :: Cooling(cfg, fs, k, now)
  }

  lemma {:induction false} CoolingIff(cfg: Config, fs: seq<DayFill>, now: nat)
    requires Clocked(fs, now)
    ensures InCooldown(cfg, LastTrigger(cfg, fs), now) <==> SomeCooling(cfg, fs, now)
  {
    var start := LastTrigger(cfg, fs);
    LastTriggerIsLast(cfg, fs, now);
    if InCooldown(cfg, start, now) {
      var k: nat :| TriggersAt(cfg, fs, k) && fs[k].now == start;
      assert Cooling(cfg, fs, k, now);
    }
  }

  /** A clock reading taken before the trigger makes the unsigned difference huge: the cooldown
      covers exactly the readings from its start on. */
  lemma CooldownCovers(cfg: Config, start: nat, now: nat)
    requires 0 < start < TWO_64 && now < TWO_64 && start + cfg.cooldownDurationNs <= TWO_64
    ensures InCooldown(cfg, start, now) <==> start <= now < start + cfg.cooldownDurationNs
  {
  }

  /** Fill k started the cooldown that counts: none was started after it. */
  ghost predicate LastTriggerAt(cfg: Config, fs: seq<DayFill>, k: nat) {
    TriggersAt(cfg, fs, k) && forall m: nat :: k < m ==> !TriggersAt(cfg, fs, m)
  }

  lemma {:induction false} LastTriggerIs(cfg: Config, fs: seq<DayFill>)
    ensures LastTrigger(cfg, fs) != 0 ==> exists k: nat :: LastTriggerAt(cfg, fs, k)
    ensures forall k: nat :: LastTriggerAt(cfg, fs, k) ==> fs[k].now == LastTrigger(cfg, fs)
  {
    if fs != [] {
      var n := |fs| - 1;
      LastTriggerIs(cfg, fs[..n]);
      assert fs[..n + 1] == fs;
      forall k: nat | k < n
        ensures TriggersAt(cfg, fs, k) <==> TriggersAt(cfg, fs[..n], k)
      {
        assert fs[..n][..k + 1] == fs[..k + 1];
      }
      if Triggers(cfg, fs) {
        assert LastTriggerAt(cfg, fs, n);
      } else {
        assert forall k: nat :: LastTriggerAt(cfg, fs, k) <==> LastTriggerAt(cfg, fs[..n], k);
      }
    }
  }

  /** The day's last trigger is stamped with something other than 0, and the cooldown from that
      stamp on covers this clock reading. */
  ghost predicate Covered(cfg: Config, fs: seq<DayFill>, now: nat) {
    exists k: nat :: LastTriggerAt(cfg, fs, k) && 0 < fs[k].now <= now < fs[k].now + cfg.cooldownDurationNs
  }

  /** Stamps are 64-bit numbers, with room for a cooldown after them. */
  ghost predicate StampsFit(cfg: Config, fs: seq<DayFill>, now: nat) {
    && now < TWO_64
    && forall k :: 0 <= k < |fs| ==> fs[k].now < TWO_64 && fs[k].now + cfg.cooldownDurationNs <= TWO_64
  }

  lemma {:induction false} CoveredIff(cfg: Config, fs: seq<DayFill>, now: nat)
    requires StampsFit(cfg, fs, now)
    ensures InCooldown(cfg, LastTrigger(cfg, fs), now) <==> Covered(cfg, fs, now)
  {
    var start := LastTrigger(cfg, fs);
    LastTriggerIs(cfg, fs);
    if start != 0 {
      var k: nat :| LastTriggerAt(cfg, fs, k);
      CooldownCovers(cfg, start, now);
    }
  }

  /** Whatever calls intervened and whatever the clock did, a signal is admitted if and only if the
      fuse holds, nothing is open, and the cooldown of the day's last trigger does not cover the
      reading: a reading from before that trigger is not covered. */
  lemma {:induction false} AdmitsIff(cfg: Config, calls: seq<Call>, now: nat)
    requires StampsFit(cfg, Fills(calls), now)
    ensures var r, fs := Run(cfg, calls), Fills(calls);
            Admits(cfg, r, now) <==> !Blown(cfg, fs) && !r.hasPosition && !Covered(cfg, fs, now)
  {
    AccountsHold(cfg, calls);
    CoveredIff(cfg, Fills(calls), now);
  }

  /** With a clock that never goes back or reads 0, that is: no trigger of the day is less than the
      cooldown back. */
  lemma {:induction false} AdmitsOnSteadyClock(cfg: Config, calls: seq<Call>, now: nat)
    requires Clocked(Fills(calls), now)
    ensures var r, fs := Run(cfg, calls), Fills(calls);
            Admits(cfg, r, now) <==> !Blown(cfg, fs) && !r.hasPosition && !SomeCooling(cfg, fs, now)
  {
    AccountsHold(cfg, calls);
    CoolingIff(cfg, Fills(calls), now);
  }

  // ---- The position timeout ----

  /** A position is timed out if and only if the last call sent its order and the clock is not in
      the timeout's length from that sending on: a reading from before it counts as too late. */
  lemma {:induction false} TimedOutIff(cfg: Config, calls: seq<Call>, now: nat)
    requires now < TWO_64
    requires forall i :: 0 <= i < |calls| && calls[i].OrderSent? ==>
               calls[i].now < TWO_64 && calls[i].now + cfg.positionTimeoutNs <= TWO_64
    ensures var r := Run(cfg, calls);
            TimedOut(cfg, r, now) <==>
              && calls != [] && calls[|calls| - 1].OrderSent?
              && r.openOrder == calls[|calls| - 1].order
              && !(calls[|calls| - 1].now <= now < calls[|calls| - 1].now + cfg.positionTimeoutNs)
  {
    if calls != [] && calls[|calls| - 1].OrderSent? {
      assert Run(cfg, calls).positionOpenNs == calls[|calls| - 1].now;
    }
  }

  /** Slippage is the distance between fill and best price at the signal, at a hundred price units
      to the tick, the same both ways; a missing price counts as none. */
  lemma SlippageMeasures(o: Order)
    ensures o.fillPrice == 0 || o.signalL1 == 0 ==> Slippage(o) == 0.0
    ensures o.fillPrice != 0 && o.signalL1 != 0 ==>
              Slippage(o) * 100.0 == (if o.fillPrice < o.signalL1 then o.signalL1 - o.fillPrice
                                      else o.fillPrice - o.signalL1) as real
    ensures Slippage(o) == Slippage(o.(fillPrice := o.signalL1, signalL1 := o.fillPrice))
    ensures Slippage(o) == 0.0 <==> o.fillPrice == 0 || o.signalL1 == 0 || o.fillPrice == o.signalL1
  {
  }

  // ---- The object ----

  class RiskManager {
    const cfg: Config
    var hasPosition: bool
    var openOrder: Order
    var positionOpenNs: nat
    var dailyPnl: real
    var fused: bool
    var consecSlipCount: int
    var cooldownStartNs: nat
    var totalTrades: nat

    function State(): Risk
      reads this
    {
      Risk(hasPosition, openOrder, positionOpenNs, dailyPnl, fused, consecSlipCount, cooldownStartNs, totalTrades)
    }

    constructor (cfg: Config)
      ensures State() == FRESH && this.cfg == cfg
    {
      this.cfg := cfg;
      hasPosition, openOrder, positionOpenNs := false, NO_ORDER, 0;
      dailyPnl, fused := 0.0, false;
      consecSlipCount, cooldownStartNs, totalTrades := 0, 0, 0;
    }

    method CheckSignal(now: nat) returns (ok: bool)
      ensures ok <==> Admits(cfg, State(), now)
    {
      if fused {
        return false;
      }
      if hasPosition {
        return false;
      }
      ok := !InCooldown(cfg, cooldownStartNs, now);
    }

    method OnOrderSent(order: Order, now: nat)
      modifies this
      ensures State() == AfterOrderSent(old(State()), order, now)
    {
      hasPosition := true;
      openOrder := order;
      positionOpenNs := now;
    }

    method OnFill(order: Order, now: nat)
      modifies this
      ensures State() == AfterFill(cfg, old(State()), Slippage(order), now)
    {
      hasPosition := false;
      totalTrades := totalTrades + 1;
      var slip := Slippage(order);
      dailyPnl := dailyPnl - slip * cfg.tickSize;
      if slip > cfg.singleSlipAbort {
        cooldownStartNs := now;
        consecSlipCount := 0;
        return;
      }
      if slip > cfg.cooldownSlipTicks {
        consecSlipCount := consecSlipCount + 1;
        if consecSlipCount >= cfg.cooldownConsecSlips {
          cooldownStartNs := now;
          consecSlipCount := 0;
        }
      } else {
        consecSlipCount := 0;
      }
      if dailyPnl < -cfg.maxDailyLoss {
        fused := true;
      }
    }

    method OnReject()
      modifies this
      ensures State() == AfterReject(old(State()))
    {
      hasPosition := false;
    }

    /** The order the timeout callback is given, if it is due. */
    method OnTimer(now: nat) returns (close: Option<Order>)
      ensures close == if TimedOut(cfg, State(), now) then Some(openOrder) else None
    {
      if !hasPosition {
        return None;
      }
      close := if SubU64(now, positionOpenNs) >= cfg.positionTimeoutNs then Some(openOrder) else None;
    }

    method ResetDaily()
      modifies this
      ensures State() == AfterReset(old(State()))
    {
      dailyPnl, fused, consecSlipCount, cooldownStartNs := 0.0, false, 0, 0;
      hasPosition, totalTrades := false, 0;
    }
  }
}
