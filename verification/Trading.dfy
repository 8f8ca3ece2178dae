/** Trading as one state machine: signals, timer ticks, execution reports, session changes and
    daily resets in any order, each handled as one step. */
module Trading {
  import opened Types
  import opened Arithmetic
  import opened ClOrdIds
  import opened OrderDesk
  import R = RiskManager

  datatype Event =
    | Logon
    | Logout
    | SignalTick(now: nat, side: Side, l1: int, delivered: bool)
    | TimerTick(now: nat, bid: int, ask: int, delivered: bool)
    | Report(id: string, kind: ExecType, px: int, now: nat)
    | DailyReset

  function Step(cfg: R.Config, d: Desk, e: Event): Desk {
    match e
    case Logon => d.(loggedOn := true)
    case Logout => d.(loggedOn := false)
    case SignalTick(now, side, l1, delivered) => OnSignal(cfg, d, now, side, l1, delivered)
    case TimerTick(now, bid, ask, delivered) => OnTimer(cfg, d, now, bid, ask, delivered)
    case Report(id, kind, px, now) => OnExecutionReport(cfg, d, id, kind, px, now)
    case DailyReset => d.(risk := R.AfterReset(d.risk))
  }

  function Run(cfg: R.Config, es: seq<Event>): Desk {
    if es == [] then OPENING else Step(cfg, Run(cfg, es[..|es| - 1]), es[|es| - 1])
  }

  lemma {:induction false} RunGrows(cfg: R.Config, es: seq<Event>, e: Event)
    ensures Run(cfg, es + [e]) == Step(cfg, Run(cfg, es), e)
  {
    assert (es + [e])[..|es|] == es;
  }

  // ---- Ids ----

  /** The id of message i: the counter starts at 1 and wraps at 64 bits. */
  function IdAt(i: nat): string {
    ClOrdId((i + 1) % TWO_64)
  }

  ghost predicate Numbered(d: Desk) {
    && d.orderSeq == (|d.past.wire| + 1) % TWO_64
    && forall i :: 0 <= i < |d.past.wire| ==> d.past.wire[i].clordid == IdAt(i)
  }

  lemma IdsDiffer(i: nat, j: nat)
    requires i < j < TWO_64
    ensures IdAt(i) != IdAt(j)
  {
    if (i + 1) % TWO_64 == (j + 1) % TWO_64 {
      SameRemainder(i + 1, j + 1, TWO_64);
    }
    IdsAreDistinctAndFit((i + 1) % TWO_64, (j + 1) % TWO_64);
  }

  lemma IdFits(n: nat)
    requires n < TWO_64
    ensures Copied(ClOrdId(n)) == ClOrdId(n)
  {
    IdsAreDistinctAndFit(n, n);
  }

  // ---- The position and the table ----

  /** Every order is filed under its own id, and the open position is one of them, as the risk
      manager remembers it. */
  ghost predicate Filed(d: Desk) {
    && (forall id :: id in d.open ==> d.open[id].clordid == id)
    && (d.risk.hasPosition ==> d.risk.openOrder.clordid in d.open
                               && d.open[d.risk.openOrder.clordid] == d.risk.openOrder)
  }

  ghost predicate Inv(d: Desk) {
    Numbered(d) && Filed(d)
  }

  lemma SendsKeeps(d: Desk, m: WireMsg)
    requires Numbered(d) && m.clordid == ClOrdId(d.orderSeq)
    ensures Numbered(Sends(d, m))
  {
    var n := |d.past.wire|;
    RemainderOfSum(n + 1, 1, TWO_64);
    assert Sends(d, m).past.wire[n].clordid == IdAt(n);
  }

  lemma SendIocKeeps(d: Desk, side: Side, qty: int, l1: int, ts: nat, delivered: bool)
    requires Inv(d)
    ensures Inv(SendIoc(d, side, qty, l1, ts, delivered))
  {
    if d.loggedOn {
      SendsKeeps(d, NewOrderSingle(ClOrdId(d.orderSeq), side, qty));
      IdFits(d.orderSeq);
    }
  }

  lemma CancelKeeps(d: Desk, id: string)
    requires Inv(d)
    ensures Inv(CancelOrder(d, id))
  {
    if id in d.open {
      SendsKeeps(d, OrderCancelRequest(ClOrdId(d.orderSeq), id, d.open[id].side));
    }
  }

  lemma StepKeeps(cfg: R.Config, d: Desk, e: Event)
    requires Inv(d)
    ensures Inv(Step(cfg, d, e))
  {
    match e
    case SignalTick(now, side, l1, delivered) =>
      SendIocKeeps(d, side, 1, l1, now, delivered);
    case TimerTick(now, bid, ask, delivered) =>
      var o := d.risk.openOrder;
      CancelKeeps(d, o.clordid);
      SendIocKeeps(CancelOrder(d, o.clordid), Opposite(o.side), o.qty, ClosePrice(o, bid, ask), now, delivered);
    case _ =>
  }

  lemma {:induction false} RunKeeps(cfg: R.Config, es: seq<Event>)
    ensures Inv(Run(cfg, es))
  {
    if es != [] {
      RunKeeps(cfg, es[..|es| - 1]);
      StepKeeps(cfg, Run(cfg, es[..|es| - 1]), es[|es| - 1]);
    }
  }

  /** On every interleaving an open position is an order of the table, and the same order. */
  lemma {:induction false} PositionIsOpen(cfg: R.Config, es: seq<Event>)
    ensures var d := Run(cfg, es);
            d.risk.hasPosition ==> d.risk.openOrder.clordid in d.open
                                   && d.open[d.risk.openOrder.clordid] == d.risk.openOrder
  {
    RunKeeps(cfg, es);
  }

  /** So a timeout always finds its order: one cancel request for it goes out, and on a live
      session one order for the same quantity the other way, measured against the best bid when
      it sells and the best ask when it buys. */
  lemma {:induction false} TimeoutCloses(cfg: R.Config, es: seq<Event>, now: nat, bid: int, ask: int, delivered: bool)
    requires R.TimedOut(cfg, Run(cfg, es).risk, now)
    ensures var d, after := Run(cfg, es), Run(cfg, es + [TimerTick(now, bid, ask, delivered)]);
            var o, n := d.risk.openOrder, |d.past.wire|;
            && after.past.wire
               == d.past.wire + [OrderCancelRequest(IdAt(n), o.clordid, o.side)]
                  + (if !d.loggedOn then []
                     else [NewOrderSingle(IdAt(n + 1), if o.side.BuySide? then SellSide else BuySide, o.qty)])
            && (d.loggedOn && delivered ==>
                  && after.risk.hasPosition && after.risk.openOrder.clordid == IdAt(n + 1)
                  && after.risk.openOrder.signalL1 == (if after.risk.openOrder.side.SellSide? then bid else ask))
  {
    var d := Run(cfg, es);
    RunKeeps(cfg, es);
    RunGrows(cfg, es, TimerTick(now, bid, ask, delivered));
    SendsKeeps(d, OrderCancelRequest(ClOrdId(d.orderSeq), d.risk.openOrder.clordid, d.risk.openOrder.side));
    IdFits((|d.past.wire| + 2) % TWO_64);
  }

  // ---- What becomes of an order ----

  /** The ids of the orders handed to the session. */
  function Ordered(wire: seq<WireMsg>): set<string> {
    set m | m in wire && m.NewOrderSingle? :: m.clordid
  }

  /** Each of those is exactly one of open, filled, refused and failed. */
  ghost predicate Accounted(d: Desk) {
    var p := d.past;
    && Ordered(p.wire) == d.open.Keys + p.filled + p.refused + p.failed
    && d.open.Keys !! p.filled !! p.refused !! p.failed
  }

  ghost predicate IdsLast(d: Desk) {
    |d.past.wire| <= TWO_64
  }

  lemma NewIdIsNew(d: Desk)
    requires Numbered(d) && |d.past.wire| < TWO_64
    ensures ClOrdId(d.orderSeq) !in Ordered(d.past.wire)
  {
    var wire, n := d.past.wire, |d.past.wire|;
    if IdAt(n) in Ordered(wire) {
      var m :| m in wire && m.NewOrderSingle? && m.clordid == IdAt(n);
      var i :| 0 <= i < n && wire[i] == m;
      IdsDiffer(i, n);
    }
  }

  lemma OrderedSnoc(wire: seq<WireMsg>, m: WireMsg)
    ensures Ordered(wire + [m]) == Ordered(wire) + if m.NewOrderSingle? then {m.clordid} else {}
  {
    forall id
      ensures id in Ordered(wire + [m]) <==> id in Ordered(wire) || (m.NewOrderSingle? && id == m.clordid)
    {
      if id in Ordered(wire) {
        var w :| w in wire && w.NewOrderSingle? && w.clordid == id;
        assert w in wire + [m];
      }
      if m.NewOrderSingle? && id == m.clordid {
        assert m in wire + [m];
      }
    }
  }

  lemma SendIocAccounts(d: Desk, side: Side, qty: int, l1: int, ts: nat, delivered: bool)
    requires Inv(d) && Accounted(d) && IdsLast(SendIoc(d, side, qty, l1, ts, delivered))
    ensures Accounted(SendIoc(d, side, qty, l1, ts, delivered))
  {
    if d.loggedOn {
      var id := ClOrdId(d.orderSeq);
      NewIdIsNew(d);
      OrderedSnoc(d.past.wire, NewOrderSingle(id, side, qty));
      var d' := SendIoc(d, side, qty, l1, ts, delivered);
      if delivered {
        assert d'.open.Keys == d.open.Keys + {id};
      } else {
        assert d'.open.Keys == d.open.Keys;
      }
    }
  }

  lemma CancelAccounts(d: Desk, id: string)
    requires Inv(d) && Accounted(d)
    ensures Accounted(CancelOrder(d, id))
  {
    if id in d.open {
      OrderedSnoc(d.past.wire, OrderCancelRequest(ClOrdId(d.orderSeq), id, d.open[id].side));
    }
  }

  lemma ReportAccounts(cfg: R.Config, d: Desk, id: string, kind: ExecType, px: int, now: nat)
    requires Accounted(d)
    ensures Accounted(OnExecutionReport(cfg, d, id, kind, px, now))
  {
    var d' := OnExecutionReport(cfg, d, id, kind, px, now);
    if id in d.open {
      assert d'.open.Keys == if kind.PartialFill? || kind.Other? then d.open.Keys else d.open.Keys - {id};
    }
  }

  lemma StepAccounts(cfg: R.Config, d: Desk, e: Event)
    requires Inv(d) && Accounted(d) && IdsLast(Step(cfg, d, e))
    ensures Accounted(Step(cfg, d, e))
  {
    match e
    case SignalTick(now, side, l1, delivered) =>
      if R.Admits(cfg, d.risk, now) {
        SendIocAccounts(d, side, 1, l1, now, delivered);
      }
    case TimerTick(now, bid, ask, delivered) =>
      if R.TimedOut(cfg, d.risk, now) {
        var o := d.risk.openOrder;
        CancelKeeps(d, o.clordid);
        CancelAccounts(d, o.clordid);
        SendIocAccounts(CancelOrder(d, o.clordid), Opposite(o.side), o.qty, ClosePrice(o, bid, ask), now, delivered);
      }
    case Report(id, kind, px, now) =>
      ReportAccounts(cfg, d, id, kind, px, now);
    case _ =>
  }

  /** Steps only ever add: to the messages and to the three final fates. */
  ghost predicate Grows(p: Past, p': Past) {
    p.wire <= p'.wire && p.filled <= p'.filled && p.refused <= p'.refused && p.failed <= p'.failed
  }

  lemma StepGrows(cfg: R.Config, d: Desk, e: Event)
    ensures Grows(d.past, Step(cfg, d, e).past)
  {
  }

  lemma {:induction false} RunAccounts(cfg: R.Config, es: seq<Event>)
    requires IdsLast(Run(cfg, es))
    ensures Accounted(Run(cfg, es))
  {
    if es != [] {
      var n := |es| - 1;
      StepGrows(cfg, Run(cfg, es[..n]), es[n]);
      RunAccounts(cfg, es[..n]);
      RunKeeps(cfg, es[..n]);
      StepAccounts(cfg, Run(cfg, es[..n]), es[n]);
    }
  }

  lemma {:induction false} RunsGrow(cfg: R.Config, es: seq<Event>, more: seq<Event>)
    ensures Grows(Run(cfg, es).past, Run(cfg, es + more).past)
    decreases |more|
  {
    if more == [] {
      assert es + more == es;
    } else {
      var n := |more| - 1;
      RunsGrow(cfg, es, more[..n]);
      assert es + more == (es + more[..n]) + [more[n]];
      RunGrows(cfg, es + more[..n], more[n]);
      StepGrows(cfg, Run(cfg, es + more[..n]), more[n]);
    }
  }

  /** Until the 64-bit counter has gone round, every order sent is exactly one of open, filled,
      refused and failed, and all ids on the wire differ. */
  lemma {:induction false} OrdersAreConserved(cfg: R.Config, es: seq<Event>)
    requires IdsLast(Run(cfg, es))
    ensures Accounted(Run(cfg, es))
    ensures var wire := Run(cfg, es).past.wire;
            forall i, j :: 0 <= i < j < |wire| ==> wire[i].clordid != wire[j].clordid
  {
    RunAccounts(cfg, es);
    RunKeeps(cfg, es);
    var wire := Run(cfg, es).past.wire;
    forall i, j | 0 <= i < j < |wire|
      ensures wire[i].clordid != wire[j].clordid
    {
      IdsDiffer(i, j);
    }
  }

  /** A final fate is final: whatever follows, the order keeps it and further reports about it
      change nothing. */
  lemma {:induction false} FatesAreFinal(cfg: R.Config, es: seq<Event>, more: seq<Event>,
                                         id: string, kind: ExecType, px: int, now: nat)
    requires IdsLast(Run(cfg, es + more))
    requires var p := Run(cfg, es).past; id in p.filled + p.refused + p.failed
    ensures var p, d := Run(cfg, es).past, Run(cfg, es + more);
            && (id in p.filled <==> id in d.past.filled)
            && (id in p.refused <==> id in d.past.refused)
            && (id in p.failed <==> id in d.past.failed)
            && Step(cfg, d, Report(id, kind, px, now)) == d
  {
    RunsGrow(cfg, es, more);
    RunAccounts(cfg, es + more);
  }

  /** An open order leaves the table through a fill, reject or expiry report about it and in no
      other way: not through the cancel request, nor its confirmation, which has no branch. */
  lemma LeavesIff(cfg: R.Config, d: Desk, e: Event, id: string)
    requires Inv(d) && Accounted(d) && IdsLast(Step(cfg, d, e)) && id in d.open
    ensures id !in Step(cfg, d, e).open <==>
              e.Report? && e.id == id && (e.kind.Fill? || e.kind.Rejected? || e.kind.Expired?)
  {
    match e
    case SignalTick(_, _, _, _) =>
      if R.Admits(cfg, d.risk, e.now) && d.loggedOn {
        NewIdIsNew(d);
      }
    case TimerTick(_, _, _, _) =>
      if R.TimedOut(cfg, d.risk, e.now) && d.loggedOn {
        var cancelled := CancelOrder(d, d.risk.openOrder.clordid);
        CancelKeeps(d, d.risk.openOrder.clordid);
        CancelAccounts(d, d.risk.openOrder.clordid);
        NewIdIsNew(cancelled);
      }
    case _ =>
  }

  // ---- The risk manager's view ----

  function ReportCall(o: Order, kind: ExecType, px: int, now: nat): R.Call {
    match kind
    case Fill => R.Fill(Executed(o, px, now, OrderStatus.Filled), now)
    case PartialFill => R.Fill(Executed(o, px, now, Pending), now)
    case _ => R.Reject
  }

  function ReportCalls(d: Desk, id: string, kind: ExecType, px: int, now: nat): seq<R.Call> {
    if id !in d.open || kind.Other? then [] else [ReportCall(d.open[id], kind, px, now)]
  }

  /** The calls one event makes on the risk manager that change it. */
  function RiskCalls(cfg: R.Config, d: Desk, e: Event): seq<R.Call> {
    match e
    case SignalTick(now, side, l1, delivered) =>
      if R.Admits(cfg, d.risk, now) then SendCalls(d, side, 1, l1, now, delivered) else []
    case TimerTick(now, bid, ask, delivered) =>
      if !R.TimedOut(cfg, d.risk, now) then []
      else
        var o := d.risk.openOrder;
        SendCalls(CancelOrder(d, o.clordid), Opposite(o.side), o.qty, ClosePrice(o, bid, ask), now, delivered)
    case Report(id, kind, px, now) => ReportCalls(d, id, kind, px, now)
    case DailyReset => [R.Reset]
    case _ => []
  }

  function SendCalls(d: Desk, side: Side, qty: int, l1: int, ts: nat, delivered: bool): seq<R.Call> {
    if !d.loggedOn then []
    else [R.OrderSent(NewOrder(d, side, qty, l1, ts), ts)] + if delivered then [] else [R.Reject]
  }

  function Calls(cfg: R.Config, es: seq<Event>): seq<R.Call> {
    if es == [] then []
    else
      var n := |es| - 1;
      Calls(cfg, es[..n]) + RiskCalls(cfg, Run(cfg, es[..n]), es[n])
  }

  lemma {:induction false} RiskRunSnoc(cfg: R.Config, calls: seq<R.Call>, c: R.Call)
    ensures R.Run(cfg, calls + [c]) == R.Step(cfg, R.Run(cfg, calls), c)
  {
    assert (calls + [c])[..|calls|] == calls;
  }

  lemma {:induction false} SendFollows(cfg: R.Config, d: Desk, side: Side, qty: int, l1: int, ts: nat, delivered: bool,
                    before: seq<R.Call>)
    requires d.risk == R.Run(cfg, before)
    ensures SendIoc(d, side, qty, l1, ts, delivered).risk
         == R.Run(cfg, before + SendCalls(d, side, qty, l1, ts, delivered))
  {
    if !d.loggedOn {
      assert before + [] == before;
    } else {
      var sent := R.OrderSent(NewOrder(d, side, qty, l1, ts), ts);
      RiskRunSnoc(cfg, before, sent);
      RiskRunSnoc(cfg, before + [sent], R.Reject);
      assert before + [sent] + [] == before + [sent] && before + ([sent] + []) == before + [sent];
      assert before + ([sent] + [R.Reject]) == before + [sent] + [R.Reject];
    }
  }

  lemma {:induction false} ReportFollows(cfg: R.Config, d: Desk, id: string, kind: ExecType, px: int, now: nat,
                                         before: seq<R.Call>)
    requires d.risk == R.Run(cfg, before)
    ensures OnExecutionReport(cfg, d, id, kind, px, now).risk
         == R.Run(cfg, before + ReportCalls(d, id, kind, px, now))
  {
    if id !in d.open || kind.Other? {
      assert before + [] == before;
    } else {
      RiskRunSnoc(cfg, before, ReportCall(d.open[id], kind, px, now));
    }
  }

  lemma {:induction false} StepFollows(cfg: R.Config, d: Desk, e: Event, before: seq<R.Call>)
    requires d.risk == R.Run(cfg, before)
    ensures Step(cfg, d, e).risk == R.Run(cfg, before + RiskCalls(cfg, d, e))
  {
    assert before + [] == before;
    match e
    case SignalTick(now, side, l1, delivered) =>
      if R.Admits(cfg, d.risk, now) {
        SendFollows(cfg, d, side, 1, l1, now, delivered, before);
      }
    case TimerTick(now, bid, ask, delivered) =>
      if R.TimedOut(cfg, d.risk, now) {
        var o := d.risk.openOrder;
        SendFollows(cfg, CancelOrder(d, o.clordid), Opposite(o.side), o.qty, ClosePrice(o, bid, ask), now,
                    delivered, before);
      }
    case Report(id, kind, px, now) =>
      ReportFollows(cfg, d, id, kind, px, now, before);
    case DailyReset =>
      RiskRunSnoc(cfg, before, R.Reset);
    case _ =>
  }

  /** The risk manager runs through exactly these calls, so all that holds of its runs holds in
      trading. */
  lemma {:induction false} RiskFollowsCalls(cfg: R.Config, es: seq<Event>)
    ensures Run(cfg, es).risk == R.Run(cfg, Calls(cfg, es))
  {
    if es != [] {
      var n := |es| - 1;
      RiskFollowsCalls(cfg, es[..n]);
      StepFollows(cfg, Run(cfg, es[..n]), es[n], Calls(cfg, es[..n]));
    }
  }

  /** A report that fills at least part of an open order. */
  predicate Accepted(d: Desk, e: Event) {
    e.Report? && e.id in d.open && (e.kind.Fill? || e.kind.PartialFill?)
  }

  /** Those reports since the last reset. */
  function AcceptedFills(cfg: R.Config, es: seq<Event>): nat {
    if es == [] then 0
    else
      var n := |es| - 1;
      if es[n].DailyReset? then 0
      else AcceptedFills(cfg, es[..n]) + if Accepted(Run(cfg, es[..n]), es[n]) then 1 else 0
  }

  lemma StepTrades(cfg: R.Config, d: Desk, e: Event)
    ensures Step(cfg, d, e).risk.trades
         == if e.DailyReset? then 0 else d.risk.trades + if Accepted(d, e) then 1 else 0
  {
  }

  /** The trades of the day are the accepted fill and partial fill reports. */
  lemma {:induction false} TradesAreFills(cfg: R.Config, es: seq<Event>)
    ensures Run(cfg, es).risk.trades == AcceptedFills(cfg, es)
  {
    if es != [] {
      var n := |es| - 1;
      TradesAreFills(cfg, es[..n]);
      StepTrades(cfg, Run(cfg, es[..n]), es[n]);
    }
  }

  /** The exec types of the FIX 4.4 dictionary. It reports a fill as a trade, 'F'. */
  const DICTIONARY_44 := "03456789ABCDEFGHI"

  ghost predicate Conforming(es: seq<Event>) {
    forall i :: 0 <= i < |es| && es[i].Report? ==> exists c :: c in DICTIONARY_44 && es[i].kind == ExecTypeOf(c)
  }

  lemma StepWithoutFill(cfg: R.Config, d: Desk, e: Event)
    requires !(e.Report? && (e.kind.Fill? || e.kind.PartialFill?)) && d.risk.pnl == 0.0
    ensures Step(cfg, d, e).past.filled == d.past.filled && Step(cfg, d, e).risk.pnl == 0.0
  {
  }

  /** The handler tests for the fill codes of earlier versions, which the 4.4 dictionary no longer
      has: reports that conform to it never fill anything. */
  lemma {:induction false} ConformingNeverFills(cfg: R.Config, es: seq<Event>)
    requires Conforming(es)
    ensures Run(cfg, es).past.filled == {} && AcceptedFills(cfg, es) == 0 && Run(cfg, es).risk.pnl == 0.0
  {
    if es != [] {
      var n := |es| - 1;
      assert Conforming(es[..n]);
      ConformingNeverFills(cfg, es[..n]);
      assert !(es[n].Report? && (es[n].kind.Fill? || es[n].kind.PartialFill?)) by {
        if es[n].Report? {
          var c :| c in DICTIONARY_44 && es[n].kind == ExecTypeOf(c);
          assert c != '1' && c != '2';
        }
      }
      StepWithoutFill(cfg, Run(cfg, es[..n]), es[n]);
    }
  }

  /** On a live session a signal becomes an order if and only if the fuse holds, nothing is open
      and the cooldown of the day's last trigger does not cover the clock reading. */
  lemma {:induction false} SignalSendsIff(cfg: R.Config, es: seq<Event>, now: nat, side: Side, l1: int, delivered: bool)
    requires Run(cfg, es).loggedOn && R.StampsFit(cfg, R.Fills(Calls(cfg, es)), now)
    ensures var d, d' := Run(cfg, es), Run(cfg, es + [SignalTick(now, side, l1, delivered)]);
            var fs := R.Fills(Calls(cfg, es));
            && (|d'.past.wire| > |d.past.wire| <==>
                  !R.Blown(cfg, fs) && !d.risk.hasPosition && !R.Covered(cfg, fs, now))
            && (|d'.past.wire| > |d.past.wire| ==>
                  d'.past.wire == d.past.wire + [NewOrderSingle(IdAt(|d.past.wire|), side, 1)])
  {
    RunGrows(cfg, es, SignalTick(now, side, l1, delivered));
    RiskFollowsCalls(cfg, es);
    RunKeeps(cfg, es);
    R.AccountsHold(cfg, Calls(cfg, es));
    R.AdmitsIff(cfg, Calls(cfg, es), now);
  }

  /** Event i is a report with the fill code about an order then open. */
  predicate FillsAt(cfg: R.Config, es: seq<Event>, i: nat) {
    i < |es| && es[i].Report? && es[i].kind == ExecTypeOf('2') && es[i].id in Run(cfg, es[..i]).open
  }

  ghost predicate SomeFill(cfg: R.Config, es: seq<Event>) {
    exists i: nat :: FillsAt(cfg, es, i)
  }

  lemma {:induction false} SomeFillSnoc(cfg: R.Config, es: seq<Event>, e: Event)
    ensures SomeFill(cfg, es + [e]) <==> SomeFill(cfg, es) || FillsAt(cfg, es + [e], |es|)
  {
    var all := es + [e];
    forall i: nat | i < |es|
      ensures FillsAt(cfg, all, i) <==> FillsAt(cfg, es, i)
    {
      assert all[..i] == es[..i];
    }
    if SomeFill(cfg, es) {
      var i: nat :| FillsAt(cfg, es, i);
      assert FillsAt(cfg, all, i);
    }
  }

  lemma StepFills(cfg: R.Config, d: Desk, e: Event)
    ensures Step(cfg, d, e).past.filled
         == d.past.filled + if e.Report? && e.kind.Fill? && e.id in d.open then {e.id} else {}
  {
  }

  /** Some order counts as filled if and only if a report with code '2' came while its order was
      open. */
  lemma {:induction false} FilledIff(cfg: R.Config, es: seq<Event>)
    ensures Run(cfg, es).past.filled != {} <==> SomeFill(cfg, es)
  {
    if es != [] {
      var before, last := es[..|es| - 1], es[|es| - 1];
      assert es == before + [last];
      FilledIff(cfg, before);
      RunGrows(cfg, before, last);
      StepFills(cfg, Run(cfg, before), last);
      SomeFillSnoc(cfg, before, last);
      assert es[..|before|] == before;
    }
  }

  /** The report of a trade as the dictionary has it, on an order that is open, does nothing. */
  lemma TradeReportIgnored(cfg: R.Config, d: Desk, id: string, px: int, now: nat)
    requires id in d.open
    ensures Step(cfg, d, Report(id, ExecTypeOf('F'), px, now)) == d
  {
  }

  // ---- One order at a time ----

  /** At most one order is open, and there is one exactly when there is a position. */
  ghost predicate OneAtATime(d: Desk) {
    |d.open| <= 1 && (d.risk.hasPosition <==> d.open != map[])
  }

  /** The three ways out: a partial fill of an open order, a timeout on a live session, and a
      reset with a position. */
  predicate Splits(cfg: R.Config, d: Desk, e: Event) {
    match e
    case Report(id, kind, _, _) => id in d.open && kind.PartialFill?
    case TimerTick(now, _, _, _) => R.TimedOut(cfg, d.risk, now) && d.loggedOn
    case DailyReset => d.risk.hasPosition
    case _ => false
  }

  lemma OnlyEntry(m: Orders, id: string)
    requires |m| <= 1 && id in m
    ensures m.Keys == {id} && m - {id} == map[]
  {
    if other :| other in m && other != id {
      assert {id, other} <= m.Keys;
      SubsetSize({id, other}, m.Keys);
    }
    assert m.Keys == {id};
  }

  lemma {:induction false} SubsetSize<T>(a: set<T>, b: set<T>)
    requires a <= b
    ensures |a| <= |b|
    decreases |a|
  {
    if a != {} {
      var x :| x in a;
      SubsetSize(a - {x}, b - {x});
    }
  }

  lemma SignalKeepsOne(cfg: R.Config, d: Desk, now: nat, side: Side, l1: int, delivered: bool)
    requires OneAtATime(d)
    ensures OneAtATime(OnSignal(cfg, d, now, side, l1, delivered))
  {
    if R.Admits(cfg, d.risk, now) && d.loggedOn {
      var id := ClOrdId(d.orderSeq);
      var o := NewOrder(d, side, 1, l1, now);
      assert d.open == map[];
      assert d.open[id := o] == map[id := o] && d.open[id := o].Keys == {id};
      assert map[id := o] - {id} == map[];
    }
  }

  lemma ReportKeepsOneIff(cfg: R.Config, d: Desk, e: Event)
    requires OneAtATime(d) && e.Report?
    ensures OneAtATime(Step(cfg, d, e)) <==> !Splits(cfg, d, e)
  {
    if e.id in d.open {
      OnlyEntry(d.open, e.id);
      if e.kind.PartialFill? {
        assert e.id in Step(cfg, d, e).open;
      }
    }
  }

  lemma TwoKeys(m: Orders, a: string, b: string)
    requires a in m && b in m && a != b
    ensures |m| >= 2
  {
    assert {a, b} <= m.Keys;
    SubsetSize({a, b}, m.Keys);
  }

  /** An order sent beside an open one: two are open, or the position is forgotten. */
  lemma SendBesideSplits(d: Desk, earlier: string, side: Side, qty: int, l1: int, ts: nat, delivered: bool)
    requires earlier in d.open && ClOrdId(d.orderSeq) !in d.open && d.loggedOn
    ensures !OneAtATime(SendIoc(d, side, qty, l1, ts, delivered))
  {
    var after := SendIoc(d, side, qty, l1, ts, delivered);
    assert earlier in after.open;
    if delivered {
      TwoKeys(after.open, earlier, ClOrdId(d.orderSeq));
    }
  }

  /** The timeout leaves the old order in the table beside the new one. */
  lemma TimeoutSplits(cfg: R.Config, d: Desk, e: Event)
    requires Inv(d) && Accounted(d) && IdsLast(Step(cfg, d, e))
    requires e.TimerTick? && Splits(cfg, d, e)
    ensures !OneAtATime(Step(cfg, d, e))
  {
    var o := d.risk.openOrder;
    var cancelled := CancelOrder(d, o.clordid);
    CancelKeeps(d, o.clordid);
    CancelAccounts(d, o.clordid);
    NewIdIsNew(cancelled);
    SendBesideSplits(cancelled, o.clordid, Opposite(o.side), o.qty, ClosePrice(o, e.bid, e.ask), e.now, e.delivered);
  }

  /** A step keeps one order at a time if and only if it is none of the three. */
  lemma {:induction false} StepKeepsOneIff(cfg: R.Config, d: Desk, e: Event)
    requires Inv(d) && Accounted(d) && OneAtATime(d) && IdsLast(Step(cfg, d, e))
    ensures OneAtATime(Step(cfg, d, e)) <==> !Splits(cfg, d, e)
  {
    match e
    case SignalTick(now, side, l1, delivered) =>
      SignalKeepsOne(cfg, d, now, side, l1, delivered);
    case Report(_, _, _, _) =>
      ReportKeepsOneIff(cfg, d, e);
    case TimerTick(_, _, _, _) =>
      if Splits(cfg, d, e) {
        TimeoutSplits(cfg, d, e);
      }
    case _ =>
  }

  ghost predicate NeverSplits(cfg: R.Config, es: seq<Event>) {
    forall i :: 0 <= i < |es| ==> !Splits(cfg, Run(cfg, es[..i]), es[i])
  }

  lemma {:induction false} WireOfPrefix(cfg: R.Config, es: seq<Event>, n: nat)
    requires n <= |es| && IdsLast(Run(cfg, es))
    ensures IdsLast(Run(cfg, es[..n]))
  {
    assert es == es[..n] + es[n..];
    RunsGrow(cfg, es[..n], es[n..]);
  }

  lemma {:induction false} RunAt(cfg: R.Config, es: seq<Event>, n: nat)
    requires n < |es|
    ensures Run(cfg, es[..n + 1]) == Step(cfg, Run(cfg, es[..n]), es[n])
  {
    assert es[..n + 1][..n] == es[..n];
  }

  /** Step n of a run. */
  lemma {:induction false} RunStepKeepsOneIff(cfg: R.Config, es: seq<Event>, n: nat)
    requires n < |es| && IdsLast(Run(cfg, es)) && OneAtATime(Run(cfg, es[..n]))
    ensures OneAtATime(Step(cfg, Run(cfg, es[..n]), es[n])) <==> !Splits(cfg, Run(cfg, es[..n]), es[n])
  {
    WireOfPrefix(cfg, es, n);
    WireOfPrefix(cfg, es, n + 1);
    RunAt(cfg, es, n);
    RunKeeps(cfg, es[..n]);
    RunAccounts(cfg, es[..n]);
    StepKeepsOneIff(cfg, Run(cfg, es[..n]), es[n]);
  }

  ghost predicate OneThroughout(cfg: R.Config, es: seq<Event>) {
    forall n :: 0 <= n <= |es| ==> OneAtATime(Run(cfg, es[..n]))
  }

  lemma {:induction false} NeverSplitsKeepsOne(cfg: R.Config, es: seq<Event>, n: nat)
    requires NeverSplits(cfg, es) && n <= |es| && IdsLast(Run(cfg, es))
    ensures OneAtATime(Run(cfg, es[..n]))
  {
    if n > 0 {
      NeverSplitsKeepsOne(cfg, es, n - 1);
      RunStepKeepsOneIff(cfg, es, n - 1);
      RunAt(cfg, es, n - 1);
    }
  }

  /** The desk has one order at a time throughout a run if and only if no step of the run is a
      partial fill, a timeout on a live session or a reset with a position. */
  lemma {:induction false} OneThroughoutIff(cfg: R.Config, es: seq<Event>)
    requires IdsLast(Run(cfg, es))
    ensures NeverSplits(cfg, es) <==> OneThroughout(cfg, es)
  {
    if NeverSplits(cfg, es) {
      forall n | 0 <= n <= |es|
        ensures OneAtATime(Run(cfg, es[..n]))
      {
        NeverSplitsKeepsOne(cfg, es, n);
      }
    } else {
      var i :| 0 <= i < |es| && Splits(cfg, Run(cfg, es[..i]), es[i]);
      if OneAtATime(Run(cfg, es[..i])) {
        RunStepKeepsOneIff(cfg, es, i);
        RunAt(cfg, es, i);
      }
      assert !OneThroughout(cfg, es);
    }
  }

  // ---- When two orders are open ----

  /** The two ways to a second open order: a signal admitted while one is still open without a
      position, and a timeout, each sent on a live session. */
  predicate AddsSecond(cfg: R.Config, d: Desk, e: Event) {
    match e
    case SignalTick(now, _, _, delivered) => R.Admits(cfg, d.risk, now) && d.loggedOn && delivered && d.open != map[]
    case TimerTick(now, _, _, delivered) => R.TimedOut(cfg, d.risk, now) && d.loggedOn && delivered
    case _ => false
  }

  /** Sending opens one more order exactly when it is delivered. */
  lemma SendOpens(d: Desk, side: Side, qty: int, l1: int, ts: nat, delivered: bool)
    requires d.loggedOn && ClOrdId(d.orderSeq) !in d.open
    ensures |SendIoc(d, side, qty, l1, ts, delivered).open| == |d.open| + if delivered then 1 else 0
  {
    var id, o := ClOrdId(d.orderSeq), NewOrder(d, side, qty, l1, ts);
    assert d.open[id := o].Keys == d.open.Keys + {id};
    assert d.open[id := o] - {id} == d.open;
  }

  lemma SignalOpens(cfg: R.Config, d: Desk, e: Event)
    requires Inv(d) && Accounted(d) && IdsLast(Step(cfg, d, e)) && e.SignalTick?
    ensures |Step(cfg, d, e).open|
         == |d.open| + if R.Admits(cfg, d.risk, e.now) && d.loggedOn && e.delivered then 1 else 0
  {
    if R.Admits(cfg, d.risk, e.now) && d.loggedOn {
      NewIdIsNew(d);
      SendOpens(d, e.side, 1, e.l1, e.now, e.delivered);
    }
  }

  lemma TimeoutOpens(cfg: R.Config, d: Desk, e: Event)
    requires Inv(d) && Accounted(d) && IdsLast(Step(cfg, d, e)) && e.TimerTick?
    ensures |Step(cfg, d, e).open| == |d.open| + if AddsSecond(cfg, d, e) then 1 else 0
  {
    if R.TimedOut(cfg, d.risk, e.now) && d.loggedOn {
      var o := d.risk.openOrder;
      var cancelled := CancelOrder(d, o.clordid);
      CancelKeeps(d, o.clordid);
      CancelAccounts(d, o.clordid);
      NewIdIsNew(cancelled);
      SendOpens(cancelled, Opposite(o.side), o.qty, ClosePrice(o, e.bid, e.ask), e.now, e.delivered);
    }
  }

  lemma ReportOpensNone(cfg: R.Config, d: Desk, e: Event)
    requires e.Report?
    ensures |Step(cfg, d, e).open| <= |d.open|
  {
    var d' := Step(cfg, d, e);
    assert d'.open.Keys <= d.open.Keys;
    SubsetSize(d'.open.Keys, d.open.Keys);
  }

  /** A step from at most one open order leads to two if and only if it is one of the two. */
  lemma {:induction false} StepOpensSecondIff(cfg: R.Config, d: Desk, e: Event)
    requires Inv(d) && Accounted(d) && IdsLast(Step(cfg, d, e)) && |d.open| <= 1
    ensures |Step(cfg, d, e).open| <= 1 <==> !AddsSecond(cfg, d, e)
  {
    match e
    case SignalTick(_, _, _, _) =>
      SignalOpens(cfg, d, e);
    case TimerTick(_, _, _, _) =>
      TimeoutOpens(cfg, d, e);
      if AddsSecond(cfg, d, e) {
        assert d.risk.openOrder.clordid in d.open;
      }
    case Report(_, _, _, _) =>
      ReportOpensNone(cfg, d, e);
    case _ =>
  }

  ghost predicate NeverAddsSecond(cfg: R.Config, es: seq<Event>) {
    forall i :: 0 <= i < |es| ==> !AddsSecond(cfg, Run(cfg, es[..i]), es[i])
  }

  ghost predicate AtMostOne(cfg: R.Config, es: seq<Event>) {
    forall n :: 0 <= n <= |es| ==> |Run(cfg, es[..n]).open| <= 1
  }

  lemma {:induction false} RunStepOpensSecondIff(cfg: R.Config, es: seq<Event>, n: nat)
    requires n < |es| && IdsLast(Run(cfg, es)) && |Run(cfg, es[..n]).open| <= 1
    ensures |Step(cfg, Run(cfg, es[..n]), es[n]).open| <= 1 <==> !AddsSecond(cfg, Run(cfg, es[..n]), es[n])
  {
    WireOfPrefix(cfg, es, n);
    WireOfPrefix(cfg, es, n + 1);
    RunAt(cfg, es, n);
    RunKeeps(cfg, es[..n]);
    RunAccounts(cfg, es[..n]);
    StepOpensSecondIff(cfg, Run(cfg, es[..n]), es[n]);
  }

  lemma {:induction false} NeverAddsSecondKeepsOne(cfg: R.Config, es: seq<Event>, n: nat)
    requires NeverAddsSecond(cfg, es) && n <= |es| && IdsLast(Run(cfg, es))
    ensures |Run(cfg, es[..n]).open| <= 1
  {
    if n > 0 {
      NeverAddsSecondKeepsOne(cfg, es, n - 1);
      RunStepOpensSecondIff(cfg, es, n - 1);
      RunAt(cfg, es, n - 1);
    }
  }

  /** The documented limit of one open order holds throughout a run if and only if no step of it
      is an admitted signal while an order is open, or a timeout, sent on a live session. */
  lemma {:induction false} AtMostOneIff(cfg: R.Config, es: seq<Event>)
    requires IdsLast(Run(cfg, es))
    ensures NeverAddsSecond(cfg, es) <==> AtMostOne(cfg, es)
  {
    if NeverAddsSecond(cfg, es) {
      forall n | 0 <= n <= |es|
        ensures |Run(cfg, es[..n]).open| <= 1
      {
        NeverAddsSecondKeepsOne(cfg, es, n);
      }
    } else {
      var i :| 0 <= i < |es| && AddsSecond(cfg, Run(cfg, es[..i]), es[i]);
      if |Run(cfg, es[..i]).open| <= 1 {
        RunStepOpensSecondIff(cfg, es, i);
        RunAt(cfg, es, i);
      }
      assert !AtMostOne(cfg, es);
    }
  }

  /** A position held to its timeout: the closing order opens beside the one it closes. */
  lemma {:induction false} TimeoutOpensSecond(cfg: R.Config)
    ensures var es := [Logon, SignalTick(1, BuySide, 100, true), TimerTick(1 + cfg.positionTimeoutNs, 100, 101, true)];
            Run(cfg, es).open.Keys == {ClOrdId(1), ClOrdId(3)} && ClOrdId(1) != ClOrdId(3)
  {
    var buy, timer := SignalTick(1, BuySide, 100, true), TimerTick(1 + cfg.positionTimeoutNs, 100, 101, true);
    var es := [Logon, buy, timer];
    assert es[..2] == [Logon, buy] && es[..2][..1] == [Logon] && [Logon][..0] == [];
    var d0 := OPENING.(loggedOn := true);
    assert Run(cfg, [Logon]) == d0;
    var d1 := Step(cfg, d0, buy);
    assert Run(cfg, es[..2]) == d1;
    assert Run(cfg, es) == Step(cfg, d1, timer);
    IdFits(1);
    assert d1.risk.openOrder.clordid == ClOrdId(1);
    assert R.TimedOut(cfg, d1.risk, timer.now);
    IdsAreDistinctAndFit(1, 3);
  }

  /** After a partial fill the rest of the order is still open, but the risk manager admits the
      next signal: two orders are open at once. */
  lemma {:induction false} PartialFillAdmitsSecond(cfg: R.Config)
    requires cfg.singleSlipAbort >= 0.0 && cfg.cooldownSlipTicks >= 0.0 && cfg.maxDailyLoss >= 0.0
    ensures var es := [Logon, SignalTick(1, BuySide, 100, true), Report(ClOrdId(1), PartialFill, 100, 2),
                       SignalTick(3, BuySide, 100, true)];
            Run(cfg, es).open.Keys == {ClOrdId(1), ClOrdId(2)} && ClOrdId(1) != ClOrdId(2)
  {
    var buy := SignalTick(1, BuySide, 100, true);
    var part := Report(ClOrdId(1), PartialFill, 100, 2);
    var again := SignalTick(3, BuySide, 100, true);
    var es := [Logon, buy, part, again];
    assert es[..3] == [Logon, buy, part] && es[..3][..2] == [Logon, buy] && es[..3][..2][..1] == [Logon];
    assert [Logon][..0] == [];
    var d0 := OPENING.(loggedOn := true);
    assert Run(cfg, [Logon]) == d0;
    var d1 := Step(cfg, d0, buy);
    assert Run(cfg, es[..3][..2]) == d1;
    var d2 := Step(cfg, d1, part);
    assert Run(cfg, es[..3]) == d2;
    assert Run(cfg, es) == Step(cfg, d2, again);
    IdsAreDistinctAndFit(1, 2);
    assert R.Admits(cfg, d2.risk, 3);
    assert Run(cfg, es).open.Keys == {ClOrdId(1), ClOrdId(2)};
  }

  // ---- What has been bought and not sold ----

  function SignedQty(o: Order): int {
    if o.side.BuySide? then o.qty else -o.qty
  }

  /** What the account holds: the signed quantities of the filled orders. */
  function Holding(cfg: R.Config, es: seq<Event>): int {
    if es == [] then 0
    else
      var n := |es| - 1;
      Holding(cfg, es[..n]) + if FillsAt(cfg, es, n) then SignedQty(Run(cfg, es[..n]).open[es[n].id]) else 0
  }

  /** Nothing open, nothing against the next signal. */
  ghost predicate Idle(d: Desk) {
    && d.loggedOn && d.open == map[] && !d.risk.hasPosition && !d.risk.fused
    && d.risk.pnl == 0.0 && d.risk.consecSlips == 0 && d.risk.cooldownStartNs == 0
  }

  predicate Sane(cfg: R.Config) {
    cfg.singleSlipAbort >= 0.0 && cfg.cooldownSlipTicks >= 0.0 && cfg.maxDailyLoss >= 0.0
  }

  function Bought(now: nat): Event {
    SignalTick(now, BuySide, 100, true)
  }

  function FilledAt(id: string, now: nat): Event {
    Report(id, ExecTypeOf('2'), 100, now)
  }

  lemma BuyAndFill(cfg: R.Config, d: Desk, now: nat)
    requires Sane(cfg) && Idle(d)
    ensures var id, d1 := ClOrdId(d.orderSeq), Step(cfg, d, Bought(now));
            && |d1.open| == 1 && id in d1.open && SignedQty(d1.open[id]) == 1
            && Idle(Step(cfg, d1, FilledAt(id, now)))
  {
    var id, d1 := ClOrdId(d.orderSeq), Step(cfg, d, Bought(now));
    assert d1.open.Keys == {id};
    assert d1.open - {id} == map[];
  }

  lemma {:induction false} AtMostOneSnoc(cfg: R.Config, es: seq<Event>, e: Event)
    requires AtMostOne(cfg, es) && |Run(cfg, es + [e]).open| <= 1
    ensures AtMostOne(cfg, es + [e])
  {
    var all := es + [e];
    forall n | 0 <= n <= |all|
      ensures |Run(cfg, all[..n]).open| <= 1
    {
      if n <= |es| {
        assert all[..n] == es[..n];
      } else {
        assert all[..n] == all;
      }
    }
  }

  lemma {:induction false} HoldingSnoc(cfg: R.Config, es: seq<Event>, e: Event)
    ensures Holding(cfg, es + [e])
         == Holding(cfg, es) + if e.Report? && e.kind.Fill? && e.id in Run(cfg, es).open
                               then SignedQty(Run(cfg, es).open[e.id]) else 0
  {
    assert (es + [e])[..|es|] == es;
  }

  lemma {:induction false} OneMoreLot(cfg: R.Config, es: seq<Event>, now: nat) returns (longer: seq<Event>)
    requires Sane(cfg) && Idle(Run(cfg, es)) && AtMostOne(cfg, es)
    ensures Idle(Run(cfg, longer)) && AtMostOne(cfg, longer) && Holding(cfg, longer) == Holding(cfg, es) + 1
  {
    var d := Run(cfg, es);
    var buy, fill := Bought(now), FilledAt(ClOrdId(d.orderSeq), now);
    BuyAndFill(cfg, d, now);
    RunGrows(cfg, es, buy);
    HoldingSnoc(cfg, es, buy);
    AtMostOneSnoc(cfg, es, buy);
    RunGrows(cfg, es + [buy], fill);
    HoldingSnoc(cfg, es + [buy], fill);
    AtMostOneSnoc(cfg, es + [buy], fill);
    longer := es + [buy] + [fill];
  }

  /** The position the rules speak of is an order in flight. What has been filled they neither count
      nor close: for any size there is a run, with never more than one order open, after which the
      account holds that much, the table is empty and no timer tick does anything. */
  lemma {:induction false} HoldingsAreNotPositions(cfg: R.Config, lots: nat) returns (es: seq<Event>)
    requires Sane(cfg)
    ensures AtMostOne(cfg, es) && Holding(cfg, es) == lots && Idle(Run(cfg, es))
    ensures forall now, bid, ask, delivered ::
              Step(cfg, Run(cfg, es), TimerTick(now, bid, ask, delivered)) == Run(cfg, es)
  {
    if lots == 0 {
      es := [Logon];
      assert es[..0] == [] && es[..1] == es;
      assert Run(cfg, es) == OPENING.(loggedOn := true);
    } else {
      var fewer := HoldingsAreNotPositions(cfg, lots - 1);
      es := OneMoreLot(cfg, fewer, lots);
    }
  }
}
