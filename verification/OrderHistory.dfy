/** What an open order of the table is, and what fills cost, told by the events of the run. */
module OrderHistory {
  import opened Types
  import opened ClOrdIds
  import opened OrderDesk
  import opened Trading
  import R = RiskManager

  // ---- One report ----

  /** The distance of two prices in ticks, none when either is missing. */
  function TicksBetween(px: int, s: int): (ticks: real)
    ensures ticks >= 0.0
  {
    if px == 0 || s == 0 then 0.0 else if px < s then (s - px) as real / 100.0 else (px - s) as real / 100.0
  }

  lemma SlippageIs(o: Order)
    ensures R.Slippage(o) == TicksBetween(o.fillPrice, o.signalL1)
  {
  }

  /** A report with the code of a fill or a partial fill about an open order sent at signal price s costs the
      ticks between the price it reports and s. A partial fill leaves the order in the table with that
      price and time, and otherwise as it was; a fill takes it out. */
  lemma {:induction false} AcceptedReport(cfg: R.Config, es: seq<Event>, id: string, code: char, px: int, now: nat)
    requires (code == '1' || code == '2') && id in Run(cfg, es).open
    ensures var d, d' := Run(cfg, es), Run(cfg, es + [Report(id, ExecTypeOf(code), px, now)]);
            var o := d.open[id];
            && d'.risk.pnl == d.risk.pnl - TicksBetween(px, o.signalL1) * cfg.tickSize
            && d'.risk.trades == d.risk.trades + 1 && !d'.risk.hasPosition
            && d'.open == if code == '2' then d.open - {id}
                          else d.open[id := Order(o.clordid, o.sentTsNs, now, o.signalL1, px, o.qty, o.side, Pending)]
  {
    var d := Run(cfg, es);
    RunGrows(cfg, es, Report(id, ExecTypeOf(code), px, now));
    SlippageIs(Executed(d.open[id], px, now, OrderStatus.Filled));
    SlippageIs(Executed(d.open[id], px, now, Pending));
  }

  /** By the codes of reports about an open order: 2, 8 and C take it out of the table, for good as filled or
      refused; 1 leaves it there; any other changes nothing. */
  lemma {:induction false} LeavesByCode(cfg: R.Config, es: seq<Event>, id: string, code: char, px: int, now: nat)
    requires id in Run(cfg, es).open
    ensures var d, d' := Run(cfg, es), Run(cfg, es + [Report(id, ExecTypeOf(code), px, now)]);
            && (id !in d'.open <==> code == '2' || code == '8' || code == 'C')
            && d'.past.filled == d.past.filled + (if code == '2' then {id} else {})
            && d'.past.refused == d.past.refused + (if code == '8' || code == 'C' then {id} else {})
            && (d' == d || code == '1' || code == '2' || code == '8' || code == 'C')
            && (code == '8' || code == 'C' ==> d'.risk == d.risk.(hasPosition := false))
  {
    RunGrows(cfg, es, Report(id, ExecTypeOf(code), px, now));
  }

  // ---- The session ----

  /** The session is up when it came up last. */
  predicate SessionUp(es: seq<Event>) {
    if es == [] then false
    else
      match es[|es| - 1]
      case Logon => true
      case Logout => false
      case _ => SessionUp(es[..|es| - 1])
  }

  lemma {:induction false} DeskKnowsSession(cfg: R.Config, es: seq<Event>)
    ensures Run(cfg, es).loggedOn <==> SessionUp(es)
  {
    if es != [] {
      DeskKnowsSession(cfg, es[..|es| - 1]);
    }
  }

  /** While the session is down no event sends an order or puts one into the table. */
  lemma {:induction false} NoOrderOffSession(cfg: R.Config, es: seq<Event>, e: Event)
    requires !SessionUp(es)
    ensures var d, d' := Run(cfg, es), Run(cfg, es + [e]);
            Ordered(d'.past.wire) == Ordered(d.past.wire) && d'.open.Keys <= d.open.Keys
  {
    DeskKnowsSession(cfg, es);
    RunGrows(cfg, es, e);
    var d := Run(cfg, es);
    if e.TimerTick? && d.risk.openOrder.clordid in d.open {
      var o := d.risk.openOrder;
      OrderedSnoc(d.past.wire, OrderCancelRequest(ClOrdId(d.orderSeq), o.clordid, d.open[o.clordid].side));
    }
  }

  // ---- What the fills of a day cost ----

  /** What one event costs in ticks: for an accepted report, the ticks between the two prices. */
  function TicksOf(d: Desk, e: Event): real {
    if e.Report? && (e.kind.Fill? || e.kind.PartialFill?) && e.id in d.open
    then TicksBetween(e.px, d.open[e.id].signalL1) else 0.0
  }

  /** The ticks lost since the last reset. */
  function TicksLost(cfg: R.Config, es: seq<Event>): real {
    if es == [] then 0.0
    else
      var n := |es| - 1;
      if es[n].DailyReset? then 0.0 else TicksLost(cfg, es[..n]) + TicksOf(Run(cfg, es[..n]), es[n])
  }

  lemma StepCosts(cfg: R.Config, d: Desk, e: Event)
    ensures Step(cfg, d, e).risk.pnl == if e.DailyReset? then 0.0 else d.risk.pnl - TicksOf(d, e) * cfg.tickSize
  {
    if e.Report? && e.id in d.open {
      SlippageIs(Executed(d.open[e.id], e.px, e.now, OrderStatus.Filled));
      SlippageIs(Executed(d.open[e.id], e.px, e.now, Pending));
    }
  }

  ghost predicate Lost(pnl: real, tick: real, ticks: real) {
    pnl == -(tick * ticks)
  }

  lemma LoseMore(pnl: real, tick: real, ticks: real, more: real)
    ensures Lost(0.0, tick, 0.0)
    ensures Lost(pnl, tick, ticks) ==> Lost(pnl - more * tick, tick, ticks + more)
  {
  }

  lemma StepLoses(cfg: R.Config, d: Desk, e: Event, ticks: real, ticks': real)
    requires Lost(d.risk.pnl, cfg.tickSize, ticks)
    requires ticks' == if e.DailyReset? then 0.0 else ticks + TicksOf(d, e)
    ensures Lost(Step(cfg, d, e).risk.pnl, cfg.tickSize, ticks')
  {
    StepCosts(cfg, d, e);
    LoseMore(d.risk.pnl, cfg.tickSize, ticks, TicksOf(d, e));
  }

  lemma {:induction false} TicksLostSnoc(cfg: R.Config, es: seq<Event>, e: Event)
    ensures TicksLost(cfg, es + [e]) == if e.DailyReset? then 0.0 else TicksLost(cfg, es) + TicksOf(Run(cfg, es), e)
  {
    assert (es + [e])[..|es|] == es;
  }

  /** On every run the result of the day is the tick size times the ticks between what was reported and what
      was signalled, taken off. */
  lemma {:induction false} ResultIsTicksLost(cfg: R.Config, es: seq<Event>)
    ensures Lost(Run(cfg, es).risk.pnl, cfg.tickSize, TicksLost(cfg, es))
  {
    if es == [] {
      LoseMore(0.0, cfg.tickSize, 0.0, 0.0);
    } else {
      var before, e := es[..|es| - 1], es[|es| - 1];
      assert es == before + [e];
      ResultIsTicksLost(cfg, before);
      RunGrows(cfg, before, e);
      TicksLostSnoc(cfg, before, e);
      StepLoses(cfg, Run(cfg, before), e, TicksLost(cfg, before), TicksLost(cfg, es));
    }
  }

  // ---- What an open order is ----

  /** The order is what event e asks for on this desk: a signal's for one lot at its price, or the one that
      closes the open position, for its quantity on the other side, at the best price of the side hit. */
  predicate AskedFor(d: Desk, e: Event, o: Order) {
    match e
    case SignalTick(now, side, l1, _) =>
      o.sentTsNs == now && o.side == side && o.qty == 1 && o.signalL1 == l1
    case TimerTick(now, bid, ask, _) =>
      var p := d.risk.openOrder;
      && o.sentTsNs == now && o.side != p.side && o.qty == p.qty
      && o.signalL1 == (if o.side.SellSide? then bid else ask)
    case _ => false
  }

  /** Event i sends this order, and its message goes over the wire. */
  predicate SentAt(cfg: R.Config, es: seq<Event>, i: nat, o: Order)
    requires i < |es|
  {
    && AskedFor(Run(cfg, es[..i]), es[i], o)
    && NewOrderSingle(o.clordid, o.side, o.qty) in Run(cfg, es[..i + 1]).past.wire
    && NewOrderSingle(o.clordid, o.side, o.qty) !in Run(cfg, es[..i]).past.wire
  }

  predicate IsPart(e: Event, id: string) {
    e.Report? && e.id == id && e.kind.PartialFill?
  }

  /** The order has the price and the time of the last partial fill of it reported after event i, if any. */
  function PartSince(es: seq<Event>, i: nat, id: string): Option<(int, nat)> {
    if |es| <= i + 1 then None
    else
      var e := es[|es| - 1];
      if IsPart(e, id) then Some((e.px, e.now)) else PartSince(es[..|es| - 1], i, id)
  }

  ghost predicate Tells(cfg: R.Config, es: seq<Event>, i: nat, o: Order) {
    && i < |es| && SentAt(cfg, es, i, o)
    && match PartSince(es, i, o.clordid)
       case None => o.fillPrice == 0 && o.fillTsNs == 0 && o.status.Sent?
       case Some(part) => o.fillPrice == part.0 && o.fillTsNs == part.1 && o.status.Pending?
  }

  /** The table after a step: what it keeps, what a partial fill writes, and what was just sent. */
  ghost predicate Explained(d: Desk, e: Event, d': Desk, o: Order) {
    || (o.clordid in d.open && IsPart(e, o.clordid)
        && var w := d.open[o.clordid];
           o == Order(w.clordid, w.sentTsNs, e.now, w.signalL1, e.px, w.qty, w.side, Pending))
    || (o.clordid in d.open && !IsPart(e, o.clordid) && o == d.open[o.clordid])
    || (AskedFor(d, e, o) && o.fillPrice == 0 && o.fillTsNs == 0 && o.status.Sent?
        && NewOrderSingle(o.clordid, o.side, o.qty) in d'.past.wire
        && NewOrderSingle(o.clordid, o.side, o.qty) !in d.past.wire)
  }

  lemma NewMessage(d: Desk, m: WireMsg)
    requires Numbered(d) && IdsLast(Sends(d, m)) && m.NewOrderSingle? && m.clordid == ClOrdId(d.orderSeq)
    ensures m !in d.past.wire && m in Sends(d, m).past.wire
  {
    NewIdIsNew(d);
    assert Sends(d, m).past.wire[|d.past.wire|] == m;
  }

  lemma SendExplained(d: Desk, d0: Desk, side: Side, qty: int, l1: int, ts: nat, delivered: bool, e: Event, id: string)
    requires Inv(d) && IdsLast(SendIoc(d, side, qty, l1, ts, delivered))
    requires d.open == d0.open && d0.past.wire <= d.past.wire && (e.SignalTick? || e.TimerTick?)
    requires AskedFor(d0, e, NewOrder(d, side, qty, l1, ts))
    requires id in SendIoc(d, side, qty, l1, ts, delivered).open
    ensures var d' := SendIoc(d, side, qty, l1, ts, delivered); Explained(d0, e, d', d'.open[id])
  {
    if d.loggedOn {
      IdFits(d.orderSeq);
      NewMessage(d, NewOrderSingle(ClOrdId(d.orderSeq), side, qty));
    }
  }

  lemma StepExplained(cfg: R.Config, d: Desk, e: Event, id: string)
    requires Inv(d) && IdsLast(Step(cfg, d, e)) && id in Step(cfg, d, e).open
    ensures Step(cfg, d, e).open[id].clordid == id && Explained(d, e, Step(cfg, d, e), Step(cfg, d, e).open[id])
  {
    StepKeeps(cfg, d, e);
    match e
    case SignalTick(now, side, l1, delivered) =>
      if R.Admits(cfg, d.risk, now) {
        SendExplained(d, d, side, 1, l1, now, delivered, e, id);
      }
    case TimerTick(now, bid, ask, delivered) =>
      if R.TimedOut(cfg, d.risk, now) {
        var o := d.risk.openOrder;
        CancelKeeps(d, o.clordid);
        SendExplained(CancelOrder(d, o.clordid), d, Opposite(o.side), o.qty, ClosePrice(o, bid, ask), now, delivered,
                      e, id);
      }
    case _ =>
  }

  lemma {:induction false} SentStays(cfg: R.Config, es: seq<Event>, e: Event, i: nat, o: Order)
    requires i < |es|
    ensures SentAt(cfg, es + [e], i, o) <==> SentAt(cfg, es, i, o)
  {
    assert (es + [e])[..i] == es[..i] && (es + [e])[..i + 1] == es[..i + 1];
  }

  lemma {:induction false} PartSnoc(es: seq<Event>, e: Event, i: nat, id: string)
    requires i < |es|
    ensures PartSince(es + [e], i, id) == if IsPart(e, id) then Some((e.px, e.now)) else PartSince(es, i, id)
  {
    assert (es + [e])[..|es|] == es;
  }

  lemma {:induction false} StillTells(cfg: R.Config, es: seq<Event>, e: Event, i: nat, w: Order, o: Order)
    requires Tells(cfg, es, i, w)
    requires if IsPart(e, w.clordid)
             then o == Order(w.clordid, w.sentTsNs, e.now, w.signalL1, e.px, w.qty, w.side, Pending) else o == w
    ensures Tells(cfg, es + [e], i, o)
  {
    SentStays(cfg, es, e, i, o);
    PartSnoc(es, e, i, w.clordid);
    assert AskedFor(Run(cfg, es[..i]), es[i], o) <==> AskedFor(Run(cfg, es[..i]), es[i], w);
  }

  lemma {:induction false} NowTells(cfg: R.Config, es: seq<Event>, e: Event, o: Order)
    requires AskedFor(Run(cfg, es), e, o) && o.fillPrice == 0 && o.fillTsNs == 0 && o.status.Sent?
    requires NewOrderSingle(o.clordid, o.side, o.qty) in Run(cfg, es + [e]).past.wire
    requires NewOrderSingle(o.clordid, o.side, o.qty) !in Run(cfg, es).past.wire
    ensures Tells(cfg, es + [e], |es|, o)
  {
    assert (es + [e])[..|es|] == es && (es + [e])[..|es| + 1] == es + [e];
  }

  /** Until the 64-bit counter has gone round: an open order is what some event of the run asked for when it
      was sent, with the price and the time of the last partial fill of it reported since. */
  lemma {:induction false} OpenOrderIsAsSent(cfg: R.Config, es: seq<Event>, id: string) returns (i: nat)
    requires IdsLast(Run(cfg, es)) && id in Run(cfg, es).open
    ensures Run(cfg, es).open[id].clordid == id && Tells(cfg, es, i, Run(cfg, es).open[id])
  {
    var n := |es| - 1;
    var before, e := es[..n], es[n];
    var d, o := Run(cfg, before), Run(cfg, es).open[id];
    assert es == before + [e];
    RunKeeps(cfg, before);
    StepExplained(cfg, d, e, id);
    if id in d.open && (if IsPart(e, id)
                        then o == Order(d.open[id].clordid, d.open[id].sentTsNs, e.now, d.open[id].signalL1, e.px,
                                        d.open[id].qty, d.open[id].side, Pending)
                        else o == d.open[id]) {
      StepGrows(cfg, d, e);
      i := OpenOrderIsAsSent(cfg, before, id);
      StillTells(cfg, before, e, i, d.open[id], o);
    } else {
      NowTells(cfg, before, e, o);
      i := n;
    }
  }
}
