/** The order manager: sends orders, cancels them, and routes execution reports to the risk manager. */
module OrderManager {
  import opened Types
  import opened ClOrdIds
  import opened D = OrderDesk
  import R = RiskManager

  class OrderManager {
    const risk: R.RiskManager
    var loggedOn: bool
    var orderSeq: nat
    var openOrders: Orders
    ghost var past: Past

    ghost function State(): Desk
      reads this, risk
    {
      Desk(loggedOn, orderSeq, openOrders, risk.State(), past)
    }

    constructor (risk: R.RiskManager)
      requires risk.State() == R.FRESH
      ensures State() == OPENING && this.risk == risk
    {
      this.risk := risk;
      loggedOn, orderSeq, openOrders := false, 1, map[];
      past := OPENING.past;
    }

    method OnLogon()
      modifies this`loggedOn
      ensures loggedOn
    {
      loggedOn := true;
    }

    method OnLogout()
      modifies this`loggedOn
      ensures !loggedOn
    {
      loggedOn := false;
    }

    method NextClOrdId() returns (id: string)
      modifies this`orderSeq
      ensures id == ClOrdId(old(orderSeq)) && orderSeq == NextSeq(old(orderSeq))
    {
      var n := orderSeq;
      orderSeq := NextSeq(orderSeq);
      id := ClOrdId(n);
    }

    /** Sends a market order; `delivered` is whether the session was found. */
    method SendIoc(side: Side, qty: int, l1: int, ts: nat, delivered: bool) returns (clordid: string)
      modifies this, risk
      ensures State() == D.SendIoc(old(State()), side, qty, l1, ts, delivered)
      ensures clordid == if old(loggedOn) && delivered then ClOrdId(old(orderSeq)) else ""
    {
      if !loggedOn {
        return "";
      }
      clordid := NextClOrdId();
      var o := Order(Copied(clordid), ts, 0, l1, 0, qty, side, Sent);
      openOrders := openOrders[clordid := o];
      risk.OnOrderSent(o, ts);
      past := past.(wire := past.wire + [NewOrderSingle(clordid, side, qty)]);
      if !delivered {
        openOrders := openOrders - {clordid};
        risk.OnReject();
        past := past.(failed := past.failed + {clordid});
        return "";
      }
    }

    method CancelOrder(id: string)
      modifies this`orderSeq, this`past
      ensures State() == D.CancelOrder(old(State()), id)
    {
      if id !in openOrders {
        return;
      }
      var requestId := NextClOrdId();
      past := past.(wire := past.wire + [OrderCancelRequest(requestId, id, openOrders[id].side)]);
    }

    method OnExecutionReport(id: string, kind: ExecType, lastPx: Option<int>, now: nat)
      modifies this`openOrders, this`past, risk
      ensures State() == D.OnExecutionReport(risk.cfg, old(State()), id, kind,
                                                        if lastPx.Some? then lastPx.value else 0, now)
    {
      if id !in openOrders {
        return;
      }
      var o := openOrders[id];
      if kind.Fill? || kind.PartialFill? {
        o := o.(fillPrice := if lastPx.Some? then lastPx.value else 0, fillTsNs := now,
                status := if kind.Fill? then OrderStatus.Filled else Pending);
        openOrders := openOrders[id := o];
        risk.OnFill(o, now);
        if kind.Fill? {
          openOrders := openOrders - {id};
          past := past.(filled := past.filled + {id});
          assert openOrders == old(openOrders) - {id};
        }
      } else if kind.Rejected? || kind.Expired? {
        risk.OnReject();
        openOrders := openOrders - {id};
        past := past.(refused := past.refused + {id});
      }
    }

    /** The trading half of one turn of the alpha loop: first the position timeout, then the
        signal, if the engine fired on this event. */
    method AlphaTurn(now: nat, bid: int, ask: int, signal: Option<Signal>, closeDelivered: bool, delivered: bool)
      modifies this, risk
      ensures var timed := OnTimer(risk.cfg, old(State()), now, bid, ask, closeDelivered);
              State() == if signal.None? then timed
                         else OnSignal(risk.cfg, timed, now,
                                       if signal.value.direction.Buy? then BuySide else SellSide,
                                       signal.value.l1Price, delivered)
    {
      var due := risk.OnTimer(now);
      if due.Some? {
        var o := due.value;
        CancelOrder(o.clordid);
        var closing := SendIoc(if o.side.BuySide? then SellSide else BuySide, o.qty,
                               if o.side.BuySide? then bid else ask, now, closeDelivered);
      }
      if signal.None? {
        return;
      }
      var ok := risk.CheckSignal(now);
      if ok {
        var sent := SendIoc(if signal.value.direction.Buy? then BuySide else SellSide, 1,
                            signal.value.l1Price, now, delivered);
      }
    }
  }
}
