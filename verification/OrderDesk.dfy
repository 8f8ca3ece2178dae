/** What each order operation does to the desk: the order manager and the risk manager it reports to. */
module OrderDesk {
  import opened Types
  import opened ClOrdIds
  import R = RiskManager

  /** What is handed to the trade session, delivered or not. */
  datatype WireMsg =
    | NewOrderSingle(clordid: string, side: Side, qty: int)
    | OrderCancelRequest(clordid: string, orig: string, side: Side)

  /** The exec types of a report. Other stands for those without a branch, a cancel among them. */
  datatype ExecType = Fill | PartialFill | Rejected | Expired | Other

  /** The codes the report handler tests for. */
  function ExecTypeOf(c: char): ExecType {
    if c == '2' then Fill
    else if c == '1' then PartialFill
    else if c == '8' then ExecType.Rejected
    else if c == 'C' then Expired
    else Other
  }

  /** What has become of orders so far: the messages handed over, and the ids that were filled,
      refused by the market, or never delivered. */
  datatype Past = Past(wire: seq<WireMsg>, filled: set<string>, refused: set<string>, failed: set<string>)

  type Orders = map<string, Order>

  /** The order manager together with the risk manager it reports to. */
  datatype Desk = Desk(loggedOn: bool, orderSeq: nat, open: Orders, risk: R.Risk, past: Past)

  const OPENING := Desk(false, 1, map[], R.FRESH, Past([], {}, {}, {}))

  // ---- The operations ----

  function Opposite(s: Side): Side {
    if s.BuySide? then SellSide else BuySide
  }

  /** A 64-bit counter. */
  function NextSeq(n: nat): nat {
    (n + 1) % TWO_64
  }

  /** Takes the next id and hands a message that bears it to the session. */
  function Sends(d: Desk, m: WireMsg): Desk {
    d.(orderSeq := NextSeq(d.orderSeq), past := d.past.(wire := d.past.wire + [m]))
  }

  function NewOrder(d: Desk, side: Side, qty: int, l1: int, ts: nat): Order {
    Order(Copied(ClOrdId(d.orderSeq)), ts, 0, l1, 0, qty, side, Sent)
  }

  /** The order is in the table and with the risk manager before it is sent; a session that is
      not there takes both back. */
  function SendIoc(d: Desk, side: Side, qty: int, l1: int, ts: nat, delivered: bool): Desk {
    if !d.loggedOn then d
    else
      var id, o := ClOrdId(d.orderSeq), NewOrder(d, side, qty, l1, ts);
      var sent := Sends(d, NewOrderSingle(id, side, qty))
                  .(open := d.open[id := o], risk := R.AfterOrderSent(d.risk, o, ts));
      if delivered then sent
      else sent.(open := sent.open - {id}, risk := R.AfterReject(sent.risk),
                 past := sent.past.(failed := sent.past.failed + {id}))
  }

  /** The table keeps the order: only a report takes it out. */
  function CancelOrder(d: Desk, id: string): Desk {
    if id !in d.open then d else Sends(d, OrderCancelRequest(ClOrdId(d.orderSeq), id, d.open[id].side))
  }

  function Executed(o: Order, px: int, now: nat, status: OrderStatus): Order {
    o.(fillPrice := px, fillTsNs := now, status := status)
  }

  function OnExecutionReport(cfg: R.Config, d: Desk, id: string, kind: ExecType, px: int, now: nat): Desk {
    if id !in d.open then d
    else
      match kind
      case Fill =>
        d.(open := d.open - {id},
           risk := R.AfterFill(cfg, d.risk, R.Slippage(Executed(d.open[id], px, now, OrderStatus.Filled)), now),
           past := d.past.(filled := d.past.filled + {id}))
      case PartialFill =>
        var o := Executed(d.open[id], px, now, Pending);
        d.(open := d.open[id := o], risk := R.AfterFill(cfg, d.risk, R.Slippage(o), now))
      case Other => d
      case _ =>
        d.(open := d.open - {id}, risk := R.AfterReject(d.risk),
           past := d.past.(refused := d.past.refused + {id}))
  }

  /** The price a closing order is measured against. */
  function ClosePrice(o: Order, bid: int, ask: int): int {
    if o.side.BuySide? then bid else ask
  }

  /** A position held too long is cancelled and closed with an order the other way. */
  function OnTimer(cfg: R.Config, d: Desk, now: nat, bid: int, ask: int, delivered: bool): Desk {
    if !R.TimedOut(cfg, d.risk, now) then d
    else
      var o := d.risk.openOrder;
      SendIoc(CancelOrder(d, o.clordid), Opposite(o.side), o.qty, ClosePrice(o, bid, ask), now, delivered)
  }

  /** A signal becomes an order for one lot if the risk manager admits it. */
  function OnSignal(cfg: R.Config, d: Desk, now: nat, side: Side, l1: int, delivered: bool): Desk {
    if R.Admits(cfg, d.risk, now) then SendIoc(d, side, 1, l1, now, delivered) else d
  }
}
