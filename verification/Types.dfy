/** The value types every component shares (order-book events, signals, orders). */
module Types {

  datatype Option<+T> = None | Some(value: T)

  /** Prices are whole ticks: a quoted price times 100. */
  const PRICE_SCALE: int := 100

  /** 2^64. Unsigned subtraction wraps around it wherever the code lets a clock run backwards. */
  const TWO_64: nat := 0x1_0000_0000_0000_0000

  /** a - b on 64-bit unsigned operands. */
  function SubU64(a: nat, b: nat): (r: nat)
    ensures b <= a ==> r == a - b
    ensures a < b < TWO_64 ==> r == a - b + TWO_64
  {
    if b <= a then a - b else (a - b) % TWO_64
  }

  /** a + b on 64-bit unsigned operands. */
  function AddU64(a: nat, b: nat): (r: nat)
    ensures a + b < TWO_64 ==> r == a + b
    ensures a < TWO_64 && b < TWO_64 ==> r < TWO_64
  {
    if a + b < TWO_64 then a + b else a + b - TWO_64
  }

  datatype MDUpdateAction = New | Change | Delete

  datatype MDEntryType = Bid | Offer | Trade

  datatype LOBEvent = LOBEvent(
    timestampNs: nat,
    entryId: nat,
    price: int,
    qty: int,
    action: MDUpdateAction,
    side: MDEntryType)

  datatype Direction = Flat | Buy | Sell

  datatype Signal = Signal(
    triggerTimeNs: nat,
    l1Price: int,
    deltaVal: int,
    cancelZ: real,
    direction: Direction)

  datatype Side = BuySide | SellSide

  datatype OrderStatus = Pending | Sent | Filled | Rejected | Cancelled

  datatype Order = Order(
    clordid: string,
    sentTsNs: nat,
    fillTsNs: nat,
    signalL1: int,
    fillPrice: int,
    qty: int,
    side: Side,
    status: OrderStatus)

  const NO_ORDER := Order("", 0, 0, 0, 0, 0, BuySide, Pending)
}
