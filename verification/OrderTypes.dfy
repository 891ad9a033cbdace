/** The records shared by the whole engine: order_types.hpp. */
module OrderTypes {

  /** Quantities are unsigned 32-bit, prices signed 64-bit fixed point. Order ids are taken as unbounded. */
  const QUANTITY_WRAP: int := 0x1_0000_0000
  const PRICE_MAX: int := 0x7FFF_FFFF_FFFF_FFFF

  type Quantity = q: int | 0 <= q < 0x1_0000_0000
  type Price = p: int | -0x8000_0000_0000_0000 <= p <= 0x7FFF_FFFF_FFFF_FFFF
  type OrderId = nat

  /** Unsigned 32-bit arithmetic: every sum and difference of quantities is reduced modulo 2^32. */
  function Wrap(x: int): Quantity {
    x % QUANTITY_WRAP
  }

  lemma WrapSmall(x: int)
    requires 0 <= x < QUANTITY_WRAP
    ensures Wrap(x) == x
  {
  }

  lemma WrapOfWrap(x: int, y: int)
    ensures Wrap(Wrap(x) + y) == Wrap(x + y)
  {
  }

  function Min(a: int, b: int): int {
    if a <= b then a else b
  }

  datatype Side = BID | ASK {
    function Opposite(): Side {
      if BID? then ASK else BID
    }
  }

  datatype OrderType = LIMIT | MARKET | IOC | FOK

  datatype OrderStatus = NEW | PARTIAL | FILLED | CANCELLED | REJECTED {
    predicate Active() {
      NEW? || PARTIAL?
    }
  }

  datatype Trade = Trade(maker: OrderId, taker: OrderId, price: int, qty: nat)

  datatype Tick = Tick(bestBid: int, bestBidQty: nat, bestAsk: int, bestAskQty: nat, lastPx: int, lastQty: nat)

  /** The status an accepted, not yet closed order carries, as a function of its fill. */
  function FillStatus(filled: int, qty: int): OrderStatus {
    if filled == qty then FILLED else if filled == 0 then NEW else PARTIAL
  }

  /** A pool-owned order. `slot` is its address: the index of the pool slot that stores it. */
  class Order {
    const slot: nat
    var id: OrderId
    var price: Price
    var quantity: Quantity
    var filledQty: Quantity
    var side: Side
    var otype: OrderType
    var status: OrderStatus
    var prev: Order?
    var next: Order?

    constructor (slot: nat)
      ensures this.slot == slot
    {
      this.slot := slot;
      id, price, quantity, filledQty := 0, 0, 0, 0;
      side, otype, status := BID, LIMIT, NEW;
      prev, next := null, null;
    }

    function Remaining(): Quantity
      reads this
    {
      Wrap(quantity - filledQty)
    }

    predicate IsActive()
      reads this
    {
      status.Active()
    }
  }
}
