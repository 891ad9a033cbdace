/**
 The order book as a state machine over values: two price-time queues, the id index, the LIFO
 free list of slots, and the history of trades, ticks and accepted orders.
 OrderBooks.dfy proves that the pointer-level engine takes exactly these steps.
 */
module BookSpec {
  import opened OrderTypes
  import opened PriceTimeQueue

  /** What the book knows, or last knew, of an accepted order. */
  datatype Entry = Entry(side: Side, otype: OrderType, price: int, qty: nat, filled: nat, status: OrderStatus)

  /**
   `index` maps an id to its slot (order_map_), `free` is the pool's free list, head first, `counter` is
   id_counter_, `clock` the source of stamps, `ledger` every order ever accepted.
   */
  datatype Book = Book(
    bids: seq<Resting>, asks: seq<Resting>,
    index: map<OrderId, nat>, free: seq<nat>,
    counter: nat, clock: nat,
    log: seq<Trade>, ledger: map<OrderId, Entry>,
    cancelled: nat, ticks: seq<Tick>)

  function Init(capacity: nat): Book {
    Book([], [], map[], seq(capacity, i => i), 0, 0, [], map[], 0, [])
  }

  function Queue(b: Book, s: Side): seq<Resting> {
    if s.BID? then b.bids else b.asks
  }

  function SetQueue(b: Book, s: Side, q: seq<Resting>): Book {
    if s.BID? then b.(bids := q) else b.(asks := q)
  }

  // ---------------------------------------------------------------- history

  function Volume(log: seq<Trade>): nat {
    if log == [] then 0 else Volume(log[..|log|-1]) + log[|log|-1].qty
  }

  /** Quantity traded by the order `id`, as maker or as taker. */
  function VolumeOf(log: seq<Trade>, id: OrderId): nat {
    if log == [] then 0
    else VolumeOf(log[..|log|-1], id) +
         (if log[|log|-1].maker == id || log[|log|-1].taker == id then log[|log|-1].qty else 0)
  }

  function Credit(ledger: map<OrderId, Entry>, id: OrderId, f: nat): map<OrderId, Entry> {
    if id in ledger then
      var e := ledger[id];
      ledger[id := e.(filled := e.filled + f, status := FillStatus(e.filled + f, e.qty))]
    else ledger
  }

  function SetStatus(ledger: map<OrderId, Entry>, id: OrderId, status: OrderStatus): map<OrderId, Entry> {
    if id in ledger then ledger[id := ledger[id].(status := status)] else ledger
  }

  // ---------------------------------------------------------------- aggregates

  /** True open quantity on `side` at `p` and every better price. */
  function CumDepth(side: Side, q: seq<Resting>, p: int): nat {
    if q == [] then 0
    else (if Better(side, p, q[0].price) then 0 else Open(q[0])) + CumDepth(side, q[1..], p)
  }

  /** The cached aggregate of the best level: 32-bit, 0 for an empty side. */
  function BestQty(side: Side, q: seq<Resting>): nat {
    if q == [] then 0 else Wrap(CumDepth(side, q, q[0].price))
  }

  function TopOfBook(b: Book): Tick {
    Tick(
      if b.bids == [] then 0 else b.bids[0].price, BestQty(BID, b.bids),
      if b.asks == [] then 0 else b.asks[0].price, BestQty(ASK, b.asks),
      if b.log == [] then 0 else b.log[|b.log|-1].price,
      if b.log == [] then 0 else b.log[|b.log|-1].qty)
  }

  /**
   The fill-or-kill pre-check: at some price within the limit, the depth accumulated in 32 bits
   covers the order.
   */
  ghost predicate FokAccepts(q: seq<Resting>, t: Taker) {
    exists k :: 0 <= k < |q| && Reaches(t.side, t.price, q[k].price)
      && Wrap(CumDepth(t.side.Opposite(), q, q[k].price)) >= t.qty
  }

  // ---------------------------------------------------------------- matching

  predicate CanTrade(b: Book, t: Taker) {
    var q := Queue(b, t.side.Opposite());
    Left(t) > 0 && q != [] && Crosses(t, q[0].price)
  }

  /** execute_trade against the best opposing order, which stays queued even when it is now exhausted. */
  function TradeHead(b: Book, t: Taker): Book
    requires Queue(b, t.side.Opposite()) != []
  {
    var s := t.side.Opposite();
    var m := Queue(b, s)[0];
    var f := TradeWith(t, m);
    SetQueue(b, s, [Dent(m, f)] + Queue(b, s)[1..]).(
      log := b.log + [Trade(m.id, t.id, m.price, f)],
      ledger := Credit(Credit(b.ledger, m.id, f), t.id, f))
  }

  /** The exhausted head leaves the queue and the index, and its slot goes back to the pool. */
  function DropHead(b: Book, s: Side): Book
    requires Queue(b, s) != []
  {
    var m := Queue(b, s)[0];
    SetQueue(b, s, Queue(b, s)[1..]).(index := b.index - {m.id}, free := [m.slot] + b.free)
  }

  function MatchStep(b: Book, t: Taker): (Book, Taker)
    requires Queue(b, t.side.Opposite()) != []
  {
    var s := t.side.Opposite();
    var b' := TradeHead(b, t);
    (if Open(Queue(b', s)[0]) == 0 then DropHead(b', s) else b', Traded(t, TradeWith(t, Queue(b, s)[0])))
  }

  function Match(b: Book, t: Taker): (Book, Taker)
    decreases |Queue(b, t.side.Opposite())|, Left(t)
  {
    if !CanTrade(b, t) then (b, t)
    else
      var (b', t') := MatchStep(b, t);
      Match(b', t')
  }

  // ---------------------------------------------------------------- public operations

  function Admit(b: Book, side: Side, otype: OrderType, price: int, qty: nat): (Book, Taker)
    requires b.free != []
  {
    var id := b.counter + 1;
    (b.(counter := id, free := b.free[1..], index := b.index[id := b.free[0]],
        ledger := b.ledger[id := Entry(side, otype, price, qty, 0, NEW)]),
     Taker(id, side, otype, price, qty, 0, b.free[0]))
  }

  /** An order leaves for good: out of the index, slot back to the pool. */
  function Close(b: Book, id: OrderId, slot: nat, status: OrderStatus): Book {
    b.(index := b.index - {id}, free := [slot] + b.free, ledger := SetStatus(b.ledger, id, status))
  }

  function Rest(b: Book, t: Taker): Book {
    var r := Resting(t.id, t.price, t.qty, t.filled, t.slot, b.clock);
    SetQueue(b, t.side, Insert(t.side, Queue(b, t.side), r)).(clock := b.clock + 1)
  }

  function Publish(b: Book): Book {
    b.(ticks := b.ticks + [TopOfBook(b)])
  }

  /** After matching: a live LIMIT rests, any other live order is cancelled, a filled one stays indexed. */
  function Settle(b: Book, t: Taker): Book {
    if Left(t) == 0 then b
    else if t.otype.LIMIT? then Rest(b, t)
    else Close(b, t.id, t.slot, CANCELLED)
  }

  ghost predicate FokRejected(b: Book, t: Taker) {
    t.otype.FOK? && !FokAccepts(Queue(b, t.side.Opposite()), t)
  }

  ghost function MatchOrder(b: Book, t: Taker): Book {
    if FokRejected(b, t) then Close(b, t.id, t.slot, REJECTED)
    else
      var (b', t') := Match(b, t);
      Publish(Settle(b', t'))
  }

  predicate Refused(b: Book, otype: OrderType, price: int, qty: nat) {
    qty == 0 || (otype.LIMIT? && price <= 0) || b.free == []
  }

  ghost function AddOrder(b: Book, side: Side, otype: OrderType, price: int, qty: nat): (Book, OrderId) {
    if Refused(b, otype, price, qty) then (b, 0)
    else
      var (b', t) := Admit(b, side, otype, price, qty);
      (MatchOrder(b', t), t.id)
  }

  /** The order is indexed and still active, hence resting. */
  predicate Live(b: Book, id: OrderId) {
    id in b.index && id in b.ledger && b.ledger[id].status.Active()
  }

  function Unqueue(b: Book, s: Side, id: OrderId): Book {
    var q := Queue(b, s);
    var k := Find(q, id);
    if k < |q| then SetQueue(b, s, RemoveAt(q, k)) else b
  }

  function CancelOrder(b: Book, id: OrderId): (Book, bool) {
    if !Live(b, id) then (b, false)
    else
      var b' := Close(Unqueue(b, b.ledger[id].side, id), id, b.index[id], CANCELLED);
      (Publish(b'.(cancelled := b.cancelled + 1)), true)
  }

  function SetQty(ledger: map<OrderId, Entry>, id: OrderId, qty: nat): map<OrderId, Entry> {
    if id in ledger then ledger[id := ledger[id].(qty := qty)] else ledger
  }

  /** More quantity: to the back of the level, with a fresh stamp. */
  function AmendUp(b: Book, id: OrderId, qty: nat): Book
    requires Live(b, id)
  {
    var e := b.ledger[id];
    var b' := Unqueue(b, e.side, id).(ledger := SetQty(b.ledger, id, qty));
    Rest(b', Taker(id, e.side, e.otype, e.price, qty, e.filled, b.index[id]))
  }

  /** Less quantity, or the same: in place. */
  function AmendDown(b: Book, id: OrderId, qty: nat): Book
    requires Live(b, id)
  {
    var s := b.ledger[id].side;
    var q := Queue(b, s);
    var k := Find(q, id);
    (if k < |q| then SetQueue(b, s, q[k := q[k].(qty := qty)]) else b).(ledger := SetQty(b.ledger, id, qty))
  }

  function AmendOrder(b: Book, id: OrderId, qty: nat): (Book, bool) {
    if !Live(b, id) || qty <= b.ledger[id].filled then (b, false)
    else (Publish(if qty > b.ledger[id].qty then AmendUp(b, id, qty) else AmendDown(b, id, qty)), true)
  }

  // ---------------------------------------------------------------- runs

  datatype Command =
    | Add(side: Side, otype: OrderType, price: int, qty: Quantity)
    | Cancel(id: OrderId)
    | Amend(id: OrderId, qty: Quantity)

  ghost function Step(b: Book, c: Command): Book {
    match c
    case Add(side, otype, price, qty) => AddOrder(b, side, otype, price, qty).0
    case Cancel(id) => CancelOrder(b, id).0
    case Amend(id, qty) => AmendOrder(b, id, qty).0
  }

  ghost function Run(b: Book, cs: seq<Command>): Book {
    if cs == [] then b else Step(Run(b, cs[..|cs|-1]), cs[|cs|-1])
  }
}
