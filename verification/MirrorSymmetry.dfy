/** The two sides are treated alike: reflecting prices and swapping sides turns every run into a run. */
module MirrorSymmetry {
  import opened OrderTypes
  import opened PriceTimeQueue
  import opened BookSpec
  import opened BookInvariant
  import opened BookRuns

  /** Reflection of the valid prices 1 .. 2^63 - 1 onto themselves. */
  function Reflect(p: int): int {
    PRICE_MAX + 1 - p
  }

  function MirrorResting(r: Resting): Resting {
    r.(price := Reflect(r.price))
  }

  function MirrorQueue(q: seq<Resting>): (m: seq<Resting>)
    ensures |m| == |q|
    ensures forall i :: 0 <= i < |q| ==> m[i] == MirrorResting(q[i])
  {
    seq(|q|, i requires 0 <= i < |q| => MirrorResting(q[i]))
  }

  function MirrorTrade(t: Trade): Trade {
    t.(price := Reflect(t.price))
  }

  function MirrorLog(log: seq<Trade>): (m: seq<Trade>)
    ensures |m| == |log|
    ensures forall i :: 0 <= i < |log| ==> m[i] == MirrorTrade(log[i])
  {
    seq(|log|, i requires 0 <= i < |log| => MirrorTrade(log[i]))
  }

  function MirrorEntry(e: Entry): Entry {
    e.(side := e.side.Opposite(), price := Reflect(e.price))
  }

  function MirrorLedger(l: map<OrderId, Entry>): map<OrderId, Entry> {
    map id | id in l :: MirrorEntry(l[id])
  }

  /** The price 0 of an empty side, and the last price before any trade, stand for nothing. */
  function MirrorTick(t: Tick): Tick {
    Tick(if t.bestAsk == 0 then 0 else Reflect(t.bestAsk), t.bestAskQty,
         if t.bestBid == 0 then 0 else Reflect(t.bestBid), t.bestBidQty,
         if t.lastQty == 0 then t.lastPx else Reflect(t.lastPx), t.lastQty)
  }

  function MirrorTicks(ts: seq<Tick>): (m: seq<Tick>)
    ensures |m| == |ts|
    ensures forall i :: 0 <= i < |ts| ==> m[i] == MirrorTick(ts[i])
  {
    seq(|ts|, i requires 0 <= i < |ts| => MirrorTick(ts[i]))
  }

  function MirrorTaker(t: Taker): Taker {
    t.(side := t.side.Opposite(), price := Reflect(t.price))
  }

  function Mirror(b: Book): Book {
    b.(bids := MirrorQueue(b.asks), asks := MirrorQueue(b.bids),
       log := MirrorLog(b.log), ledger := MirrorLedger(b.ledger), ticks := MirrorTicks(b.ticks))
  }

  /** A LIMIT without a valid price stays as it is: it is refused either way. */
  function MirrorPrice(otype: OrderType, price: int): int {
    if otype.LIMIT? && price <= 0 then price else Reflect(price)
  }

  function MirrorCommand(c: Command): Command {
    match c
    case Add(side, otype, price, qty) =>
      Add(side.Opposite(), otype, MirrorPrice(otype, price), qty)
    case Cancel(_) => c
    case Amend(_, _) => c
  }

  /** Every price of the source type is within this bound; only a LIMIT's price needs it. */
  predicate Representable(c: Command) {
    c.Add? && c.otype.LIMIT? ==> c.price <= PRICE_MAX
  }

  // ---------------------------------------------------------------- queues

  lemma MirrorQueueOf(b: Book, s: Side)
    ensures Queue(Mirror(b), s.Opposite()) == MirrorQueue(Queue(b, s))
  {
  }

  lemma MirrorSetQueue(b: Book, s: Side, q: seq<Resting>)
    ensures SetQueue(Mirror(b), s.Opposite(), MirrorQueue(q)) == Mirror(SetQueue(b, s, q))
  {
  }

  lemma {:induction false} MirrorInsertPos(s: Side, q: seq<Resting>, p: int)
    ensures InsertPos(s.Opposite(), MirrorQueue(q), Reflect(p)) == InsertPos(s, q, p)
  {
    if q != [] {
      assert MirrorQueue(q)[1..] == MirrorQueue(q[1..]);
      MirrorInsertPos(s, q[1..], p);
    }
  }

  lemma MirrorInsert(s: Side, q: seq<Resting>, r: Resting)
    ensures Insert(s.Opposite(), MirrorQueue(q), MirrorResting(r)) == MirrorQueue(Insert(s, q, r))
  {
    MirrorInsertPos(s, q, r.price);
  }

  lemma MirrorFind(q: seq<Resting>, id: OrderId)
    ensures Find(MirrorQueue(q), id) == Find(q, id)
  {
  }

  lemma MirrorRemoveAt(q: seq<Resting>, k: nat)
    requires k < |q|
    ensures RemoveAt(MirrorQueue(q), k) == MirrorQueue(RemoveAt(q, k))
  {
  }

  lemma {:induction false} MirrorCumDepth(s: Side, q: seq<Resting>, p: int)
    ensures CumDepth(s.Opposite(), MirrorQueue(q), Reflect(p)) == CumDepth(s, q, p)
  {
    if q != [] {
      assert MirrorQueue(q)[1..] == MirrorQueue(q[1..]);
      MirrorCumDepth(s, q[1..], p);
    }
  }

  lemma MirrorFok(q: seq<Resting>, t: Taker)
    ensures FokAccepts(MirrorQueue(q), MirrorTaker(t)) == FokAccepts(q, t)
  {
    hide CumDepth;
    forall k | 0 <= k < |q|
      ensures CumDepth(t.side, MirrorQueue(q), MirrorQueue(q)[k].price) == CumDepth(t.side.Opposite(), q, q[k].price)
    {
      MirrorCumDepth(t.side.Opposite(), q, q[k].price);
    }
    if FokAccepts(q, t) {
      var k :| 0 <= k < |q| && Reaches(t.side, t.price, q[k].price)
               && Wrap(CumDepth(t.side.Opposite(), q, q[k].price)) >= t.qty;
      assert MirrorQueue(q)[k].price == Reflect(q[k].price);
    }
    if FokAccepts(MirrorQueue(q), MirrorTaker(t)) {
      var k :| 0 <= k < |q| && Reaches(t.side.Opposite(), Reflect(t.price), MirrorQueue(q)[k].price)
               && Wrap(CumDepth(t.side, MirrorQueue(q), MirrorQueue(q)[k].price)) >= t.qty;
      assert q[k].price == q[k].price;
    }
  }

  // ---------------------------------------------------------------- records

  lemma MirrorCredit(l: map<OrderId, Entry>, id: OrderId, f: nat)
    ensures Credit(MirrorLedger(l), id, f) == MirrorLedger(Credit(l, id, f))
  {
  }

  lemma MirrorSetStatus(l: map<OrderId, Entry>, id: OrderId, status: OrderStatus)
    ensures SetStatus(MirrorLedger(l), id, status) == MirrorLedger(SetStatus(l, id, status))
  {
  }

  lemma MirrorSetQty(l: map<OrderId, Entry>, id: OrderId, qty: nat)
    ensures SetQty(MirrorLedger(l), id, qty) == MirrorLedger(SetQty(l, id, qty))
  {
  }

  lemma MirrorLogSnoc(log: seq<Trade>, t: Trade)
    ensures MirrorLog(log) + [MirrorTrade(t)] == MirrorLog(log + [t])
  {
  }

  // ---------------------------------------------------------------- matching

  lemma MirrorCanTrade(b: Book, t: Taker)
    ensures CanTrade(Mirror(b), MirrorTaker(t)) == CanTrade(b, t)
  {
  }

  lemma MirrorTradeHead(b: Book, t: Taker)
    requires Queue(b, t.side.Opposite()) != []
    ensures Queue(Mirror(b), t.side) != []
    ensures TradeHead(Mirror(b), MirrorTaker(t)) == Mirror(TradeHead(b, t))
  {
    var s := t.side.Opposite();
    var m := Queue(b, s)[0];
    var f := TradeWith(t, m);
    MirrorQueueOf(b, s);
    MirrorCredit(b.ledger, m.id, f);
    MirrorCredit(Credit(b.ledger, m.id, f), t.id, f);
    MirrorLogSnoc(b.log, Trade(m.id, t.id, m.price, f));
    assert MirrorQueue([Dent(m, f)] + Queue(b, s)[1..]) == [Dent(MirrorResting(m), f)] + MirrorQueue(Queue(b, s))[1..];
  }

  lemma MirrorDropHead(b: Book, s: Side)
    requires Queue(b, s) != []
    ensures Queue(Mirror(b), s.Opposite()) != [] && DropHead(Mirror(b), s.Opposite()) == Mirror(DropHead(b, s))
  {
    assert MirrorQueue(Queue(b, s))[1..] == MirrorQueue(Queue(b, s)[1..]);
  }

  lemma MirrorMatchStep(b: Book, t: Taker)
    requires Queue(b, t.side.Opposite()) != []
    ensures Queue(Mirror(b), t.side) != []
    ensures MatchStep(Mirror(b), MirrorTaker(t)) == (Mirror(MatchStep(b, t).0), MirrorTaker(MatchStep(b, t).1))
  {
    var s := t.side.Opposite();
    var b1 := TradeHead(b, t);
    assert Queue(b1, s) != [] && Queue(Mirror(b), t.side)[0] == MirrorResting(Queue(b, s)[0]);
    MirrorTradeHead(b, t);
    MirrorQueueOf(b1, s);
    MirrorDropHead(b1, s);
    hide TradeHead, DropHead, Mirror;
  }

  lemma {:induction false} MirrorMatch(b: Book, t: Taker)
    ensures Match(Mirror(b), MirrorTaker(t)) == (Mirror(Match(b, t).0), MirrorTaker(Match(b, t).1))
    decreases |Queue(b, t.side.Opposite())|, Left(t)
  {
    hide Mirror, MatchStep;
    MirrorCanTrade(b, t);
    if CanTrade(b, t) {
      MirrorMatchStep(b, t);
      MatchStepShrinks(b, t);
      MirrorMatch(MatchStep(b, t).0, MatchStep(b, t).1);
    }
  }

  lemma MatchStepShrinks(b: Book, t: Taker)
    requires CanTrade(b, t)
    ensures MatchStep(b, t).1.side == t.side
    ensures var n, n' := |Queue(b, t.side.Opposite())|, |Queue(MatchStep(b, t).0, t.side.Opposite())|;
      n' < n || (n' == n && Left(MatchStep(b, t).1) < Left(t))
  {
  }

  // ---------------------------------------------------------------- public operations

  lemma MirrorAdmit(b: Book, side: Side, otype: OrderType, price: int, qty: nat)
    requires b.free != []
    ensures Admit(Mirror(b), side.Opposite(), otype, Reflect(price), qty)
            == (Mirror(Admit(b, side, otype, price, qty).0), MirrorTaker(Admit(b, side, otype, price, qty).1))
  {
    var id, e := b.counter + 1, Entry(side, otype, price, qty, 0, NEW);
    assert MirrorLedger(b.ledger)[id := MirrorEntry(e)] == MirrorLedger(b.ledger[id := e]);
  }

  lemma MirrorClose(b: Book, id: OrderId, slot: nat, status: OrderStatus)
    ensures Close(Mirror(b), id, slot, status) == Mirror(Close(b, id, slot, status))
  {
    MirrorSetStatus(b.ledger, id, status);
  }

  lemma MirrorRest(b: Book, t: Taker)
    ensures Rest(Mirror(b), MirrorTaker(t)) == Mirror(Rest(b, t))
  {
    hide Insert, MirrorQueue;
    var r := Resting(t.id, t.price, t.qty, t.filled, t.slot, b.clock);
    MirrorQueueOf(b, t.side);
    MirrorInsert(t.side, Queue(b, t.side), r);
  }

  lemma MirrorSettle(b: Book, t: Taker)
    ensures Settle(Mirror(b), MirrorTaker(t)) == Mirror(Settle(b, t))
  {
    hide Mirror, Rest, Close;
    MirrorRest(b, t);
    MirrorClose(b, t.id, t.slot, CANCELLED);
  }

  /** No price or quantity in sight is mistaken for "none". */
  ghost predicate Showable(b: Book) {
    && (b.bids != [] ==> b.bids[0].price != 0) && (b.asks != [] ==> b.asks[0].price != 0)
    && (b.log != [] ==> b.log[|b.log|-1].qty > 0)
  }

  lemma InvIsShowable(b: Book, capacity: nat)
    requires Inv(b, capacity)
    ensures Showable(b)
  {
    assert b.bids != [] ==> Listed(b, BID, b.bids[0]);
    assert b.asks != [] ==> Listed(b, ASK, b.asks[0]);
  }

  lemma MirrorPublish(b: Book)
    requires Showable(b)
    ensures Publish(Mirror(b)) == Mirror(Publish(b))
  {
    hide CumDepth;
    if b.bids != [] {
      MirrorCumDepth(BID, b.bids, b.bids[0].price);
    }
    if b.asks != [] {
      MirrorCumDepth(ASK, b.asks, b.asks[0].price);
    }
    assert TopOfBook(Mirror(b)) == MirrorTick(TopOfBook(b));
    assert MirrorTicks(b.ticks) + [MirrorTick(TopOfBook(b))] == MirrorTicks(b.ticks + [TopOfBook(b)]);
  }

  lemma MirrorMatchOrder(b: Book, t: Taker)
    requires !FokRejected(b, t) ==> Showable(Settle(Match(b, t).0, Match(b, t).1))
    ensures MatchOrder(Mirror(b), MirrorTaker(t)) == Mirror(MatchOrder(b, t))
  {
    MirrorQueueOf(b, t.side.Opposite());
    hide Mirror, MirrorQueue, Match, Settle, Publish, Close, FokAccepts, Showable;
    MirrorFok(Queue(b, t.side.Opposite()), t);
    if FokRejected(b, t) {
      MirrorClose(b, t.id, t.slot, REJECTED);
    } else {
      var (b1, t1) := Match(b, t);
      MirrorMatch(b, t);
      MirrorSettle(b1, t1);
      MirrorPublish(Settle(b1, t1));
    }
  }

  lemma ShownBefore(b: Book)
    requires Showable(Publish(b))
    ensures Showable(b)
  {
  }

  lemma MirrorAdd(b: Book, capacity: nat, side: Side, otype: OrderType, price: int, qty: nat)
    requires Inv(b, capacity) && qty < QUANTITY_WRAP && (otype.LIMIT? ==> price <= PRICE_MAX)
    ensures AddOrder(Mirror(b), side.Opposite(), otype, MirrorPrice(otype, price), qty)
            == (Mirror(AddOrder(b, side, otype, price, qty).0), AddOrder(b, side, otype, price, qty).1)
  {
    AddKeepsInv(b, capacity, side, otype, price, qty);
    InvIsShowable(AddOrder(b, side, otype, price, qty).0, capacity);
    assert Mirror(b).free == b.free && Mirror(b).counter == b.counter;
    hide Mirror, Inv, Match, Settle, Publish, Showable, FokAccepts, Close;
    if !Refused(b, otype, price, qty) {
      var (b1, t) := Admit(b, side, otype, price, qty);
      if !FokRejected(b1, t) {
        ShownBefore(Settle(Match(b1, t).0, Match(b1, t).1));
      }
      MirrorAdmit(b, side, otype, price, qty);
      MirrorMatchOrder(b1, t);
    }
  }

  lemma MirrorUnqueue(b: Book, s: Side, id: OrderId)
    ensures Unqueue(Mirror(b), s.Opposite(), id) == Mirror(Unqueue(b, s, id))
  {
    var q := Queue(b, s);
    MirrorQueueOf(b, s);
    MirrorFind(q, id);
    if Find(q, id) < |q| {
      MirrorRemoveAt(q, Find(q, id));
      MirrorSetQueue(b, s, RemoveAt(q, Find(q, id)));
    }
    hide RemoveAt, Find, MirrorQueue, SetQueue;
  }

  lemma MirrorLive(b: Book, id: OrderId)
    ensures Live(Mirror(b), id) == Live(b, id)
    ensures Live(b, id) ==> id in Mirror(b).ledger && Mirror(b).ledger[id] == MirrorEntry(b.ledger[id])
    ensures Mirror(b).index == b.index && Mirror(b).cancelled == b.cancelled
  {
  }

  lemma MirrorCount(b: Book, n: nat)
    ensures Mirror(b).(cancelled := n) == Mirror(b.(cancelled := n))
  {
  }

  lemma MirrorCancel(b: Book, capacity: nat, id: OrderId)
    requires Inv(b, capacity)
    ensures CancelOrder(Mirror(b), id) == (Mirror(CancelOrder(b, id).0), CancelOrder(b, id).1)
  {
    hide Mirror, Inv, Publish, Showable, Close, Unqueue;
    CancelKeepsInv(b, capacity, id);
    InvIsShowable(CancelOrder(b, id).0, capacity);
    MirrorLive(b, id);
    if Live(b, id) {
      var s := b.ledger[id].side;
      var b1 := Close(Unqueue(b, s, id), id, b.index[id], CANCELLED);
      ShownBefore(b1.(cancelled := b.cancelled + 1));
      MirrorUnqueue(b, s, id);
      MirrorClose(Unqueue(b, s, id), id, b.index[id], CANCELLED);
      MirrorCount(b1, b.cancelled + 1);
      MirrorPublish(b1.(cancelled := b.cancelled + 1));
    }
  }

  lemma MirrorSetLedger(b: Book, id: OrderId, qty: nat)
    ensures Mirror(b).(ledger := SetQty(Mirror(b).ledger, id, qty)) == Mirror(b.(ledger := SetQty(b.ledger, id, qty)))
  {
    MirrorSetQty(b.ledger, id, qty);
  }

  lemma MirrorAmendUp(b: Book, id: OrderId, qty: nat)
    requires Live(b, id)
    ensures Live(Mirror(b), id) && AmendUp(Mirror(b), id, qty) == Mirror(AmendUp(b, id, qty))
  {
    var e := b.ledger[id];
    var b1 := Unqueue(b, e.side, id);
    MirrorLive(b, id);
    MirrorUnqueue(b, e.side, id);
    assert b1.ledger == b.ledger && Mirror(b1).ledger == Mirror(b).ledger;
    MirrorSetLedger(b1, id, qty);
    hide Mirror, Unqueue, Rest;
    MirrorRest(b1.(ledger := SetQty(b1.ledger, id, qty)), Taker(id, e.side, e.otype, e.price, qty, e.filled, b.index[id]));
  }

  lemma MirrorAmendDown(b: Book, id: OrderId, qty: nat)
    requires Live(b, id)
    ensures Live(Mirror(b), id) && AmendDown(Mirror(b), id, qty) == Mirror(AmendDown(b, id, qty))
  {
    var s := b.ledger[id].side;
    var q := Queue(b, s);
    var k := Find(q, id);
    MirrorLive(b, id);
    MirrorQueueOf(b, s);
    MirrorFind(q, id);
    if k < |q| {
      var q' := q[k := q[k].(qty := qty)];
      assert MirrorQueue(q)[k := MirrorQueue(q)[k].(qty := qty)] == MirrorQueue(q');
      MirrorSetQueue(b, s, q');
      MirrorSetLedger(SetQueue(b, s, q'), id, qty);
    } else {
      MirrorSetLedger(b, id, qty);
    }
  }

  lemma MirrorAmend(b: Book, capacity: nat, id: OrderId, qty: nat)
    requires Inv(b, capacity) && qty < QUANTITY_WRAP
    ensures AmendOrder(Mirror(b), id, qty) == (Mirror(AmendOrder(b, id, qty).0), AmendOrder(b, id, qty).1)
  {
    hide Mirror, Inv, Publish, Showable, AmendUp, AmendDown;
    AmendKeepsInv(b, capacity, id, qty);
    InvIsShowable(AmendOrder(b, id, qty).0, capacity);
    MirrorLive(b, id);
    if Live(b, id) && qty > b.ledger[id].filled {
      var b1 := if qty > b.ledger[id].qty then AmendUp(b, id, qty) else AmendDown(b, id, qty);
      ShownBefore(b1);
      MirrorAmendUp(b, id, qty);
      MirrorAmendDown(b, id, qty);
      MirrorPublish(b1);
    }
  }

  lemma MirrorStep(b: Book, capacity: nat, c: Command)
    requires Inv(b, capacity) && Representable(c)
    ensures Step(Mirror(b), MirrorCommand(c)) == Mirror(Step(b, c))
  {
    hide Mirror, Inv, AddOrder, CancelOrder, AmendOrder;
    match c
    case Add(side, otype, price, qty) => MirrorAdd(b, capacity, side, otype, price, qty);
    case Cancel(id) => MirrorCancel(b, capacity, id);
    case Amend(id, qty) => MirrorAmend(b, capacity, id, qty);
  }

  function MirrorCommands(cs: seq<Command>): seq<Command> {
    seq(|cs|, i requires 0 <= i < |cs| => MirrorCommand(cs[i]))
  }

  /** The mirrored commands lead the mirrored book, step for step, through the mirror images of the same states. */
  lemma {:induction false} MirrorRun(b: Book, capacity: nat, cs: seq<Command>)
    requires Inv(b, capacity) && forall i :: 0 <= i < |cs| ==> Representable(cs[i])
    ensures Run(Mirror(b), MirrorCommands(cs)) == Mirror(Run(b, cs))
  {
    hide Inv, Step, Mirror;
    if cs != [] {
      var cs1 := cs[..|cs|-1];
      MirrorRun(b, capacity, cs1);
      RunKeepsInv(b, capacity, cs1);
      MirrorStep(Run(b, cs1), capacity, cs[|cs|-1]);
      assert MirrorCommands(cs)[..|cs|-1] == MirrorCommands(cs1);
    }
  }

  /** Mirroring twice changes nothing, and a fresh book is its own image. */
  lemma MirrorTwice(b: Book, capacity: nat)
    ensures Mirror(Mirror(b)) == b.(ticks := MirrorTicks(MirrorTicks(b.ticks)))
    ensures Mirror(Init(capacity)) == Init(capacity)
  {
    assert MirrorQueue(MirrorQueue(b.bids)) == b.bids && MirrorQueue(MirrorQueue(b.asks)) == b.asks;
    assert MirrorLog(MirrorLog(b.log)) == b.log && MirrorLedger(MirrorLedger(b.ledger)) == b.ledger;
    assert MirrorLedger(map[]) == map[];
  }
}
