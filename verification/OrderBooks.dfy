/**
 The matching engine of order_book.cpp over level maps, linked orders, id index and pool. Every
 public method is proved to take exactly the step that BookSpec describes.
 */
module OrderBooks {
  import opened OrderTypes
  import opened PriceTimeQueue
  import opened BookSpec
  import opened BookInvariant
  import opened BookRuns
  import opened BookLaws
  import opened Levels
  import opened PriceLevels
  import opened LevelMaps
  import opened MemoryPools

  /** An order object agrees with its record. */
  ghost predicate EntryRep(o: Order, id: OrderId, e: Entry)
    reads o`id, o`price, o`quantity, o`filledQty, o`side, o`otype, o`status
  {
    o.id == id && o.price == e.price && o.quantity == e.qty && o.filledQty == e.filled
    && o.side == e.side && o.otype == e.otype && o.status == e.status
  }

  class OrderBook {
    const bids: LevelMap
    const asks: LevelMap
    var orderMap: map<OrderId, Order>
    const pool: MemoryPool
    var idCounter: nat
    var lastTradePx: Price
    var lastTradeQty: Quantity
    var totalTrades: nat
    var totalVolume: nat
    var ordersAdded: nat
    var ordersCancelled: nat
    /** What the two callbacks were called with. */
    var tradeLog: seq<Trade>
    var tickLog: seq<Tick>
    /** The abstract book. */
    ghost var book: Book

    constructor (capacity: nat)
      requires capacity > 0
      ensures Valid() && book == Init(capacity) && |pool.slots| == capacity
      ensures fresh(pool) && fresh(pool.links) && fresh(bids) && fresh(asks) && bids.levels == asks.levels == []
      ensures forall i :: 0 <= i < |pool.slots| ==> fresh(pool.slots[i])
    {
      orderMap := map[];
      var p := new MemoryPool(capacity);
      pool := p;
      bids := new LevelMap(BID, p.slots);
      asks := new LevelMap(ASK, p.slots);
      idCounter, lastTradePx, lastTradeQty := 0, 0, 0;
      totalTrades, totalVolume, ordersAdded, ordersCancelled := 0, 0, 0, 0;
      tradeLog, tickLog := [], [];
      book := Init(capacity);
      new;
      InitInv(capacity);
    }

    /** The map of one side. */
    function Map(s: Side): LevelMap {
      if s.BID? then bids else asks
    }

    // -------------------------------------------------------------- representation

    /** The index maps each id to the object in its slot. */
    ghost predicate IndexRep(om: map<OrderId, Order>, b: Book) {
      && om.Keys == b.index.Keys
      && (forall id :: id in om ==> id in b.ledger && b.index[id] < |pool.slots| && om[id] == pool.slots[b.index[id]])
    }

    /** Every indexed object agrees with the ledger. */
    static ghost predicate EntriesRep(om: map<OrderId, Order>, b: Book)
      reads om.Values`id, om.Values`price, om.Values`quantity, om.Values`filledQty,
            om.Values`side, om.Values`otype, om.Values`status
    {
      forall id :: id in om ==> id in b.ledger && EntryRep(om[id], id, b.ledger[id])
    }

    ghost predicate CountersRep(b: Book)
      reads `idCounter, `ordersAdded, `ordersCancelled, `totalTrades, `totalVolume, `lastTradePx, `lastTradeQty, `tradeLog, `tickLog
    {
      && idCounter == b.counter && ordersAdded == b.counter && ordersCancelled == b.cancelled
      && totalTrades == |b.log| && totalVolume == Volume(b.log)
      && lastTradePx == (if b.log == [] then 0 else b.log[|b.log|-1].price)
      && lastTradeQty == (if b.log == [] then 0 else b.log[|b.log|-1].qty)
      && tradeLog == b.log && tickLog == b.ticks
    }

    /** The orders `ms` linked into one side are indexed and in its queue `q`. */
    static ghost predicate MembersRep(om: map<OrderId, Order>, ms: set<Order>, q: seq<Resting>)
      reads ms`id
    {
      forall o :: o in ms ==> o.id in om && om[o.id] == o && Find(q, o.id) < |q|
    }

    ghost predicate SideRep(s: Side, b: Book)
      reads Map(s), Map(s).levels, Map(s).members`price, Map(s).members`side, Map(s).members`prev, Map(s).members`next
    {
      Map(s).Ok() && Flat(Map(s).nested) == Queue(b, s)
    }

    ghost predicate Separate()
      reads bids`levels, asks`levels
    {
      && bids.side == BID && asks.side == ASK && bids.slots == pool.slots && asks.slots == pool.slots
      && forall k, j :: 0 <= k < |bids.levels| && 0 <= j < |asks.levels| ==> bids.levels[k] != asks.levels[j]
    }

    ghost predicate PoolRep(b: Book)
      reads pool, pool.links
    {
      pool.Valid() && pool.free == b.free
    }

    /** Index and membership: what a trade does not touch. */
    ghost predicate Linkage(om: map<OrderId, Order>, b: Book)
      reads bids`levels, asks`levels, bids`members, asks`members, bids.members`id, asks.members`id
    {
      && Separate() && IndexRep(om, b)
      && MembersRep(om, bids.members, b.bids) && MembersRep(om, asks.members, b.asks)
    }

    /** Everything but the pool represents `b`, with `om` as the index. */
    ghost predicate BookRep(om: map<OrderId, Order>, b: Book)
      reads `idCounter, `ordersAdded, `ordersCancelled, `totalTrades, `totalVolume, `lastTradePx, `lastTradeQty, `tradeLog, `tickLog
      reads om.Values`id, om.Values`price, om.Values`quantity, om.Values`filledQty, om.Values`side, om.Values`otype, om.Values`status
      reads bids, asks, bids.levels, asks.levels
      reads bids.members`id, bids.members`price, bids.members`side, bids.members`prev, bids.members`next
      reads asks.members`id, asks.members`price, asks.members`side, asks.members`prev, asks.members`next
    {
      Linkage(om, b) && EntriesRep(om, b) && CountersRep(b) && SideRep(BID, b) && SideRep(ASK, b)
    }

    /** The objects represent the book `b`. */
    ghost predicate Rep(b: Book)
      reads this, pool, pool.links, orderMap.Values, bids, asks, bids.levels, asks.levels, bids.members, asks.members
    {
      PoolRep(b) && BookRep(orderMap, b)
    }

    /** The class invariant between public calls. */
    ghost predicate Valid()
      reads this, pool, pool.links, orderMap.Values, bids, asks, bids.levels, asks.levels, bids.members, asks.members
    {
      && Rep(book) && NoneEmpty(bids.nested) && NoneEmpty(asks.nested)
      && Inv(book, |pool.slots|)
    }

    lemma RepParts()
      requires Rep(book)
      ensures PoolRep(book) && Linkage(orderMap, book) && EntriesRep(orderMap, book) && CountersRep(book)
      ensures SideRep(BID, book) && SideRep(ASK, book) && Separate()
    {
    }

    /** Records of all orders, from those of the changed orders `ids` and of the others. */
    static lemma EntriesJoin(om: map<OrderId, Order>, b: Book, ids: set<OrderId>)
      requires EntriesRep(om - ids, b)
      requires forall id :: id in ids && id in om ==> id in b.ledger && EntryRep(om[id], id, b.ledger[id])
      ensures EntriesRep(om, b)
    {
    }

    lemma BookRepFrom(om: map<OrderId, Order>, b: Book)
      requires Linkage(om, b) && EntriesRep(om, b) && CountersRep(b) && SideRep(BID, b) && SideRep(ASK, b)
      ensures BookRep(om, b)
    {
    }

    /** Everything but the pool, from the two sides `s` and its opposite. */
    lemma BookRepOfSides(om: map<OrderId, Order>, b: Book, s: Side)
      requires Map(s).Ok() && Flat(Map(s).nested) == Queue(b, s) && SideRep(s.Opposite(), b)
      requires Separate() && IndexRep(om, b) && EntriesRep(om, b) && CountersRep(b)
      requires MembersRep(om, Map(s).members, Queue(b, s)) && MembersRep(om, Map(s.Opposite()).members, Queue(b, s.Opposite()))
      ensures BookRep(om, b)
    {
    }

    /** The same with index and membership known to be linked. */
    lemma BookRepOfLinked(om: map<OrderId, Order>, b: Book, s: Side)
      requires Map(s).Ok() && Flat(Map(s).nested) == Queue(b, s) && SideRep(s.Opposite(), b)
      requires Linkage(om, b) && EntriesRep(om, b) && CountersRep(b)
      ensures BookRep(om, b)
    {
    }

    // -------------------------------------------------------------- trading

    /** The opposing side's best level, and the order at its head. */
    ghost predicate HasHead(s: Side)
      reads Map(s), Map(s).levels
    {
      && |Map(s).levels| == |Map(s).nested| > 0 && Map(s).nested[0].orders != [] && Map(s).levels[0].q != []
    }

    /** A level whose oldest order is now `r`. */
    static ghost function Requeued(v: Level, r: Resting): Level {
      if v.orders == [] then v else v.(orders := [r] + v.orders[1..])
    }

    lemma HeadFacts(s: Side)
      requires Rep(book) && QueueOk(book, s) && HasHead(s)
      ensures Queue(book, s) != []
      ensures var m := Queue(book, s)[0]; var v := Map(s).nested[0]; var maker := Map(s).levels[0].q[0];
        && m == v.orders[0] && Listed(book, s, m) && v.price == m.price && AllAt(v)
        && m.id in orderMap && maker == orderMap[m.id] && maker.slot == m.slot
        && maker.id == m.id && maker.quantity == m.qty && maker.filledQty == m.filled
        && maker.price == m.price && maker.side == s
    {
    }

    /** The records after a trade: two fills, nothing else. */
    static lemma TradeLedger(b: Book, t: Taker)
      requires TakerOk(b, t) && CanTrade(b, t) && Listed(b, t.side.Opposite(), Queue(b, t.side.Opposite())[0])
      ensures var m := Queue(b, t.side.Opposite())[0]; var f := TradeWith(t, m); var b' := TradeHead(b, t);
        && m.id != t.id && b'.ledger.Keys == b.ledger.Keys && b'.index == b.index && b'.free == b.free
        && (forall id :: id in b.ledger && id != m.id && id != t.id ==> b'.ledger[id] == b.ledger[id])
        && b'.ledger[m.id] == Entry(t.side.Opposite(), LIMIT, m.price, m.qty, m.filled + f, FillStatus(m.filled + f, m.qty))
        && b'.ledger[t.id] == Entry(t.side, t.otype, t.price, t.qty, t.filled + f, FillStatus(t.filled + f, t.qty))
    {
    }

    static lemma TradeQueues(b: Book, t: Taker)
      requires Queue(b, t.side.Opposite()) != []
      ensures var b' := TradeHead(b, t); b' == b.(bids := b'.bids, asks := b'.asks, ledger := b'.ledger, log := b'.log)
      ensures var s := t.side.Opposite(); var q := Queue(b, s);
        && Queue(TradeHead(b, t), s) == [Dent(q[0], TradeWith(t, q[0]))] + q[1..]
        && Queue(TradeHead(b, t), t.side) == Queue(b, t.side)
        && TradeHead(b, t).log == b.log + [Trade(q[0].id, t.id, q[0].price, TradeWith(t, q[0]))]
    {
    }

    static lemma RequeuedFlat(nv: seq<Level>, r: Resting)
      requires nv != [] && nv[0].orders != []
      ensures Flat(nv[0 := Requeued(nv[0], r)]) == [r] + Flat(nv)[1..]
    {
      assert nv[0 := Requeued(nv[0], r)][1..] == nv[1..];
    }

    /** Changing fills leaves every id where it was. */
    static lemma MembersKept(om: map<OrderId, Order>, ms: set<Order>, q: seq<Resting>, q': seq<Resting>)
      requires MembersRep(om, ms, q) && |q'| == |q|
      requires forall k :: 0 <= k < |q| ==> q'[k].id == q[k].id
      ensures MembersRep(om, ms, q')
    {
    }

    /** The best level after a trade of `f` with its oldest order. */
    static lemma DentedAggregate(v: Level, f: nat)
      requires v.orders != [] && f <= Open(v.orders[0])
      ensures var w := Requeued(v, Dent(v.orders[0], f)); Wrap(Sum(w.orders)) == Wrap(Wrap(Sum(v.orders)) - f)
    {
      assert Requeued(v, Dent(v.orders[0], f)).orders[1..] == v.orders[1..];
      WrapOfWrap(Sum(v.orders), 0 - f);
    }

    /** The fills and statuses of both orders. */
    method FillBoth(maker: Order, taker: Order, qty: Quantity)
      requires maker != taker && qty > 0
      requires maker.filledQty + qty <= maker.quantity && taker.filledQty + qty <= taker.quantity
      modifies maker`filledQty, maker`status, taker`filledQty, taker`status
      ensures maker.filledQty == old(maker.filledQty) + qty && maker.status == FillStatus(maker.filledQty, maker.quantity)
      ensures taker.filledQty == old(taker.filledQty) + qty && taker.status == FillStatus(taker.filledQty, taker.quantity)
    {
      maker.filledQty := Wrap(maker.filledQty + qty);
      taker.filledQty := Wrap(taker.filledQty + qty);
      if maker.Remaining() == 0 {
        maker.status := FILLED;
      } else {
        maker.status := PARTIAL;
      }
      if taker.Remaining() == 0 {
        taker.status := FILLED;
      } else {
        taker.status := PARTIAL;
      }
    }

    /** The first part of execute_trade: fills, statuses and the aggregate of the maker's level. */
    method Exchange(maker: Order, taker: Order, qty: Quantity, ghost w: Level)
      requires maker != taker && qty > 0
      requires maker.filledQty + qty <= maker.quantity && taker.filledQty + qty <= taker.quantity
      requires var l := Map(maker.side);
        && l.Ok() && |l.levels| > 0 && |l.nested| > 0 && w.price == l.nested[0].price == maker.price
        && AllAt(w) && |w.orders| == |l.nested[0].orders|
        && (forall j :: 0 <= j < |w.orders| ==> w.orders[j].slot == l.nested[0].orders[j].slot)
        && Wrap(Sum(w.orders)) == Wrap(Wrap(Sum(l.nested[0].orders)) - qty)
      modifies maker`filledQty, maker`status, taker`filledQty, taker`status
      modifies Map(maker.side)`nested, Map(maker.side).levels`totalQty
      ensures maker.filledQty == old(maker.filledQty) + qty && maker.status == FillStatus(maker.filledQty, maker.quantity)
      ensures taker.filledQty == old(taker.filledQty) + qty && taker.status == FillStatus(taker.filledQty, taker.quantity)
      ensures Map(maker.side).Ok() && Map(maker.side).nested == old(Map(maker.side).nested)[0 := w]
    {
      hide Wrap, Sum, LevelMap.Ok;
      FillBoth(maker, taker, qty);
      Map(maker.side).Reduce(maker.price, qty, 0, w);
    }

    /** Last part: last trade, statistics, and the trade callback. */
    method RecordTrade(trade: Trade, px: Price, qty: Quantity, ghost b: Book, ghost b': Book)
      requires CountersRep(b) && trade.price == px && trade.qty == qty
      requires b' == b.(bids := b'.bids, asks := b'.asks, ledger := b'.ledger, log := b.log + [trade])
      modifies `lastTradePx, `lastTradeQty, `totalTrades, `totalVolume, `tradeLog, `book
      ensures CountersRep(b') && book == b'
    {
      VolumeSnoc(b.log, trade);
      lastTradePx := px;
      lastTradeQty := qty;
      totalTrades := totalTrades + 1;
      totalVolume := totalVolume + qty;
      tradeLog := tradeLog + [trade];
      book := b';
    }

    /** A trade between the head of the opposing side and the order being matched. */
    ghost predicate TradeReady(maker: Order, taker: Order, t: Taker)
      reads this, pool, pool.links, orderMap.Values, bids, asks, bids.levels, asks.levels, bids.members, asks.members
    {
      && Rep(book) && CanTrade(book, t) && TakerOk(book, t) && LedgerOk(book)
      && QueueOk(book, t.side.Opposite()) && Open(Queue(book, t.side.Opposite())[0]) > 0
      && HasHead(t.side.Opposite()) && maker == Map(t.side.Opposite()).levels[0].q[0]
      && t.slot < |pool.slots| && taker == pool.slots[t.slot]
    }

    lemma TradeFacts(maker: Order, taker: Order, t: Taker)
      requires TradeReady(maker, taker, t)
      ensures Queue(book, t.side.Opposite()) != []
      ensures var s := t.side.Opposite(); var m := Queue(book, s)[0];
        && maker != taker && maker.id == m.id && taker.id == t.id && maker.side == s && maker.price == m.price
        && maker.filledQty == m.filled && maker.quantity == m.qty && m.filled < m.qty
        && taker.filledQty == t.filled && taker.quantity == t.qty && t.filled < t.qty
        && m.price == Map(s).nested[0].price
    {
      var m := Queue(book, t.side.Opposite())[0];
      HeadFacts(t.side.Opposite());
      assert EntryRep(orderMap[t.id], t.id, book.ledger[t.id]);
      assert EntryOk(book.ledger[m.id]) && EntryOk(book.ledger[t.id]);
    }

    /** The two sides share no level. */
    ghost predicate Apart(s: Side)
      reads bids`levels, asks`levels
    {
      && Map(s) != Map(s.Opposite())
      && (forall k, j :: 0 <= k < |Map(s).levels| && 0 <= j < |Map(s.Opposite()).levels| ==>
            Map(s).levels[k] != Map(s.Opposite()).levels[j])
    }

    lemma SidesApart(s: Side)
      requires Separate()
      ensures Apart(s)
    {
    }

    /** The level objects before the trade, against the queues after it. */
    lemma TradeSides(maker: Order, taker: Order, t: Taker)
      requires TradeReady(maker, taker, t)
      ensures var s := t.side.Opposite(); var m := Queue(book, s)[0]; var b' := TradeHead(book, t);
              var v := Map(s).nested[0]; var w := Requeued(v, Dent(m, TradeWith(t, m)));
        && Map(s).Ok() && |Map(s).levels| > 0 && |Map(s).nested| > 0 && SideRep(t.side, b')
        && Apart(s)
        && w.price == v.price == m.price && AllAt(w) && |w.orders| == |v.orders|
        && (forall j :: 0 <= j < |v.orders| ==> w.orders[j].slot == v.orders[j].slot)
        && Wrap(Sum(w.orders)) == Wrap(Wrap(Sum(v.orders)) - TradeWith(t, m))
        && Flat(Map(s).nested[0 := w]) == Queue(b', s)
    {
      hide Rep, TakerOk, LedgerOk, QueueOk, Wrap, Sum, Apart, TradeHead, Flat, EntriesRep, CountersRep, IndexRep, MembersRep;
      var s := t.side.Opposite();
      RepParts();
      HeadFacts(s);
      SidesApart(s);
      var m := Queue(book, s)[0];
      DentedAggregate(Map(s).nested[0], TradeWith(t, m));
      RequeuedFlat(Map(s).nested, Dent(m, TradeWith(t, m)));
      TradeQueues(book, t);
    }

    /** The index before the trade, against the book after it. */
    lemma TradeIndex(maker: Order, taker: Order, t: Taker)
      requires TradeReady(maker, taker, t)
      ensures var s := t.side.Opposite(); var m := Queue(book, s)[0]; var f := TradeWith(t, m); var b' := TradeHead(book, t);
        && Linkage(orderMap, b') && PoolRep(b') && CountersRep(book)
        && m.id in orderMap && orderMap[m.id] == maker && t.id in orderMap && orderMap[t.id] == taker
        && m.id in b'.ledger && t.id in b'.ledger && EntriesRep(orderMap - {m.id, t.id}, b')
        && maker !in (orderMap - {m.id, t.id}).Values && taker !in (orderMap - {m.id, t.id}).Values
        && EntryRep(maker, m.id, b'.ledger[m.id].(filled := m.filled, status := maker.status))
        && EntryRep(taker, t.id, b'.ledger[t.id].(filled := t.filled, status := taker.status))
        && b'.ledger[m.id].filled == m.filled + f && b'.ledger[m.id].status == FillStatus(m.filled + f, m.qty)
        && b'.ledger[t.id].filled == t.filled + f && b'.ledger[t.id].status == FillStatus(t.filled + f, t.qty)
    {
      var s := t.side.Opposite();
      HeadFacts(s);
      TradeLedger(book, t);
      TradeQueues(book, t);
      MembersKept(orderMap, Map(s).members, Queue(book, s), Queue(TradeHead(book, t), s));
      assert EntryRep(orderMap[t.id], t.id, book.ledger[t.id]);
      assert s == BID || s == ASK;
    }

    /** Fills, statuses and aggregate of a trade with the head of the opposing side. */
    method ExchangeHead(maker: Order, taker: Order, qty: Quantity, ghost t: Taker)
      requires TradeReady(maker, taker, t) && qty == TradeWith(t, Queue(book, t.side.Opposite())[0])
      modifies maker`filledQty, maker`status, taker`filledQty, taker`status
      modifies Map(t.side.Opposite())`nested, Map(t.side.Opposite()).levels`totalQty
      ensures var b' := TradeHead(book, t); var s := t.side.Opposite();
        && PoolRep(b') && Linkage(orderMap, b') && EntriesRep(orderMap, b') && CountersRep(book)
        && Map(s).Ok() && Flat(Map(s).nested) == Queue(b', s) && SideRep(t.side, b')
        && Map(s).nested == old(Map(s).nested)[0 := Requeued(old(Map(s).nested)[0], Queue(b', s)[0])]
    {
      hide BookRep, TradeReady, Linkage, EntriesRep, CountersRep, PoolRep, HasHead;
      hide LevelMap.Ok, Wrap, Sum, Flat, AllAt, TradeHead, Volume, Queue, Requeued;
      TradeFacts(maker, taker, t);
      ghost var s, b' := t.side.Opposite(), TradeHead(book, t);
      TradeSides(maker, taker, t);
      TradeIndex(maker, taker, t);
      TradeQueues(book, t);
      Exchange(maker, taker, qty, Requeued(Map(s).nested[0], Dent(Queue(book, s)[0], TradeWith(t, Queue(book, s)[0]))));
      EntriesJoin(orderMap, b', {maker.id, taker.id});
    }

    method ExecuteTrade(maker: Order, taker: Order, px: Price, qty: Quantity, ghost t: Taker)
      requires TradeReady(maker, taker, t)
      requires px == Queue(book, t.side.Opposite())[0].price && qty == TradeWith(t, Queue(book, t.side.Opposite())[0])
      modifies this, maker`filledQty, maker`status, taker`filledQty, taker`status
      modifies Map(t.side.Opposite())`nested, Map(t.side.Opposite()).levels`totalQty
      ensures Rep(book) && book == TradeHead(old(book), t) && orderMap == old(orderMap)
      ensures var s := t.side.Opposite();
        Map(s).nested == old(Map(s).nested)[0 := Requeued(old(Map(s).nested)[0], Queue(book, s)[0])]
    {
      hide BookRep, TradeReady, Linkage, EntriesRep, CountersRep, PoolRep;
      hide LevelMap.Ok, Flat, TradeHead, Volume, Queue, Requeued;
      TradeFacts(maker, taker, t);
      TradeQueues(book, t);
      ghost var b' := TradeHead(book, t);
      ExchangeHead(maker, taker, qty, t);
      RecordTrade(Trade(maker.id, taker.id, px, qty), px, qty, book, b');
      BookRepOfLinked(orderMap, b', t.side.Opposite());
    }

    // -------------------------------------------------------------- leaving the book

    /** The oldest order of the best level of `s` is exhausted. */
    ghost predicate DropReady(maker: Order, s: Side)
      reads this, pool, pool.links, orderMap.Values, bids, asks, bids.levels, asks.levels, bids.members, asks.members
    {
      && Rep(book) && QueueOk(book, BID) && QueueOk(book, ASK) && LedgerOk(book) && PoolOk(book.index, book.free, |pool.slots|)
      && HasHead(s) && maker == Map(s).levels[0].q[0] && Queue(book, s) != [] && Open(Queue(book, s)[0]) == 0
    }

    /** No order of side `s` is linked into the other side. */
    ghost predicate Unlinked(s: Side)
      reads Map(s)`levels, Map(s).levels`q, Map(s.Opposite())`members
    {
      forall k, j {:trigger Map(s).levels[k].q[j]} :: 0 <= k < |Map(s).levels| && 0 <= j < |Map(s).levels[k].q| ==>
        Map(s).levels[k].q[j] !in Map(s.Opposite()).members
    }

    lemma SidesUnlinked(s: Side)
      requires Separate() && Map(s).Ok() && Map(s.Opposite()).Ok()
      ensures Unlinked(s)
    {
    }

    lemma DropFacts(maker: Order, s: Side)
      requires DropReady(maker, s)
      ensures Queue(book, s) != [] && HasHead(s) && Map(s).levels[0].q[0] == maker
      ensures var m := Queue(book, s)[0]; var v := Map(s).nested[0];
        && maker.id == m.id && m.id in orderMap && m.id in book.index && maker.slot == book.index[m.id] == m.slot
        && maker.Remaining() == Open(v.orders[0]) == 0
        && maker.slot < |pool.slots| && pool.slots[maker.slot] == maker
        && maker.slot !in pool.free && pool.Valid() && pool.free == book.free
        && Apart(s) && Unlinked(s)
        && |Map(s).levels| == |Map(s).nested| > 0 && Map(s).Ok()
    {
      var m := Queue(book, s)[0];
      HeadFacts(s);
      SidesApart(s);
      SidesUnlinked(s);
      assert EntryOk(book.ledger[m.id]);
    }

    static lemma FlatStart(nv: seq<Level>)
      ensures Flat(nv[..0]) == []
    {
      assert nv[..0] == [];
    }

    static lemma DropQueues(b: Book, s: Side)
      requires Queue(b, s) != []
      ensures Queue(DropHead(b, s), s) == RemoveAt(Queue(b, s), 0)
      ensures Queue(DropHead(b, s), s.Opposite()) == Queue(b, s.Opposite())
    {
    }

    lemma DropSides(maker: Order, s: Side)
      requires DropReady(maker, s)
      ensures var b' := DropHead(book, s); var v := Map(s).nested[0];
        && v.orders != [] && Flat(Map(s).nested[0 := LevelMap.DropOrder(v, 0)]) == Queue(b', s)
        && SideRep(s.Opposite(), b') && Separate()
    {
      hide Linkage, PoolRep, EntriesRep, CountersRep, LedgerOk, PoolOk, Sorted, LevelMap.Ok;
      RepParts();
      FlatRemove(Map(s).nested, 0, 0);
      FlatStart(Map(s).nested);
      DropQueues(book, s);
      assert SideRep(s, book) && SideRep(s.Opposite(), book);
      hide Flat, DropHead;
      SideSame(s.Opposite(), book, DropHead(book, s));
    }

    static lemma MembersWithout(om: map<OrderId, Order>, ms: set<Order>, q: seq<Resting>, id: OrderId)
      requires MembersRep(om, ms, q) && forall x :: x in ms ==> x.id != id
      ensures MembersRep(om - {id}, ms, q)
    {
    }

    /** Membership of the maker's own side once the maker is gone. */
    static lemma MembersDropHead(om: map<OrderId, Order>, ms: set<Order>, q: seq<Resting>, maker: Order)
      requires MembersRep(om, ms, q) && q != [] && q[0].id in om && om[q[0].id] == maker
      ensures MembersRep(om - {q[0].id}, ms - {maker}, q[1..])
    {
    }

    /** Objects carry their own id, so no other id leads to the same one. */
    static lemma Evicted(om: map<OrderId, Order>, b: Book, id: OrderId)
      requires EntriesRep(om, b) && id in om
      ensures om[id] !in (om - {id}).Values
    {
      assert EntryRep(om[id], id, b.ledger[id]);
    }

    /** Index and membership once the maker is gone. */
    lemma DropLinkage(maker: Order, s: Side)
      requires DropReady(maker, s)
      ensures var b' := DropHead(book, s); var m := Queue(book, s)[0]; var om := orderMap - {m.id};
        && IndexRep(om, b') && maker !in om.Values
        && MembersRep(om, Map(s).members - {maker}, Queue(b', s))
        && MembersRep(om, Map(s.Opposite()).members, Queue(b', s.Opposite()))
    {
      hide LedgerOk, PoolOk, EntriesRep, CountersRep, PoolRep, SideRep, Sorted;
      var m, q, p := Queue(book, s)[0], Queue(book, s), s.Opposite();
      HeadFacts(s);
      RepParts();
      forall o | o in Map(p).members
        ensures o.id != m.id
      {
        assert Listed(book, p, Queue(book, p)[Find(Queue(book, p), o.id)]);
      }
      Evicted(orderMap, book, m.id);
      MembersDropHead(orderMap, Map(s).members, q, maker);
      MembersWithout(orderMap, Map(p).members, Queue(book, p), m.id);
      assert (orderMap - {m.id}).Keys == orderMap.Keys - {m.id};
      assert (book.index - {m.id}).Keys == book.index.Keys - {m.id};
    }

    lemma DropEntries(maker: Order, s: Side)
      requires DropReady(maker, s)
      ensures var b' := DropHead(book, s); var m := Queue(book, s)[0]; var om := orderMap - {m.id};
        CountersRep(b') && b'.free == [m.slot] + book.free && EntriesRep(om, b')
    {
      hide Linkage, SideRep, EntriesRep, CountersRep, QueueOk, LedgerOk, PoolOk, HasHead;
      RepParts();
      DropFrame(book, s);
      CountersSame(book, DropHead(book, s));
      EntriesWithout(orderMap, book, DropHead(book, s), Queue(book, s)[0].id);
    }

    static lemma DropFrame(b: Book, s: Side)
      requires Queue(b, s) != []
      ensures var b' := DropHead(b, s);
        && b'.counter == b.counter && b'.cancelled == b.cancelled && b'.log == b.log && b'.ticks == b.ticks
        && b'.ledger == b.ledger && b'.free == [Queue(b, s)[0].slot] + b.free
    {
    }

    static lemma EntriesWithout(om: map<OrderId, Order>, b: Book, b': Book, id: OrderId)
      requires EntriesRep(om, b) && b'.ledger == b.ledger
      ensures EntriesRep(om - {id}, b')
    {
    }

    /** level.remove(maker), as far as the two sides go. */
    method UnlinkSide(maker: Order, s: Side)
      requires DropReady(maker, s)
      modifies Map(s)`nested, Map(s)`members, Map(s).levels, Map(s).levels[0].q`prev, Map(s).levels[0].q`next
      ensures Map(s).Ok() && Flat(Map(s).nested) == Queue(DropHead(book, s), s)
      ensures SideRep(s.Opposite(), DropHead(book, s)) && Separate()
      ensures Map(s).levels == old(Map(s).levels) && Map(s).members == old(Map(s).members) - {maker}
      ensures Map(s).nested == old(Map(s).nested)[0 := LevelMap.DropOrder(old(Map(s).nested)[0], 0)]
      ensures Map(s).levels[0].q == PriceLevel.Without(old(Map(s).levels[0].q), 0)
      ensures Map(s).levels[0].price == old(Map(s).levels[0].price)
    {
      hide Rep, DropReady, Separate, HasHead, LevelMap.Ok, MemoryPool.Valid, Wrap, Sum, Flat, DropHead, LevelMap.DropOrder, Open;
      DropFacts(maker, s);
      DropSides(maker, s);
      Map(s).RemoveFrom(0, maker, 0);
    }

    /** level.remove(maker). */
    method UnlinkHead(maker: Order, s: Side)
      requires DropReady(maker, s)
      modifies Map(s)`nested, Map(s)`members, Map(s).levels, Map(s).levels[0].q`prev, Map(s).levels[0].q`next
      ensures BookRep(orderMap - {maker.id}, DropHead(book, s)) && Map(s).levels == old(Map(s).levels)
      ensures Map(s).nested == old(Map(s).nested)[0 := LevelMap.DropOrder(old(Map(s).nested)[0], 0)]
      ensures Map(s).levels[0].q == PriceLevel.Without(old(Map(s).levels[0].q), 0)
      ensures Map(s).levels[0].price == old(Map(s).levels[0].price)
    {
      hide Rep, BookRep, DropReady, CountersRep, PoolRep, IndexRep, MembersRep, EntriesRep, Separate, HasHead;
      hide LevelMap.Ok, MemoryPool.Valid, Wrap, Sum, Flat, DropHead, LevelMap.DropOrder, Open;
      DropFacts(maker, s);
      DropLinkage(maker, s);
      DropEntries(maker, s);
      UnlinkSide(maker, s);
      BookRepOfSides(orderMap - {maker.id}, DropHead(book, s), s);
    }

    /** The common end of every closed order: final status, out of the index, back to the pool. */
    method Retire(o: Order, status: OrderStatus, ghost b: Book)
      requires pool.Valid() && o.slot < |pool.slots| && pool.slots[o.slot] == o && o.slot !in pool.free
      requires BookRep(orderMap - {o.id}, b) && o !in (orderMap - {o.id}).Values && b.free == [o.slot] + pool.free
      modifies `orderMap, `book, o`status, pool, pool.links
      ensures Rep(b) && book == b && orderMap == old(orderMap) - {o.id}
    {
      hide BookRep, MemoryPool.Valid;
      ghost var om := orderMap - {o.id};
      o.status := status;
      pool.Deallocate(o);
      assert BookRep(om, b);
      orderMap := orderMap - {o.id};
      book := b;
    }

    /** level.remove(maker), status FILLED, out of the index, back to the pool. */
    method RemoveFilled(maker: Order, s: Side)
      requires DropReady(maker, s)
      modifies `orderMap, `book, maker`status, pool, pool.links
      modifies Map(s)`nested, Map(s)`members, Map(s).levels, Map(s).levels[0].q`prev, Map(s).levels[0].q`next
      ensures Rep(book) && book == DropHead(old(book), s)
      ensures Map(s).levels == old(Map(s).levels) && Map(s).nested == old(Map(s).nested)[0 := LevelMap.DropOrder(old(Map(s).nested)[0], 0)]
      ensures Map(s).levels[0].q == PriceLevel.Without(old(Map(s).levels[0].q), 0)
      ensures Map(s).levels[0].price == old(Map(s).levels[0].price)
    {
      hide Rep, BookRep, DropReady, HasHead, LevelMap.Ok, MemoryPool.Valid, DropHead, LevelMap.DropOrder;
      DropFacts(maker, s);
      DropLinkage(maker, s);
      DropEntries(maker, s);
      UnlinkHead(maker, s);
      Retire(maker, FILLED, DropHead(book, s));
    }

    // -------------------------------------------------------------- matching

    /** The order `o` is the one being matched, in a book fit for matching. */
    ghost predicate Matching(o: Order, t: Taker)
      reads this, pool, pool.links, orderMap.Values, bids, asks, bids.levels, asks.levels, bids.members, asks.members
    {
      && Rep(book) && Ready(book, |pool.slots|, t) && t.slot < |pool.slots| && o == pool.slots[t.slot]
    }

    /** The first order of the best level, through the level's own links. */
    lemma HeadLinks(s: Side)
      requires Map(s).Ok() && |Map(s).levels| > 0
      ensures var l := Map(s).levels[0];
        && |l.q| == |Map(s).nested[0].orders| && l.head == PriceLevel.At(l.q, 0)
        && (l.q != [] ==> l.q[0].next == PriceLevel.At(l.q, 1) && HasHead(s))
    {
      Map(s).LevelAt(0);
      Map(s).OrderCount(0);
    }

    lemma HeadPrice(s: Side, t: Taker)
      requires SideRep(s, book) && HasHead(s) && t.side.Opposite() == s && Left(t) > 0
      requires Crosses(t, Map(s).levels[0].price)
      ensures CanTrade(book, t) && Queue(book, s)[0].price == Map(s).levels[0].price
    {
      Map(s).LevelAt(0);
      Map(s).OrderAt(0, 0);
    }

    lemma FillReady(maker: Order, taker: Order, s: Side, t: Taker)
      requires Matching(taker, t) && s == t.side.Opposite() && HasHead(s) && maker == Map(s).levels[0].q[0]
      requires Left(t) > 0 && Crosses(t, Map(s).levels[0].price)
      ensures CanTrade(book, t) && TradeReady(maker, taker, t)
      ensures maker.Remaining() == Open(Queue(book, s)[0]) && taker.Remaining() == Left(t)
      ensures Queue(book, s)[0].price == Map(s).levels[0].price
      ensures Ready(book, |pool.slots|, t) && Queue(book, s) != []
    {
      hide BookRep, QueueOk, LedgerOk, TakerOk, IndexOk, PoolOk, LogOk, PoolRep, Flat;
      RepParts();
      HeadPrice(s, t);
      assert AllOpen(Queue(book, s));
      hide Rep, AllOpen, CanTrade, Core;
      TradeFacts(maker, taker, t);
      RemainingIs(maker, Queue(book, s)[0].filled, Queue(book, s)[0].qty);
      RemainingIs(taker, t.filled, t.qty);
    }

    static lemma RemainingIs(o: Order, filled: nat, qty: nat)
      requires o.filledQty == filled && o.quantity == qty && filled <= qty
      ensures o.Remaining() == qty - filled
    {
    }

    /** After a trade that exhausts the head, the head can leave. */
    lemma DropReadyAfter(maker: Order, s: Side, t: Taker, b: Book)
      requires Rep(book) && b.free == book.free && b.index == book.index
      requires Ready(b, |pool.slots|, t) && CanTrade(b, t) && s == t.side.Opposite() && book == TradeHead(b, t)
      requires HasHead(s) && maker == Map(s).levels[0].q[0] && Open(Queue(book, s)[0]) == 0
      ensures DropReady(maker, s)
    {
      assert AllOpen(Queue(b, s));
      hide Rep, QueueOk, LedgerOk, TakerOk, IndexOk, PoolOk, LogOk, TradeHead, CanTrade;
      TradeHeadKeepsCore(b, |pool.slots|, t);
    }

    /** The state between the trade and the decision to drop its maker. */
    lemma AfterTrade(maker: Order, s: Side, t: Taker, b: Book)
      requires Rep(book) && Ready(b, |pool.slots|, t) && CanTrade(b, t) && s == t.side.Opposite() && book == TradeHead(b, t)
      requires |Map(s).levels| == |Map(s).nested| > 0 && Map(s).levels[0].q != [] && maker == Map(s).levels[0].q[0]
      ensures HasHead(s) && Queue(book, s) != [] && b.free == book.free && b.index == book.index
      ensures maker.Remaining() == Open(Queue(book, s)[0]) && maker.next == PriceLevel.At(Map(s).levels[0].q, 1)
      ensures Open(Queue(book, s)[0]) > 0 ==> Left(MatchStep(b, t).1) == 0
    {
      hide Rep, Ready, QueueOk, Listed, TradeHead, CanTrade, EntryOk, MatchStep, HasHead, Flat, Wrap, Sum;
      AfterTradeLinks(s);
      AfterTradeBook(b, |pool.slots|, t);
      HeadFacts(s);
      EntryFill(book.ledger[Queue(book, s)[0].id], Queue(book, s)[0], s);
      RemainingIs(maker, Queue(book, s)[0].filled, Queue(book, s)[0].qty);
    }

    lemma AfterTradeLinks(s: Side)
      requires Rep(book) && |Map(s).levels| == |Map(s).nested| > 0 && Map(s).levels[0].q != []
      ensures HasHead(s) && Map(s).levels[0].q[0].next == PriceLevel.At(Map(s).levels[0].q, 1)
    {
      hide PoolRep, Linkage, EntriesRep, CountersRep, LevelMap.Ok, Flat;
      RepParts();
      HeadLinks(s);
    }

    /** The abstract book after a trade with the head. */
    static lemma AfterTradeBook(b: Book, capacity: nat, t: Taker)
      requires Ready(b, capacity, t) && CanTrade(b, t)
      ensures var b', s := TradeHead(b, t), t.side.Opposite();
        && Queue(b', s) != [] && b'.free == b.free && b'.index == b.index && QueueOk(b', s)
        && Listed(b', s, Queue(b', s)[0]) && EntryOk(b'.ledger[Queue(b', s)[0].id])
        && (Open(Queue(b', s)[0]) > 0 ==> Left(MatchStep(b, t).1) == 0)
    {
      hide IndexOk, PoolOk, LogOk, TakerOk, Sorted;
      assert AllOpen(Queue(b, t.side.Opposite()));
      TradeHeadKeepsCore(b, capacity, t);
      HeadListed(TradeHead(b, t), t.side.Opposite());
      assert EntryOk(TradeHead(b, t).ledger[Queue(TradeHead(b, t), t.side.Opposite())[0].id]);
    }

    static lemma EntryFill(e: Entry, m: Resting, s: Side)
      requires EntryOk(e) && e == Entry(s, LIMIT, m.price, m.qty, m.filled, FillStatus(m.filled, m.qty))
      ensures m.filled <= m.qty
    {
    }

    static lemma MatchStepIs(b: Book, t: Taker)
      requires CanTrade(b, t)
      ensures var s := t.side.Opposite(); var b' := TradeHead(b, t);
        Queue(b', s) != [] && MatchStep(b, t).0 == if Open(Queue(b', s)[0]) == 0 then DropHead(b', s) else b'
    {
    }

    lemma HeadAfterDrop(s: Side, q: seq<Order>)
      requires Rep(book) && |Map(s).levels| > 0 && q != [] && Map(s).levels[0].q == PriceLevel.Without(q, 0)
      ensures Map(s).levels[0].head == PriceLevel.At(q, 1)
    {
      RepParts();
      HeadLinks(s);
    }

    /** One turn of the inner loop: trade with the head of the best level, and drop it if it is exhausted. */
    method FillHead(maker: Order, taker: Order, px: Price, s: Side, ghost t: Taker) returns (next: Order?)
      requires Matching(taker, t) && s == t.side.Opposite() && HasHead(s) && maker == Map(s).levels[0].q[0]
      requires Left(t) > 0 && px == Map(s).levels[0].price && Crosses(t, px)
      modifies this, pool, pool.links, maker`filledQty, maker`status, taker`filledQty, taker`status
      modifies Map(s)`nested, Map(s)`members, Map(s).levels, Map(s).levels[0].q`prev, Map(s).levels[0].q`next
      ensures Queue(old(book), s) != [] && CanTrade(old(book), t) && book == MatchStep(old(book), t).0 && Rep(book)
      ensures Map(s).levels == old(Map(s).levels) && |Map(s).nested| == |old(Map(s).nested)| && Map(s).nested[1..] == old(Map(s).nested)[1..]
      ensures Map(s).levels[0].price == px
      ensures Left(MatchStep(old(book), t).1) > 0 ==> next == Map(s).levels[0].head
    {
      hide Rep, Matching, TradeReady, DropReady, Ready, CanTrade, LevelMap.Ok, Wrap, Sum, MatchStep, TradeHead, DropHead, Queue, Crosses;
      ghost var b := book;
      FillReady(maker, taker, s, t);
      MatchStepIs(b, t);
      var fillQty := Min(taker.Remaining(), maker.Remaining());
      ExecuteTrade(maker, taker, px, fillQty, t);
      AfterTrade(maker, s, t, b);
      next := maker.next;
      if maker.Remaining() == 0 {
        DropReadyAfter(maker, s, t, b);
        ghost var q := Map(s).levels[0].q;
        RemoveFilled(maker, s);
        HeadAfterDrop(s, q);
      }
    }

    lemma ActiveIs(o: Order, t: Taker)
      requires Matching(o, t)
      ensures o.IsActive() <==> Left(t) > 0
    {
      assert EntryOk(book.ledger[t.id]);
      assert EntryRep(orderMap[t.id], t.id, book.ledger[t.id]);
    }

    /** A step of the match leaves the book fit for the next one. */
    lemma MatchingKept(o: Order, t: Taker, b: Book)
      requires Ready(b, |pool.slots|, t) && CanTrade(b, t) && Rep(book) && book == MatchStep(b, t).0
      requires t.slot < |pool.slots| && o == pool.slots[t.slot]
      ensures Matching(o, MatchStep(b, t).1) && Match(b, t) == Match(book, MatchStep(b, t).1)
      ensures MatchStep(b, t).1 == t.(filled := MatchStep(b, t).1.filled)
      ensures var q, q' := Queue(b, t.side.Opposite()), Queue(book, t.side.Opposite());
        |q'| < |q| || (|q'| == |q| && Left(MatchStep(b, t).1) < Left(t))
    {
      hide Rep, Core, TakerOk, AllOpen;
      MatchStepKeeps(b, |pool.slots|, t);
    }

    lemma HeadCount(s: Side)
      requires Map(s).Ok() && |Map(s).levels| > 0
      ensures |Map(s).levels| == |Map(s).nested| && (Map(s).levels[0].q == [] ==> Map(s).nested[0].orders == [])
    {
      Map(s).OrderCount(0);
    }

    lemma SlotsShared(s: Side)
      requires Separate()
      ensures Map(s).slots == pool.slots
    {
    }

    lemma MatchingParts(o: Order, t: Taker)
      requires Matching(o, t)
      ensures Rep(book) && Ready(book, |pool.slots|, t) && t.slot < |pool.slots| && o == pool.slots[t.slot]
      ensures SideRep(BID, book) && SideRep(ASK, book)
    {
    }

    lemma LoopFacts(o: Order, s: Side, t: Taker)
      requires Matching(o, t) && |Map(s).levels| > 0
      ensures Rep(book) && Ready(book, |pool.slots|, t) && t.slot < |pool.slots| && o == pool.slots[t.slot]
      ensures |Map(s).levels| == |Map(s).nested| && Map(s).levels[0].head == PriceLevel.At(Map(s).levels[0].q, 0)
      ensures if Map(s).levels[0].q == [] then Map(s).nested[0].orders == [] else HasHead(s)
      ensures forall j :: 0 <= j < |Map(s).levels[0].q| ==> Map(s).levels[0].q[j] in pool.slots
    {
      hide Rep, Ready, PoolRep, Linkage, EntriesRep, CountersRep, LevelMap.Ok, HasHead, Flat;
      RepParts();
      assert SideRep(s, book);
      HeadLinks(s);
      HeadCount(s);
      SlotsShared(s);
      var l := Map(s).levels[0];
      forall j | 0 <= j < |l.q|
        ensures l.q[j] in pool.slots
      {
        Map(s).OrderAt(0, j);
      }
    }

    /** The inner loop: the best level of `s`, oldest order first, until it or the taker is exhausted. */
    method MatchLevel(taker: Order, s: Side, ghost t: Taker) returns (ghost t': Taker)
      requires Matching(taker, t) && s == t.side.Opposite() && |Map(s).levels| > 0 && Crosses(t, Map(s).levels[0].price)
      modifies this, pool, pool.links, pool.slots`filledQty, pool.slots`status, pool.slots`prev, pool.slots`next
      modifies Map(s)`nested, Map(s)`members, Map(s).levels
      ensures Matching(taker, t') && t' == t.(filled := t'.filled) && Match(old(book), t) == Match(book, t')
      ensures Map(s).levels == old(Map(s).levels) && |Map(s).nested| == |old(Map(s).nested)| && Map(s).nested[1..] == old(Map(s).nested)[1..]
      ensures Left(t') > 0 ==> Map(s).nested[0].orders == []
    {
      hide Rep, Matching, Ready, CanTrade, LevelMap.Ok, SideRep, Match, MatchStep, Queue;
      t' := t;
      LoopFacts(taker, s, t);
      var px := Map(s).levels[0].price;
      var maker := Map(s).levels[0].head;
      ActiveIs(taker, t);
      while maker != null && taker.IsActive()
        invariant Matching(taker, t') && t' == t.(filled := t'.filled) && Match(old(book), t) == Match(book, t')
        invariant Map(s).levels == old(Map(s).levels) && Map(s).levels[0].price == px && Crosses(t', px)
        invariant |Map(s).nested| == |Map(s).levels| && Map(s).nested[1..] == old(Map(s).nested)[1..]
        invariant Left(t') > 0 ==> maker == Map(s).levels[0].head
        invariant taker.IsActive() <==> Left(t') > 0
        decreases |Queue(book, s)|, Left(t')
      {
        ghost var b := book;
        LoopFacts(taker, s, t');
        assert maker in pool.slots && taker in pool.slots;
        maker := FillHead(maker, taker, px, s, t');
        MatchingKept(taker, t', b);
        t' := MatchStep(b, t').1;
        ActiveIs(taker, t');
      }
      LoopFacts(taker, s, t');
    }

    lemma EraseFacts(s: Side)
      requires Rep(book) && |Map(s).levels| > 0 && Map(s).levels[0].Empty()
      ensures Map(s).Ok() && |Map(s).nested| == |Map(s).levels| && Map(s).nested[0].orders == []
      ensures Flat(Map(s).nested[..0] + Map(s).nested[1..]) == Queue(book, s)
      ensures EntriesRep(orderMap, book) && CountersRep(book) && SideRep(s.Opposite(), book) && PoolRep(book)
      ensures Linkage(orderMap, book) && Apart(s)
    {
      RepParts();
      SidesApart(s);
      Map(s).OrderCount(0);
      FlatEraseLevel(Map(s).nested, 0);
    }

    lemma EraseRep(s: Side)
      requires EntriesRep(orderMap, book) && CountersRep(book) && PoolRep(book) && SideRep(s.Opposite(), book)
      requires Map(s).Ok() && Flat(Map(s).nested) == Queue(book, s)
      requires Separate() && IndexRep(orderMap, book)
      requires MembersRep(orderMap, bids.members, book.bids) && MembersRep(orderMap, asks.members, book.asks)
      ensures Rep(book)
    {
    }

    /** Erases the best level, which has become empty. */
    method EraseBest(s: Side)
      requires Rep(book) && |Map(s).levels| > 0 && Map(s).levels[0].Empty()
      modifies Map(s)`levels, Map(s)`nested
      ensures Rep(book) && Map(s).levels == old(Map(s).levels)[1..] && Map(s).nested == old(Map(s).nested)[1..]
    {
      hide Rep, EntriesRep, CountersRep, PoolRep, SideRep, IndexRep, MembersRep, LevelMap.Ok, Flat;
      EraseFacts(s);
      Map(s).Erase(0);
      EraseRep(s);
    }

    /** When the outer loop stops: the taker is filled, the side is empty, or its best price is out of reach. */
    lemma NothingLeft(o: Order, s: Side, t: Taker)
      requires Matching(o, t) && s == t.side.Opposite() && NoneEmpty(Map(s).nested)
      requires Left(t) == 0 || Map(s).levels == [] || !Crosses(t, Map(s).levels[0].price)
      ensures Match(book, t) == (book, t)
    {
      RepParts();
      if Map(s).levels != [] {
        Map(s).LevelAt(0);
        Map(s).OrderCount(0);
        Map(s).OrderAt(0, 0);
      }
    }

    lemma TakerFields(o: Order, t: Taker)
      requires Matching(o, t)
      ensures o.otype == t.otype && o.price == t.price && (o.IsActive() <==> Left(t) > 0)
    {
      ActiveIs(o, t);
      assert EntryRep(orderMap[t.id], t.id, book.ledger[t.id]);
    }

    lemma MatchingMoved(o: Order, t: Taker)
      requires Rep(book) && Ready(book, |pool.slots|, t) && t.slot < |pool.slots| && o == pool.slots[t.slot]
      ensures Matching(o, t)
    {
    }

    method MatchAgainstAsks(bid: Order, ghost t: Taker) returns (ghost t': Taker)
      requires Matching(bid, t) && t.side == BID && NoneEmpty(asks.nested)
      modifies this, pool, pool.links, pool.slots`filledQty, pool.slots`status, pool.slots`prev, pool.slots`next
      modifies asks, asks.levels
      ensures Matching(bid, t') && (book, t') == Match(old(book), t) && NoneEmpty(asks.nested)
      ensures forall k :: 0 <= k < |asks.levels| ==> asks.levels[k] in old(asks.levels)
    {
      hide Rep, Matching, Ready, Match, LevelMap.Ok;
      t' := t;
      TakerFields(bid, t);
      while bid.IsActive() && asks.levels != []
        invariant Matching(bid, t') && t' == t.(filled := t'.filled) && Match(old(book), t) == Match(book, t')
        invariant NoneEmpty(asks.nested) && forall k :: 0 <= k < |asks.levels| ==> asks.levels[k] in old(asks.levels)
        invariant bid.IsActive() <==> Left(t') > 0
        decreases |asks.levels|, if Left(t') > 0 then 1 else 0
      {
        var level := asks.levels[0];
        TakerFields(bid, t');
        if bid.otype == LIMIT && bid.price < level.price {
          break;
        }
        t' := MatchLevel(bid, ASK, t');
        TakerFields(bid, t');
        LoopFacts(bid, ASK, t');
        if level.Empty() {
          EraseBest(ASK);
          MatchingMoved(bid, t');
        }
      }
      NothingLeft(bid, ASK, t');
    }

    method MatchAgainstBids(ask: Order, ghost t: Taker) returns (ghost t': Taker)
      requires Matching(ask, t) && t.side == ASK && NoneEmpty(bids.nested)
      modifies this, pool, pool.links, pool.slots`filledQty, pool.slots`status, pool.slots`prev, pool.slots`next
      modifies bids, bids.levels
      ensures Matching(ask, t') && (book, t') == Match(old(book), t) && NoneEmpty(bids.nested)
      ensures forall k :: 0 <= k < |bids.levels| ==> bids.levels[k] in old(bids.levels)
    {
      hide Rep, Matching, Ready, Match, LevelMap.Ok;
      t' := t;
      TakerFields(ask, t);
      while ask.IsActive() && bids.levels != []
        invariant Matching(ask, t') && t' == t.(filled := t'.filled) && Match(old(book), t) == Match(book, t')
        invariant NoneEmpty(bids.nested) && forall k :: 0 <= k < |bids.levels| ==> bids.levels[k] in old(bids.levels)
        invariant ask.IsActive() <==> Left(t') > 0
        decreases |bids.levels|, if Left(t') > 0 then 1 else 0
      {
        var level := bids.levels[0];
        TakerFields(ask, t');
        if ask.otype == LIMIT && ask.price > level.price {
          break;
        }
        t' := MatchLevel(ask, BID, t');
        TakerFields(ask, t');
        LoopFacts(ask, BID, t');
        if level.Empty() {
          EraseBest(BID);
          MatchingMoved(ask, t');
        }
      }
      NothingLeft(ask, BID, t');
    }

    // -------------------------------------------------------------- after the match

    /** The order being matched is linked into neither side. */
    lemma TakerUnlinked(o: Order, t: Taker)
      requires Matching(o, t)
      ensures o.id == t.id && o !in bids.members && o !in asks.members
      ensures forall x :: x in bids.members || x in asks.members ==> x.id != t.id
    {
    }

    lemma CloseTakerPool(o: Order, t: Taker)
      requires Matching(o, t)
      ensures pool.Valid() && o.slot == t.slot < |pool.slots| && pool.slots[o.slot] == o && o.slot !in pool.free
      ensures PoolRep(book)
    {
    }

    /** Closing an order takes its entry out of the index and leaves the others alone. */
    lemma IndexWithout(o: Order, b: Book, id: OrderId, slot: nat, status: OrderStatus)
      requires IndexRep(orderMap, b) && EntriesRep(orderMap, b) && id in orderMap && o.id == id
      ensures IndexRep(orderMap - {id}, Close(b, id, slot, status)) && EntriesRep(orderMap - {id}, Close(b, id, slot, status))
      ensures o !in (orderMap - {id}).Values
    {
    }

    lemma CloseTakerRep(o: Order, t: Taker, status: OrderStatus)
      requires Matching(o, t)
      ensures BookRep(orderMap - {t.id}, Close(book, t.id, t.slot, status)) && o !in (orderMap - {t.id}).Values
    {
      TakerUnlinked(o, t);
      TakerIndexed(o, t);
      hide Matching, CountersRep, SideRep, Separate, EntriesRep, IndexRep, MembersRep, PoolRep;
      var b' := Close(book, t.id, t.slot, status);
      MatchingParts(o, t);
      RepParts();
      IndexWithout(o, book, t.id, t.slot, status);
      MembersWithout(orderMap, bids.members, book.bids, t.id);
      MembersWithout(orderMap, asks.members, book.asks, t.id);
      SideSame(BID, book, b');
      SideSame(ASK, book, b');
      CountersSame(book, b');
    }

    lemma TakerIndexed(o: Order, t: Taker)
      requires Matching(o, t)
      ensures t.id in orderMap && orderMap[t.id] == o && o.slot == t.slot
    {
    }

    lemma SideSame(s: Side, b: Book, b': Book)
      requires SideRep(s, b) && Queue(b', s) == Queue(b, s)
      ensures SideRep(s, b')
    {
    }

    lemma CountersSame(b: Book, b': Book)
      requires CountersRep(b) && b'.counter == b.counter && b'.cancelled == b.cancelled && b'.log == b.log && b'.ticks == b.ticks
      ensures CountersRep(b')
    {
    }

    /** A rejected FOK, or the unfilled rest of an IOC, FOK or MARKET order. */
    method CloseTaker(o: Order, status: OrderStatus, ghost t: Taker)
      requires Matching(o, t)
      modifies `orderMap, `book, o`status, pool, pool.links
      ensures Rep(book) && book == Close(old(book), t.id, t.slot, status)
    {
      hide Rep, Matching, BookRep, PoolRep, MemoryPool.Valid;
      TakerUnlinked(o, t);
      CloseTakerPool(o, t);
      CloseTakerRep(o, t, status);
      MatchingParts(o, t);
      Retire(o, status, Close(book, t.id, t.slot, status));
    }

    static lemma MembersJoined(om: map<OrderId, Order>, ms: set<Order>, side: Side, q: seq<Resting>, o: Order, r: Resting)
      requires MembersRep(om, ms, q) && o.id == r.id && r.id in om && om[r.id] == o
      ensures MembersRep(om, ms + {o}, Insert(side, q, r))
    {
      var k := InsertPos(side, q, r.price);
      forall x | x in ms + {o}
        ensures Find(InsertAt(q, k, r), x.id) < |q| + 1
      {
        FindAfterInsert(q, k, r, x.id);
      }
    }

    static ghost function AsResting(t: Taker, stamp: nat): Resting {
      Resting(t.id, t.price, t.qty, t.filled, t.slot, stamp)
    }

    /** What the side that the order joins needs. */
    lemma RestJoins(o: Order, t: Taker)
      requires Matching(o, t) && t.otype.LIMIT?
      ensures var s := t.side; var r := AsResting(t, book.clock);
        && Map(s).Ok() && o !in Map(s).members && o.side == s == Map(s).side && o.price == r.price
        && o.quantity == r.qty && o.filledQty == r.filled <= r.qty && r.slot < |Map(s).slots| && Map(s).slots[r.slot] == o
        && Insert(s, Flat(Map(s).nested), r) == Queue(Rest(book, t), s)
        && MembersRep(orderMap, Map(s).members + {o}, Queue(Rest(book, t), s))
    {
      TakerUnlinked(o, t);
      TakerIndexed(o, t);
      RestLedger(o, t);
      MatchingParts(o, t);
      hide Matching, CountersRep, EntriesRep, IndexRep, MembersRep, PoolRep, Insert;
      RepParts();
      MembersJoined(orderMap, Map(t.side).members, t.side, Queue(book, t.side), o, AsResting(t, book.clock));
    }

    /** What the other side needs. */
    lemma RestLeaves(o: Order, t: Taker)
      requires Matching(o, t) && t.otype.LIMIT?
      ensures var s := t.side; var p := s.Opposite(); var b' := Rest(book, t);
        && SideRep(p, b') && MembersRep(orderMap, Map(p).members, Queue(b', p))
        && Separate() && Apart(s) && (forall x :: x in Map(s).members ==> x !in Map(p).members) && o !in Map(p).members
    {
      TakerUnlinked(o, t);
      MatchingParts(o, t);
      hide Matching, CountersRep, EntriesRep, IndexRep, MembersRep, PoolRep, Insert, Apart, Ready;
      RepParts();
      SidesApart(t.side);
      MembersApart();
    }

    /** What the records need. */
    lemma RestRecords(o: Order, t: Taker)
      requires Matching(o, t)
      ensures var b' := Rest(book, t); PoolRep(b') && CountersRep(b') && IndexRep(orderMap, b') && EntriesRep(orderMap, b')
    {
      hide Ready, CountersRep, EntriesRep, MembersRep, PoolRep, Rest, SideRep, Separate;
      RestFrame(book, t);
      RepParts();
      CountersSame(book, Rest(book, t));
      LedgerSame(book, Rest(book, t));
    }

    static lemma RestFrame(b: Book, t: Taker)
      ensures Rest(b, t) == b.(bids := Rest(b, t).bids, asks := Rest(b, t).asks, clock := b.clock + 1)
    {
    }

    lemma RestRep(s: Side, b: Book)
      requires SideRep(s, b) && SideRep(s.Opposite(), b) && PoolRep(b) && CountersRep(b) && IndexRep(orderMap, b) && EntriesRep(orderMap, b)
      requires MembersRep(orderMap, Map(s).members, Queue(b, s)) && MembersRep(orderMap, Map(s.Opposite()).members, Queue(b, s.Opposite()))
      requires Separate()
      ensures Rep(b)
    {
    }

    /** Rests the unfilled part of a limit order. */
    method RestOrder(o: Order, ghost t: Taker)
      requires Matching(o, t) && t.otype.LIMIT? && NoneEmpty(bids.nested) && NoneEmpty(asks.nested)
      modifies `book, o`prev, o`next, Map(t.side)`levels, Map(t.side)`nested, Map(t.side)`members, Map(t.side).levels, Map(t.side).members`next
      ensures Rep(book) && book == Rest(old(book), t) && NoneEmpty(bids.nested) && NoneEmpty(asks.nested)
      ensures forall k :: 0 <= k < |Map(t.side).levels| ==> Map(t.side).levels[k] in old(Map(t.side).levels) || fresh(Map(t.side).levels[k])
    {
      hide Rep, Matching, PoolRep, CountersRep, IndexRep, EntriesRep, MembersRep, LevelMap.Ok, Flat, Insert, Rest, NoneEmpty, AsResting;
      RestJoins(o, t);
      RestLeaves(o, t);
      RestRecords(o, t);
      ghost var r := AsResting(t, book.clock);
      book := Rest(book, t);
      assert o.side == t.side;
      Map(o.side).RestOrder(o, r);
      RestRep(t.side, book);
    }

    lemma RestLedger(o: Order, t: Taker)
      requires Matching(o, t)
      ensures o.side == t.side && o.price == t.price && o.quantity == t.qty && o.filledQty == t.filled <= t.qty
    {
      assert EntryRep(orderMap[t.id], t.id, book.ledger[t.id]);
      assert EntryOk(book.ledger[t.id]);
    }

    lemma MembersApart()
      requires Separate() && bids.Ok() && asks.Ok()
      ensures forall x :: x in bids.members ==> x !in asks.members
    {
    }

    lemma LedgerSame(b: Book, b': Book)
      requires PoolRep(b) && IndexRep(orderMap, b) && EntriesRep(orderMap, b)
      requires b'.ledger == b.ledger && b'.index == b.index && b'.free == b.free
      ensures PoolRep(b') && IndexRep(orderMap, b') && EntriesRep(orderMap, b')
    {
    }

    // -------------------------------------------------------------- admission

    lemma FreeUnlinked(o: Order)
      requires Rep(book) && PoolOk(book.index, book.free, |pool.slots|) && book.free != []
      requires o.slot == book.free[0] < |pool.slots| && pool.slots[o.slot] == o
      ensures o !in orderMap.Values && o !in bids.members && o !in asks.members
    {
    }

    /** The index with one more entry, seen before the object for it is written. */
    lemma AdmitIndex(o: Order, side: Side, otype: OrderType, price: int, qty: nat)
      requires Rep(book) && LedgerOk(book) && PoolOk(book.index, book.free, |pool.slots|) && book.free != []
      requires o.slot == book.free[0] < |pool.slots| && pool.slots[o.slot] == o
      ensures var id := book.counter + 1; var b' := Admit(book, side, otype, price, qty).0; var om := orderMap[id := o];
        && id !in orderMap && IndexRep(om, b')
        && EntriesRep(orderMap, b')
        && id in b'.ledger && b'.ledger[id] == Entry(side, otype, price, qty, 0, NEW)
    {
      hide CountersRep, SideRep, Separate, MembersRep, PoolRep, PoolOk;
      RepParts();
      var id := book.counter + 1;
      assert id !in orderMap;
      assert orderMap[id := o].Keys == orderMap.Keys + {id};
      assert Admit(book, side, otype, price, qty).0.index.Keys == book.index.Keys + {id};
    }

    lemma AdmitSides(o: Order, side: Side, otype: OrderType, price: int, qty: nat)
      requires Rep(book) && book.free != [] && book.counter + 1 !in orderMap
      ensures var id := book.counter + 1; var b' := Admit(book, side, otype, price, qty).0; var om := orderMap[id := o];
        && MembersRep(om, bids.members, b'.bids) && MembersRep(om, asks.members, b'.asks)
        && SideRep(BID, b') && SideRep(ASK, b') && Separate() && CountersRep(book) && idCounter == book.counter
    {
      hide Separate, PoolRep, EntriesRep, IndexRep, MembersRep, SideRep;
      RepParts();
      var b' := Admit(book, side, otype, price, qty).0;
      SideSame(BID, book, b');
      SideSame(ASK, book, b');
      MembersMore(orderMap, bids.members, book.bids, b'.counter, o);
      MembersMore(orderMap, asks.members, book.asks, b'.counter, o);
    }

    static lemma MembersMore(om: map<OrderId, Order>, ms: set<Order>, q: seq<Resting>, id: OrderId, o: Order)
      requires MembersRep(om, ms, q) && id !in om
      ensures MembersRep(om[id := o], ms, q)
    {
    }

    static lemma NewEntry(om: map<OrderId, Order>, id: OrderId, o: Order, b: Book)
      requires id !in om && EntriesRep(om, b) && id in b.ledger && EntryRep(o, id, b.ledger[id])
      ensures EntriesRep(om[id := o], b)
    {
    }

    /** The fields of a new order. */
    method InitOrder(o: Order, id: OrderId, side: Side, otype: OrderType, price: Price, quantity: Quantity)
      modifies o`id, o`price, o`quantity, o`filledQty, o`side, o`otype, o`status, o`prev, o`next
      ensures EntryRep(o, id, Entry(side, otype, price, quantity, 0, NEW)) && o.id == id
    {
      o.id := id;
      o.price := price;
      o.quantity := quantity;
      o.filledQty := 0;
      o.side := side;
      o.otype := otype;
      o.status := NEW;
      o.prev, o.next := null, null;
    }

    lemma AdmitRep(b: Book, side: Side, otype: OrderType, price: int, qty: nat)
      requires b.free != [] && book == Admit(b, side, otype, price, qty).0 && pool.Valid() && pool.free == b.free[1..]
      requires IndexRep(orderMap, book) && MembersRep(orderMap, bids.members, book.bids) && MembersRep(orderMap, asks.members, book.asks)
      requires EntriesRep(orderMap, book)
      requires SideRep(BID, book) && SideRep(ASK, book) && Separate() && CountersRep(book)
      ensures Rep(book)
    {
    }

    lemma AdmitCounters(b: Book, side: Side, otype: OrderType, price: int, qty: nat)
      requires b.free != []
      ensures var b' := Admit(b, side, otype, price, qty).0;
        b'.counter == b.counter + 1 && b'.cancelled == b.cancelled && b'.log == b.log && b'.ticks == b.ticks
      ensures var t := Admit(b, side, otype, price, qty).1; t.id == b.counter + 1 && t.slot == b.free[0]
    {
    }

    lemma ValidParts()
      requires Valid()
      ensures PoolRep(book) && BookRep(orderMap, book) && NoneEmpty(bids.nested) && NoneEmpty(asks.nested)
      ensures Inv(book, |pool.slots|) && Rep(book) && Core(book, |pool.slots|, 0) && LedgerOk(book) && PoolOk(book.index, book.free, |pool.slots|)
    {
    }

    lemma ValidFrom()
      requires PoolRep(book) && BookRep(orderMap, book) && NoneEmpty(bids.nested) && NoneEmpty(asks.nested) && Inv(book, |pool.slots|)
      ensures Valid()
    {
    }

    lemma FreeSlot()
      requires PoolRep(book) && book.free != []
      ensures book.free[0] < |pool.slots| && pool.slots[book.free[0]].slot == book.free[0]
    {
    }

    /** The id is taken, the object indexed and counted. */
    method Enter(o: Order, ghost b: Book, ghost b': Book) returns (id: OrderId)
      requires CountersRep(b) && b'.counter == b.counter + 1 && b'.cancelled == b.cancelled && b'.log == b.log && b'.ticks == b.ticks
      modifies `orderMap, `idCounter, `ordersAdded, `book
      ensures CountersRep(b') && book == b' && orderMap == old(orderMap)[id := o] && id == b'.counter
    {
      idCounter := idCounter + 1;
      id := idCounter;
      orderMap := orderMap[id := o];
      ordersAdded := ordersAdded + 1;
      book := b';
    }

    /** The new order's fields, its id and its index entry. */
    method Install(o: Order, side: Side, otype: OrderType, price: Price, quantity: Quantity, ghost b: Book, ghost b': Book)
      requires CountersRep(b) && b'.counter == b.counter + 1 && b'.cancelled == b.cancelled && b'.log == b.log && b'.ticks == b.ticks
      requires o !in orderMap.Values && b'.counter !in orderMap && EntriesRep(orderMap, b')
      requires b'.counter in b'.ledger && b'.ledger[b'.counter] == Entry(side, otype, price, quantity, 0, NEW)
      modifies `orderMap, `idCounter, `ordersAdded, `book
      modifies o`id, o`price, o`quantity, o`filledQty, o`side, o`otype, o`status, o`prev, o`next
      ensures CountersRep(b') && EntriesRep(orderMap, b') && book == b'
      ensures orderMap == old(orderMap)[b'.counter := o] && o.id == b'.counter
    {
      hide EntriesRep;
      InitOrder(o, idCounter + 1, side, otype, price, quantity);
      var id := Enter(o, b, b');
      NewEntry(old(orderMap), id, o, b');
    }

    /** Allocation and installation of a new order. */
    method NewOrder(side: Side, otype: OrderType, price: Price, quantity: Quantity) returns (o: Order?, ghost t: Taker)
      requires Valid() && quantity > 0 && (otype.LIMIT? ==> price > 0)
      modifies `orderMap, `idCounter, `ordersAdded, `book, pool, pool.slots
      ensures o == null <==> old(book).free == []
      ensures o == null ==> Valid() && book == old(book)
      ensures o != null ==> Rep(book) && (book, t) == Admit(old(book), side, otype, price, quantity) && o.id == t.id
      ensures o != null ==> o.slot == t.slot < |pool.slots| && pool.slots[t.slot] == o
    {
      hide Valid, Rep, Core, BookRep, LedgerOk, PoolOk, IndexRep, MembersRep, Separate, Inv, Admit, CountersRep, EntryRep, EntriesRep, NoneEmpty;
      hide MemoryPool.Valid, LevelMap.Ok, Flat, Queue;
      ValidParts();
      ghost var b := book;
      t := Taker(0, BID, LIMIT, 0, 0, 0, 0);
      if book.free != [] {
        FreeSlot();
        FreeUnlinked(pool.slots[book.free[0]]);
        AdmitIndex(pool.slots[book.free[0]], side, otype, price, quantity);
        AdmitSides(pool.slots[book.free[0]], side, otype, price, quantity);
        AdmitCounters(book, side, otype, price, quantity);
        t := Admit(book, side, otype, price, quantity).1;
      }
      o := pool.Allocate();
      if o == null {
        ValidFrom();
        return;
      }
      Install(o, side, otype, price, quantity, b, Admit(b, side, otype, price, quantity).0);
      AdmitRep(b, side, otype, price, quantity);
    }

    // -------------------------------------------------------------- market data

    /** The best level, and what the flat queue says of it. */
    lemma TopFacts(s: Side)
      requires SideRep(s, book) && NoneEmpty(Map(s).nested)
      ensures Map(s).levels == [] <==> Queue(book, s) == []
      ensures Map(s).levels != [] ==>
                Queue(book, s)[0].price == Map(s).levels[0].price && Map(s).levels[0].totalQty == BestQty(Map(s).side, Queue(book, s))
    {
      if Map(s).levels != [] {
        Map(s).LevelAt(0);
        Map(s).OrderCount(0);
        CumAtLevel(Map(s).side, Map(s).nested, 0);
        SumNextLevel(Map(s).nested, 0);
        assert Map(s).nested[..0] == [];
      }
    }

    lemma TickRep(b: Book)
      requires PoolRep(b) && Linkage(orderMap, b) && EntriesRep(orderMap, b) && SideRep(BID, b) && SideRep(ASK, b)
      requires CountersRep(Publish(b)) && book == Publish(b)
      ensures Rep(book)
    {
      SideSame(BID, b, book);
      SideSame(ASK, b, book);
    }

    /** The tick of the current top of book. */
    method Snapshot() returns (tick: Tick)
      requires Rep(book) && NoneEmpty(bids.nested) && NoneEmpty(asks.nested)
      ensures tick == TopOfBook(book)
    {
      hide EntriesRep, IndexRep, MembersRep, PoolRep, NoneEmpty, Wrap, CumDepth, Flat, LevelMap.Ok, Volume;
      TopFacts(BID);
      TopFacts(ASK);
      tick := Tick(0, 0, 0, 0, lastTradePx, lastTradeQty);
      if bids.levels != [] {
        tick := tick.(bestBid := bids.levels[0].price, bestBidQty := bids.levels[0].totalQty);
      }
      if asks.levels != [] {
        tick := tick.(bestAsk := asks.levels[0].price, bestAskQty := asks.levels[0].totalQty);
      }
    }

    /** The market data callback. */
    method RecordTick(tick: Tick)
      requires CountersRep(book) && tick == TopOfBook(book)
      modifies `tickLog, `book
      ensures CountersRep(book) && book == Publish(old(book))
    {
      hide TopOfBook, Volume;
      tickLog := tickLog + [tick];
      book := Publish(book);
    }

    method PublishMarketData()
      requires Rep(book) && NoneEmpty(bids.nested) && NoneEmpty(asks.nested)
      modifies `tickLog, `book
      ensures Rep(book) && book == Publish(old(book))
    {
      hide Rep, PoolRep, Linkage, EntriesRep, CountersRep, LevelMap.Ok, NoneEmpty, TopOfBook, Flat, Publish;
      RepParts();
      var tick := Snapshot();
      RecordTick(tick);
      TickRep(old(book));
    }

    // -------------------------------------------------------------- public operations

    method CheckFokFillable(incoming: Order, ghost t: Taker) returns (available: Quantity)
      requires Matching(incoming, t) && Left(t) > 0 && NoneEmpty(bids.nested) && NoneEmpty(asks.nested)
      ensures FokAmount(Queue(book, t.side.Opposite()), t, available)
      ensures available >= incoming.quantity <==> FokAccepts(Queue(book, t.side.Opposite()), t)
    {
      hide Matching, FokAccepts, FokAmount, StopsAfter, LevelMap.Ok, Shaped, NoneEmpty, Flat, Wrap, Sum;
      FokFacts(incoming, t);
      ghost var n;
      if incoming.side == BID {
        available, n := asks.Available(incoming.price, incoming.quantity);
      } else {
        available, n := bids.Available(incoming.price, incoming.quantity);
      }
      StopsAfterIsFokAmount(Map(t.side.Opposite()).nested, t, n);
    }

    lemma FokFacts(incoming: Order, t: Taker)
      requires Matching(incoming, t) && Left(t) > 0 && NoneEmpty(bids.nested) && NoneEmpty(asks.nested)
      ensures incoming.side == t.side && incoming.price == t.price && incoming.quantity == t.qty > 0
      ensures var l := Map(t.side.Opposite());
        && l.Ok() && l.side == t.side.Opposite() && Shaped(l.side, l.nested) && NoneEmpty(l.nested)
        && Flat(l.nested) == Queue(book, t.side.Opposite())
        && ((exists k :: 0 <= k < |l.nested| && EnoughAt(l.side, l.nested, t.price, t.qty, k))
            <==> FokAccepts(Queue(book, t.side.Opposite()), t))
    {
      RestLedger(incoming, t);
      MatchingParts(incoming, t);
      RepParts();
      hide Rep, Matching, FokAccepts;
      EnoughIsFokAccepts(Map(t.side.Opposite()).nested, t);
    }

    lemma SettledRep(t: Taker, b: Book)
      requires Rep(book) && NoneEmpty(bids.nested) && NoneEmpty(asks.nested)
      requires Ready(b, |pool.slots|, t) && Uncrossed(b) && Left(t) > 0 && book == BookSpec.MatchOrder(b, t)
      ensures Valid()
    {
      hide Rep, NoneEmpty;
      MatchOrderKeeps(b, |pool.slots|, t);
    }

    /** The side-dependent call of match_order. */
    method Sweep(incoming: Order, ghost t: Taker) returns (ghost t': Taker)
      requires Matching(incoming, t) && NoneEmpty(bids.nested) && NoneEmpty(asks.nested)
      modifies this, pool, pool.links, pool.slots`filledQty, pool.slots`status, pool.slots`prev, pool.slots`next
      modifies Map(t.side.Opposite()), Map(t.side.Opposite()).levels
      ensures Matching(incoming, t') && (book, t') == Match(old(book), t) && NoneEmpty(bids.nested) && NoneEmpty(asks.nested)
      ensures forall k :: 0 <= k < |bids.levels| ==> bids.levels[k] in old(bids.levels)
      ensures forall k :: 0 <= k < |asks.levels| ==> asks.levels[k] in old(asks.levels)
    {
      hide Rep, Ready, SideRep, Matching, NoneEmpty, Match;
      MatchingParts(incoming, t);
      MembersAreSlots();
      RestLedger(incoming, t);
      if incoming.side == BID {
        t' := MatchAgainstAsks(incoming, t);
      } else {
        t' := MatchAgainstBids(incoming, t);
      }
    }

    /** What becomes of the order once nothing more can be matched. */
    method SettleOrder(incoming: Order, ghost t: Taker)
      requires Matching(incoming, t) && NoneEmpty(bids.nested) && NoneEmpty(asks.nested)
      modifies `orderMap, `book, pool, pool.links, pool.slots`status, pool.slots`prev, pool.slots`next, bids, asks, bids.levels, asks.levels
      ensures Rep(book) && book == Settle(old(book), t) && NoneEmpty(bids.nested) && NoneEmpty(asks.nested)
      ensures Grown()
    {
      hide Matching, NoneEmpty, Rep, Ready, Rest, Close, SideRep;
      TakerFields(incoming, t);
      MatchingParts(incoming, t);
      MembersAreSlots();
      if incoming.IsActive() {
        if incoming.otype == LIMIT {
          RestOrder(incoming, t);
        } else {
          CloseTaker(incoming, CANCELLED, t);
        }
      }
    }

    lemma MembersAreSlots()
      requires Rep(book)
      ensures bids != asks && forall o :: o in bids.members || o in asks.members ==> o in pool.slots
    {
      RepParts();
    }

    method MatchOrder(incoming: Order, ghost t: Taker)
      requires Matching(incoming, t) && Left(t) > 0 && t.filled == 0 && Uncrossed(book)
      requires NoneEmpty(bids.nested) && NoneEmpty(asks.nested)
      modifies this, pool, pool.links, pool.slots`filledQty, pool.slots`status, pool.slots`prev, pool.slots`next
      modifies bids, asks, bids.levels, asks.levels
      ensures Valid() && book == BookSpec.MatchOrder(old(book), t)
      ensures Grown()
    {
      hide Valid, Rep, Matching, Ready, NoneEmpty, Uncrossed, LevelMap.Ok, SideRep, FokAccepts, Match, Queue, Settle, Close, Publish;
      ghost var b := book;
      MatchingParts(incoming, t);
      TakerFields(incoming, t);
      RestLedger(incoming, t);
      if incoming.otype == FOK {
        var fillable := CheckFokFillable(incoming, t);
        if fillable < incoming.quantity {
          CloseTaker(incoming, REJECTED, t);
          SettledRep(t, b);
          return;
        }
      }
      ghost var t' := Sweep(incoming, t);
      SettleOrder(incoming, t');
      PublishMarketData();
      SettledRep(t, b);
    }

    /** Submits an order; 0 when it is refused. */
    method AddOrder(side: Side, otype: OrderType, price: Price, quantity: Quantity) returns (id: OrderId)
      requires Valid()
      modifies this, pool, pool.links, pool.slots, bids, asks, bids.levels, asks.levels
      ensures Valid() && (book, id) == BookSpec.AddOrder(old(book), side, otype, price, quantity)
      ensures Grown()
    {
      hide Valid, Rep, Matching, Ready, NoneEmpty, LevelMap.Ok, BookSpec.MatchOrder, Admit;
      if quantity == 0 {
        return 0;
      }
      if otype == LIMIT && price <= 0 {
        return 0;
      }
      ghost var b := book;
      AdmitReady(side, otype, price, quantity);
      var o, t := NewOrder(side, otype, price, quantity);
      if o == null {
        return 0;
      }
      id := o.id;
      MatchingMoved(o, t);
      MatchOrder(o, t);
    }

    lemma AdmitReady(side: Side, otype: OrderType, price: int, qty: nat)
      requires Valid() && 0 < qty < QUANTITY_WRAP && (otype.LIMIT? ==> price > 0)
      ensures NoneEmpty(bids.nested) && NoneEmpty(asks.nested)
      ensures book.free != [] ==>
                var (b', t) := Admit(book, side, otype, price, qty);
                Ready(b', |pool.slots|, t) && Uncrossed(b') && Left(t) > 0 && t.filled == 0
    {
      if book.free != [] {
        ValidParts();
        AdmitKeeps(book, |pool.slots|, side, otype, price, qty);
      }
    }

    /** Levels are only ever dropped or newly created. */
    twostate predicate Grown()
      reads bids, asks
    {
      && (forall k :: 0 <= k < |bids.levels| ==> bids.levels[k] in old(bids.levels) || fresh(bids.levels[k]))
      && (forall k :: 0 <= k < |asks.levels| ==> asks.levels[k] in old(asks.levels) || fresh(asks.levels[k]))
    }

    /** An indexed object, and whether the book calls it live. */
    lemma IndexedFacts(id: OrderId)
      requires Rep(book) && Core(book, |pool.slots|, 0)
      ensures id in orderMap <==> id in book.index
      ensures id in orderMap ==>
                var o := orderMap[id]; var e := book.ledger[id];
                && id in book.ledger && (o.IsActive() <==> Live(book, id)) && o in pool.slots
                && o.side == e.side && o.quantity == e.qty && o.filledQty == e.filled && o.price == e.price && o.id == id
                && book.index[id] < |pool.slots| && o == pool.slots[book.index[id]]
    {
    }

    /** Where in its side's levels a live order is. */
    lemma LivePlace(id: OrderId) returns (i: nat, j: nat)
      requires Rep(book) && Core(book, |pool.slots|, 0) && Live(book, id)
      ensures var s := book.ledger[id].side; var q := Queue(book, s); var k := Find(q, id);
        && id in orderMap && k < |q| && q[k].id == id && Listed(book, s, q[k])
        && Map(s).Ok() && i < |Map(s).levels| == |Map(s).nested| && j < |Map(s).levels[i].q| == |Map(s).nested[i].orders|
        && Map(s).levels[i].q[j] == orderMap[id] && Map(s).nested[i].orders[j] == q[k] && k == |Flat(Map(s).nested[..i])| + j
        && Flat(Map(s).nested) == q && orderMap[id].Remaining() == Open(q[k])
    {
      hide IndexOk, PoolOk, LogOk, QueueOk, PoolRep, MembersRep, CountersRep, EntriesRep, LevelMap.Ok, Find, Flat, Wrap, Sum;
      var s := book.ledger[id].side;
      LiveIsQueued(book, |pool.slots|, id);
      var k := Find(Queue(book, s), id);
      assert EntryOk(book.ledger[id]);
      IndexedFacts(id);
      RepParts();
      Map(s).SameLength();
      i, j := Locate(Map(s).nested, k);
      Map(s).LevelAt(i);
      Map(s).OrderCount(i);
      Map(s).OrderAt(i, j);
      RemainingIs(orderMap[id], book.ledger[id].filled, book.ledger[id].qty);
    }

    static lemma UnqueueFrame(b: Book, s: Side, id: OrderId)
      requires Find(Queue(b, s), id) < |Queue(b, s)|
      ensures var b' := Unqueue(b, s, id);
        && b' == b.(bids := b'.bids, asks := b'.asks) && Queue(b', s.Opposite()) == Queue(b, s.Opposite())
        && Queue(b', s) == RemoveAt(Queue(b, s), Find(Queue(b, s), id))
    {
    }

    static lemma MembersParted(om: map<OrderId, Order>, ms: set<Order>, q: seq<Resting>, o: Order, k: nat)
      requires MembersRep(om, ms, q) && k < |q| && o.id in om && om[o.id] == o && q[k].id == o.id
      ensures MembersRep(om, ms - {o}, RemoveAt(q, k))
    {
      forall x | x in ms - {o}
        ensures Find(RemoveAt(q, k), x.id) < |q| - 1
      {
        assert om[x.id] == x;
        FindAfterRemove(q, k, x.id);
      }
    }

    /** What does not change when a live order is taken out of its side. */
    lemma UnqueuePrep(o: Order, s: Side, id: OrderId)
      requires Rep(book) && id in orderMap && o == orderMap[id] && o.id == id && Find(Queue(book, s), id) < |Queue(book, s)|
      ensures var b' := Unqueue(book, s, id); var p := s.Opposite();
        && MembersRep(orderMap, Map(s).members - {o}, Queue(b', s)) && MembersRep(orderMap, Map(p).members, Queue(b', p))
        && SideRep(p, b') && PoolRep(b') && CountersRep(b') && IndexRep(orderMap, b') && EntriesRep(orderMap, b')
        && Separate() && Apart(s) && Unlinked(s)
        && Queue(b', s) == RemoveAt(Queue(book, s), Find(Queue(book, s), id))
    {
      UnqueueFrame(book, s, id);
      hide CountersRep, EntriesRep, IndexRep, MembersRep, PoolRep, Unqueue, Apart, Unlinked, LevelMap.Ok;
      RepParts();
      SidesApart(s);
      SidesUnlinked(s);
      MembersParted(orderMap, Map(s).members, Queue(book, s), o, Find(Queue(book, s), id));
      CountersSame(book, Unqueue(book, s, id));
      LedgerSame(book, Unqueue(book, s, id));
      SideSame(s.Opposite(), book, Unqueue(book, s, id));
    }

    /** remove_from_book. */
    method RemoveFromBook(o: Order, ghost id: OrderId)
      requires Rep(book) && Core(book, |pool.slots|, 0) && Live(book, id) && NoneEmpty(bids.nested) && NoneEmpty(asks.nested)
      requires id in orderMap && o == orderMap[id]
      modifies `book, pool.slots`prev, pool.slots`next, bids`levels, bids`nested, bids`members, bids.levels
      modifies asks`levels, asks`nested, asks`members, asks.levels
      ensures Rep(book) && book == Unqueue(old(book), old(book).ledger[id].side, id)
      ensures NoneEmpty(bids.nested) && NoneEmpty(asks.nested) && Grown()
    {
      hide Rep, Core, MembersRep, PoolRep, CountersRep, IndexRep, EntriesRep, LevelMap.Ok, Flat, NoneEmpty, Unqueue, Find, Wrap, Sum, RemoveAt, Listed, Live, Queue;
      IndexedFacts(id);
      ghost var s := book.ledger[id].side;
      ghost var i, j := LivePlace(id);
      UnqueuePrep(o, s, id);
      MembersAreSlots();
      LevelSlots(s, i);
      book := Unqueue(book, s, id);
      Map(o.side).RemoveOrder(o, i, j);
      RestRep(s, book);
    }

    lemma LevelSlots(s: Side, i: nat)
      requires Rep(book) && i < |Map(s).levels|
      ensures forall j :: 0 <= j < |Map(s).levels[i].q| ==> Map(s).levels[i].q[j] in pool.slots
    {
    }

    /** A live order that has been taken out of its side is in the position of an order being matched. */
    lemma OutOfBook(o: Order, id: OrderId, b: Book)
      requires Inv(b, |pool.slots|) && Live(b, id) && Rep(book) && book == Unqueue(b, b.ledger[id].side, id)
      requires b.index[id] < |pool.slots| && o == pool.slots[b.index[id]]
      ensures Matching(o, TakerOf(b, id)) && Left(TakerOf(b, id)) > 0 && Uncrossed(book)
    {
      hide Rep, Inv, Ready, Unqueue;
      UnqueueReady(b, |pool.slots|, id);
    }

    lemma CancelledRep(id: OrderId, b: Book)
      requires Rep(book) && NoneEmpty(bids.nested) && NoneEmpty(asks.nested) && Inv(b, |pool.slots|) && book == BookSpec.CancelOrder(b, id).0
      ensures Valid()
    {
      hide Rep, Inv, NoneEmpty;
      CancelKeepsInv(b, |pool.slots|, id);
    }

    static lemma CancelIs(b: Book, id: OrderId)
      ensures !Live(b, id) ==> BookSpec.CancelOrder(b, id) == (b, false)
      ensures Live(b, id) ==>
        var c := Close(Unqueue(b, b.ledger[id].side, id), id, b.index[id], CANCELLED);
        BookSpec.CancelOrder(b, id) == (Publish(c.(cancelled := c.cancelled + 1)), true)
    {
    }

    method CountCancel()
      requires Rep(book)
      modifies `ordersCancelled, `book
      ensures Rep(book) && book == old(book).(cancelled := old(book).cancelled + 1)
    {
      hide PoolRep, Linkage, EntriesRep, LevelMap.Ok, Flat, Volume;
      ordersCancelled := ordersCancelled + 1;
      book := book.(cancelled := book.cancelled + 1);
      CountedRep(old(book));
    }

    lemma CountedRep(b: Book)
      requires PoolRep(b) && Linkage(orderMap, b) && EntriesRep(orderMap, b) && SideRep(BID, b) && SideRep(ASK, b)
      requires book == b.(cancelled := b.cancelled + 1) && CountersRep(book)
      ensures Rep(book)
    {
    }

    /** Cancels a live order; false for an unknown or finished one. */
    method CancelOrder(id: OrderId) returns (ok: bool)
      requires Valid()
      modifies this, pool, pool.links, pool.slots, bids, asks, bids.levels, asks.levels
      ensures Valid() && (book, ok) == BookSpec.CancelOrder(old(book), id)
      ensures Grown()
    {
      hide Valid, Rep, Core, BookRep, Inv, Matching, NoneEmpty, LevelMap.Ok, Unqueue, Close, Publish, Uncrossed, Left, BookSpec.CancelOrder;
      ValidParts();
      IndexedFacts(id);
      CancelIs(book, id);
      if id !in orderMap {
        return false;
      }
      var o := orderMap[id];
      if !o.IsActive() {
        return false;
      }
      ghost var b, t := book, TakerOf(book, id);
      RemoveFromBook(o, id);
      OutOfBook(o, id, b);
      CloseTaker(o, CANCELLED, t);
      CountCancel();
      PublishMarketData();
      CancelledRep(id, b);
      return true;
    }

    // -------------------------------------------------------------- amending

    /** A new quantity for an order that is out of its level. */
    method SetQuantity(o: Order, newQty: Quantity, ghost t: Taker)
      requires Matching(o, t) && t.filled < newQty && Left(t) > 0
      modifies o`quantity, `book
      ensures Matching(o, t.(qty := newQty)) && book == old(book).(ledger := SetQty(old(book).ledger, t.id, newQty))
    {
      hide BookRep, PoolRep, Linkage, EntriesRep, CountersRep, LevelMap.Ok, Flat, Ready;
      SetQuantityPrep(o, newQty, t);
      book := book.(ledger := SetQty(book.ledger, t.id, newQty));
      o.quantity := newQty;
      assert EntryRep(o, t.id, book.ledger[t.id]);
      BookRepFrom(orderMap, book);
    }

    lemma SetQuantityPrep(o: Order, newQty: Quantity, t: Taker)
      requires Matching(o, t) && t.filled < newQty && Left(t) > 0
      ensures var b' := book.(ledger := SetQty(book.ledger, t.id, newQty));
        && PoolRep(b') && Linkage(orderMap, b') && CountersRep(b') && SideRep(BID, b') && SideRep(ASK, b')
        && Ready(b', |pool.slots|, t.(qty := newQty))
        && t.id in b'.ledger && t.id in orderMap && orderMap[t.id] == o && EntryRep(o, t.id, b'.ledger[t.id].(qty := o.quantity))
        && b'.ledger[t.id].qty == newQty
        && (forall id :: id in orderMap && id != t.id ==> id in b'.ledger && EntryRep(orderMap[id], id, b'.ledger[id]) && orderMap[id] != o)
    {
      hide EntriesRep, EntryRep, LevelMap.Ok, QueueOk, IndexOk, PoolOk, LogOk, LedgerOk, MembersRep, CountersRep, PoolRep, Flat;
      SetQtyKeeps(book, |pool.slots|, t, newQty);
      SetQuantityEntries(o, newQty, t);
      RepParts();
      CountersSame(book, book.(ledger := SetQty(book.ledger, t.id, newQty)));
      PoolSame(book, book.(ledger := SetQty(book.ledger, t.id, newQty)));
      var b' := book.(ledger := SetQty(book.ledger, t.id, newQty));
      SideSame(BID, book, b');
      SideSame(ASK, book, b');
    }

    lemma SetQuantityEntries(o: Order, newQty: Quantity, t: Taker)
      requires Matching(o, t)
      ensures var b' := book.(ledger := SetQty(book.ledger, t.id, newQty));
        && t.id in b'.ledger && t.id in orderMap && orderMap[t.id] == o && EntryRep(o, t.id, b'.ledger[t.id].(qty := o.quantity))
        && b'.ledger[t.id].qty == newQty
        && (forall id :: id in orderMap && id != t.id ==> id in b'.ledger && EntryRep(orderMap[id], id, b'.ledger[id]) && orderMap[id] != o)
    {
      hide SideRep, MembersRep, CountersRep, PoolRep, QueueOk, IndexOk, LogOk, LedgerOk, Separate, AllOpen;
      RepParts();
      assert EntryRep(orderMap[t.id], t.id, book.ledger[t.id]);
    }

    /** Losing priority: out of the level, new quantity, to the back of the level. */
    method Requeue(o: Order, id: OrderId, newQty: Quantity)
      requires Rep(book) && Inv(book, |pool.slots|) && Live(book, id) && NoneEmpty(bids.nested) && NoneEmpty(asks.nested)
      requires id in orderMap && o == orderMap[id] && book.ledger[id].qty < newQty
      modifies this, pool.slots, bids, asks, bids.levels, asks.levels
      ensures Rep(book) && book == AmendUp(old(book), id, newQty) && NoneEmpty(bids.nested) && NoneEmpty(asks.nested) && Grown()
    {
      hide Rep, Core, Matching, NoneEmpty, LevelMap.Ok, Unqueue, Rest, Uncrossed, AllOpen, SetQty;
      IndexedFacts(id);
      LiveIsOpen(book, |pool.slots|, id);
      UnqueueLedger(book, id);
      ghost var b, t := book, TakerOf(book, id);
      RemoveFromBook(o, id);
      OutOfBook(o, id, b);
      SetQuantity(o, newQty, t);
      MatchingParts(o, t.(qty := newQty));
      MembersAreSlots();
      RestOrder(o, t.(qty := newQty));
    }

    static lemma UnqueueLedger(b: Book, id: OrderId)
      requires Live(b, id)
      ensures Unqueue(b, b.ledger[id].side, id).ledger == b.ledger
    {
    }

    static ghost function Resized(v: Level, j: nat, qty: nat): Level
      requires j < |v.orders|
    {
      v.(orders := v.orders[j := v.orders[j].(qty := qty)])
    }

    static lemma ResizedAggregate(v: Level, j: nat, qty: nat)
      requires j < |v.orders| && v.orders[j].filled <= qty <= v.orders[j].qty
      ensures Wrap(Sum(Resized(v, j, qty).orders)) == Wrap(Wrap(Sum(v.orders)) - (v.orders[j].qty - qty))
    {
      SumUpdate(v.orders, j, v.orders[j].(qty := qty));
      WrapOfWrap(Sum(v.orders), 0 - (v.orders[j].qty - qty));
    }

    static lemma NoneEmptyResized(nv: seq<Level>, i: nat, j: nat, qty: nat)
      requires NoneEmpty(nv) && i < |nv| && j < |nv[i].orders|
      ensures NoneEmpty(nv[i := Resized(nv[i], j, qty)])
    {
    }

    static lemma ResizedLevel(nv: seq<Level>, i: nat, j: nat, qty: nat)
      requires i < |nv| && j < |nv[i].orders| && AllAt(nv[i])
      ensures var v := nv[i]; var w := Resized(v, j, qty);
        && w.price == v.price && AllAt(w) && |w.orders| == |v.orders|
        && (forall x :: 0 <= x < |v.orders| ==> w.orders[x].slot == v.orders[x].slot)
        && |Flat(nv[..i])| + j < |Flat(nv)|
        && Flat(nv[i := w]) == Flat(nv)[|Flat(nv[..i])| + j := v.orders[j].(qty := qty)]
    {
      FlatUpdate(nv, i, j, nv[i].orders[j].(qty := qty));
    }

    static lemma AmendDownFrame(b: Book, id: OrderId, qty: nat)
      requires Live(b, id)
      ensures var s := b.ledger[id].side; var q := Queue(b, s); var k := Find(q, id); var b' := AmendDown(b, id, qty);
        && b' == b.(bids := b'.bids, asks := b'.asks, ledger := SetQty(b.ledger, id, qty))
        && Queue(b', s.Opposite()) == Queue(b, s.Opposite())
        && (k < |q| ==> Queue(b', s) == q[k := q[k].(qty := qty)])
    {
    }

    /** The level objects before an amend down, against the queues after it. */
    lemma InPlaceSides(id: OrderId, qty: nat, i: nat, j: nat)
      requires Rep(book) && Live(book, id)
      requires var s := book.ledger[id].side; var q := Queue(book, s); var k := Find(q, id);
        && k < |q| && q[k].filled < qty <= q[k].qty && i < |Map(s).nested| == |Map(s).levels| && j < |Map(s).nested[i].orders|
        && Map(s).nested[i].orders[j] == q[k] && k == |Flat(Map(s).nested[..i])| + j
      ensures var s := book.ledger[id].side; var b' := AmendDown(book, id, qty); var v := Map(s).nested[i]; var w := Resized(v, j, qty);
        && Map(s).Ok() && w.price == v.price && AllAt(w) && |w.orders| == |v.orders| && v.orders[j].price == v.price
        && (forall x :: 0 <= x < |v.orders| ==> w.orders[x].slot == v.orders[x].slot)
        && Wrap(Sum(w.orders)) == Wrap(Wrap(Sum(v.orders)) - (v.orders[j].qty - qty))
        && Flat(Map(s).nested[i := w]) == Queue(b', s)
        && SideRep(s.Opposite(), b') && Apart(s)
    {
      hide PoolRep, IndexRep, EntriesRep, MembersRep, CountersRep, AmendDown, Apart, Wrap, Sum, Flat, Resized, Find, Queue, AllAt, LevelMap.Ok;
      var s := book.ledger[id].side;
      AmendDownFrame(book, id, qty);
      RepParts();
      SidesApart(s);
      LevelAllAt(s, i);
      ResizedAggregate(Map(s).nested[i], j, qty);
      ResizedLevel(Map(s).nested, i, j, qty);
      SideSame(s.Opposite(), book, AmendDown(book, id, qty));
    }

    lemma LevelAllAt(s: Side, i: nat)
      requires Map(s).Ok() && i < |Map(s).nested|
      ensures AllAt(Map(s).nested[i]) && forall j :: 0 <= j < |Map(s).nested[i].orders| ==> Map(s).nested[i].orders[j].price == Map(s).nested[i].price
    {
    }

    /** The records before an amend down, against the book after it. */
    lemma InPlaceRecords(o: Order, id: OrderId, qty: nat)
      requires Rep(book) && Live(book, id) && id in orderMap && o == orderMap[id]
      requires Find(Queue(book, book.ledger[id].side), id) < |Queue(book, book.ledger[id].side)|
      ensures var b' := AmendDown(book, id, qty);
        && PoolRep(b') && CountersRep(b') && Linkage(orderMap, b')
        && id in b'.ledger && b'.ledger[id].qty == qty && EntryRep(o, id, b'.ledger[id].(qty := o.quantity))
        && EntriesRep(orderMap - {id}, b') && o !in (orderMap - {id}).Values
    {
      var s, b' := book.ledger[id].side, AmendDown(book, id, qty);
      AmendDownFrame(book, id, qty);
      hide PoolRep, CountersRep, AmendDown, SideRep;
      RepParts();
      CountersSame(book, b');
      MembersKept(orderMap, Map(s).members, Queue(book, s), Queue(b', s));
      assert PoolRep(b') by { PoolSame(book, b'); }
      assert EntryRep(orderMap[id], id, book.ledger[id]);
    }

    lemma PoolSame(b: Book, b': Book)
      requires PoolRep(b) && b'.free == b.free
      ensures PoolRep(b')
    {
    }

    /** The aggregate of the order's level, then its quantity. */
    method ReduceLevel(o: Order, id: OrderId, newQty: Quantity, ghost s: Side, ghost b': Book)
      requires Rep(book) && Core(book, |pool.slots|, 0) && Live(book, id) && NoneEmpty(bids.nested) && NoneEmpty(asks.nested)
      requires id in orderMap && o == orderMap[id] && book.ledger[id].filled < newQty <= book.ledger[id].qty
      requires s == book.ledger[id].side && b' == AmendDown(book, id, newQty)
      modifies o`quantity, Map(s)`nested, Map(s).levels`totalQty
      ensures
        && PoolRep(b') && Linkage(orderMap, b') && EntriesRep(orderMap, b') && CountersRep(b')
        && Map(s).Ok() && Flat(Map(s).nested) == Queue(b', s) && SideRep(s.Opposite(), b')
      ensures NoneEmpty(bids.nested) && NoneEmpty(asks.nested)
    {
      hide BookRep, Core, Linkage, PoolRep, CountersRep, EntriesRep, LevelMap.Ok, AmendDown, Flat, Wrap, Sum, AllAt, Find, Queue, NoneEmpty, Resized, IndexRep;
      IndexedFacts(id);
      ghost var i, j := LivePlace(id);
      InPlaceSides(id, newQty, i, j);
      InPlaceRecords(o, id, newQty);
      WrapSmall(o.quantity - newQty);
      ghost var w := Resized(Map(s).nested[i], j, newQty);
      NoneEmptyResized(Map(s).nested, i, j, newQty);
      Map(o.side).Reduce(o.price, Wrap(o.quantity - newQty), i, w);
      o.quantity := newQty;
      assert s == BID || s == ASK;
      EntriesJoin(orderMap, b', {id});
    }

    /** Keeping priority: the aggregate of the level and the quantity come down in place. */
    method ReduceInPlace(o: Order, id: OrderId, newQty: Quantity)
      requires Rep(book) && Core(book, |pool.slots|, 0) && Live(book, id) && NoneEmpty(bids.nested) && NoneEmpty(asks.nested)
      requires id in orderMap && o == orderMap[id] && book.ledger[id].filled < newQty <= book.ledger[id].qty
      modifies `book, o`quantity, bids`nested, asks`nested, bids.levels`totalQty, asks.levels`totalQty
      ensures Rep(book) && book == AmendDown(old(book), id, newQty) && NoneEmpty(bids.nested) && NoneEmpty(asks.nested)
    {
      hide BookRep, Core, Linkage, PoolRep, CountersRep, EntriesRep, LevelMap.Ok, AmendDown, Flat, Queue;
      ghost var s, b' := book.ledger[id].side, AmendDown(book, id, newQty);
      ReduceLevel(o, id, newQty, s, b');
      BookRepOfLinked(orderMap, b', s);
      book := b';
    }

    lemma AmendedRep(id: OrderId, newQty: Quantity, b: Book)
      requires Rep(book) && NoneEmpty(bids.nested) && NoneEmpty(asks.nested) && Inv(b, |pool.slots|)
      requires book == BookSpec.AmendOrder(b, id, newQty).0
      ensures Valid()
    {
      hide Rep, Inv, NoneEmpty;
      AmendKeepsInv(b, |pool.slots|, id, newQty);
    }

    /** Changes the quantity of a live order; false if there is none, or if it has traded that much already. */
    method AmendOrder(id: OrderId, newQty: Quantity) returns (ok: bool)
      requires Valid()
      modifies this, pool.slots, bids, asks, bids.levels, asks.levels
      ensures Valid() && (book, ok) == BookSpec.AmendOrder(old(book), id, newQty)
      ensures Grown()
    {
      hide Valid, Rep, Core, BookRep, Inv, NoneEmpty, LevelMap.Ok, AmendUp, AmendDown, Publish;
      ValidParts();
      IndexedFacts(id);
      if id !in orderMap {
        return false;
      }
      var o := orderMap[id];
      if !o.IsActive() {
        return false;
      }
      if newQty <= o.filledQty {
        return false;
      }
      ghost var b := book;
      if newQty > o.quantity {
        Requeue(o, id, newQty);
      } else {
        ReduceInPlace(o, id, newQty);
      }
      PublishMarketData();
      AmendedRep(id, newQty, b);
      return true;
    }

    // -------------------------------------------------------------- queries

    /** best_bid, best_ask, their quantities and spread, with the sentinels of an empty side. */
    method BestPrices() returns (bid: Price, ask: Price, bidQty: Quantity, askQty: Quantity, spread: int)
      requires Valid()
      ensures bidQty == (if book.bids == [] then 0 else Wrap(SumAt(book.bids, bid)))
      ensures askQty == (if book.asks == [] then 0 else Wrap(SumAt(book.asks, ask)))
      ensures bid == if book.bids == [] then 0 else book.bids[0].price
      ensures ask == if book.asks == [] then PRICE_MAX else book.asks[0].price
      ensures book.bids != [] && book.asks != [] ==> 0 < spread == ask - bid <= PRICE_MAX
      ensures book.bids == [] || book.asks == [] ==> spread == 0
    {
      QueryFacts();
      hide Valid, Rep, NoneEmpty, LevelMap.Ok, Wrap;
      bidQty := if bids.levels == [] then 0 else bids.levels[0].totalQty;
      askQty := if asks.levels == [] then 0 else asks.levels[0].totalQty;
      bid := if bids.levels == [] then 0 else bids.levels[0].price;
      ask := if asks.levels == [] then PRICE_MAX else asks.levels[0].price;
      spread := if bids.levels == [] || asks.levels == [] then 0 else ask - bid;
    }

    lemma QueryFacts()
      requires Valid()
      ensures bids.levels == [] <==> book.bids == []
      ensures asks.levels == [] <==> book.asks == []
      ensures bids.levels != [] ==> book.bids[0].price == bids.levels[0].price > 0
      ensures asks.levels != [] ==> book.asks[0].price == asks.levels[0].price > 0
      ensures bids.levels != [] ==> bids.levels[0].totalQty == Wrap(SumAt(book.bids, book.bids[0].price))
      ensures asks.levels != [] ==> asks.levels[0].totalQty == Wrap(SumAt(book.asks, book.asks[0].price))
      ensures bids.levels != [] && asks.levels != [] ==> book.bids[0].price < book.asks[0].price
    {
      ValidParts();
      TopFacts(BID);
      TopFacts(ASK);
      BestOfSide(book, BID);
      BestOfSide(book, ASK);
    }

    /** bid_depth and ask_depth: the best `levels` prices with their cached aggregates. */
    method DepthSnapshot(s: Side, levels: nat) returns (result: seq<DepthEntry>)
      requires Valid()
      ensures result == Ladder(Queue(book, s), levels)
    {
      hide Valid, Rep, SideRep, NoneEmpty, LevelMap.Ok, Ladder, Rungs, Rung;
      DepthFacts(s, levels);
      var l := Map(s);
      result := [];
      var i := 0;
      assert l.nested[..0] == [] && Rungs([]) == [] by { NoRungs(); }
      while i < |l.levels| && |result| < levels
        invariant 0 <= i <= |l.levels| && i == |result| <= levels && result == Rungs(l.nested[..i])
      {
        RungAt(s, i);
        RungsNext(l.nested, i);
        result := result + [DepthEntry(l.levels[i].price, l.levels[i].totalQty, l.levels[i].orderCount)];
        i := i + 1;
      }
    }

    static lemma NoRungs()
      ensures Rungs([]) == []
    {
    }

    lemma DepthFacts(s: Side, n: nat)
      requires Valid()
      ensures Map(s).Ok() && |Map(s).levels| == |Map(s).nested|
      ensures Ladder(Queue(book, s), n) == Rungs(Map(s).nested[..Min(n, |Map(s).nested|)])
    {
      ValidParts();
      LadderReadsLevels(Map(s).side, Map(s).nested, n);
    }

    lemma RungAt(s: Side, i: nat)
      requires Map(s).Ok() && i < |Map(s).levels|
      ensures var l := Map(s).levels[i];
        i < |Map(s).nested| && Rung(Map(s).nested[i]) == DepthEntry(l.price, l.totalQty, l.orderCount)
    {
      Map(s).LevelAt(i);
    }

    // -------------------------------------------------------------- what the class invariant says of the heap

    /** The callbacks saw every trade and tick of the book's history, and the statistics count it. */
    lemma HistoryIsKept()
      requires Valid()
      ensures tradeLog == book.log && tickLog == book.ticks
      ensures totalTrades == |book.log| && totalVolume == Volume(book.log)
      ensures ordersAdded == idCounter == book.counter && ordersCancelled == book.cancelled
    {
      ValidParts();
    }

    /** in_use() is order_count(), and what is counted is the resting orders plus the filled takers. */
    lemma PoolAgreesWithIndex()
      requires Valid()
      ensures pool.inUse == |orderMap|
      ensures orderMap.Keys == RestingIds(book) + FilledTakers(book) && RestingIds(book) !! FilledTakers(book)
    {
      IndexIsRestingPlusFilled(book, |pool.slots|);
      assert |orderMap| == |orderMap.Keys| && |book.index| == |book.index.Keys|;
    }

    /** Sum of remaining() over linked orders. */
    static function RemainingSum(q: seq<Order>): nat
      reads q
    {
      if q == [] then 0 else q[0].Remaining() + RemainingSum(q[1..])
    }

    static lemma {:induction false} RemainingSumIs(q: seq<Order>, v: seq<Resting>)
      requires |q| == |v| && forall j :: 0 <= j < |q| ==> q[j].Remaining() == Open(v[j])
      ensures RemainingSum(q) == Sum(v)
    {
      if q != [] {
        RemainingSumIs(q[1..], v[1..]);
      }
    }

    /**
     Every level that is linked into a side is non-empty; its prev, next, head and tail links spell
     out its FIFO; its count is the FIFO's length and its aggregate the sum of the remaining
     quantities modulo 2^32; each of its orders is indexed, active, only partly filled, and at the
     level's price and side.
     */
    lemma LevelsAreFaithful(s: Side, i: nat)
      requires Valid() && i < |Map(s).levels|
      ensures var l := Map(s).levels[i];
        && l.q != [] && l.Linked() && l.orderCount == |l.q| && l.totalQty == Wrap(RemainingSum(l.q))
        && (RemainingSum(l.q) < QUANTITY_WRAP ==> l.totalQty == RemainingSum(l.q))
        && forall j :: 0 <= j < |l.q| ==> FaithfulOrder(l.q[j], s, l.price)
    {
      hide Valid, Wrap, Sum, Flat, NoneEmpty, LevelMap.Ok, Spells;
      LevelFacts(s, i);
      var l, v := Map(s).levels[i], Map(s).nested[i];
      forall j | 0 <= j < |l.q|
        ensures FaithfulOrder(l.q[j], s, l.price) && l.q[j].Remaining() == Open(v.orders[j])
      {
        FaithfulAt(s, i, j);
      }
      RemainingSumIs(l.q, v.orders);
      if RemainingSum(l.q) < QUANTITY_WRAP {
        WrapSmall(RemainingSum(l.q));
      }
    }

    /** The levels of a side are strictly ordered, best price first, and no order is linked into two places. */
    lemma LevelsAreApart(s: Side, i: nat, t: Side, k: nat)
      requires Valid() && i < |Map(s).levels| && k < |Map(t).levels|
      ensures s == t && i < k ==> Better(s, Map(s).levels[i].price, Map(s).levels[k].price)
      ensures s != t || i != k ==> forall j :: 0 <= j < |Map(s).levels[i].q| ==> Map(s).levels[i].q[j] !in Map(t).levels[k].q
      ensures forall x, y :: 0 <= x < y < |Map(s).levels[i].q| ==> Map(s).levels[i].q[x] != Map(s).levels[i].q[y]
    {
      hide Inv, PoolRep, IndexRep, EntriesRep, MembersRep, CountersRep, NoneEmpty, Flat;
      Map(s).LevelAt(i);
      Map(t).LevelAt(k);
      if s == t && i != k {
        Map(s).OrdersDiffer(i, k);
      }
      forall x, y | 0 <= x < y < |Map(s).levels[i].q|
        ensures Map(s).levels[i].q[x] != Map(s).levels[i].q[y]
      {
        assert PriceLevel.Differ(Map(s).levels[i].q, x, y);
      }
    }

    lemma LevelFacts(s: Side, i: nat)
      requires Valid() && i < |Map(s).levels|
      ensures var l := Map(s).levels[i];
        && i < |Map(s).nested| && l.q != [] && |l.q| == |Map(s).nested[i].orders|
        && l.Linked() && l.totalQty == Wrap(Sum(Map(s).nested[i].orders))
    {
      ValidParts();
      assert SideRep(s, book);
      Map(s).LevelAt(i);
      Map(s).OrderCount(i);
    }

    lemma FaithfulAt(s: Side, i: nat, j: nat)
      requires Valid() && i < |Map(s).levels| && j < |Map(s).levels[i].q|
      ensures i < |Map(s).nested| && j < |Map(s).nested[i].orders|
      ensures FaithfulOrder(Map(s).levels[i].q[j], s, Map(s).levels[i].price)
      ensures Map(s).levels[i].q[j].Remaining() == Open(Map(s).nested[i].orders[j])
    {
      hide Valid, Rep, Inv, NoneEmpty, LevelMap.Ok, Flat, Wrap, MembersRep, PoolRep, CountersRep, EntriesRep, IndexRep, Listed;
      ValidParts();
      RepParts();
      assert SideRep(s, book);
      Map(s).LevelAt(i);
      Map(s).OrderAt(i, j);
      Map(s).SameLength();
      QueuedAt(book, |pool.slots|, s, Map(s).nested, i, j);
      FaithfulListed(Map(s).nested[i].orders[j], s);
    }

    /** The object of a listed, open order. */
    lemma FaithfulListed(r: Resting, s: Side)
      requires EntriesRep(orderMap, book) && IndexRep(orderMap, book) && Listed(book, s, r) && Open(r) > 0
      ensures r.slot < |pool.slots| && FaithfulOrder(pool.slots[r.slot], s, r.price)
      ensures pool.slots[r.slot].Remaining() == Open(r)
    {
      hide Wrap;
      assert EntryRep(orderMap[r.id], r.id, book.ledger[r.id]);
      RemainingIs(orderMap[r.id], r.filled, r.qty);
    }

    /** An order in a level is in the flat queue, hence listed and open. */
    static lemma QueuedAt(b: Book, capacity: nat, s: Side, nv: seq<Level>, i: nat, j: nat)
      requires Inv(b, capacity) && Flat(nv) == Queue(b, s) && i < |nv| && j < |nv[i].orders|
      ensures Listed(b, s, nv[i].orders[j]) && Open(nv[i].orders[j]) > 0
    {
      hide IndexOk, PoolOk, LogOk, LedgerOk, Uncrossed, Flat, Sorted, Listed;
      FlatSplit(nv, i);
      assert Queue(b, s)[|Flat(nv[..i])| + j] == nv[i].orders[j];
    }

    ghost predicate FaithfulOrder(o: Order, s: Side, price: int)
      reads this, o
    {
      && o.price == price && o.side == s && o.IsActive() && o.filledQty < o.quantity
      && o.id in orderMap && orderMap[o.id] == o
    }
  }
}
