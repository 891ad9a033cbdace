/** The engine of OrderBooks.dfy under a whole list of commands: every theorem about BookSpec.Run is one about the heap. */
module EngineRuns {
  import opened OrderTypes
  import opened BookSpec
  import opened BookInvariant
  import opened BookRuns
  import opened ReportLaws
  import opened OrderBooks

  /** A command whose price fits the source's type. */
  predicate Submittable(c: Command) {
    c.Add? ==> -0x8000_0000_0000_0000 <= c.price <= PRICE_MAX
  }

  /** One public call. */
  method Submit(ob: OrderBook, c: Command)
    requires ob.Valid() && Submittable(c)
    modifies ob, ob.pool, ob.pool.links, ob.pool.slots, ob.bids, ob.asks, ob.bids.levels, ob.asks.levels
    ensures ob.Valid() && ob.book == Step(old(ob.book), c) && ob.Grown()
  {
    hide OrderBook.Valid;
    match c {
      case Add(side, otype, price, qty) => var id := ob.AddOrder(side, otype, price, qty);
      case Cancel(id) => var ok := ob.CancelOrder(id);
      case Amend(id, qty) => var ok := ob.AmendOrder(id, qty);
    }
  }

  /**
   A fresh engine, then one public call per command; what the callbacks saw is the history of the run,
   and the statistics count its trades, its accepted orders and its successful cancellations.
   */
  method Execute(capacity: nat, cs: seq<Command>) returns (ob: OrderBook)
    requires capacity > 0 && forall i :: 0 <= i < |cs| ==> Submittable(cs[i])
    ensures ob.Valid() && ob.book == Run(Init(capacity), cs)
    ensures ob.tradeLog == Run(Init(capacity), cs).log && ob.tickLog == Run(Init(capacity), cs).ticks
    ensures ob.totalTrades == |ob.tradeLog| && ob.totalVolume == Volume(ob.tradeLog)
    ensures ob.ordersAdded == Times(Init(capacity), cs, Accepts)
    ensures ob.ordersCancelled == Times(Init(capacity), cs, Cancels)
  {
    hide OrderBook.Valid, Step, Inv, Accepts, Cancels, Times;
    ob := new OrderBook(capacity);
    var i := 0;
    while i < |cs|
      invariant 0 <= i <= |cs| && ob.Valid() && ob.book == Run(Init(capacity), cs[..i])
      invariant fresh(ob) && fresh(ob.pool) && fresh(ob.pool.links) && fresh(ob.bids) && fresh(ob.asks)
      invariant forall k :: 0 <= k < |ob.pool.slots| ==> fresh(ob.pool.slots[k])
      invariant forall k :: 0 <= k < |ob.bids.levels| ==> fresh(ob.bids.levels[k])
      invariant forall k :: 0 <= k < |ob.asks.levels| ==> fresh(ob.asks.levels[k])
    {
      assert cs[..i+1][..i] == cs[..i];
      Submit(ob, cs[i]);
      i := i + 1;
    }
    assert cs[..i] == cs;
    ob.HistoryIsKept();
    InitInv(capacity);
    StatisticsCount(Init(capacity), capacity, cs);
  }
}
