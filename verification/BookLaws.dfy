/** Laws of whole runs: slots and ids, conservation of traded quantity, what is closed stays closed. */
module BookLaws {
  import opened OrderTypes
  import opened PriceTimeQueue
  import opened BookSpec
  import opened BookInvariant
  import opened BookRuns
  import opened MatchTheorems

  // ---------------------------------------------------------------- pool and index

  /** Orders that were filled on arrival: still indexed, their slots still taken. */
  function FilledTakers(b: Book): set<OrderId> {
    set id | id in b.index && id in b.ledger && b.ledger[id].status.FILLED?
  }

  function RestingIds(b: Book): set<OrderId> {
    Ids(b.bids) + Ids(b.asks)
  }

  /**
   The index is exactly the resting orders plus the filled takers, and with the free list it
   accounts for every slot: |index| is the number of slots in use.
   */
  lemma IndexIsRestingPlusFilled(b: Book, capacity: nat)
    requires Inv(b, capacity)
    ensures b.index.Keys == RestingIds(b) + FilledTakers(b) && RestingIds(b) !! FilledTakers(b)
    ensures |b.index| + |b.free| == capacity
  {
    forall id | id in RestingIds(b)
      ensures id in b.index && id !in FilledTakers(b)
    {
      var s := if id in Ids(b.bids) then BID else ASK;
      var i :| 0 <= i < |Queue(b, s)| && Queue(b, s)[i].id == id;
      assert Listed(b, s, Queue(b, s)[i]);
    }
    forall id | id in b.index && id !in FilledTakers(b)
      ensures id in RestingIds(b)
    {
      assert IsResting(b, id);
    }
  }

  /** add_order returns 0 exactly on a zero quantity, a LIMIT without a price, or a full index; ids are never 0. */
  lemma AddRefusedExactly(b: Book, capacity: nat, side: Side, otype: OrderType, price: int, qty: nat)
    requires Inv(b, capacity)
    ensures AddOrder(b, side, otype, price, qty).1 == 0
            <==> qty == 0 || (otype.LIMIT? && price <= 0) || |b.index| == capacity
  {
    IndexIsRestingPlusFilled(b, capacity);
  }

  /** An order that its own arrival filled. */
  ghost predicate FilledOnArrival(b: Book, c: Command) {
    && c.Add? && !Refused(b, c.otype, c.price, c.qty)
    && !FokRejected(b, Admit(b, c.side, c.otype, c.price, c.qty).1)
    && Sweep(b, Admit(b, c.side, c.otype, c.price, c.qty).1).left == 0
  }

  /** Before the call: an accepted order is filled on arrival exactly when what it reaches holds enough. */
  lemma FilledOnArrivalExactly(b: Book, capacity: nat, c: Command)
    requires Inv(b, capacity) && c.Add? && !Refused(b, c.otype, c.price, c.qty)
    ensures var t := Admit(b, c.side, c.otype, c.price, c.qty).1; var q := Queue(b, c.side.Opposite());
      FilledOnArrival(b, c) <==> !FokRejected(b, t) && c.qty <= Sum(q[..Depth(q, t)])
  {
    var t := Admit(b, c.side, c.otype, c.price, c.qty).1;
    assert AllOpen(Queue(b, c.side.Opposite()));
    hide Inv, Fill, Depth, FokAccepts, TradesInOrder, SurvivorsReduced;
    FillIsWaterfall(Queue(b, c.side.Opposite()), t);
  }

  lemma IdsConcat(a: seq<Resting>, b: seq<Resting>)
    ensures Ids(a + b) == Ids(a) + Ids(b)
  {
  }

  lemma IdsInsert(side: Side, q: seq<Resting>, r: Resting)
    ensures Ids(Insert(side, q, r)) == Ids(q) + {r.id}
  {
  }

  lemma IdsSplit(s: Side, q: seq<Resting>, n: nat)
    requires Sorted(s, q) && n <= |q|
    ensures Ids(q) == Ids(q[..n]) + Ids(q[n..]) && Ids(q[..n]) !! Ids(q[n..])
  {
    assert q == q[..n] + q[n..];
    IdsConcat(q[..n], q[n..]);
    forall i, j | 0 <= i < n <= j < |q|
      ensures q[i].id != q[j].id
    {
      assert Ahead(s, q[i], q[j]);
    }
  }

  lemma IdsRemove(s: Side, q: seq<Resting>, k: nat)
    requires Sorted(s, q) && k < |q|
    ensures Ids(RemoveAt(q, k)) == Ids(q) - {q[k].id}
  {
    IdsSplit(s, q, k);
    IdsSplit(s, q, k + 1);
    assert q[..k+1] == q[..k] + [q[k]] && q[k..] == [q[k]] + q[k+1..];
    assert Ids([q[k]]) == {q[k].id};
    IdsConcat(q[..k], [q[k]]);
    IdsConcat([q[k]], q[k+1..]);
    IdsConcat(q[..k], q[k+1..]);
  }

  lemma IdsSame(q: seq<Resting>, q': seq<Resting>)
    requires |q| == |q'| && forall i :: 0 <= i < |q| ==> q[i].id == q'[i].id
    ensures Ids(q) == Ids(q')
  {
  }

  /** The survivors of a sweep are the orders behind the exhausted ones. */
  lemma SweptIds(s: Side, q: seq<Resting>, t: Taker, r: FillResult)
    requires Sorted(s, q) && Waterfall(q, t, r)
    ensures Ids(q) == Ids(q[..|q| - |r.rest|]) + Ids(r.rest) && Ids(q[..|q| - |r.rest|]) !! Ids(r.rest)
  {
    IdsSplit(s, q, |q| - |r.rest|);
    IdsSame(q[|q| - |r.rest|..], r.rest);
  }

  lemma JoinedIds(b: Book, t: Taker, left: nat, b': Book)
    requires Joined(b, t, left, b')
    ensures Ids(Queue(b', t.side))
            == Ids(Queue(b, t.side)) + (if left == 0 || Dropped(t, left) then {} else {t.id})
  {
    hide Insert, Ids;
    if left > 0 && !Dropped(t, left) {
      IdsInsert(t.side, Queue(b, t.side), Resting(t.id, t.price, t.qty, t.qty - left, t.slot, b.clock));
    }
  }

  /** What remains indexed and unqueued, given who was indexed and who was queued. */
  lemma LeftIndexed(own: set<OrderId>, gone: set<OrderId>, rest: set<OrderId>, filled: set<OrderId>, id: OrderId,
                    joins: bool, drops: bool, own': set<OrderId>, filled': set<OrderId>)
    requires gone !! rest && (own + gone + rest) !! filled && id !in own + gone + rest + filled && !(joins && drops)
    requires own' == own + (if joins then {id} else {}) && (own' + rest) !! filled'
    requires own' + rest + filled' == own + gone + rest + filled + {id} - gone - (if drops then {id} else {})
    ensures filled' == filled + (if joins || drops then {} else {id})
  {
  }

  lemma ExecutedFilledTakers(b: Book, capacity: nat, b1: Book, t: Taker, b': Book)
    requires Inv(b, capacity) && Inv(b', capacity) && t.id !in b.index
    requires b1.bids == b.bids && b1.asks == b.asks && b1.index == b.index[t.id := t.slot]
    requires Executed(b1, t, b')
    ensures FilledTakers(b') == FilledTakers(b) + (if Sweep(b1, t).left == 0 then {t.id} else {})
  {
    IndexIsRestingPlusFilled(b, capacity);
    IndexIsRestingPlusFilled(b', capacity);
    hide Ids, FilledTakers, Core, Waterfall, Fill, AllOpen, Uncrossed, FinalStatus, Insert, Returned;
    ExecutedIds(b, capacity, b1, t, b');
  }

  lemma ExecutedIds(b: Book, capacity: nat, b1: Book, t: Taker, b': Book)
    requires Sorted(t.side.Opposite(), Queue(b, t.side.Opposite())) && t.id !in b.index
    requires b1.bids == b.bids && b1.asks == b.asks && b1.index == b.index[t.id := t.slot]
    requires Executed(b1, t, b')
    requires b.index.Keys == RestingIds(b) + FilledTakers(b) && RestingIds(b) !! FilledTakers(b)
    requires b'.index.Keys == RestingIds(b') + FilledTakers(b') && RestingIds(b') !! FilledTakers(b')
    ensures FilledTakers(b') == FilledTakers(b) + (if Sweep(b1, t).left == 0 then {t.id} else {})
  {
    hide Ids, FilledTakers, Sorted, Waterfall, Fill, Insert, Returned, FinalStatus;
    var s, left, gone := t.side.Opposite(), Sweep(b1, t).left, Exhausted(b1, t);
    SweptIds(s, Queue(b, s), t, Sweep(b1, t));
    JoinedIds(b1, t, left, b');
    assert RestingIds(b) == Ids(Queue(b, t.side)) + Ids(gone) + Ids(Queue(b', s));
    assert RestingIds(b') == Ids(Queue(b', t.side)) + Ids(Queue(b', s));
    assert b'.index.Keys == b.index.Keys + {t.id} - Ids(gone) - (if Dropped(t, left) then {t.id} else {});
    LeftIndexed(Ids(Queue(b, t.side)), Ids(gone), Ids(Queue(b', s)), FilledTakers(b), t.id,
                left > 0 && !Dropped(t, left), Dropped(t, left), Ids(Queue(b', t.side)), FilledTakers(b'));
  }

  lemma AddFilledTakers(b: Book, capacity: nat, side: Side, otype: OrderType, price: int, qty: nat)
    requires Inv(b, capacity) && !Refused(b, otype, price, qty) && qty < QUANTITY_WRAP
    ensures var (b1, t) := Admit(b, side, otype, price, qty);
      FilledTakers(AddOrder(b, side, otype, price, qty).0)
      == FilledTakers(b) + (if !FokRejected(b, t) && Sweep(b, t).left == 0 then {t.id} else {})
  {
    hide Inv, FilledTakers, FokAccepts, Executed, Fill, AddOrder;
    AdmittedId(b, capacity);
    var (b1, t) := Admit(b, side, otype, price, qty);
    AddExecutes(b, capacity, side, otype, price, qty);
    AddKeepsInv(b, capacity, side, otype, price, qty);
    if FokRejected(b, t) {
      RejectedFilledTakers(b, capacity, b1, t);
    } else {
      ExecutedFilledTakers(b, capacity, b1, t, AddOrder(b, side, otype, price, qty).0);
    }
  }

  lemma AdmittedId(b: Book, capacity: nat)
    requires Inv(b, capacity)
    ensures b.counter + 1 !in b.index && b.counter + 1 !in b.ledger
  {
  }

  lemma RejectedFilledTakers(b: Book, capacity: nat, b1: Book, t: Taker)
    requires Inv(b, capacity) && t.id !in b.index
    requires b1.index == b.index[t.id := t.slot]
    requires forall id :: id in b.ledger ==> id in b1.ledger && b1.ledger[id] == b.ledger[id]
    ensures FilledTakers(Close(b1, t.id, t.slot, REJECTED)) == FilledTakers(b)
  {
  }

  lemma CancelFilledTakers(b: Book, id: OrderId)
    ensures FilledTakers(CancelOrder(b, id).0) == FilledTakers(b)
  {
  }

  lemma AmendFilledTakers(b: Book, id: OrderId, qty: nat)
    ensures FilledTakers(AmendOrder(b, id, qty).0) == FilledTakers(b)
  {
    hide Insert, RemoveAt, TopOfBook;
    var b' := AmendOrder(b, id, qty).0;
    assert b'.index == b.index && b'.ledger.Keys == b.ledger.Keys;
    assert forall i :: i in b.ledger ==> b'.ledger[i].status == b.ledger[i].status;
  }

  /** The set of filled takers grows by exactly the orders filled on arrival, and nothing leaves it. */
  lemma StepFilledTakers(b: Book, capacity: nat, c: Command)
    requires Inv(b, capacity)
    ensures FilledTakers(Step(b, c)) == FilledTakers(b) + (if FilledOnArrival(b, c) then {b.counter + 1} else {})
  {
    hide Inv, FilledTakers, FokRejected, Fill, MatchOrder, CancelOrder, AmendOrder;
    match c
    case Add(side, otype, price, qty) =>
      if !Refused(b, otype, price, qty) {
        AddFilledTakers(b, capacity, side, otype, price, qty);
      }
    case Cancel(id) => CancelFilledTakers(b, id);
    case Amend(id, qty) => AmendFilledTakers(b, id, qty);
  }

  lemma {:induction false} FilledTakersNeverShrink(b: Book, capacity: nat, cs: seq<Command>)
    requires Inv(b, capacity)
    ensures FilledTakers(b) <= FilledTakers(Run(b, cs))
  {
    hide Inv, FilledTakers, Step;
    if cs != [] {
      FilledTakersNeverShrink(b, capacity, cs[..|cs|-1]);
      RunKeepsInv(b, capacity, cs[..|cs|-1]);
      StepFilledTakers(Run(b, cs[..|cs|-1]), capacity, cs[|cs|-1]);
    }
  }

  lemma {:induction false} SubsetSize(a: set<OrderId>, b: set<OrderId>)
    requires a <= b
    ensures |a| <= |b|
  {
    if a != {} {
      var x :| x in a;
      SubsetSize(a - {x}, b - {x});
    }
  }

  /** The leak is permanent: resting orders never again get more slots than today's filled takers leave. */
  lemma LeakIsPermanent(b: Book, capacity: nat, cs: seq<Command>)
    requires Inv(b, capacity)
    ensures |RestingIds(Run(b, cs))| + |FilledTakers(b)| <= capacity
  {
    hide Inv, FilledTakers, Run;
    RunKeepsInv(b, capacity, cs);
    FilledTakersNeverShrink(b, capacity, cs);
    SubsetSize(FilledTakers(b), FilledTakers(Run(b, cs)));
    SlotsAreCounted(Run(b, cs), capacity);
  }

  /** Resting orders, filled takers and free slots share the pool. */
  lemma SlotsAreCounted(b: Book, capacity: nat)
    requires Inv(b, capacity)
    ensures |RestingIds(b)| + |FilledTakers(b)| + |b.free| == capacity
  {
    hide Inv, FilledTakers, RestingIds;
    IndexIsRestingPlusFilled(b, capacity);
    assert |b.index.Keys| == |b.index|;
    assert |RestingIds(b) + FilledTakers(b)| == |RestingIds(b)| + |FilledTakers(b)|;
  }

  // ---------------------------------------------------------------- market data

  /** Open quantity of the orders priced exactly `p`. */
  function SumAt(q: seq<Resting>, p: int): nat {
    if q == [] then 0 else (if q[0].price == p then Open(q[0]) else 0) + SumAt(q[1..], p)
  }

  /** When no order is better than `p`, depth up to `p` is what rests at `p`. */
  lemma {:induction false} CumDepthAtBest(s: Side, q: seq<Resting>, p: int)
    requires forall i :: 0 <= i < |q| ==> !Better(s, q[i].price, p)
    ensures CumDepth(s, q, p) == SumAt(q, p)
  {
    if q != [] {
      CumDepthAtBest(s, q[1..], p);
    }
  }

  /** The best price of one side, 0 exactly when the side is empty, with all that rests there, in 32 bits. */
  ghost predicate ShowsBest(s: Side, q: seq<Resting>, px: int, qty: nat) {
    && (px == 0 <==> q == [])
    && (q != [] ==> exists i :: 0 <= i < |q| && q[i].price == px)
    && (forall i :: 0 <= i < |q| ==> !Better(s, q[i].price, px))
    && qty == Wrap(SumAt(q, px))
  }

  /** Price and quantity of the last trade, 0 before the first one. */
  predicate ShowsLastTrade(t: Tick, log: seq<Trade>) {
    if log == [] then t.lastPx == t.lastQty == 0
    else t.lastPx == log[|log|-1].price && t.lastQty == log[|log|-1].qty
  }

  /** A tick tells the truth about the book. */
  ghost predicate Shows(t: Tick, b: Book) {
    && ShowsBest(BID, b.bids, t.bestBid, t.bestBidQty) && ShowsBest(ASK, b.asks, t.bestAsk, t.bestAskQty)
    && (t.bestBid > 0 && t.bestAsk > 0 ==> t.bestBid < t.bestAsk)
    && ShowsLastTrade(t, b.log)
  }

  lemma BestOfSide(b: Book, s: Side)
    requires QueueOk(b, s)
    ensures var q := Queue(b, s); ShowsBest(s, q, if q == [] then 0 else q[0].price, BestQty(s, q))
  {
    var q := Queue(b, s);
    if q == [] {
      assert SumAt([], 0) == 0;
    } else {
      assert Listed(b, s, q[0]);
      forall i | 0 <= i < |q|
        ensures !Better(s, q[i].price, q[0].price)
      {
        assert i > 0 ==> Ahead(s, q[0], q[i]);
      }
      CumDepthAtBest(s, q, q[0].price);
    }
  }

  lemma TickShowsTheBest(b: Book, capacity: nat)
    requires Inv(b, capacity)
    ensures Shows(TopOfBook(b), b)
  {
    hide ShowsBest, QueueOk, IndexOk, PoolOk, LedgerOk, LogOk, AllOpen, BestQty;
    BestOfSide(b, BID);
    BestOfSide(b, ASK);
  }

  /** The last tick published is the top of the book as it is now; before the first tick there is nothing to show. */
  ghost predicate TicksCurrent(b: Book) {
    if b.ticks == [] then TopOfBook(b) == Tick(0, 0, 0, 0, 0, 0) else b.ticks[|b.ticks|-1] == TopOfBook(b)
  }

  lemma PublishIsCurrent(b: Book)
    ensures TicksCurrent(Publish(b))
  {
    hide BestQty;
  }

  lemma SameTop(b: Book, b': Book)
    requires TicksCurrent(b) && b'.bids == b.bids && b'.asks == b.asks && b'.log == b.log && b'.ticks == b.ticks
    ensures TicksCurrent(b')
  {
    hide BestQty;
  }

  /** Every operation publishes, changes nothing, or, for a rejected fill-or-kill, changes nothing a tick shows. */
  lemma StepKeepsTicks(b: Book, c: Command)
    requires TicksCurrent(b)
    ensures TicksCurrent(Step(b, c))
  {
    hide TicksCurrent, Publish, Match, Settle, FokAccepts, Unqueue, AmendUp, AmendDown;
    match c
    case Add(side, otype, price, qty) =>
      if !Refused(b, otype, price, qty) {
        var (b1, t) := Admit(b, side, otype, price, qty);
        SameTop(b, Close(b1, t.id, t.slot, REJECTED));
        PublishIsCurrent(Settle(Match(b1, t).0, Match(b1, t).1));
      }
    case Cancel(id) =>
      if Live(b, id) {
        var b1 := Close(Unqueue(b, b.ledger[id].side, id), id, b.index[id], CANCELLED);
        PublishIsCurrent(b1.(cancelled := b.cancelled + 1));
      }
    case Amend(id, qty) =>
      if Live(b, id) && qty > b.ledger[id].filled {
        PublishIsCurrent(if qty > b.ledger[id].qty then AmendUp(b, id, qty) else AmendDown(b, id, qty));
      }
  }

  /** Over every run the last published tick is the current top of book. */
  lemma {:induction false} LastTickIsCurrent(capacity: nat, cs: seq<Command>)
    ensures TicksCurrent(Run(Init(capacity), cs))
  {
    hide Step;
    if cs != [] {
      LastTickIsCurrent(capacity, cs[..|cs|-1]);
      StepKeepsTicks(Run(Init(capacity), cs[..|cs|-1]), cs[|cs|-1]);
    }
  }

  // ---------------------------------------------------------------- conservation

  /**
   Over every run: what an accepted order has filled is what the log trades in its name, and never
   more than its quantity; bids and asks have filled the same total, the volume of the log; every
   trade pairs a bid with an ask at the maker's price.
   */
  lemma TradesAreConserved(capacity: nat, cs: seq<Command>)
    ensures var b := Run(Init(capacity), cs);
      && (forall id :: id in b.ledger ==>
            && b.ledger[id].filled == VolumeOf(b.log, id) <= b.ledger[id].qty
            && (b.ledger[id].status.FILLED? <==> VolumeOf(b.log, id) == b.ledger[id].qty))
      && SideFilled(b.ledger, BID, b.counter) == SideFilled(b.ledger, ASK, b.counter) == Volume(b.log)
      && (forall i :: 0 <= i < |b.log| ==>
            var t := b.log[i];
            && t.qty > 0 && t.maker in b.ledger && t.taker in b.ledger && t.price == b.ledger[t.maker].price
            && b.ledger[t.maker].side == b.ledger[t.taker].side.Opposite())
  {
    hide Run;
    ReachableInv(capacity, cs);
    var b := Run(Init(capacity), cs);
    forall id | id in b.ledger
      ensures EntryOk(b.ledger[id])
    {
    }
  }

  // ---------------------------------------------------------------- closed orders

  predicate Closed(b: Book, id: OrderId) {
    id in b.ledger && !b.ledger[id].status.Active()
  }

  /** The record of `id` is untouched. */
  predicate SameRecord(b: Book, b': Book, id: OrderId) {
    id in b.ledger && id in b'.ledger && b'.ledger[id] == b.ledger[id]
  }

  lemma MatchStepKeepsClosed(b: Book, t: Taker, id: OrderId)
    requires CanTrade(b, t) && Closed(b, id) && id != t.id
    requires Listed(b, t.side.Opposite(), Queue(b, t.side.Opposite())[0])
    requires Open(Queue(b, t.side.Opposite())[0]) > 0
    ensures SameRecord(b, MatchStep(b, t).0, id)
  {
  }

  lemma MatchStepReady(b: Book, capacity: nat, t: Taker)
    requires Ready(b, capacity, t) && CanTrade(b, t)
    ensures Ready(MatchStep(b, t).0, capacity, MatchStep(b, t).1)
    ensures MatchStep(b, t).1 == Traded(t, TradeWith(t, Queue(b, t.side.Opposite())[0]))
    ensures Listed(b, t.side.Opposite(), Queue(b, t.side.Opposite())[0])
    ensures Open(Queue(b, t.side.Opposite())[0]) > 0
    ensures AllOpen(Queue(b, t.side.Opposite()))
  {
    MatchStepKeeps(b, capacity, t);
  }

  lemma {:induction false} MatchKeepsClosed(b: Book, capacity: nat, t: Taker, id: OrderId)
    requires Ready(b, capacity, t) && Closed(b, id) && id != t.id
    ensures SameRecord(b, Match(b, t).0, id)
    decreases |Queue(b, t.side.Opposite())|, Left(t)
  {
    hide Ready, Listed, AllOpen, MatchStep;
    if CanTrade(b, t) {
      MatchStepReady(b, capacity, t);
      MatchStepKeepsClosed(b, t, id);
      MatchStepFill(b, t);
      MatchKeepsClosed(MatchStep(b, t).0, capacity, MatchStep(b, t).1, id);
    }
  }

  lemma SettleKeepsRecord(b: Book, t: Taker, id: OrderId)
    requires id in b.ledger && id != t.id
    ensures SameRecord(b, Publish(Settle(b, t)), id) && SameRecord(b, Close(b, t.id, t.slot, REJECTED), id)
  {
    hide Insert, TopOfBook;
  }

  lemma AddKeepsClosed(b: Book, capacity: nat, side: Side, otype: OrderType, price: int, qty: nat, id: OrderId)
    requires Inv(b, capacity) && Closed(b, id) && !Refused(b, otype, price, qty) && qty < QUANTITY_WRAP
    ensures SameRecord(b, AddOrder(b, side, otype, price, qty).0, id)
  {
    hide Inv, Ready, Match, FokAccepts, Settle, Publish, Close, TakerOk, EntryOk;
    AdmittedId(b, capacity);
    AdmittedReady(b, capacity, side, otype, price, qty);
    var (b1, t) := Admit(b, side, otype, price, qty);
    MatchKeepsClosed(b1, capacity, t, id);
    MatchTaker(b1, capacity, t);
    SettleKeepsRecord(Match(b1, t).0, Match(b1, t).1, id);
    SettleKeepsRecord(b1, t, id);
  }

  lemma StepKeepsClosed(b: Book, capacity: nat, c: Command, id: OrderId)
    requires Inv(b, capacity) && Closed(b, id)
    ensures SameRecord(b, Step(b, c), id)
  {
    hide Inv, MatchOrder, Insert, RemoveAt, TopOfBook;
    if c.Add? && !Refused(b, c.otype, c.price, c.qty) {
      AddKeepsClosed(b, capacity, c.side, c.otype, c.price, c.qty, id);
    }
  }

  lemma {:induction false} RunExtendsLog(b: Book, capacity: nat, cs: seq<Command>)
    requires Inv(b, capacity)
    ensures b.log <= Run(b, cs).log
  {
    hide Inv, Step, HadPriority;
    if cs != [] {
      RunExtendsLog(b, capacity, cs[..|cs|-1]);
      RunKeepsInv(b, capacity, cs[..|cs|-1]);
      StepHasPriority(Run(b, cs[..|cs|-1]), capacity, cs[|cs|-1]);
    }
  }

  ghost predicate Names(log: seq<Trade>, i: nat, id: OrderId)
    requires i < |log|
  {
    log[i].maker == id || log[i].taker == id
  }

  /** Volume that did not grow names no new trade. */
  lemma {:induction false} QuietVolume(log: seq<Trade>, log': seq<Trade>, id: OrderId)
    requires log <= log' && forall i :: 0 <= i < |log'| ==> log'[i].qty > 0
    ensures VolumeOf(log, id) <= VolumeOf(log', id)
    ensures VolumeOf(log, id) == VolumeOf(log', id) ==> forall i :: |log| <= i < |log'| ==> !Names(log', i, id)
  {
    if |log| == |log'| {
      assert log == log';
    } else {
      var log1 := log'[..|log'|-1];
      QuietVolume(log, log1, id);
      assert forall i :: 0 <= i < |log1| ==> Names(log1, i, id) == Names(log', i, id);
    }
  }

  lemma {:induction false} ClosedRecord(b: Book, capacity: nat, cs: seq<Command>, id: OrderId)
    requires Inv(b, capacity) && Closed(b, id)
    ensures SameRecord(b, Run(b, cs), id)
  {
    hide Step;
    if cs != [] {
      ClosedRecord(b, capacity, cs[..|cs|-1], id);
      RunKeepsInv(b, capacity, cs[..|cs|-1]);
      StepKeepsClosed(Run(b, cs[..|cs|-1]), capacity, cs[|cs|-1], id);
    }
  }

  /**
   An id that reached FILLED, CANCELLED or REJECTED keeps its record for ever and names no later
   trade, however often its slot is used again.
   */
  lemma ClosedForever(b: Book, capacity: nat, cs: seq<Command>, id: OrderId)
    requires Inv(b, capacity) && Closed(b, id)
    ensures var b' := Run(b, cs);
      && SameRecord(b, b', id) && b.log <= b'.log
      && forall i :: |b.log| <= i < |b'.log| ==> !Names(b'.log, i, id)
  {
    hide Run, QueueOk, IndexOk, PoolOk, AllOpen, Uncrossed;
    ClosedRecord(b, capacity, cs, id);
    RunKeepsInv(b, capacity, cs);
    RunExtendsLog(b, capacity, cs);
    QuietVolume(b.log, Run(b, cs).log, id);
  }
}
