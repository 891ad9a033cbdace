/** Every public operation keeps the book's invariant, so every run does. */
module BookRuns {
  import opened OrderTypes
  import opened PriceTimeQueue
  import opened BookSpec
  import opened BookInvariant

  lemma InitInv(capacity: nat)
    ensures Inv(Init(capacity), capacity)
  {
    var b := Init(capacity);
    assert forall i, j {:trigger CellsDiffer(b.free, i, j)} :: 0 <= i < j < |b.free| ==> CellsDiffer(b.free, i, j);
  }

  /** Removing an order from a sorted queue leaves a head that is no better. */
  lemma UnqueueKeepsUncrossed(b: Book, s: Side, id: OrderId)
    requires Uncrossed(b) && QueueOk(b, s)
    ensures Uncrossed(Unqueue(b, s, id))
  {
    var q := Queue(b, s);
    assert |q| > 1 ==> Ahead(s, q[0], q[1]);
  }

  /** A limit order that rests reaches no opposing order, and nothing it joins did. */
  lemma RestKeepsUncrossed(b: Book, t: Taker)
    requires Uncrossed(b)
    requires Queue(b, t.side.Opposite()) != [] ==> !Reaches(t.side, t.price, Queue(b, t.side.Opposite())[0].price)
    ensures Uncrossed(Rest(b, t))
  {
  }

  lemma RestKeepsOpen(b: Book, t: Taker)
    requires AllOpen(b.bids) && AllOpen(b.asks) && Left(t) > 0
    ensures AllOpen(Rest(b, t).bids) && AllOpen(Rest(b, t).asks)
  {
  }

  lemma UnqueueKeepsOpen(b: Book, s: Side, id: OrderId)
    requires AllOpen(b.bids) && AllOpen(b.asks)
    ensures AllOpen(Unqueue(b, s, id).bids) && AllOpen(Unqueue(b, s, id).asks)
  {
  }

  /** Ticks and the cancel count are observations: no invariant depends on them. */
  lemma PublishKeeps(b: Book, capacity: nat, cancelled: nat)
    requires Inv(b, capacity)
    ensures Inv(Publish(b.(cancelled := cancelled)), capacity)
  {
    hide QueueOk, IndexOk, PoolOk, LedgerOk, LogOk, TopOfBook;
    var b' := Publish(b.(cancelled := cancelled));
    QueuesFrame(b, b');
    IndexFrame(b, b');
    HistoryFrame(b, b');
  }

  lemma QueuesFrame(b: Book, b': Book)
    requires QueueOk(b, BID) && QueueOk(b, ASK) && b'.bids == b.bids && b'.asks == b.asks
    requires b'.index == b.index && b'.ledger == b.ledger && b'.clock == b.clock
    ensures QueueOk(b', BID) && QueueOk(b', ASK)
  {
    assert forall i :: 0 <= i < |b.bids| ==> Listed(b, BID, b.bids[i]);
    assert forall i :: 0 <= i < |b.asks| ==> Listed(b, ASK, b.asks[i]);
  }

  lemma IndexFrame(b: Book, b': Book)
    requires IndexOk(b, 0) && b'.bids == b.bids && b'.asks == b.asks && b'.index == b.index && b'.ledger == b.ledger
    ensures IndexOk(b', 0)
  {
    assert forall id :: IsResting(b, id) ==> IsResting(b', id);
  }

  lemma SettleKeeps(b: Book, capacity: nat, t: Taker)
    requires Ready(b, capacity, t) && !CanTrade(b, t) && Uncrossed(b)
    ensures Inv(Settle(b, t), capacity)
  {
    hide QueueOk, IndexOk, PoolOk, LedgerOk, LogOk;
    if Left(t) == 0 {
      FilledKeeps(b, capacity, t);
    } else if t.otype.LIMIT? {
      RestKeeps(b, capacity, t);
      RestKeepsOpen(b, t);
      RestKeepsUncrossed(b, t);
    } else {
      CloseKeeps(b, capacity, t, CANCELLED);
    }
  }

  lemma MatchOrderKeeps(b: Book, capacity: nat, t: Taker)
    requires Ready(b, capacity, t) && Uncrossed(b) && Left(t) > 0
    ensures Inv(MatchOrder(b, t), capacity)
  {
    hide Core, AllOpen, Uncrossed, TakerOk;
    if FokRejected(b, t) {
      WithdrawKeeps(b, capacity, t, REJECTED);
    } else {
      MatchKeeps(b, capacity, t);
      var (b', t') := Match(b, t);
      SettleKeeps(b', capacity, t');
      PublishKeeps(Settle(b', t'), capacity, Settle(b', t').cancelled);
    }
  }

  lemma WithdrawKeeps(b: Book, capacity: nat, t: Taker, status: OrderStatus)
    requires Ready(b, capacity, t) && Uncrossed(b) && Left(t) > 0
    requires status.CANCELLED? || status.REJECTED?
    ensures Inv(Close(b, t.id, t.slot, status), capacity)
  {
    hide QueueOk, IndexOk, PoolOk, LedgerOk, LogOk;
    CloseKeeps(b, capacity, t, status);
  }

  lemma AddKeepsInv(b: Book, capacity: nat, side: Side, otype: OrderType, price: int, qty: nat)
    requires Inv(b, capacity) && qty < QUANTITY_WRAP
    ensures Inv(AddOrder(b, side, otype, price, qty).0, capacity)
  {
    hide QueueOk, IndexOk, PoolOk, LedgerOk, LogOk, TakerOk;
    if !Refused(b, otype, price, qty) {
      AdmitKeeps(b, capacity, side, otype, price, qty);
      var (b', t) := Admit(b, side, otype, price, qty);
      MatchOrderKeeps(b', capacity, t);
    }
  }

  /** Taking a live order out leaves it in the position of an order being matched. */
  lemma UnqueueReady(b: Book, capacity: nat, id: OrderId)
    requires Inv(b, capacity) && Live(b, id)
    ensures Ready(Unqueue(b, b.ledger[id].side, id), capacity, TakerOf(b, id))
    ensures Uncrossed(Unqueue(b, b.ledger[id].side, id)) && Left(TakerOf(b, id)) > 0
  {
    hide IndexOk, PoolOk, LedgerOk, LogOk, TakerOk;
    LiveIsOpen(b, capacity, id);
    UnqueueKeepsUncrossed(b, b.ledger[id].side, id);
    UnqueueKeeps(b, capacity, id);
    UnqueueKeepsOpen(b, b.ledger[id].side, id);
  }

  lemma CancelKeepsInv(b: Book, capacity: nat, id: OrderId)
    requires Inv(b, capacity)
    ensures Inv(CancelOrder(b, id).0, capacity)
  {
    hide Ready, Inv, Uncrossed, Unqueue, Close, Publish;
    if Live(b, id) {
      UnqueueReady(b, capacity, id);
      var b', t := Unqueue(b, b.ledger[id].side, id), TakerOf(b, id);
      WithdrawKeeps(b', capacity, t, CANCELLED);
      PublishKeeps(Close(b', id, t.slot, CANCELLED), capacity, b.cancelled + 1);
    }
  }

  /** A live order is a LIMIT with something left to trade. */
  lemma LiveIsOpen(b: Book, capacity: nat, id: OrderId)
    requires Core(b, capacity, 0) && Live(b, id)
    ensures b.ledger[id].filled < b.ledger[id].qty < QUANTITY_WRAP && b.ledger[id].otype.LIMIT? && b.ledger[id].price > 0
    ensures b.ledger[id].side.BID? ==> b.bids != []
    ensures b.ledger[id].side.ASK? ==> b.asks != []
  {
    LiveIsQueued(b, capacity, id);
  }

  lemma AmendKeepsInv(b: Book, capacity: nat, id: OrderId, qty: nat)
    requires Inv(b, capacity) && qty < QUANTITY_WRAP
    ensures Inv(AmendOrder(b, id, qty).0, capacity)
  {
    hide Inv, Publish, AmendUp, AmendDown;
    if Live(b, id) && qty > b.ledger[id].filled {
      if qty > b.ledger[id].qty {
        AmendUpKeepsInv(b, capacity, id, qty);
        PublishKeeps(AmendUp(b, id, qty), capacity, AmendUp(b, id, qty).cancelled);
      } else {
        AmendDownKeepsInv(b, capacity, id, qty);
        PublishKeeps(AmendDown(b, id, qty), capacity, AmendDown(b, id, qty).cancelled);
      }
    }
  }

  lemma AmendDownKeepsInv(b: Book, capacity: nat, id: OrderId, qty: nat)
    requires Inv(b, capacity) && Live(b, id) && b.ledger[id].filled < qty <= b.ledger[id].qty
    ensures Inv(AmendDown(b, id, qty), capacity)
  {
    hide QueueOk, IndexOk, PoolOk, LedgerOk, LogOk, AllOpen, Uncrossed;
    LiveIsQueued(b, capacity, id);
    AmendDownKeeps(b, capacity, id, qty);
    AmendDownKeepsShape(b, id, qty);
  }

  lemma AmendDownKeepsShape(b: Book, id: OrderId, qty: nat)
    requires AllOpen(b.bids) && AllOpen(b.asks) && Uncrossed(b) && Live(b, id) && b.ledger[id].filled < qty
    requires var q := Queue(b, b.ledger[id].side); Find(q, id) < |q| && q[Find(q, id)].filled == b.ledger[id].filled
    ensures AllOpen(AmendDown(b, id, qty).bids) && AllOpen(AmendDown(b, id, qty).asks)
    ensures Uncrossed(AmendDown(b, id, qty))
  {
  }

  lemma AmendUpKeepsInv(b: Book, capacity: nat, id: OrderId, qty: nat)
    requires Inv(b, capacity) && Live(b, id) && b.ledger[id].qty < qty < QUANTITY_WRAP
    ensures Inv(AmendUp(b, id, qty), capacity)
  {
    hide QueueOk, IndexOk, PoolOk, LedgerOk, LogOk, TakerOk;
    var s, t := b.ledger[id].side, TakerOf(b, id);
    LiveReachesNothing(b, capacity, id);
    LiveIsOpen(b, capacity, id);
    UnqueueReady(b, capacity, id);
    var b1 := Unqueue(b, s, id);
    SetQtyKeeps(b1, capacity, t, qty);
    var b2 := b1.(ledger := SetQty(b1.ledger, id, qty));
    RestKeeps(b2, capacity, t.(qty := qty));
    RestKeepsOpen(b2, t.(qty := qty));
    RestKeepsUncrossed(b2, t.(qty := qty));
  }

  lemma LiveReachesNothing(b: Book, capacity: nat, id: OrderId)
    requires Inv(b, capacity) && Live(b, id)
    ensures var e := b.ledger[id]; var q := Queue(b, e.side.Opposite());
      q != [] ==> !Reaches(e.side, e.price, q[0].price)
  {
    var s := b.ledger[id].side;
    var q := Queue(b, s);
    LiveIsQueued(b, capacity, id);
    var k := Find(q, id);
    assert k > 0 ==> Ahead(s, q[0], q[k]);
  }

  lemma StepKeepsInv(b: Book, capacity: nat, c: Command)
    requires Inv(b, capacity)
    ensures Inv(Step(b, c), capacity)
  {
    match c
    case Add(side, otype, price, qty) => AddKeepsInv(b, capacity, side, otype, price, qty);
    case Cancel(id) => CancelKeepsInv(b, capacity, id);
    case Amend(id, qty) => AmendKeepsInv(b, capacity, id, qty);
  }

  lemma {:induction false} RunKeepsInv(b: Book, capacity: nat, cs: seq<Command>)
    requires Inv(b, capacity)
    ensures Inv(Run(b, cs), capacity)
  {
    if cs != [] {
      RunKeepsInv(b, capacity, cs[..|cs|-1]);
      StepKeepsInv(Run(b, cs[..|cs|-1]), capacity, cs[|cs|-1]);
    }
  }

  /** The invariant of every state a fresh book of this capacity can reach. */
  lemma ReachableInv(capacity: nat, cs: seq<Command>)
    ensures Inv(Run(Init(capacity), cs), capacity)
  {
    InitInv(capacity);
    RunKeepsInv(Init(capacity), capacity, cs);
  }
}
