/** Laws that relate several calls: add and cancel undo each other, what cancelling removes, what an amendment moves. */
module OrderLaws {
  import opened OrderTypes
  import opened PriceTimeQueue
  import opened BookSpec
  import opened BookInvariant
  import opened BookLaws
  import opened MatchTheorems

  // ---------------------------------------------------------------- undo

  lemma FindInserted(q: seq<Resting>, k: nat, r: Resting)
    requires k <= |q| && forall i :: 0 <= i < |q| ==> q[i].id != r.id
    ensures |InsertAt(q, k, r)| == |q| + 1
    ensures Find(InsertAt(q, k, r), r.id) == k && RemoveAt(InsertAt(q, k, r), k) == q
  {
    var q' := InsertAt(q, k, r);
    assert q'[k] == r;
    assert forall i :: 0 <= i < k ==> q'[i] == q[i];
    assert q'[..k] == q[..k] && q'[k+1..] == q[k..];
  }

  lemma FreshId(b: Book, capacity: nat, s: Side)
    requires Inv(b, capacity)
    ensures b.counter + 1 !in b.index && b.counter + 1 !in b.ledger
    ensures forall i :: 0 <= i < |Queue(b, s)| ==> Queue(b, s)[i].id != b.counter + 1
  {
    assert forall i :: 0 <= i < |Queue(b, s)| ==> Listed(b, s, Queue(b, s)[i]);
  }

  /**
   A LIMIT that reaches nothing, then its cancellation: both queues, the index, the LIFO free list
   and the trade log are exactly what they were.
   */
  lemma AddThenCancel(b: Book, capacity: nat, side: Side, price: int, qty: nat)
    requires Inv(b, capacity) && !Refused(b, LIMIT, price, qty)
    requires var q := Queue(b, side.Opposite()); q != [] ==> !Reaches(side, price, q[0].price)
    ensures var (b1, id) := AddOrder(b, side, LIMIT, price, qty);
            var (b2, done) := CancelOrder(b1, id);
      && done && b2.bids == b.bids && b2.asks == b.asks && b2.index == b.index && b2.free == b.free
      && b2.log == b.log && b2.ledger == b.ledger[id := Entry(side, LIMIT, price, qty, 0, CANCELLED)]
  {
    hide Inv, TopOfBook, Insert;
    FreshId(b, capacity, side);
    QuietAdd(b, side, price, qty);
    CancelRested(b, side, price, qty);
  }

  lemma CancelRested(b: Book, side: Side, price: int, qty: nat)
    requires b.free != [] && qty > 0 && b.counter + 1 !in b.index
    requires forall i :: 0 <= i < |Queue(b, side)| ==> Queue(b, side)[i].id != b.counter + 1
    ensures var (ba, t) := Admit(b, side, LIMIT, price, qty);
            var (b2, done) := CancelOrder(Publish(Rest(ba, t)), t.id);
      && done && b2.bids == b.bids && b2.asks == b.asks && b2.index == b.index && b2.free == b.free
      && b2.log == b.log && b2.ledger == b.ledger[t.id := Entry(side, LIMIT, price, qty, 0, CANCELLED)]
  {
    hide TopOfBook, InsertAt, RemoveAt, InsertPos, Find;
    var (ba, t) := Admit(b, side, LIMIT, price, qty);
    var q, r := Queue(b, side), Resting(t.id, price, qty, 0, t.slot, b.clock);
    FindInserted(q, InsertPos(side, q, price), r);
    var b1 := Publish(Rest(ba, t));
    var bu := Unqueue(b1, side, t.id);
    assert bu.bids == b.bids && bu.asks == b.asks && bu.index == ba.index && bu.free == b.free[1..] && bu.ledger == ba.ledger;
    assert ba.index - {t.id} == b.index;
    assert [t.slot] + b.free[1..] == b.free;
    assert SetStatus(ba.ledger, t.id, CANCELLED) == b.ledger[t.id := Entry(side, LIMIT, price, qty, 0, CANCELLED)];
  }

  // ---------------------------------------------------------------- cancellation

  lemma UnqueuedIds(b: Book, s: Side, id: OrderId)
    requires Sorted(s, Queue(b, s)) && Find(Queue(b, s), id) < |Queue(b, s)|
    ensures Ids(Queue(Unqueue(b, s, id), s)) == Ids(Queue(b, s)) - {id}
    ensures Queue(Unqueue(b, s, id), s.Opposite()) == Queue(b, s.Opposite())
  {
    hide RemoveAt, Ids;
    IdsRemove(s, Queue(b, s), Find(Queue(b, s), id));
  }

  /**
   cancel_order succeeds exactly on a resting order. Then that order alone leaves its queue and the
   index, its slot goes on top of the free list, its record says CANCELLED, and nothing is traded.
   */
  lemma CancelRemovesExactly(b: Book, capacity: nat, id: OrderId)
    requires Inv(b, capacity)
    ensures var (b', done) := CancelOrder(b, id);
      && (done <==> id in RestingIds(b))
      && (!done ==> b' == b)
      && (done ==>
            && id in b.ledger && id in b.index
            && var s := b.ledger[id].side;
               && Position(b, id) < |Queue(b, s)| && Queue(b', s) == RemoveAt(Queue(b, s), Position(b, id))
               && Queue(b', s.Opposite()) == Queue(b, s.Opposite())
               && Ids(Queue(b', s)) == Ids(Queue(b, s)) - {id}
               && b'.index == b.index - {id} && b'.free == [b.index[id]] + b.free && b'.log == b.log
               && b'.ledger == b.ledger[id := b.ledger[id].(status := CANCELLED)]
               && b'.counter == b.counter && b'.cancelled == b.cancelled + 1)
  {
    hide Inv, Listed, Sorted, RestingIds, TopOfBook, Ids, RemoveAt;
    LiveIsResting(b, capacity, id);
    if Live(b, id) {
      LiveIsListed(b, capacity, id);
      UnqueuedIds(b, b.ledger[id].side, id);
    }
  }

  // ---------------------------------------------------------------- amendments

  /** Only the amended order's quantity changes; position and stamp, and with them priority, stay. */
  ghost predicate AmendedInPlace(q: seq<Resting>, q': seq<Resting>, k: nat, qty: nat) {
    k < |q| && q' == q[k := q[k].(qty := qty)]
  }

  /**
   The amended order goes behind every other order at its price or better and before every worse
   one, under a stamp later than all of theirs; the others keep their order.
   */
  ghost predicate AmendedToBack(s: Side, q: seq<Resting>, q': seq<Resting>, k: nat, k': nat, qty: nat) {
    && k < |q| && k' < |q'| && RemoveAt(q', k') == RemoveAt(q, k)
    && q'[k'] == q[k].(qty := qty, stamp := q'[k'].stamp)
    && (forall i :: 0 <= i < k' ==> !Better(s, q[k].price, q'[i].price))
    && (forall i :: k' < i < |q'| ==> Better(s, q[k].price, q'[i].price))
    && (forall i :: 0 <= i < |q'| && i != k' ==> q'[i].stamp < q'[k'].stamp)
  }

  /** The queue position of a live order. */
  function Position(b: Book, id: OrderId): nat
    requires id in b.ledger
  {
    Find(Queue(b, b.ledger[id].side), id)
  }

  /** Both kinds of amendment leave the other side, the log, the index and the free list alone. */
  ghost predicate AmendFrame(b: Book, b': Book, id: OrderId, qty: nat) {
    && id in b.ledger && b'.ledger == b.ledger[id := b.ledger[id].(qty := qty)]
    && b'.index == b.index && b'.free == b.free && b'.log == b.log
    && b'.counter == b.counter && b'.cancelled == b.cancelled
    && Queue(b', b.ledger[id].side.Opposite()) == Queue(b, b.ledger[id].side.Opposite())
  }

  /** Live orders are exactly the resting ones. */
  lemma LiveIsResting(b: Book, capacity: nat, id: OrderId)
    requires Inv(b, capacity)
    ensures Live(b, id) <==> id in RestingIds(b)
  {
    LiveIsIndexedUnfilled(b, capacity, id);
    hide Inv, RestingIds;
    IndexIsRestingPlusFilled(b, capacity);
  }

  lemma LiveIsIndexedUnfilled(b: Book, capacity: nat, id: OrderId)
    requires Inv(b, capacity)
    ensures Live(b, id) <==> id in b.index && id !in FilledTakers(b)
  {
    assert IndexOk(b, 0);
    hide Inv;
  }

  lemma LiveIsListed(b: Book, capacity: nat, id: OrderId)
    requires Inv(b, capacity) && Live(b, id)
    ensures var s := b.ledger[id].side; var k := Position(b, id);
      QueueOk(b, s) && k < |Queue(b, s)| && Listed(b, s, Queue(b, s)[k])
  {
    hide Listed, IndexOk, LedgerOk, LogOk, PoolOk, AllOpen, Uncrossed;
    LiveIsQueued(b, capacity, id);
  }

  lemma AmendDownInPlace(b: Book, id: OrderId, qty: nat)
    requires Live(b, id) && Position(b, id) < |Queue(b, b.ledger[id].side)|
    ensures var b', s := Publish(AmendDown(b, id, qty)), b.ledger[id].side;
      AmendFrame(b, b', id, qty) && AmendedInPlace(Queue(b, s), Queue(b', s), Position(b, id), qty)
  {
    hide TopOfBook;
  }

  lemma InsertPosSplits(s: Side, q: seq<Resting>, price: int)
    requires Sorted(s, q)
    ensures forall i :: InsertPos(s, q, price) <= i < |q| ==> Better(s, price, q[i].price)
  {
    var p := InsertPos(s, q, price);
    forall i | p <= i < |q|
      ensures Better(s, price, q[i].price)
    {
      assert p < i ==> Ahead(s, q[p], q[i]);
    }
  }

  lemma OthersDiffer(s: Side, q: seq<Resting>, k: nat)
    requires Sorted(s, q) && k < |q|
    ensures forall i :: 0 <= i < |q| - 1 ==> RemoveAt(q, k)[i].id != q[k].id
  {
    forall i | 0 <= i < |q| - 1
      ensures RemoveAt(q, k)[i].id != q[k].id
    {
      var j := if i < k then i else i + 1;
      assert if j < k then Ahead(s, q[j], q[k]) else Ahead(s, q[k], q[j]);
    }
  }

  /** Inserting where InsertPos says puts an order at the back of its level. */
  lemma InsertedAtBack(s: Side, q: seq<Resting>, k: nat, r: Resting)
    requires Sorted(s, q) && k < |q| && r == q[k].(qty := r.qty, stamp := r.stamp)
    requires forall i :: 0 <= i < |q| ==> q[i].stamp < r.stamp
    ensures var q' := Insert(s, RemoveAt(q, k), r); var k' := Find(q', r.id);
      AmendedToBack(s, q, q', k, k', r.qty)
  {
    hide Sorted, InsertAt, RemoveAt;
    var q1 := RemoveAt(q, k);
    Removed(q, k);
    OthersDiffer(s, q, k);
    SortedRemove(s, q, k);
    InsertPosSplits(s, q1, r.price);
    var p := InsertPos(s, q1, r.price);
    FindInserted(q1, p, r);
    Inserted(q1, p, r);
    var q' := InsertAt(q1, p, r);
    assert forall i :: 0 <= i < |q1| ==> q1[i].stamp < r.stamp;
  }

  lemma Inserted(q: seq<Resting>, k: nat, r: Resting)
    requires k <= |q|
    ensures |InsertAt(q, k, r)| == |q| + 1
    ensures forall i {:trigger InsertAt(q, k, r)[i]} :: 0 <= i <= |q| ==> InsertAt(q, k, r)[i] == if i < k then q[i] else if i == k then r else q[i-1]
  {
  }

  lemma Removed(q: seq<Resting>, k: nat)
    requires k < |q|
    ensures |RemoveAt(q, k)| == |q| - 1
    ensures forall i {:trigger RemoveAt(q, k)[i]} :: 0 <= i < |q| - 1 ==> RemoveAt(q, k)[i] in q
  {
  }

  lemma AmendUpToBack(b: Book, id: OrderId, qty: nat)
    requires Live(b, id) && Position(b, id) < |Queue(b, b.ledger[id].side)|
    requires QueueOk(b, b.ledger[id].side)
    ensures var b', s := Publish(AmendUp(b, id, qty)), b.ledger[id].side;
      AmendFrame(b, b', id, qty)
      && AmendedToBack(s, Queue(b, s), Queue(b', s), Position(b, id), Find(Queue(b', s), id), qty)
  {
    var s, k := b.ledger[id].side, Position(b, id);
    var q := Queue(b, s);
    forall i | 0 <= i < |q|
      ensures Listed(b, s, q[i])
    {
    }
    hide TopOfBook, Insert, RemoveAt, AmendedToBack, QueueOk;
    InsertedAtBack(s, q, k, q[k].(qty := qty, stamp := b.clock));
  }

  /**
   amend_order succeeds exactly on a resting order and a quantity beyond its fill; then more
   quantity costs the order its priority, less or the same keeps it.
   */
  lemma AmendMoves(b: Book, capacity: nat, id: OrderId, qty: nat)
    requires Inv(b, capacity)
    ensures var (b', done) := AmendOrder(b, id, qty);
      && (done <==> id in RestingIds(b) && b.ledger[id].filled < qty)
      && (!done ==> b' == b)
      && (done ==>
            && AmendFrame(b, b', id, qty)
            && var s := b.ledger[id].side;
               if qty > b.ledger[id].qty
               then AmendedToBack(s, Queue(b, s), Queue(b', s), Position(b, id), Position(b', id), qty)
               else AmendedInPlace(Queue(b, s), Queue(b', s), Position(b, id), qty))
  {
    hide Inv, Listed, QueueOk, RestingIds, Publish, AmendUp, AmendDown, AmendedToBack, AmendedInPlace;
    LiveIsResting(b, capacity, id);
    if Live(b, id) {
      LiveIsListed(b, capacity, id);
      AmendUpToBack(b, id, qty);
      AmendDownInPlace(b, id, qty);
    }
  }
}
