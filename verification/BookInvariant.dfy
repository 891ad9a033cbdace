/** What every reachable book satisfies, and why each internal step keeps it. */
module BookInvariant {
  import opened OrderTypes
  import opened PriceTimeQueue
  import opened BookSpec

  /** A queued order is indexed at its slot and agrees with the ledger. */
  ghost predicate Listed(b: Book, s: Side, r: Resting) {
    && r.id in b.index && b.index[r.id] == r.slot
    && r.id in b.ledger && b.ledger[r.id] == Entry(s, LIMIT, r.price, r.qty, r.filled, FillStatus(r.filled, r.qty))
    && r.stamp < b.clock && r.price > 0
  }

  ghost predicate QueueOk(b: Book, s: Side) {
    var q := Queue(b, s);
    && Sorted(s, q)
    && forall i :: 0 <= i < |q| ==> Listed(b, s, q[i])
  }

  predicate IsResting(b: Book, id: OrderId) {
    id in b.ledger && Find(Queue(b, b.ledger[id].side), id) < |Queue(b, b.ledger[id].side)|
  }

  /** The index holds resting orders, filled orders, and at most one order still being matched. */
  ghost predicate IndexOk(b: Book, pending: OrderId) {
    && (forall id :: id in b.index ==> id in b.ledger)
    && (forall id :: id in b.index ==> b.ledger[id].status.Active() || b.ledger[id].status.FILLED?)
    && (forall id :: id in b.index && b.ledger[id].status.Active() ==> id == pending || IsResting(b, id))
  }

  predicate SlotsDiffer(index: map<OrderId, nat>, i: OrderId, j: OrderId)
    requires i in index && j in index
  {
    index[i] != index[j]
  }

  predicate CellsDiffer(free: seq<nat>, i: nat, j: nat)
    requires i < |free| && j < |free|
  {
    free[i] != free[j]
  }

  /** Every slot is either on the free list, once, or owned by exactly one indexed order. */
  ghost predicate PoolOk(index: map<OrderId, nat>, free: seq<nat>, capacity: nat) {
    && (forall id :: id in index ==> index[id] < capacity && index[id] !in free)
    && (forall i, j {:trigger SlotsDiffer(index, i, j)} ::
          i in index && j in index && i != j ==> SlotsDiffer(index, i, j))
    && (forall i :: 0 <= i < |free| ==> free[i] < capacity)
    && (forall i, j {:trigger CellsDiffer(free, i, j)} :: 0 <= i < j < |free| ==> CellsDiffer(free, i, j))
    && |free| + |index| == capacity
  }

  /** A record's status agrees with its fill. */
  predicate EntryOk(e: Entry) {
    && 0 < e.qty < QUANTITY_WRAP && e.filled <= e.qty
    && (e.status.FILLED? <==> e.filled == e.qty)
    && (e.status.Active() ==> e.status == FillStatus(e.filled, e.qty))
  }

  ghost predicate LedgerOk(b: Book) {
    && (forall id :: id in b.ledger <==> 1 <= id <= b.counter)
    && (forall id :: id in b.ledger ==> EntryOk(b.ledger[id]))
    && (forall id :: id in b.ledger ==> b.ledger[id].filled == VolumeOf(b.log, id))
    && (forall id :: id in b.ledger && b.ledger[id].status.Active() ==> id in b.index)
  }

  /** Quantity filled by the orders of one side among the first `n` ids. */
  function SideFilled(ledger: map<OrderId, Entry>, s: Side, n: nat): nat {
    if n == 0 then 0
    else SideFilled(ledger, s, n - 1) + (if n in ledger && ledger[n].side == s then ledger[n].filled else 0)
  }

  ghost predicate LogOk(b: Book) {
    && (forall i :: 0 <= i < |b.log| ==>
          && b.log[i].qty > 0
          && b.log[i].maker in b.ledger && b.log[i].taker in b.ledger
          && b.ledger[b.log[i].maker].side == b.ledger[b.log[i].taker].side.Opposite()
          && b.log[i].price == b.ledger[b.log[i].maker].price)
    && SideFilled(b.ledger, BID, b.counter) == Volume(b.log)
    && SideFilled(b.ledger, ASK, b.counter) == Volume(b.log)
  }

  /** The invariant that also holds inside a public call; `pending` is the order being matched, or 0. */
  ghost predicate Core(b: Book, capacity: nat, pending: OrderId) {
    && QueueOk(b, BID) && QueueOk(b, ASK)
    && IndexOk(b, pending) && PoolOk(b.index, b.free, capacity)
    && LedgerOk(b) && LogOk(b)
  }

  /** No bid reaches an ask. */
  ghost predicate Uncrossed(b: Book) {
    b.bids != [] && b.asks != [] ==> b.bids[0].price < b.asks[0].price
  }

  ghost predicate Inv(b: Book, capacity: nat) {
    Core(b, capacity, 0) && AllOpen(b.bids) && AllOpen(b.asks) && Uncrossed(b)
  }

  /** The order being matched: indexed, recorded, and queued nowhere. */
  ghost predicate TakerOk(b: Book, t: Taker) {
    && t.id in b.index && b.index[t.id] == t.slot
    && t.id in b.ledger
    && b.ledger[t.id] == Entry(t.side, t.otype, t.price, t.qty, t.filled, FillStatus(t.filled, t.qty))
    && !IsResting(b, t.id)
    && (t.otype.LIMIT? ==> t.price > 0)
  }

  // ---------------------------------------------------------------- small facts

  lemma FindAfterRemove(q: seq<Resting>, k: nat, id: OrderId)
    requires k < |q| && q[k].id != id && Find(q, id) < |q|
    ensures Find(RemoveAt(q, k), id) < |q| - 1
  {
    var i := Find(q, id);
    assert RemoveAt(q, k)[if i < k then i else i - 1].id == id;
  }

  lemma FindAfterInsert(q: seq<Resting>, k: nat, r: Resting, id: OrderId)
    requires k <= |q| && (id == r.id || Find(q, id) < |q|)
    ensures Find(InsertAt(q, k, r), id) <= |q|
  {
    var i := Find(q, id);
    assert InsertAt(q, k, r)[if id == r.id then k else if i < k then i else i + 1].id == id;
  }

  lemma VolumeOfSnoc(log: seq<Trade>, t: Trade, id: OrderId)
    ensures VolumeOf(log + [t], id) == VolumeOf(log, id) + (if t.maker == id || t.taker == id then t.qty else 0)
  {
    assert (log + [t])[..|log|] == log;
  }

  lemma VolumeSnoc(log: seq<Trade>, t: Trade)
    ensures Volume(log + [t]) == Volume(log) + t.qty
  {
    assert (log + [t])[..|log|] == log;
  }

  lemma {:induction false} SideFilledCredit(ledger: map<OrderId, Entry>, s: Side, n: nat, id: OrderId, f: nat)
    requires id in ledger && 1 <= id
    ensures SideFilled(Credit(ledger, id, f), s, n)
            == SideFilled(ledger, s, n) + (if id <= n && ledger[id].side == s then f else 0)
  {
    if n > 0 {
      SideFilledCredit(ledger, s, n - 1, id, f);
    }
  }

  /** Only the fills count. */
  lemma {:induction false} SideFilledFrame(l: map<OrderId, Entry>, l': map<OrderId, Entry>, s: Side, n: nat)
    requires forall id :: 1 <= id <= n ==> id in l && id in l' && l[id].side == l'[id].side && l[id].filled == l'[id].filled
    ensures SideFilled(l, s, n) == SideFilled(l', s, n)
  {
    if n > 0 {
      SideFilledFrame(l, l', s, n - 1);
    }
  }

  /** Closing an order, or changing its quantity, leaves the history of trades as it was. */
  lemma LogFrame(b: Book, b': Book)
    requires LogOk(b) && LedgerOk(b) && b'.log == b.log && b'.counter == b.counter
    requires b'.ledger.Keys == b.ledger.Keys
    requires forall id :: id in b.ledger ==>
                            && b'.ledger[id].side == b.ledger[id].side
                            && b'.ledger[id].price == b.ledger[id].price
                            && b'.ledger[id].filled == b.ledger[id].filled
    ensures LogOk(b')
  {
    SideFilledFrame(b.ledger, b'.ledger, BID, b.counter);
    SideFilledFrame(b.ledger, b'.ledger, ASK, b.counter);
  }

  /** Moving an order between queues leaves the history alone. */
  lemma HistoryFrame(b: Book, b': Book)
    requires LedgerOk(b) && LogOk(b)
    requires b'.log == b.log && b'.counter == b.counter && b'.ledger == b.ledger && b'.index == b.index
    ensures LedgerOk(b') && LogOk(b')
  {
  }

  /** A side that is not touched keeps its queue in order if its records stay as they were. */
  lemma QueueFrame(b: Book, b': Book, s: Side)
    requires QueueOk(b, s) && Queue(b', s) == Queue(b, s) && b.clock <= b'.clock
    requires forall i :: 0 <= i < |Queue(b, s)| ==> Listed(b', s, Queue(b, s)[i])
    ensures QueueOk(b', s)
  {
  }

  lemma PoolTake(index: map<OrderId, nat>, free: seq<nat>, capacity: nat, id: OrderId)
    requires PoolOk(index, free, capacity) && free != [] && id !in index
    ensures PoolOk(index[id := free[0]], free[1..], capacity)
  {
    var index', free' := index[id := free[0]], free[1..];
    assert index'.Keys == index.Keys + {id} && |index'| == |index'.Keys| && |index| == |index.Keys|;
    forall i | 0 <= i < |free'|
      ensures free'[i] != free[0]
    {
      assert CellsDiffer(free, 0, i + 1);
    }
    forall i, j | 0 <= i < j < |free'|
      ensures CellsDiffer(free', i, j)
    {
      assert CellsDiffer(free, i + 1, j + 1);
    }
    forall i, j | i in index' && j in index' && i != j
      ensures SlotsDiffer(index', i, j)
    {
      assert i != id && j != id ==> SlotsDiffer(index, i, j);
    }
  }

  lemma PoolGive(index: map<OrderId, nat>, free: seq<nat>, capacity: nat, id: OrderId)
    requires PoolOk(index, free, capacity) && id in index
    ensures PoolOk(index - {id}, [index[id]] + free, capacity)
  {
    var index', free' := index - {id}, [index[id]] + free;
    assert index'.Keys == index.Keys - {id} && |index'| == |index'.Keys| && |index| == |index.Keys|;
    forall i | i in index'
      ensures index'[i] !in free'
    {
      assert SlotsDiffer(index, i, id);
    }
    forall i, j | 0 <= i < j < |free'|
      ensures CellsDiffer(free', i, j)
    {
      assert if i == 0 then free'[j] in free else CellsDiffer(free, i - 1, j - 1);
    }
    forall i, j | i in index' && j in index' && i != j
      ensures SlotsDiffer(index', i, j)
    {
      assert SlotsDiffer(index, i, j);
    }
  }

  // ---------------------------------------------------------------- the steps of a match

  lemma TradeHeadKeepsQueues(b: Book, t: Taker)
    requires QueueOk(b, BID) && QueueOk(b, ASK) && TakerOk(b, t) && CanTrade(b, t)
    ensures QueueOk(TradeHead(b, t), BID) && QueueOk(TradeHead(b, t), ASK)
  {
    var s := t.side.Opposite();
    var b' := TradeHead(b, t);
    var q, q' := Queue(b, s), Queue(b', s);
    assert Listed(b, s, q[0]);
    assert q' == q[0 := q'[0]];
    SortedUpdate(s, q, 0, q'[0]);
    forall i | 0 <= i < |q'|
      ensures Listed(b', s, q'[i])
    {
      assert Listed(b, s, q[i]);
      if i > 0 {
        assert Ahead(s, q[0], q[i]);
      }
    }
    forall i | 0 <= i < |Queue(b, t.side)|
      ensures Listed(b', t.side, Queue(b, t.side)[i])
    {
      assert Listed(b, t.side, Queue(b, t.side)[i]);
    }
    QueueFrame(b, b', t.side);
  }

  lemma TradeHeadKeepsLedger(b: Book, t: Taker)
    requires LedgerOk(b) && TakerOk(b, t) && CanTrade(b, t)
    requires Listed(b, t.side.Opposite(), Queue(b, t.side.Opposite())[0])
    ensures LedgerOk(TradeHead(b, t))
  {
    var b' := TradeHead(b, t);
    forall id | id in b'.ledger
      ensures b'.ledger[id].filled == VolumeOf(b'.log, id) && EntryOk(b'.ledger[id])
      ensures b'.ledger[id].status.Active() ==> id in b'.index
    {
      TradeHeadKeepsEntry(b, t, id);
    }
    hide VolumeOf, EntryOk, TakerOk, Listed;
  }

  lemma TradeHeadKeepsEntry(b: Book, t: Taker, id: OrderId)
    requires LedgerOk(b) && TakerOk(b, t) && CanTrade(b, t) && id in b.ledger
    requires Listed(b, t.side.Opposite(), Queue(b, t.side.Opposite())[0])
    ensures var b' := TradeHead(b, t);
      && id in b'.ledger && EntryOk(b'.ledger[id])
      && b'.ledger[id].filled == VolumeOf(b'.log, id) && (b'.ledger[id].status.Active() ==> id in b'.index)
  {
    hide VolumeOf;
    var m := Queue(b, t.side.Opposite())[0];
    VolumeOfSnoc(b.log, Trade(m.id, t.id, m.price, TradeWith(t, m)), id);
  }

  lemma TradeHeadKeepsLog(b: Book, t: Taker)
    requires LogOk(b) && TakerOk(b, t) && CanTrade(b, t) && 1 <= t.id <= b.counter
    requires Listed(b, t.side.Opposite(), Queue(b, t.side.Opposite())[0])
    requires 1 <= Queue(b, t.side.Opposite())[0].id <= b.counter && Open(Queue(b, t.side.Opposite())[0]) > 0
    ensures LogOk(TradeHead(b, t))
  {
    hide SideFilled, Volume, FillStatus;
    var m := Queue(b, t.side.Opposite())[0];
    var f := TradeWith(t, m);
    VolumeSnoc(b.log, Trade(m.id, t.id, m.price, f));
    SideFilledCredit(b.ledger, BID, b.counter, m.id, f);
    SideFilledCredit(b.ledger, ASK, b.counter, m.id, f);
    SideFilledCredit(Credit(b.ledger, m.id, f), BID, b.counter, t.id, f);
    SideFilledCredit(Credit(b.ledger, m.id, f), ASK, b.counter, t.id, f);
  }

  lemma TradeHeadKeepsResting(b: Book, t: Taker, id: OrderId)
    requires CanTrade(b, t) && id in b.ledger
    ensures id in TradeHead(b, t).ledger
    ensures IsResting(TradeHead(b, t), id) <==> IsResting(b, id)
  {
    var b' := TradeHead(b, t);
    var q, q' := Queue(b, b.ledger[id].side), Queue(b', b.ledger[id].side);
    assert |q'| == |q| && forall i :: 0 <= i < |q| ==> q'[i].id == q[i].id;
  }

  /** Only the two traded orders change their status. */
  lemma TradeHeadStatus(b: Book, t: Taker, id: OrderId)
    requires TakerOk(b, t) && CanTrade(b, t) && id in b.ledger
    requires Listed(b, t.side.Opposite(), Queue(b, t.side.Opposite())[0])
    ensures var b' := TradeHead(b, t);
      id in b'.ledger && b'.ledger[id].side == b.ledger[id].side
      && (b'.ledger[id].status == b.ledger[id].status
          || ((id == t.id || id == Queue(b, t.side.Opposite())[0].id)
              && (b'.ledger[id].status.Active() || b'.ledger[id].status.FILLED?)))
  {
  }

  lemma TradeHeadKeepsIndex(b: Book, t: Taker)
    requires IndexOk(b, t.id) && TakerOk(b, t) && CanTrade(b, t)
    requires Listed(b, t.side.Opposite(), Queue(b, t.side.Opposite())[0])
    ensures IndexOk(TradeHead(b, t), t.id)
  {
    var b', m := TradeHead(b, t), Queue(b, t.side.Opposite())[0];
    assert IsResting(b, m.id);
    hide IsResting;
    forall id | id in b.index
      ensures id in b'.ledger && (b'.ledger[id].status.Active() || b'.ledger[id].status.FILLED?)
      ensures b'.ledger[id].status.Active() ==> id == t.id || IsResting(b', id)
    {
      TradeHeadStatus(b, t, id);
      TradeHeadKeepsResting(b, t, id);
    }
    assert b'.index == b.index;
  }

  lemma TradeHeadKeepsCore(b: Book, capacity: nat, t: Taker)
    requires Core(b, capacity, t.id) && TakerOk(b, t) && CanTrade(b, t)
    requires Open(Queue(b, t.side.Opposite())[0]) > 0
    ensures Core(TradeHead(b, t), capacity, t.id)
    ensures TakerOk(TradeHead(b, t), Traded(t, TradeWith(t, Queue(b, t.side.Opposite())[0])))
  {
    TradeHeadReady(b, t);
    hide QueueOk, IndexOk, PoolOk, LedgerOk, LogOk;
    TradeHeadKeepsQueues(b, t);
    TradeHeadKeepsLedger(b, t);
    TradeHeadKeepsLog(b, t);
    TradeHeadKeepsIndex(b, t);
    TradeHeadKeepsTaker(b, t);
  }

  lemma TradeHeadReady(b: Book, t: Taker)
    requires QueueOk(b, t.side.Opposite()) && LedgerOk(b) && CanTrade(b, t) && t.id in b.ledger
    ensures Listed(b, t.side.Opposite(), Queue(b, t.side.Opposite())[0])
    ensures 1 <= t.id <= b.counter && 1 <= Queue(b, t.side.Opposite())[0].id <= b.counter
  {
    assert Listed(b, t.side.Opposite(), Queue(b, t.side.Opposite())[0]);
  }

  lemma TradeHeadKeepsTaker(b: Book, t: Taker)
    requires TakerOk(b, t) && CanTrade(b, t)
    requires Listed(b, t.side.Opposite(), Queue(b, t.side.Opposite())[0])
    ensures TakerOk(TradeHead(b, t), Traded(t, TradeWith(t, Queue(b, t.side.Opposite())[0])))
  {
    TradeHeadKeepsResting(b, t, t.id);
  }

  lemma DropHeadKeepsQueues(b: Book, s: Side)
    requires QueueOk(b, BID) && QueueOk(b, ASK) && Queue(b, s) != []
    ensures QueueOk(DropHead(b, s), BID) && QueueOk(DropHead(b, s), ASK)
  {
    var b', q := DropHead(b, s), Queue(b, s);
    assert Listed(b, s, q[0]);
    assert Queue(b', s) == RemoveAt(q, 0);
    SortedRemove(s, q, 0);
    forall i | 0 <= i < |Queue(b', s)|
      ensures Listed(b', s, Queue(b', s)[i])
    {
      assert Listed(b, s, q[i + 1]) && Ahead(s, q[0], q[i + 1]);
    }
    forall i | 0 <= i < |Queue(b, s.Opposite())|
      ensures Listed(b', s.Opposite(), Queue(b, s.Opposite())[i])
    {
      assert Listed(b, s.Opposite(), Queue(b, s.Opposite())[i]);
    }
    QueueFrame(b, b', s.Opposite());
  }

  lemma DropHeadKeepsIndex(b: Book, s: Side, pending: OrderId)
    requires IndexOk(b, pending) && Queue(b, s) != []
    ensures IndexOk(DropHead(b, s), pending)
  {
  }

  lemma DropHeadKeepsCore(b: Book, capacity: nat, s: Side, pending: OrderId)
    requires Core(b, capacity, pending) && Queue(b, s) != [] && Open(Queue(b, s)[0]) == 0
    ensures Core(DropHead(b, s), capacity, pending)
  {
    hide QueueOk, IndexOk, PoolOk, LedgerOk, LogOk;
    HeadListed(b, s);
    DropHeadKeepsQueues(b, s);
    DropHeadKeepsIndex(b, s, pending);
    PoolGive(b.index, b.free, capacity, Queue(b, s)[0].id);
    DropHeadKeepsHistory(b, s);
  }

  lemma HeadListed(b: Book, s: Side)
    requires QueueOk(b, s) && Queue(b, s) != []
    ensures Listed(b, s, Queue(b, s)[0])
  {
  }

  lemma DropHeadKeepsHistory(b: Book, s: Side)
    requires LedgerOk(b) && LogOk(b) && Queue(b, s) != [] && Open(Queue(b, s)[0]) == 0
    requires Listed(b, s, Queue(b, s)[0])
    ensures LedgerOk(DropHead(b, s)) && LogOk(DropHead(b, s))
  {
    hide VolumeOf, Volume, SideFilled;
  }

  /** Fields no step of a match touches. */
  ghost predicate SameOutsideMatch(b: Book, b': Book) {
    b'.counter == b.counter && b'.clock == b.clock && b'.cancelled == b.cancelled && b'.ticks == b.ticks
  }

  ghost predicate Ready(b: Book, capacity: nat, t: Taker) {
    Core(b, capacity, t.id) && TakerOk(b, t) && AllOpen(b.bids) && AllOpen(b.asks)
  }

  lemma DropHeadKeepsTaker(b: Book, s: Side, t: Taker)
    requires TakerOk(b, t) && s == t.side.Opposite() && Queue(b, s) != [] && QueueOk(b, s)
    ensures TakerOk(DropHead(b, s), t)
  {
    assert Listed(b, s, Queue(b, s)[0]);
  }

  /** The head of a queue only gets worse. */
  lemma MatchStepKeepsUncrossed(b: Book, t: Taker)
    requires CanTrade(b, t) && QueueOk(b, t.side.Opposite()) && Uncrossed(b)
    ensures Uncrossed(MatchStep(b, t).0)
  {
    var q := Queue(b, t.side.Opposite());
    assert |q| > 1 ==> Ahead(t.side.Opposite(), q[0], q[1]);
  }

  lemma MatchStepKeeps(b: Book, capacity: nat, t: Taker)
    requires Ready(b, capacity, t) && CanTrade(b, t)
    ensures Ready(MatchStep(b, t).0, capacity, MatchStep(b, t).1)
  {
    var s := t.side.Opposite();
    var b', t' := TradeHead(b, t), MatchStep(b, t).1;
    TradeHeadKeepsCore(b, capacity, t);
    MatchStepKeepsOpen(b, t);
    if Open(Queue(b', s)[0]) == 0 {
      DropHeadKeepsTaker(b', s, t');
      DropHeadKeepsCore(b', capacity, s, t.id);
    }
  }

  lemma MatchStepKeepsOpen(b: Book, t: Taker)
    requires CanTrade(b, t) && AllOpen(b.bids) && AllOpen(b.asks)
    ensures AllOpen(MatchStep(b, t).0.bids) && AllOpen(MatchStep(b, t).0.asks)
  {
  }

  lemma {:induction false} MatchKeeps(b: Book, capacity: nat, t: Taker)
    requires Ready(b, capacity, t)
    ensures Ready(Match(b, t).0, capacity, Match(b, t).1) && !CanTrade(Match(b, t).0, Match(b, t).1)
    ensures Uncrossed(b) ==> Uncrossed(Match(b, t).0)
    ensures SameOutsideMatch(b, Match(b, t).0) && Queue(Match(b, t).0, t.side) == Queue(b, t.side)
    ensures Match(b, t).1 == t.(filled := Match(b, t).1.filled)
    decreases |Queue(b, t.side.Opposite())|, Left(t)
  {
    hide Core, TakerOk, AllOpen, Uncrossed, MatchStep;
    if CanTrade(b, t) {
      MatchStepKeeps(b, capacity, t);
      MatchStepFrame(b, capacity, t);
      MatchKeeps(MatchStep(b, t).0, capacity, MatchStep(b, t).1);
    }
  }

  /** What a step leaves alone, and that the queue or the demand gets smaller. */
  lemma MatchStepFrame(b: Book, capacity: nat, t: Taker)
    requires Ready(b, capacity, t) && CanTrade(b, t)
    ensures var (b', t') := MatchStep(b, t); var s := t.side.Opposite();
      && SameOutsideMatch(b, b') && Queue(b', t.side) == Queue(b, t.side) && t' == t.(filled := t'.filled)
      && (Uncrossed(b) ==> Uncrossed(b'))
      && (|Queue(b', s)| < |Queue(b, s)| || (|Queue(b', s)| == |Queue(b, s)| && Left(t') < Left(t)))
  {
    hide IndexOk, PoolOk, LedgerOk, LogOk, TakerOk, QueueOk;
    if Uncrossed(b) {
      MatchStepKeepsUncrossed(b, t);
    }
  }

  // ---------------------------------------------------------------- entering and leaving the book

  /** The first free slot gets a new id, and the order waits to be matched. */
  lemma AdmitKeeps(b: Book, capacity: nat, side: Side, otype: OrderType, price: int, qty: nat)
    requires Core(b, capacity, 0) && !Refused(b, otype, price, qty) && qty < QUANTITY_WRAP
    ensures var (b', t) := Admit(b, side, otype, price, qty); Core(b', capacity, t.id) && TakerOk(b', t)
  {
    hide QueueOk, IndexOk, PoolOk, LedgerOk, LogOk;
    AdmitKeepsLedger(b, side, otype, price, qty);
    AdmitKeepsQueue(b, side, otype, price, qty, BID);
    AdmitKeepsQueue(b, side, otype, price, qty, ASK);
    AdmitKeepsIndex(b, side, otype, price, qty);
    PoolTake(b.index, b.free, capacity, b.counter + 1);
  }

  lemma AdmitKeepsIndex(b: Book, side: Side, otype: OrderType, price: int, qty: nat)
    requires IndexOk(b, 0) && LedgerOk(b) && QueueOk(b, side) && b.free != []
    requires !Refused(b, otype, price, qty)
    ensures IndexOk(Admit(b, side, otype, price, qty).0, b.counter + 1) && b.counter + 1 !in b.index
    ensures var (b', t) := Admit(b, side, otype, price, qty); TakerOk(b', t)
  {
  }

  lemma AdmitKeepsQueue(b: Book, side: Side, otype: OrderType, price: int, qty: nat, s: Side)
    requires QueueOk(b, s) && LedgerOk(b) && b.free != []
    ensures QueueOk(Admit(b, side, otype, price, qty).0, s)
  {
  }

  lemma AdmitKeepsLedger(b: Book, side: Side, otype: OrderType, price: int, qty: nat)
    requires LedgerOk(b) && LogOk(b) && b.free != [] && 0 < qty < QUANTITY_WRAP
    ensures LedgerOk(Admit(b, side, otype, price, qty).0) && LogOk(Admit(b, side, otype, price, qty).0)
  {
    NotYetTraded(b, b.counter + 1);
    AdmitKeepsLog(b, side, otype, price, qty);
  }

  lemma AdmitKeepsLog(b: Book, side: Side, otype: OrderType, price: int, qty: nat)
    requires LogOk(b) && b.free != []
    requires forall id :: id in b.ledger <==> 1 <= id <= b.counter
    ensures LogOk(Admit(b, side, otype, price, qty).0)
  {
    var b' := Admit(b, side, otype, price, qty).0;
    SideFilledFrame(b.ledger, b'.ledger, BID, b.counter);
    SideFilledFrame(b.ledger, b'.ledger, ASK, b.counter);
  }

  /** An id that was never accepted names no trade. */
  lemma NotYetTraded(b: Book, id: OrderId)
    requires LogOk(b) && id !in b.ledger
    ensures VolumeOf(b.log, id) == 0
  {
    NoTradeNamesIt(b.log, id);
  }

  lemma {:induction false} NoTradeNamesIt(log: seq<Trade>, id: OrderId)
    requires forall i :: 0 <= i < |log| ==> log[i].maker != id && log[i].taker != id
    ensures VolumeOf(log, id) == 0
  {
    if log != [] {
      NoTradeNamesIt(log[..|log|-1], id);
    }
  }

  lemma CloseKeeps(b: Book, capacity: nat, t: Taker, status: OrderStatus)
    requires Core(b, capacity, t.id) && TakerOk(b, t) && Left(t) > 0
    requires status.CANCELLED? || status.REJECTED?
    ensures Core(Close(b, t.id, t.slot, status), capacity, 0)
  {
    hide QueueOk, IndexOk, PoolOk, LedgerOk, LogOk;
    CloseKeepsIndex(b, t, status);
    PoolGive(b.index, b.free, capacity, t.id);
    CloseKeepsLedger(b, t, status);
    LogFrame(b, Close(b, t.id, t.slot, status));
    CloseKeepsQueue(b, t, status, BID);
    CloseKeepsQueue(b, t, status, ASK);
  }

  lemma CloseKeepsLedger(b: Book, t: Taker, status: OrderStatus)
    requires LedgerOk(b) && TakerOk(b, t) && Left(t) > 0
    requires status.CANCELLED? || status.REJECTED?
    ensures LedgerOk(Close(b, t.id, t.slot, status))
  {
  }

  lemma CloseKeepsIndex(b: Book, t: Taker, status: OrderStatus)
    requires IndexOk(b, t.id)
    ensures IndexOk(Close(b, t.id, t.slot, status), 0)
  {
    var b' := Close(b, t.id, t.slot, status);
    assert forall id :: id in b.ledger && IsResting(b, id) ==> IsResting(b', id);
  }

  lemma CloseKeepsQueue(b: Book, t: Taker, status: OrderStatus, s: Side)
    requires QueueOk(b, s) && TakerOk(b, t)
    ensures QueueOk(Close(b, t.id, t.slot, status), s)
  {
  }

  lemma RestKeeps(b: Book, capacity: nat, t: Taker)
    requires Core(b, capacity, t.id) && TakerOk(b, t) && t.otype.LIMIT?
    ensures Core(Rest(b, t), capacity, 0)
  {
    hide QueueOk, IndexOk, PoolOk, LedgerOk, LogOk;
    RestKeepsQueue(b, t);
    QueueFrameForRest(b, t);
    RestKeepsIndex(b, t);
    HistoryFrame(b, Rest(b, t));
    assert t.side == BID || t.side == ASK;
  }

  lemma RestKeepsQueue(b: Book, t: Taker)
    requires QueueOk(b, t.side) && TakerOk(b, t) && t.otype.LIMIT?
    ensures QueueOk(Rest(b, t), t.side)
  {
    var b', s := Rest(b, t), t.side;
    var q := Queue(b, s);
    var r := Resting(t.id, t.price, t.qty, t.filled, t.slot, b.clock);
    forall i | 0 <= i < |q|
      ensures Listed(b', s, q[i]) && q[i].id != r.id && q[i].stamp < r.stamp
    {
      assert Listed(b, s, q[i]);
    }
    SortedInsert(s, q, r);
  }

  lemma RestKeepsIndex(b: Book, t: Taker)
    requires IndexOk(b, t.id) && TakerOk(b, t)
    ensures IndexOk(Rest(b, t), 0)
  {
    var b', q := Rest(b, t), Queue(b, t.side);
    var r := Resting(t.id, t.price, t.qty, t.filled, t.slot, b.clock);
    forall id | id in b.index && b.ledger[id].status.Active()
      ensures IsResting(b', id)
    {
      if b.ledger[id].side == t.side {
        FindAfterInsert(q, InsertPos(t.side, q, t.price), r, id);
      }
    }
  }

  lemma QueueFrameForRest(b: Book, t: Taker)
    requires QueueOk(b, t.side.Opposite())
    ensures QueueOk(Rest(b, t), t.side.Opposite())
  {
    var s := t.side.Opposite();
    assert forall i :: 0 <= i < |Queue(b, s)| ==> Listed(b, s, Queue(b, s)[i]);
  }

  /** Once filled, the order being matched needs no exception any more. */
  lemma FilledKeeps(b: Book, capacity: nat, t: Taker)
    requires Core(b, capacity, t.id) && TakerOk(b, t) && Left(t) == 0
    ensures Core(b, capacity, 0)
  {
  }

  // ---------------------------------------------------------------- taking a resting order out

  function TakerOf(b: Book, id: OrderId): Taker
    requires id in b.ledger && id in b.index
  {
    var e := b.ledger[id];
    Taker(id, e.side, e.otype, e.price, e.qty, e.filled, b.index[id])
  }

  /** A live order is the one its id finds in its side's queue. */
  lemma LiveIsQueued(b: Book, capacity: nat, id: OrderId)
    requires Core(b, capacity, 0) && Live(b, id)
    ensures var s := b.ledger[id].side; var k := Find(Queue(b, s), id);
      k < |Queue(b, s)| && Listed(b, s, Queue(b, s)[k]) && Queue(b, s)[k].id == id
  {
    assert IsResting(b, id);
  }

  lemma UnqueueKeeps(b: Book, capacity: nat, id: OrderId)
    requires Core(b, capacity, 0) && Live(b, id)
    ensures Core(Unqueue(b, b.ledger[id].side, id), capacity, id)
    ensures TakerOk(Unqueue(b, b.ledger[id].side, id), TakerOf(b, id))
  {
    var s := b.ledger[id].side;
    LiveIsQueued(b, capacity, id);
    UnqueueKeepsQueue(b, s, id);
    QueueFrameForUnqueue(b, s, id);
    UnqueueKeepsIndex(b, s, id);
  }

  lemma UnqueueKeepsQueue(b: Book, s: Side, id: OrderId)
    requires QueueOk(b, s) && Find(Queue(b, s), id) < |Queue(b, s)|
    ensures QueueOk(Unqueue(b, s, id), s)
    ensures forall i :: 0 <= i < |Queue(b, s)| - 1 ==> Queue(Unqueue(b, s, id), s)[i].id != id
  {
    var q, q' := Queue(b, s), Queue(Unqueue(b, s, id), s);
    var k := Find(q, id);
    SortedRemove(s, q, k);
    forall i | 0 <= i < |q'|
      ensures Listed(Unqueue(b, s, id), s, q'[i]) && q'[i].id != id
    {
      var j := if i < k then i else i + 1;
      assert Listed(b, s, q[j]) && (if j < k then Ahead(s, q[j], q[k]) else Ahead(s, q[k], q[j]));
    }
  }

  lemma UnqueueKeepsIndex(b: Book, s: Side, id: OrderId)
    requires IndexOk(b, 0) && Find(Queue(b, s), id) < |Queue(b, s)|
    requires forall i :: i in b.ledger ==> 1 <= i
    ensures IndexOk(Unqueue(b, s, id), id)
  {
    var b', q := Unqueue(b, s, id), Queue(b, s);
    forall i | i in b'.index && b'.ledger[i].status.Active() && i != id
      ensures IsResting(b', i)
    {
      assert IsResting(b, i);
      if b.ledger[i].side == s {
        FindAfterRemove(q, Find(q, id), i);
      }
    }
  }

  lemma QueueFrameForUnqueue(b: Book, s: Side, id: OrderId)
    requires QueueOk(b, s.Opposite())
    ensures QueueOk(Unqueue(b, s, id), s.Opposite())
  {
    assert forall i :: 0 <= i < |Queue(b, s.Opposite())| ==> Listed(b, s.Opposite(), Queue(b, s.Opposite())[i]);
  }

  lemma SetQtyKeeps(b: Book, capacity: nat, t: Taker, qty: nat)
    requires Core(b, capacity, t.id) && TakerOk(b, t) && t.filled < qty < QUANTITY_WRAP && Left(t) > 0
    ensures Core(b.(ledger := SetQty(b.ledger, t.id, qty)), capacity, t.id)
    ensures TakerOk(b.(ledger := SetQty(b.ledger, t.id, qty)), t.(qty := qty))
  {
    var b' := b.(ledger := SetQty(b.ledger, t.id, qty));
    SetQtyKeepsLedger(b, t, qty);
    LogFrame(b, b');
    SetQtyKeepsIndex(b, t, qty);
    SetQtyKeepsQueue(b, t, qty, BID);
    SetQtyKeepsQueue(b, t, qty, ASK);
  }

  lemma SetQtyKeepsLedger(b: Book, t: Taker, qty: nat)
    requires LedgerOk(b) && TakerOk(b, t) && t.filled < qty < QUANTITY_WRAP && Left(t) > 0
    ensures LedgerOk(b.(ledger := SetQty(b.ledger, t.id, qty)))
  {
  }

  lemma SetQtyKeepsIndex(b: Book, t: Taker, qty: nat)
    requires IndexOk(b, t.id)
    ensures IndexOk(b.(ledger := SetQty(b.ledger, t.id, qty)), t.id)
  {
    var b' := b.(ledger := SetQty(b.ledger, t.id, qty));
    assert forall id :: id in b.ledger && IsResting(b, id) ==> IsResting(b', id);
  }

  lemma SetQtyKeepsQueue(b: Book, t: Taker, qty: nat, s: Side)
    requires QueueOk(b, s) && TakerOk(b, t)
    ensures QueueOk(b.(ledger := SetQty(b.ledger, t.id, qty)), s)
  {
  }

  lemma AmendDownKeeps(b: Book, capacity: nat, id: OrderId, qty: nat)
    requires Core(b, capacity, 0) && Live(b, id) && b.ledger[id].filled < qty <= b.ledger[id].qty
    ensures Core(AmendDown(b, id, qty), capacity, 0)
  {
    hide QueueOk, IndexOk, PoolOk, LedgerOk, LogOk;
    AmendDownKeepsQueues(b, capacity, id, qty);
    AmendDownKeepsLedger(b, id, qty);
    LogFrame(b, AmendDown(b, id, qty));
    AmendDownKeepsIndex(b, id, qty);
  }

  lemma AmendDownKeepsLedger(b: Book, id: OrderId, qty: nat)
    requires LedgerOk(b) && Live(b, id) && b.ledger[id].filled < qty <= b.ledger[id].qty
    ensures LedgerOk(AmendDown(b, id, qty))
  {
  }

  lemma AmendDownKeepsIndex(b: Book, id: OrderId, qty: nat)
    requires IndexOk(b, 0) && Live(b, id)
    ensures IndexOk(AmendDown(b, id, qty), 0)
  {
    var b' := AmendDown(b, id, qty);
    forall i | i in b.ledger && IsResting(b, i)
      ensures IsResting(b', i)
    {
      var p := Find(Queue(b, b.ledger[i].side), i);
      assert Queue(b', b.ledger[i].side)[p].id == i;
    }
  }

  lemma AmendDownKeepsQueues(b: Book, capacity: nat, id: OrderId, qty: nat)
    requires Core(b, capacity, 0) && Live(b, id) && b.ledger[id].filled < qty <= b.ledger[id].qty
    ensures QueueOk(AmendDown(b, id, qty), BID) && QueueOk(AmendDown(b, id, qty), ASK)
  {
    hide IndexOk, PoolOk, LedgerOk, LogOk;
    var s, b' := b.ledger[id].side, AmendDown(b, id, qty);
    var q, k := Queue(b, s), Find(Queue(b, s), id);
    LiveIsQueued(b, capacity, id);
    SortedUpdate(s, q, k, q[k].(qty := qty));
    forall i | 0 <= i < |q|
      ensures Listed(b', s, Queue(b', s)[i])
    {
      assert Listed(b, s, q[i]);
      if i != k {
        assert if i < k then Ahead(s, q[i], q[k]) else Ahead(s, q[k], q[i]);
      }
    }
    forall i | 0 <= i < |Queue(b, s.Opposite())|
      ensures Listed(b', s.Opposite(), Queue(b, s.Opposite())[i])
    {
      assert Listed(b, s.Opposite(), Queue(b, s.Opposite())[i]);
    }
    QueueFrame(b, b', s.Opposite());
  }
}
