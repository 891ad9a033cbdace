/** What matching computes: the greedy fill of the flat queue, what an accepted order does to the book, and price-time priority. */
module MatchTheorems {
  import opened OrderTypes
  import opened PriceTimeQueue
  import opened BookSpec
  import opened BookInvariant
  import opened BookRuns

  // ---------------------------------------------------------------- matching is the greedy fill

  /** The slots of exhausted makers, the last one first, as they end up on the free list. */
  function Returned(q: seq<Resting>): seq<nat> {
    if q == [] then [] else Returned(q[1..]) + [q[0].slot]
  }

  function Ids(q: seq<Resting>): set<OrderId> {
    set r | r in q :: r.id
  }

  lemma MatchStepFill(b: Book, t: Taker)
    requires CanTrade(b, t) && AllOpen(Queue(b, t.side.Opposite()))
    ensures var s := t.side.Opposite(); var q := Queue(b, s); var f := TradeWith(t, q[0]);
            var (b', t') := MatchStep(b, t);
      && t' == Traded(t, f) && f > 0 && Queue(b', t.side) == Queue(b, t.side)
      && b'.log == b.log + [Trade(q[0].id, t.id, q[0].price, f)]
      && (if f == Open(q[0])
          then Queue(b', s) == q[1..] && b'.index == b.index - {q[0].id} && b'.free == [q[0].slot] + b.free
          else Queue(b', s) == [Dent(q[0], f)] + q[1..] && b'.index == b.index && b'.free == b.free && Left(t') == 0)
  {
  }

  lemma ReturnedPop(q: seq<Resting>, n: nat)
    requires 0 < n <= |q|
    ensures Returned(q[..n]) == Returned(q[1..][..n-1]) + [q[0].slot]
    ensures Ids(q[..n]) == {q[0].id} + Ids(q[1..][..n-1])
  {
    assert q[..n][1..] == q[1..][..n-1];
    assert q[..n] == [q[0]] + q[1..][..n-1];
  }

  /** What is left of the book when the fill `r` of the queue on `s` is done. */
  ghost predicate Filled(b: Book, s: Side, r: FillResult, b': Book) {
    var q := Queue(b, s);
    && |r.rest| <= |q|
    && Queue(b', s) == r.rest && Queue(b', s.Opposite()) == Queue(b, s.Opposite())
    && b'.log == b.log + r.trades
    && b'.index == b.index - Ids(q[..|q| - |r.rest|])
    && b'.free == Returned(q[..|q| - |r.rest|]) + b.free
  }

  lemma FilledPop(b: Book, s: Side, b1: Book, r: FillResult, b': Book, trade: Trade)
    requires Queue(b, s) != [] && Queue(b1, s) == Queue(b, s)[1..] && Queue(b1, s.Opposite()) == Queue(b, s.Opposite())
    requires b1.log == b.log + [trade] && b1.index == b.index - {Queue(b, s)[0].id}
    requires b1.free == [Queue(b, s)[0].slot] + b.free
    requires Filled(b1, s, r, b')
    ensures Filled(b, s, r.(trades := [trade] + r.trades), b')
  {
    var q := Queue(b, s);
    var n := |q| - |r.rest|;
    ReturnedPop(q, n);
    hide Ids, Returned;
    assert b.log + ([trade] + r.trades) == b1.log + r.trades;
    assert b.index - Ids(q[..n]) == b1.index - Ids(q[1..][..n-1]);
    assert Returned(q[1..][..n-1]) + b1.free == Returned(q[..n]) + b.free;
  }

  lemma FilledNothing(b: Book, s: Side, r: FillResult, b': Book)
    requires |r.rest| == |Queue(b, s)| && Queue(b', s) == r.rest
    requires Queue(b', s.Opposite()) == Queue(b, s.Opposite())
    requires b'.log == b.log + r.trades && b'.index == b.index && b'.free == b.free
    ensures Filled(b, s, r, b')
  {
    assert Queue(b, s)[..0] == [] && Ids([]) == {};
  }

  /**
   The step-by-step match of a taker is the greedy fill of the flat opposing queue: the same
   trades in the same order, the same remaining queue, the same unfilled rest; exhausted makers
   leave the index and their slots come back in last-out order.
   */
  lemma {:induction false} MatchIsFill(b: Book, t: Taker)
    requires AllOpen(Queue(b, t.side.Opposite()))
    ensures Filled(b, t.side.Opposite(), Fill(Queue(b, t.side.Opposite()), t), Match(b, t).0)
    ensures Left(Match(b, t).1) == Fill(Queue(b, t.side.Opposite()), t).left
    decreases |Queue(b, t.side.Opposite())|, Left(t)
  {
    hide Filled, MatchStep;
    var s := t.side.Opposite();
    var q, r := Queue(b, s), Fill(Queue(b, s), t);
    if !CanTrade(b, t) {
      FilledNothing(b, s, r, b);
    } else {
      MatchStepFill(b, t);
      var (b1, t1) := MatchStep(b, t);
      if TradeWith(t, q[0]) == Open(q[0]) {
        MatchIsFill(b1, t1);
        FilledPop(b, s, b1, Fill(q[1..], t1), Match(b1, t1).0, r.trades[0]);
      } else {
        FilledNothing(b, s, r, b1);
      }
    }
  }

  // ---------------------------------------------------------------- one accepted order

  /** The fill that a taker makes of the opposing queue. */
  function Sweep(b: Book, t: Taker): FillResult {
    Fill(Queue(b, t.side.Opposite()), t)
  }

  /** How an order that was matched ends the call. */
  function FinalStatus(t: Taker, left: nat): OrderStatus {
    if left == 0 then FILLED
    else if !t.otype.LIMIT? then CANCELLED
    else if left == t.qty then NEW else PARTIAL
  }

  /** The taker's slot and id leave the book only when its residual is cancelled. */
  predicate Dropped(t: Taker, left: nat) {
    left > 0 && !t.otype.LIMIT?
  }

  /** The opposing side and the trade log after a sweep. */
  ghost predicate Swept(b: Book, t: Taker, b': Book) {
    && Waterfall(Queue(b, t.side.Opposite()), t, Sweep(b, t))
    && b'.log == b.log + Sweep(b, t).trades
    && Queue(b', t.side.Opposite()) == Sweep(b, t).rest
  }

  /** The taker's record says what it left. */
  predicate Recorded(t: Taker, left: nat, b': Book) {
    && left <= t.qty && t.id in b'.ledger
    && b'.ledger[t.id] == Entry(t.side, t.otype, t.price, t.qty, t.qty - left, FinalStatus(t, left))
  }

  /** What a LIMIT leaves rests at the back of its level; nothing else joins the taker's side. */
  predicate Joined(b: Book, t: Taker, left: nat, b': Book) {
    left <= t.qty &&
    Queue(b', t.side) == (
      if left == 0 || Dropped(t, left) then Queue(b, t.side)
      else Insert(t.side, Queue(b, t.side), Resting(t.id, t.price, t.qty, t.qty - left, t.slot, b.clock)))
  }

  /** The orders `gone` and a dropped taker leave the index; their slots go back, the last one on top. */
  predicate Reclaimed(b: Book, t: Taker, left: nat, gone: seq<Resting>, b': Book) {
    && b'.index == b.index - Ids(gone) - (if Dropped(t, left) then {t.id} else {})
    && b'.free == (if Dropped(t, left) then [t.slot] else []) + (Returned(gone) + b.free)
    && b'.counter == b.counter
  }

  function Exhausted(b: Book, t: Taker): seq<Resting>
    requires |Sweep(b, t).rest| <= |Queue(b, t.side.Opposite())|
  {
    var q := Queue(b, t.side.Opposite());
    q[..|q| - |Sweep(b, t).rest|]
  }

  /**
   An admitted order that passed the pre-check: it fills the opposing queue as the waterfall says,
   its residual rests or is dropped, and a filled order stays indexed.
   */
  ghost predicate Executed(b: Book, t: Taker, b': Book) {
    var left := Sweep(b, t).left;
    && Swept(b, t, b') && Recorded(t, left, b') && Joined(b, t, left, b')
    && |Sweep(b, t).rest| <= |Queue(b, t.side.Opposite())|
    && Reclaimed(b, t, left, Exhausted(b, t), b')
  }

  lemma SettleRecords(b: Book, t: Taker)
    requires TakerOk(b, t) && EntryOk(b.ledger[t.id])
    ensures Recorded(t, Left(t), Publish(Settle(b, t)))
  {
  }

  lemma SettleJoins(b: Book, t: Taker)
    requires t.filled <= t.qty
    ensures Joined(b, t, Left(t), Publish(Settle(b, t)))
    ensures Publish(Settle(b, t)).log == b.log
    ensures Queue(Publish(Settle(b, t)), t.side.Opposite()) == Queue(b, t.side.Opposite())
  {
    hide Insert;
  }

  lemma SettleReclaims(b: Book, t: Taker)
    ensures Reclaimed(b, t, Left(t), [], Publish(Settle(b, t)))
  {
    hide Insert;
    assert b.index - Ids([]) == b.index && b.index - {} == b.index && Returned([]) + b.free == b.free;
  }

  lemma ReclaimedInTwo(b: Book, t: Taker, left: nat, gone: seq<Resting>, bm: Book, b': Book)
    requires bm.index == b.index - Ids(gone) && bm.free == Returned(gone) + b.free && bm.counter == b.counter
    requires Reclaimed(bm, t, left, [], b')
    ensures Reclaimed(b, t, left, gone, b')
  {
    assert bm.index - Ids([]) == bm.index && Returned([]) + bm.free == bm.free;
  }

  /** What a match leaves alone, and how the taker still agrees with its record. */
  lemma MatchTaker(b: Book, capacity: nat, t: Taker)
    requires Ready(b, capacity, t)
    ensures var (bm, tm) := Match(b, t);
      && tm == t.(filled := tm.filled) && tm.filled <= tm.qty && TakerOk(bm, tm) && EntryOk(bm.ledger[tm.id])
      && bm.counter == b.counter && bm.clock == b.clock && Queue(bm, t.side) == Queue(b, t.side)
    ensures AllOpen(Queue(b, t.side.Opposite()))
  {
    MatchKeeps(b, capacity, t);
    hide Match;
  }

  /** Restating a settled match in terms of the taker as it came in. */
  lemma SettledMatch(b: Book, t: Taker, bm: Book, tm: Taker, b': Book)
    requires tm == t.(filled := tm.filled) && Queue(bm, t.side) == Queue(b, t.side) && bm.clock == b.clock
    requires Recorded(tm, Left(tm), b') && Joined(bm, tm, Left(tm), b') && Reclaimed(bm, tm, Left(tm), [], b')
    ensures Recorded(t, Left(tm), b') && Joined(b, t, Left(tm), b') && Reclaimed(bm, t, Left(tm), [], b')
  {
    hide Insert, Ids, Returned;
  }

  lemma MatchOrderExecutes(b: Book, capacity: nat, t: Taker)
    requires Ready(b, capacity, t) && !FokRejected(b, t) && t.filled == 0
    ensures Executed(b, t, MatchOrder(b, t))
  {
    hide Ready, Settle, Publish, Waterfall, Ids, Returned, Match, Fill, TakerOk, Recorded, Joined, Reclaimed, EntryOk;
    MatchTaker(b, capacity, t);
    var (bm, tm) := Match(b, t);
    MatchIsFill(b, t);
    FillIsWaterfall(Queue(b, t.side.Opposite()), t);
    SettleRecords(bm, tm);
    SettleJoins(bm, tm);
    SettleReclaims(bm, tm);
    SettledMatch(b, t, bm, tm, Publish(Settle(bm, tm)));
    ReclaimedInTwo(b, t, Left(tm), Exhausted(b, t), bm, Publish(Settle(bm, tm)));
  }

  lemma AdmittedReady(b: Book, capacity: nat, side: Side, otype: OrderType, price: int, qty: nat)
    requires Inv(b, capacity) && !Refused(b, otype, price, qty) && qty < QUANTITY_WRAP
    ensures var (b1, t) := Admit(b, side, otype, price, qty); Ready(b1, capacity, t) && t.id !in b.ledger
  {
    hide QueueOk, IndexOk, PoolOk, LogOk, TakerOk;
    AdmitKeeps(b, capacity, side, otype, price, qty);
  }

  /**
   An accepted order either fails the fill-or-kill pre-check and is closed untraded, or fills the
   opposing queue exactly as the closed form of the greedy fill says.
   */
  lemma AddExecutes(b: Book, capacity: nat, side: Side, otype: OrderType, price: int, qty: nat)
    requires Inv(b, capacity) && !Refused(b, otype, price, qty) && qty < QUANTITY_WRAP
    ensures var (b1, t) := Admit(b, side, otype, price, qty); var b' := AddOrder(b, side, otype, price, qty).0;
            if FokRejected(b, t) then b' == Close(b1, t.id, t.slot, REJECTED) else Executed(b1, t, b')
  {
    AdmittedReady(b, capacity, side, otype, price, qty);
    var (b1, t) := Admit(b, side, otype, price, qty);
    hide Ready, Waterfall, FokAccepts, Fill, Inv, Match, Settle, Publish;
    if !FokRejected(b1, t) {
      MatchOrderExecutes(b1, capacity, t);
    }
  }

  lemma RefusedUnchanged(b: Book, side: Side, otype: OrderType, price: int, qty: nat)
    requires Refused(b, otype, price, qty)
    ensures AddOrder(b, side, otype, price, qty) == (b, 0)
  {
  }

  /** A LIMIT that reaches no opposing order just joins its own queue. */
  lemma QuietAdd(b: Book, side: Side, price: int, qty: nat)
    requires !Refused(b, LIMIT, price, qty)
    requires var q := Queue(b, side.Opposite()); q != [] ==> !Reaches(side, price, q[0].price)
    ensures var (b1, t) := Admit(b, side, LIMIT, price, qty);
            AddOrder(b, side, LIMIT, price, qty) == (Publish(Rest(b1, t)), b.counter + 1)
  {
    hide Publish, Rest;
    var (b1, t) := Admit(b, side, LIMIT, price, qty);
    assert !CanTrade(b1, t);
  }

  // ---------------------------------------------------------------- price-time priority

  /**
   Trade `i` of a sweep over `q` that leaves `rest`: the maker is the order at position `i`, and
   every order with priority over it was exhausted by an earlier trade and no longer rests.
   */
  ghost predicate HadPriority(s: Side, q: seq<Resting>, trades: seq<Trade>, rest: seq<Resting>, i: nat)
    requires i < |trades|
  {
    && i < |q| && trades[i].maker == q[i].id && trades[i].price == q[i].price
    && forall j :: 0 <= j < |q| && Prior(s, q[j], q[i]) ==>
         && j < i && trades[j].maker == q[j].id && trades[j].qty == Open(q[j])
         && forall k :: 0 <= k < |rest| ==> rest[k].id != q[j].id
  }

  lemma {:induction false} SumPrefix(q: seq<Resting>, i: nat, j: nat)
    requires i <= j <= |q|
    ensures Sum(q[..i]) <= Sum(q[..j])
  {
    assert q[..j] == q[..i] + q[i..j];
    SumConcat(q[..i], q[i..j]);
  }

  lemma SweepHasPriority(s: Side, q: seq<Resting>, t: Taker, r: FillResult, i: nat)
    requires Sorted(s, q) && AllOpen(q) && Waterfall(q, t, r) && i < |r.trades|
    ensures HadPriority(s, q, r.trades, r.rest, i)
  {
    var d, x := Depth(q, t), Left(t);
    forall j | 0 <= j < |q| && Prior(s, q[j], q[i])
      ensures j < i && r.trades[j].maker == q[j].id && r.trades[j].qty == Open(q[j])
      ensures forall k :: 0 <= k < |r.rest| ==> r.rest[k].id != q[j].id
    {
      assert i < j ==> Ahead(s, q[i], q[j]);
      assert j < i;
      assert Alloc(q, d, x, i) > 0 && Alloc(q, d, x, j) == Open(q[j]) by {
        SumPrefix(q, j + 1, i);
        SumSplit(q, j);
      }
      var gone := |q| - |r.rest|;
      assert j < gone;
      forall k | 0 <= k < |r.rest|
        ensures r.rest[k].id != q[j].id
      {
        assert Ahead(s, q[j], q[k + gone]);
      }
    }
  }

  /** Every new trade between two states of the book had priority on side `s`. */
  ghost predicate PriorityKept(b: Book, b': Book, s: Side) {
    && b.log <= b'.log
    && forall i :: 0 <= i < |b'.log| - |b.log| ==>
         HadPriority(s, Queue(b, s), b'.log[|b.log|..], Queue(b', s), i)
  }

  /**
   Price-time priority of one operation, for all four order types: a trade never uses a maker
   while an order with a better price, or an earlier stamp at the same price, is still open.
   */
  lemma StepHasPriority(b: Book, capacity: nat, c: Command)
    requires Inv(b, capacity)
    ensures if c.Add? then PriorityKept(b, Step(b, c), c.side.Opposite()) else Step(b, c).log == b.log
  {
    hide Inv, PriorityKept, MatchOrder, Insert, RemoveAt, TopOfBook;
    if c.Add? {
      if Refused(b, c.otype, c.price, c.qty) {
        NothingTraded(b, c.side.Opposite());
      } else {
        AddHasPriority(b, capacity, c.side, c.otype, c.price, c.qty);
      }
    }
  }

  lemma NothingTraded(b: Book, s: Side)
    ensures PriorityKept(b, b, s)
  {
  }

  lemma SweptHasPriority(b: Book, t: Taker, b': Book)
    requires Swept(b, t, b') && Sorted(t.side.Opposite(), Queue(b, t.side.Opposite()))
    requires AllOpen(Queue(b, t.side.Opposite()))
    ensures PriorityKept(b, b', t.side.Opposite())
  {
    hide Waterfall, HadPriority, Fill, Sorted;
    var s, r := t.side.Opposite(), Sweep(b, t);
    assert b'.log[|b.log|..] == r.trades;
    forall i | 0 <= i < |r.trades|
      ensures HadPriority(s, Queue(b, s), r.trades, r.rest, i)
    {
      SweepHasPriority(s, Queue(b, s), t, r, i);
    }
  }

  lemma AddHasPriority(b: Book, capacity: nat, side: Side, otype: OrderType, price: int, qty: nat)
    requires Inv(b, capacity) && !Refused(b, otype, price, qty) && qty < QUANTITY_WRAP
    ensures PriorityKept(b, AddOrder(b, side, otype, price, qty).0, side.Opposite())
  {
    hide AddOrder, IndexOk, PoolOk, LedgerOk, LogOk, Swept, Recorded, Joined, Reclaimed, FokAccepts, Sorted, HadPriority;
    AddExecutes(b, capacity, side, otype, price, qty);
    var (b1, t) := Admit(b, side, otype, price, qty);
    if !FokRejected(b, t) {
      SweptHasPriority(b1, t, AddOrder(b, side, otype, price, qty).0);
    }
  }

  /** Trade `i` of the run was made by command `n`, with priority over the book before it. */
  ghost predicate MadeBy(capacity: nat, cs: seq<Command>, i: nat, n: nat)
    requires n < |cs|
  {
    var b, b' := Run(Init(capacity), cs[..n]), Run(Init(capacity), cs[..n+1]);
    && cs[n].Add? && |b.log| <= i < |b'.log| <= |Run(Init(capacity), cs).log|
    && b'.log[i] == Run(Init(capacity), cs).log[i]
    && HadPriority(cs[n].side.Opposite(), Queue(b, cs[n].side.Opposite()), b'.log[|b.log|..],
                   Queue(b', cs[n].side.Opposite()), i - |b.log|)
  }

  /** Price-time priority of every trade of every run. */
  lemma {:induction false} RunHasPriority(capacity: nat, cs: seq<Command>, i: nat)
    requires i < |Run(Init(capacity), cs).log|
    ensures exists n :: 0 <= n < |cs| && MadeBy(capacity, cs, i, n)
  {
    hide HadPriority, Step, Inv, Queue;
    if cs != [] {
      var m := |cs| - 1;
      var b := Run(Init(capacity), cs[..m]);
      ReachableInv(capacity, cs[..m]);
      StepHasPriority(b, capacity, cs[m]);
      assert cs[..m+1] == cs;
      if i < |b.log| {
        RunHasPriority(capacity, cs[..m], i);
        var n :| 0 <= n < m && MadeBy(capacity, cs[..m], i, n);
        assert cs[..m][..n] == cs[..n] && cs[..m][..n+1] == cs[..n+1];
        assert MadeBy(capacity, cs, i, n);
      } else {
        assert MadeBy(capacity, cs, i, m);
      }
    }
  }
}
