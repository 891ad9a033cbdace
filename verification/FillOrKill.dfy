/**
 Fill-or-kill. The match loops never look at the price of such an order and the pre-check adds
 cached 32-bit aggregates; together they still keep it all-or-nothing within its limit.
 */
module FillOrKill {
  import opened OrderTypes
  import opened PriceTimeQueue
  import opened BookSpec
  import opened BookInvariant
  import opened BookLaws
  import opened MatchTheorems

  lemma {:induction false} CumDepthNone(s: Side, q: seq<Resting>, p: int)
    requires forall i :: 0 <= i < |q| ==> Better(s, p, q[i].price)
    ensures CumDepth(s, q, p) == 0
  {
    if q != [] {
      CumDepthNone(s, q[1..], p);
    }
  }

  /** In a sorted queue the orders at `p` or better come first. */
  lemma {:induction false} CumDepthIsPrefix(s: Side, q: seq<Resting>, p: int)
    requires Sorted(s, q)
    ensures CumDepth(s, q, p) == Sum(q[..InsertPos(s, q, p)])
  {
    if q == [] {
    } else if Better(s, p, q[0].price) {
      forall i | 0 <= i < |q|
        ensures Better(s, p, q[i].price)
      {
        assert i > 0 ==> Ahead(s, q[0], q[i]);
      }
      CumDepthNone(s, q, p);
    } else {
      SortedTail(s, q);
      CumDepthIsPrefix(s, q[1..], p);
      var k := InsertPos(s, q[1..], p);
      assert q[..k+1][1..] == q[1..][..k];
    }
  }

  lemma SortedTail(s: Side, q: seq<Resting>)
    requires Sorted(s, q) && q != []
    ensures Sorted(s, q[1..])
  {
    assert q[1..] == RemoveAt(q, 0);
    SortedRemove(s, q, 0);
  }

  /** A price that is no better covers a longer prefix. */
  lemma CumDepthMonotone(s: Side, q: seq<Resting>, p: int, p': int)
    requires Sorted(s, q) && !Better(s, p', p)
    ensures InsertPos(s, q, p) <= InsertPos(s, q, p')
    ensures CumDepth(s, q, p) <= CumDepth(s, q, p')
  {
    CumDepthIsPrefix(s, q, p);
    CumDepthIsPrefix(s, q, p');
    SumPrefix(q, InsertPos(s, q, p), InsertPos(s, q, p'));
  }

  /** What the opposing side truly holds within the taker's limit. */
  function Fillable(q: seq<Resting>, t: Taker): nat {
    CumDepth(t.side.Opposite(), q, t.price)
  }

  /** The order at the last position within the limit: its price covers everything fillable. */
  lemma LastReached(q: seq<Resting>, t: Taker)
    requires Sorted(t.side.Opposite(), q) && InsertPos(t.side.Opposite(), q, t.price) > 0
    ensures var s := t.side.Opposite(); var k := InsertPos(s, q, t.price) - 1;
      Reaches(t.side, t.price, q[k].price) && CumDepth(s, q, q[k].price) == Fillable(q, t)
  {
    var s := t.side.Opposite();
    var d := InsertPos(s, q, t.price);
    forall i | 0 <= i < d
      ensures !Better(s, q[d-1].price, q[i].price)
    {
      assert i < d - 1 ==> Ahead(s, q[i], q[d-1]);
    }
    InsertPosUnique(s, q, q[d-1].price, d);
    CumDepthIsPrefix(s, q, q[d-1].price);
    CumDepthIsPrefix(s, q, t.price);
  }

  /** The true depth at the price of order `k`, which is within the limit, suffices. */
  predicate Suffices(q: seq<Resting>, t: Taker, k: nat) {
    k < |q| && Reaches(t.side, t.price, q[k].price) && CumDepth(t.side.Opposite(), q, q[k].price) >= t.qty
  }

  /** Acceptance is never wrong. */
  lemma FokAcceptsOnlyFillable(q: seq<Resting>, t: Taker)
    requires Sorted(t.side.Opposite(), q) && FokAccepts(q, t)
    ensures Fillable(q, t) >= t.qty
  {
    hide CumDepth, Sorted;
    var k :| 0 <= k < |q| && Reaches(t.side, t.price, q[k].price)
             && Wrap(CumDepth(t.side.Opposite(), q, q[k].price)) >= t.qty;
    CumDepthMonotone(t.side.Opposite(), q, q[k].price, t.price);
  }

  /** A fillable order is fillable at some price it reaches. */
  lemma FillableSuffices(q: seq<Resting>, t: Taker) returns (k: nat)
    requires Sorted(t.side.Opposite(), q) && 0 < t.qty <= Fillable(q, t)
    ensures Suffices(q, t, k) && CumDepth(t.side.Opposite(), q, q[k].price) == Fillable(q, t)
  {
    var d := InsertPos(t.side.Opposite(), q, t.price);
    CumDepthIsPrefix(t.side.Opposite(), q, t.price);
    assert q[..0] == [];
    LastReached(q, t);
    k := d - 1;
  }

  /**
   The true depth at the price of order `k`, which is within the limit, is at least the quantity
   beyond `m` whole wraps, and short of the next wrap.
   */
  predicate InWindow(q: seq<Resting>, t: Taker, k: nat, m: nat) {
    && k < |q| && Reaches(t.side, t.price, q[k].price)
    && m * QUANTITY_WRAP + t.qty <= CumDepth(t.side.Opposite(), q, q[k].price) < (m + 1) * QUANTITY_WRAP
  }

  lemma WrapWindow(x: nat, m: nat, want: nat)
    requires m * QUANTITY_WRAP + want <= x < (m + 1) * QUANTITY_WRAP
    ensures Wrap(x) >= want
  {
  }

  /**
   The exact decision in terms of true depths: the pre-check accepts if and only if, at some price
   within the limit, the depth lies in a window [m 2^32 + qty, (m + 1) 2^32).
   */
  lemma FokWindows(q: seq<Resting>, t: Taker)
    ensures FokAccepts(q, t) <==> exists k: nat, m: nat :: InWindow(q, t, k, m)
  {
    hide CumDepth, Wrap;
    if FokAccepts(q, t) {
      var k :| 0 <= k < |q| && Reaches(t.side, t.price, q[k].price)
               && Wrap(CumDepth(t.side.Opposite(), q, q[k].price)) >= t.qty;
      WrapParts(CumDepth(t.side.Opposite(), q, q[k].price));
      assert InWindow(q, t, k, CumDepth(t.side.Opposite(), q, q[k].price) / QUANTITY_WRAP);
    }
    if k: nat, m: nat :| InWindow(q, t, k, m) {
      WrapWindow(CumDepth(t.side.Opposite(), q, q[k].price), m, t.qty);
    }
  }

  lemma WrapParts(x: nat)
    ensures x == x / QUANTITY_WRAP * QUANTITY_WRAP + Wrap(x)
  {
  }

  /** The first window: enough, and not wrapped yet. */
  lemma SufficesUnwrapped(q: seq<Resting>, t: Taker, k: nat)
    requires Suffices(q, t, k) && CumDepth(t.side.Opposite(), q, q[k].price) < QUANTITY_WRAP
    ensures FokAccepts(q, t)
  {
    hide CumDepth;
    WrapSmall(CumDepth(t.side.Opposite(), q, q[k].price));
  }

  /** Going from one price to the next adds no more than what rests at the next. */
  lemma {:induction false} CumDepthNext(s: Side, q: seq<Resting>, p: int, p': int)
    requires forall i :: 0 <= i < |q| ==> Better(s, p', q[i].price) || q[i].price == p' || !Better(s, p, q[i].price)
    ensures CumDepth(s, q, p') <= CumDepth(s, q, p) + SumAt(q, p')
  {
    if q != [] {
      CumDepthNext(s, q[1..], p, p');
    }
  }

  /** The first order at which the depth suffices. */
  lemma {:induction false} FirstSuffices(q: seq<Resting>, t: Taker, k: nat) returns (j: nat)
    requires Suffices(q, t, k)
    ensures Suffices(q, t, j) && (j == 0 || !Suffices(q, t, j - 1))
    decreases k
  {
    if k > 0 && Suffices(q, t, k - 1) {
      j := FirstSuffices(q, t, k - 1);
    } else {
      j := k;
    }
  }

  /** The price that completes the depth holds more than the excess of the depth there over the quantity. */
  lemma CompletingPrice(q: seq<Resting>, t: Taker, j: nat)
    requires Sorted(t.side.Opposite(), q) && Suffices(q, t, j) && (j == 0 || !Suffices(q, t, j - 1)) && t.qty > 0
    ensures CumDepth(t.side.Opposite(), q, q[j].price) < t.qty + SumAt(q, q[j].price)
  {
    hide CumDepth;
    var s := t.side.Opposite();
    if j == 0 {
      forall i | 0 <= i < |q|
        ensures !Better(s, q[i].price, q[0].price)
      {
        assert i > 0 ==> Ahead(s, q[0], q[i]);
      }
      CumDepthAtBest(s, q, q[0].price);
    } else {
      assert Ahead(s, q[j-1], q[j]);
      forall i | 0 <= i < |q|
        ensures Better(s, q[j].price, q[i].price) || q[i].price == q[j].price || !Better(s, q[j-1].price, q[i].price)
      {
        assert i < j - 1 ==> Ahead(s, q[i], q[j-1]);
        assert i > j ==> Ahead(s, q[j], q[i]);
      }
      CumDepthNext(s, q, q[j-1].price, q[j].price);
    }
  }

  /** No single price within the limit holds more than 2^32 - qty open units. */
  ghost predicate NoHugeLevel(q: seq<Resting>, t: Taker) {
    forall k :: 0 <= k < |q| && Reaches(t.side, t.price, q[k].price) ==>
      SumAt(q, q[k].price) <= QUANTITY_WRAP - t.qty
  }

  /**
   The pre-check against the truth. Acceptance is never wrong. Rejection is right too as soon as
   some price within the limit has a sufficient depth below 2^32, and so whenever no single price
   within the limit holds more than 2^32 - qty units, however deep the side is. In general the
   pre-check is right exactly on unfillable orders and where some true depth lies in a window.
   */
  lemma FokDecision(q: seq<Resting>, t: Taker)
    requires Sorted(t.side.Opposite(), q) && 0 < t.qty < QUANTITY_WRAP
    ensures FokAccepts(q, t) ==> Fillable(q, t) >= t.qty
    ensures forall k: nat :: Suffices(q, t, k) && CumDepth(t.side.Opposite(), q, q[k].price) < QUANTITY_WRAP ==> FokAccepts(q, t)
    ensures NoHugeLevel(q, t) ==> (FokAccepts(q, t) <==> Fillable(q, t) >= t.qty)
    ensures (FokAccepts(q, t) <==> Fillable(q, t) >= t.qty)
            <==> (Fillable(q, t) < t.qty || exists k: nat, m: nat :: InWindow(q, t, k, m))
    ensures Fillable(q, t) < QUANTITY_WRAP ==> (FokAccepts(q, t) <==> Fillable(q, t) >= t.qty)
  {
    hide CumDepth, Sorted, Fillable, FokAccepts, SumAt, InWindow;
    FokWindows(q, t);
    if FokAccepts(q, t) {
      FokAcceptsOnlyFillable(q, t);
    }
    forall k: nat | Suffices(q, t, k) && CumDepth(t.side.Opposite(), q, q[k].price) < QUANTITY_WRAP
      ensures FokAccepts(q, t)
    {
      SufficesUnwrapped(q, t, k);
    }
    if Fillable(q, t) >= t.qty {
      var k := FillableSuffices(q, t);
      var j := FirstSuffices(q, t, k);
      CompletingPrice(q, t, j);
    }
  }

  /** A taker that fits into the depth within its limit is filled there, whatever its type. */
  lemma FillWithin(q: seq<Resting>, t: Taker, r: FillResult)
    requires Sorted(t.side.Opposite(), q) && Waterfall(q, t, r) && !t.otype.LIMIT?
    requires 0 < Left(t) <= Fillable(q, t)
    ensures r.left == 0
    ensures forall k :: 0 <= k < |r.trades| ==> Reaches(t.side, t.price, r.trades[k].price)
  {
    var s := t.side.Opposite();
    var d := InsertPos(s, q, t.price);
    CumDepthIsPrefix(s, q, t.price);
    assert Depth(q, t) == |q|;
    SumPrefix(q, d, |q|);
    forall k | 0 <= k < |r.trades|
      ensures Reaches(t.side, t.price, r.trades[k].price)
    {
      assert Alloc(q, Depth(q, t), Left(t), k) > 0;
      if k >= d {
        SumPrefix(q, d, k);
      }
    }
  }

  /** The depth within the limit is all there is exactly when every order is within it. */
  lemma AllWithin(q: seq<Resting>, t: Taker)
    requires Sorted(t.side.Opposite(), q) && AllOpen(q)
    ensures Fillable(q, t) == Sum(q) <==> InsertPos(t.side.Opposite(), q, t.price) == |q|
    ensures Fillable(q, t) == Sum(q[..InsertPos(t.side.Opposite(), q, t.price)])
  {
    hide CumDepth, Sum;
    var d := InsertPos(t.side.Opposite(), q, t.price);
    CumDepthIsPrefix(t.side.Opposite(), q, t.price);
    assert q[..|q|] == q;
    if d < |q| {
      SumSplit(q, d);
      SumPrefix(q, d + 1, |q|);
    }
  }

  /** A price-blind order that wants more than its limit offers trades with the first order beyond it. */
  lemma {:induction false} TradesBeyond(q: seq<Resting>, t: Taker, r: FillResult)
    requires AllOpen(q) && Waterfall(q, t, r) && !t.otype.LIMIT?
    requires var d := InsertPos(t.side.Opposite(), q, t.price); d < |q| && Sum(q[..d]) < Left(t)
    ensures var d := InsertPos(t.side.Opposite(), q, t.price); d < |r.trades| && !Reaches(t.side, t.price, r.trades[d].price)
  {
    hide Sum, SurvivorsReduced;
    var d := InsertPos(t.side.Opposite(), q, t.price);
    assert Depth(q, t) == |q|;
    assert Alloc(q, |q|, Left(t), d) > 0;
  }

  /** Every trade price is that of an order in the queue; a filled taker makes none. */
  lemma TradesFromQueue(q: seq<Resting>, t: Taker, r: FillResult)
    requires Waterfall(q, t, r)
    ensures |r.trades| <= |q| && forall k :: 0 <= k < |r.trades| ==> r.trades[k].price == q[k].price
    ensures Left(t) == 0 ==> r.trades == []
  {
    hide SurvivorsReduced, Sum;
    if r.trades != [] {
      assert Alloc(q, Depth(q, t), Left(t), 0) > 0;
    }
  }

  /**
   When an order that ignores its price while matching, such as IOC, trades within it all the same:
   exactly when the depth within its price covers it, or there is nothing beyond its price.
   */
  lemma PriceBlindWithin(q: seq<Resting>, t: Taker, r: FillResult)
    requires Sorted(t.side.Opposite(), q) && AllOpen(q) && Waterfall(q, t, r) && !t.otype.LIMIT?
    ensures (forall k :: 0 <= k < |r.trades| ==> Reaches(t.side, t.price, r.trades[k].price))
            <==> (Left(t) <= Fillable(q, t) || Fillable(q, t) == Sum(q))
  {
    hide Waterfall, Sorted, Fillable, Sum;
    AllWithin(q, t);
    TradesFromQueue(q, t, r);
    if 0 < Left(t) <= Fillable(q, t) {
      FillWithin(q, t, r);
    } else if Left(t) > 0 && InsertPos(t.side.Opposite(), q, t.price) < |q| {
      TradesBeyond(q, t, r);
    }
  }

  /** New trades, all within the limit. */
  ghost predicate TradedWithin(b: Book, b': Book, side: Side, price: int) {
    b.log <= b'.log && forall i :: |b.log| <= i < |b'.log| ==> Reaches(side, price, b'.log[i].price)
  }

  /**
   A fill-or-kill order is filled completely, every trade at its price or better, or it is rejected
   and nothing but the id counter and its own REJECTED record tells that it was ever there.
   */
  lemma FokAllOrNothing(b: Book, capacity: nat, side: Side, price: int, qty: nat)
    requires Inv(b, capacity) && !Refused(b, FOK, price, qty) && qty < QUANTITY_WRAP
    ensures var t := Admit(b, side, FOK, price, qty).1;
            var (b', id) := AddOrder(b, side, FOK, price, qty);
            if FokAccepts(Queue(b, side.Opposite()), t)
            then id in b'.ledger && b'.ledger[id] == Entry(side, FOK, price, qty, qty, FILLED)
                 && TradedWithin(b, b', side, price)
            else b' == b.(counter := id, ledger := b.ledger[id := Entry(side, FOK, price, qty, 0, REJECTED)])
  {
    hide AddOrder, QueueOk, IndexOk, PoolOk, LogOk, LedgerOk, Executed, FokAccepts, Uncrossed, AllOpen;
    var (b1, t) := Admit(b, side, FOK, price, qty);
    AddExecutes(b, capacity, side, FOK, price, qty);
    AddedId(b, side, FOK, price, qty);
    if FokAccepts(Queue(b, side.Opposite()), t) {
      FokFilled(b, capacity, t, b1, AddOrder(b, side, FOK, price, qty).0);
    } else {
      FokLeavesNoTrace(b, side, price, qty);
    }
  }

  lemma AddedId(b: Book, side: Side, otype: OrderType, price: int, qty: nat)
    requires !Refused(b, otype, price, qty)
    ensures AddOrder(b, side, otype, price, qty).1 == b.counter + 1
  {
  }

  lemma FokFilled(b: Book, capacity: nat, t: Taker, b1: Book, b': Book)
    requires Inv(b, capacity) && b1.log == b.log && Queue(b1, t.side.Opposite()) == Queue(b, t.side.Opposite())
    requires t.otype.FOK? && t.filled == 0 && 0 < t.qty < QUANTITY_WRAP
    requires FokAccepts(Queue(b, t.side.Opposite()), t) && Executed(b1, t, b')
    ensures t.id in b'.ledger && b'.ledger[t.id] == Entry(t.side, FOK, t.price, t.qty, t.qty, FILLED)
    ensures TradedWithin(b, b', t.side, t.price)
  {
    hide IndexOk, PoolOk, LogOk, LedgerOk, Joined, Reclaimed, FokAccepts, Sorted, Waterfall, Fill, Fillable;
    var q := Queue(b, t.side.Opposite());
    FokDecision(q, t);
    FillWithin(q, t, Fill(q, t));
  }

  lemma FokLeavesNoTrace(b: Book, side: Side, price: int, qty: nat)
    requires LedgerOk(b) && IndexOk(b, 0) && b.free != []
    ensures var (b1, t) := Admit(b, side, FOK, price, qty);
            Close(b1, t.id, t.slot, REJECTED)
            == b.(counter := t.id, ledger := b.ledger[t.id := Entry(side, FOK, price, qty, 0, REJECTED)])
  {
  }

  /** A book of three slots after two asks of half the quantity range, both at one price. */
  lemma TwoHalfAsks()
    ensures var ask := Add(ASK, LIMIT, 100, 0x8000_0000);
            var b := Run(Init(3), [ask, ask]);
            b.asks == [Resting(1, 100, 0x8000_0000, 0, 0, 0), Resting(2, 100, 0x8000_0000, 0, 1, 1)]
            && b.bids == [] && b.free == [2] && b.counter == 2
  {
    var half := 0x8000_0000;
    var ask := Add(ASK, LIMIT, 100, half);
    var b0 := Init(3);
    assert b0.free == [0, 1, 2];
    QuietAdd(b0, ASK, 100, half);
    var b1 := Step(b0, ask);
    assert b1.asks == [Resting(1, 100, half, 0, 0, 0)];
    QuietAdd(b1, ASK, 100, half);
    assert [ask, ask][..1] == [ask] && [ask][..0] == [];
    assert Run(b0, [ask]) == b1;
  }

  /**
   The wrap is reachable: two asks of 2^31 at one price make an aggregate of 0, and a fill-or-kill
   bid for a single unit at that price is rejected although 2^32 units are on offer.
   */
  lemma FokRejectsAFillableOrder()
    ensures var ask := Add(ASK, LIMIT, 100, 0x8000_0000);
            var b := Run(Init(3), [ask, ask]);
            && CumDepth(ASK, b.asks, 100) == QUANTITY_WRAP && !Refused(b, FOK, 100, 1)
            && FokRejected(b, Admit(b, BID, FOK, 100, 1).1)
  {
    hide Run;
    TwoHalfAsks();
    var ask := Add(ASK, LIMIT, 100, 0x8000_0000);
    var q := Run(Init(3), [ask, ask]).asks;
    assert q[1..][1..] == [] && CumDepth(ASK, q[1..][1..], 100) == 0;
    assert CumDepth(ASK, q[1..], 100) == 0x8000_0000;
  }
}
