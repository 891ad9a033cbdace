/** Sending a sweep in two parts fills the same makers by the same amounts as sending it whole. */
module SweepSplitting {
  import opened OrderTypes
  import opened PriceTimeQueue
  import opened BookSpec
  import opened BookInvariant
  import opened BookRuns
  import opened MatchTheorems

  /** Quantity that the trades take from the maker `id`. */
  function TakenFrom(trades: seq<Trade>, id: OrderId): nat {
    if trades == [] then 0 else (if trades[0].maker == id then trades[0].qty else 0) + TakenFrom(trades[1..], id)
  }

  function Total(trades: seq<Trade>): nat {
    if trades == [] then 0 else trades[0].qty + Total(trades[1..])
  }

  lemma TotalCons(x: Trade, a: seq<Trade>)
    ensures Total([x] + a) == x.qty + Total(a)
  {
    assert ([x] + a)[1..] == a;
  }

  /** Two trade lists take the same from every maker, the first in at most one trade more. */
  ghost predicate SameTakings(parts: seq<Trade>, whole: seq<Trade>) {
    && (forall id :: TakenFrom(parts, id) == TakenFrom(whole, id)) && Total(parts) == Total(whole)
    && |whole| <= |parts| <= |whole| + 1
  }

  /** Takers that want the same: beyond side and quantity, only a LIMIT's price makes a difference. */
  predicate SameDemand(t: Taker, t': Taker) {
    && t.side == t'.side && Left(t) == Left(t')
    && (t.otype.LIMIT? || t'.otype.LIMIT? ==> t.otype == t'.otype && t.price == t'.price)
  }

  lemma SameTakingsCons(x: Trade, y: Trade, a: seq<Trade>, b: seq<Trade>)
    requires SameTakings(a, b) && x.maker == y.maker && x.qty == y.qty
    ensures SameTakings([x] + a, [y] + b)
  {
    assert ([x] + a)[1..] == a && ([y] + b)[1..] == b;
    TotalCons(x, a);
    TotalCons(y, b);
  }

  /** One trade cut in two. */
  lemma SameTakingsCut(x: Trade, y: Trade, z: Trade, a: seq<Trade>, b: seq<Trade>)
    requires SameTakings(a, b) && |a| == |b|
    requires x.maker == y.maker == z.maker && x.qty + y.qty == z.qty
    ensures SameTakings([x] + ([y] + a), [z] + b)
  {
    assert ([x] + ([y] + a))[1..] == [y] + a && ([y] + a)[1..] == a && ([z] + b)[1..] == b;
    TotalCons(x, [y] + a);
    TotalCons(y, a);
    TotalCons(z, b);
  }

  lemma {:induction false} FillSameDemand(q: seq<Resting>, t: Taker, t': Taker)
    requires SameDemand(t, t')
    ensures var r, r' := Fill(q, t), Fill(q, t');
      r.rest == r'.rest && r.left == r'.left && |r.trades| == |r'.trades| && SameTakings(r.trades, r'.trades)
      && (t.id == t'.id ==> r == r')
  {
    if q != [] && Left(t) > 0 && Crosses(t, q[0].price) {
      var f := TradeWith(t, q[0]);
      var x, y := Trade(q[0].id, t.id, q[0].price, f), Trade(q[0].id, t'.id, q[0].price, f);
      if f == Open(q[0]) {
        FillSameDemand(q[1..], Traded(t, f), Traded(t', f));
        SameTakingsCons(x, y, Fill(q[1..], Traded(t, f)).trades, Fill(q[1..], Traded(t', f)).trades);
      } else {
        assert [x][1..] == [] && [y][1..] == [];
      }
    }
  }

  /** Pouring `t` and then `t'` over the queue is pouring a taker that wants what both want. */
  lemma {:induction false} FillInTwo(q: seq<Resting>, t: Taker, t': Taker, w: Taker)
    requires AllOpen(q) && w.side == t.side == t'.side && w.otype == t.otype == t'.otype
    requires w.price == t.price == t'.price && Left(w) == Left(t) + Left(t')
    ensures PouredAlike(Fill(q, t), Fill(Fill(q, t).rest, t'), Fill(q, w))
  {
    hide Fill, PouredAlike;
    if Left(t) == 0 || q == [] || !Crosses(t, q[0].price) {
      FillAfterNone(q, t, t', w);
    } else {
      assert q == [q[0]] + q[1..];
      if Open(q[0]) <= Left(t) {
        FillInTwo(q[1..], Traded(t, Open(q[0])), t', Traded(w, Open(q[0])));
        FillBoth(q[0], q[1..], t, t', w);
      } else {
        FillCut(q[0], q[1..], t, t', w);
      }
    }
  }

  /** The first part finds nothing to do. */
  lemma FillAfterNone(q: seq<Resting>, t: Taker, t': Taker, w: Taker)
    requires Left(t) == 0 || q == [] || !Crosses(t, q[0].price)
    requires w.side == t.side == t'.side && w.otype == t.otype == t'.otype
    requires w.price == t.price == t'.price && Left(w) == Left(t) + Left(t')
    ensures PouredAlike(Fill(q, t), Fill(Fill(q, t).rest, t'), Fill(q, w))
  {
    hide SameTakings;
    assert Fill(q, t) == FillResult(q, [], Left(t)) && [] + Fill(q, t').trades == Fill(q, t').trades;
    if Left(t) == 0 {
      FillSameDemand(q, t', w);
    } else {
      SameTakingsNothing();
    }
  }

  /** The first part and the whole both exhaust the head. */
  lemma FillBoth(m: Resting, q: seq<Resting>, t: Taker, t': Taker, w: Taker)
    requires 0 < Open(m) <= Left(t) <= Left(w) && Crosses(t, m.price) && Crosses(w, m.price)
    requires var t1, w1 := Traded(t, Open(m)), Traded(w, Open(m));
      PouredAlike(Fill(q, t1), Fill(Fill(q, t1).rest, t'), Fill(q, w1))
    ensures PouredAlike(Fill([m] + q, t), Fill(Fill([m] + q, t).rest, t'), Fill([m] + q, w))
  {
    hide Fill, SameTakings;
    FillExhausts(m, q, t);
    FillExhausts(m, q, w);
    var x, z := Trade(m.id, t.id, m.price, Open(m)), Trade(m.id, w.id, m.price, Open(m));
    var r1 := Fill(q, Traded(t, Open(m)));
    var a := r1.trades + Fill(r1.rest, t').trades;
    assert [x] + r1.trades + Fill(r1.rest, t').trades == [x] + a;
    SameTakingsCons(x, z, a, Fill(q, Traded(w, Open(m))).trades);
  }

  /** A taker that wants less than the head has only dents it. */
  lemma FillDents(m: Resting, q: seq<Resting>, t: Taker)
    requires 0 < Left(t) < Open(m) && Crosses(t, m.price)
    ensures Fill([m] + q, t) == FillResult([Dent(m, Left(t))] + q, [Trade(m.id, t.id, m.price, Left(t))], 0)
  {
    assert ([m] + q)[1..] == q;
  }

  lemma FillExhausts(m: Resting, q: seq<Resting>, t: Taker)
    requires 0 < Open(m) <= Left(t) && Crosses(t, m.price)
    ensures var r := Fill(q, Traded(t, Open(m)));
      Fill([m] + q, t) == FillResult(r.rest, [Trade(m.id, t.id, m.price, Open(m))] + r.trades, r.left)
  {
    assert ([m] + q)[1..] == q;
  }

  /** What two pours leave and take, against one. */
  ghost predicate PouredAlike(r: FillResult, r': FillResult, rw: FillResult) {
    r'.rest == rw.rest && r.left + r'.left == rw.left && SameTakings(r.trades + r'.trades, rw.trades)
  }

  /** The boundary between the two parts falls inside the head. */
  lemma FillCut(m: Resting, q: seq<Resting>, t: Taker, t': Taker, w: Taker)
    requires 0 < Left(t) < Open(m) && Crosses(t, m.price)
    requires w.side == t.side == t'.side && w.otype == t.otype == t'.otype
    requires w.price == t.price == t'.price && Left(w) == Left(t) + Left(t')
    ensures PouredAlike(Fill([m] + q, t), Fill(Fill([m] + q, t).rest, t'), Fill([m] + q, w))
  {
    hide Fill, PouredAlike;
    FillDents(m, q, t);
    if Left(t') == 0 {
      FillCutNothing(m, q, t, t', w);
    } else if Left(w) < Open(m) {
      FillCutWithin(m, q, t, t', w);
    } else {
      FillCutBeyond(m, q, t, t', w);
    }
  }

  lemma FillCutNothing(m: Resting, q: seq<Resting>, t: Taker, t': Taker, w: Taker)
    requires 0 < Left(t) < Open(m) && Left(t') == 0 && Crosses(t, m.price) && SameDemand(t, w)
    ensures PouredAlike(Fill([m] + q, t), Fill([Dent(m, Left(t))] + q, t'), Fill([m] + q, w))
  {
    hide Fill, SameTakings;
    FillDents(m, q, t);
    FillDents(m, q, w);
    FillIdle([Dent(m, Left(t))] + q, t');
    SameTakingsNothing();
    SameTakingsCons(Trade(m.id, t.id, m.price, Left(t)), Trade(m.id, w.id, m.price, Left(t)), [], []);
    assert [Trade(m.id, w.id, m.price, Left(t))] + [] == [Trade(m.id, w.id, m.price, Left(w))];
  }

  lemma FillIdle(q: seq<Resting>, t: Taker)
    requires Left(t) == 0
    ensures Fill(q, t) == FillResult(q, [], 0)
  {
  }

  /** Both parts fall inside the head. */
  lemma FillCutWithin(m: Resting, q: seq<Resting>, t: Taker, t': Taker, w: Taker)
    requires 0 < Left(t) && 0 < Left(t') && Left(w) == Left(t) + Left(t') < Open(m)
    requires Crosses(t, m.price) && Crosses(t', m.price) && Crosses(w, m.price)
    ensures PouredAlike(Fill([m] + q, t), Fill([Dent(m, Left(t))] + q, t'), Fill([m] + q, w))
  {
    hide Fill, SameTakings, Crosses;
    FillDents(m, q, t);
    FillDents(Dent(m, Left(t)), q, t');
    FillDents(m, q, w);
    SameTakingsNothing();
    var x, y := Trade(m.id, t.id, m.price, Left(t)), Trade(m.id, t'.id, m.price, Left(t'));
    var z := Trade(m.id, w.id, m.price, Left(w));
    SameTakingsCut(x, y, z, [], []);
    assert [x] + ([y] + []) == [x] + [y] && [z] + [] == [z];
  }

  lemma FillCutBeyond(m: Resting, q: seq<Resting>, t: Taker, t': Taker, w: Taker)
    requires 0 < Left(t) < Open(m) <= Left(w) == Left(t) + Left(t') && Crosses(t, m.price)
    requires w.side == t.side == t'.side && w.otype == t.otype == t'.otype
    requires w.price == t.price == t'.price
    ensures PouredAlike(Fill([m] + q, t), Fill([Dent(m, Left(t))] + q, t'), Fill([m] + q, w))
  {
    hide Fill, SameTakings;
    var a, o := Left(t), Open(m);
    FillDents(m, q, t);
    FillExhausts(Dent(m, a), q, t');
    FillExhausts(m, q, w);
    FillSameDemand(q, Traded(t', o - a), Traded(w, o));
    SameTakingsCut(Trade(m.id, t.id, m.price, a), Trade(m.id, t'.id, m.price, o - a), Trade(m.id, w.id, m.price, o),
                   Fill(q, Traded(t', o - a)).trades, Fill(q, Traded(w, o)).trades);
  }

  lemma SameTakingsNothing()
    ensures SameTakings([], [])
  {
  }

  // ---------------------------------------------------------------- in the book

  /** The trade log splits volume by maker: new trades add what they take, unless the order is their taker. */
  lemma {:induction false} VolumeOfNew(log: seq<Trade>, trades: seq<Trade>, id: OrderId)
    requires forall i :: 0 <= i < |trades| ==> trades[i].taker != id
    ensures VolumeOf(log + trades, id) == VolumeOf(log, id) + TakenFrom(trades, id)
    ensures Volume(log + trades) == Volume(log) + Total(trades)
    decreases trades
  {
    if trades == [] {
      assert log + trades == log;
    } else {
      VolumeOfSnoc(log, trades[0], id);
      VolumeSnoc(log, trades[0]);
      VolumeOfNew(log + [trades[0]], trades[1..], id);
      assert log + trades == log + [trades[0]] + trades[1..];
    }
  }

  /** All trades of a fill are the taker's. */
  lemma {:induction false} FillTaker(q: seq<Resting>, t: Taker)
    ensures forall i :: 0 <= i < |Fill(q, t).trades| ==> Fill(q, t).trades[i].taker == t.id
  {
    if q != [] && Left(t) > 0 && Crosses(t, q[0].price) && TradeWith(t, q[0]) == Open(q[0]) {
      FillTaker(q[1..], Traded(t, TradeWith(t, q[0])));
    }
  }

  predicate Sweeping(otype: OrderType) {
    otype.MARKET? || otype.IOC?
  }

  /** What a sweep `r` by an order that does not rest does to the book. */
  ghost predicate SweptBy(b: Book, side: Side, r: FillResult, b': Book) {
    && b'.log == b.log + r.trades && |b'.free| + 1 >= |b.free| && b'.counter == b.counter + 1
    && Queue(b', side.Opposite()) == r.rest && Queue(b', side) == Queue(b, side)
  }

  lemma SweepExecutes(b: Book, capacity: nat, side: Side, otype: OrderType, price: int, qty: nat)
    requires Inv(b, capacity) && Sweeping(otype) && !Refused(b, otype, price, qty) && qty < QUANTITY_WRAP
    ensures SweptBy(b, side, Fill(Queue(b, side.Opposite()), Admit(b, side, otype, price, qty).1),
                    AddOrder(b, side, otype, price, qty).0)
  {
    hide Inv, Fill, AddOrder, Recorded, Returned, Ids, Waterfall, Insert;
    AddExecutes(b, capacity, side, otype, price, qty);
  }

  /** Two sweeps and one: the same sides, and trades that take the same from every maker. */
  lemma SplitSweepTrades(b: Book, capacity: nat, side: Side, otype: OrderType, price: int, a: nat, c: nat)
    returns (parts: seq<Trade>, whole: seq<Trade>)
    requires Inv(b, capacity) && Sweeping(otype) && a > 0 && c > 0 && a + c < QUANTITY_WRAP && |b.free| >= 2
    ensures var b1 := AddOrder(b, side, otype, price, a).0;
            var b2, bw := AddOrder(b1, side, otype, price, c).0, AddOrder(b, side, otype, price, a + c).0;
      && b2.bids == bw.bids && b2.asks == bw.asks
      && b2.log == b.log + parts && bw.log == b.log + whole && SameTakings(parts, whole)
      && (forall i :: 0 <= i < |parts| ==> parts[i].taker > b.counter)
      && (forall i :: 0 <= i < |whole| ==> whole[i].taker > b.counter)
  {
    hide AddOrder, Fill, SameTakings, Core, Uncrossed;
    var q := Queue(b, side.Opposite());
    var b1 := AddOrder(b, side, otype, price, a).0;
    AddKeepsInv(b, capacity, side, otype, price, a);
    SweepExecutes(b, capacity, side, otype, price, a);
    SweepExecutes(b1, capacity, side, otype, price, c);
    SweepExecutes(b, capacity, side, otype, price, a + c);
    var t, w := Admit(b, side, otype, price, a).1, Admit(b, side, otype, price, a + c).1;
    var t' := Admit(b1, side, otype, price, c).1;
    FillInTwo(q, t, t', w);
    FillTaker(q, t);
    FillTaker(q, w);
    FillTaker(Fill(q, t).rest, t');
    parts, whole := Fill(q, t).trades + Fill(Fill(q, t).rest, t').trades, Fill(q, w).trades;
  }

  /**
   A MARKET (or IOC) quantity sent in two parts, given two free slots and no 32-bit overflow: both
   sides end as after the whole order, every earlier order has traded the same quantity, the volume
   is the same, and there is at most one trade more.
   */
  lemma SplitSweep(b: Book, capacity: nat, side: Side, otype: OrderType, price: int, a: nat, c: nat)
    requires Inv(b, capacity) && Sweeping(otype) && a > 0 && c > 0 && a + c < QUANTITY_WRAP && |b.free| >= 2
    ensures var b1 := AddOrder(b, side, otype, price, a).0;
            var b2, bw := AddOrder(b1, side, otype, price, c).0, AddOrder(b, side, otype, price, a + c).0;
      && b2.bids == bw.bids && b2.asks == bw.asks
      && Volume(b2.log) == Volume(bw.log) && |bw.log| <= |b2.log| <= |bw.log| + 1
      && forall id :: 0 <= id <= b.counter ==> VolumeOf(b2.log, id) == VolumeOf(bw.log, id)
  {
    hide AddOrder, Inv, VolumeOf, Volume;
    var parts, whole := SplitSweepTrades(b, capacity, side, otype, price, a, c);
    VolumeOfNew(b.log, parts, 0);
    VolumeOfNew(b.log, whole, 0);
    forall id | 0 <= id <= b.counter
      ensures VolumeOf(b.log + parts, id) == VolumeOf(b.log + whole, id)
    {
      VolumeOfNew(b.log, parts, id);
      VolumeOfNew(b.log, whole, id);
    }
  }

  /** An IOC order ignores its price: book, log, index and free list are those a MARKET order leaves. */
  lemma IocIsMarket(b: Book, capacity: nat, side: Side, price: int, price': int, qty: nat)
    requires Inv(b, capacity) && qty < QUANTITY_WRAP
    ensures var b1, b2 := AddOrder(b, side, IOC, price, qty).0, AddOrder(b, side, MARKET, price', qty).0;
      b1.bids == b2.bids && b1.asks == b2.asks && b1.log == b2.log && b1.index == b2.index && b1.free == b2.free
  {
    hide Inv, AddOrder, Fill, SameTakings, Recorded, Returned, Ids, Waterfall, Insert;
    if Refused(b, IOC, price, qty) {
      RefusedUnchanged(b, side, IOC, price, qty);
      RefusedUnchanged(b, side, MARKET, price', qty);
    } else {
      AddExecutes(b, capacity, side, IOC, price, qty);
      AddExecutes(b, capacity, side, MARKET, price', qty);
      FillSameDemand(Queue(b, side.Opposite()), Admit(b, side, IOC, price, qty).1, Admit(b, side, MARKET, price', qty).1);
    }
  }
}
