/** A side of the book: std::map<Price, PriceLevel>, iterated best price first. */
module LevelMaps {
  import opened OrderTypes
  import opened PriceTimeQueue
  import opened Levels
  import opened PriceLevels

  /** The orders `q` are the slots that `v` lists, all at one price and side. */
  ghost predicate Spells(q: seq<Order>, side: Side, v: Level, slots: seq<Order>)
    reads q`price, q`side
  {
    && |q| == |v.orders|
    && (forall j :: 0 <= j < |q| ==>
          && v.orders[j].slot < |slots| && q[j] == slots[v.orders[j].slot]
          && q[j].price == v.price && q[j].side == side)
  }

  /** The level object `l` holds exactly the orders of `v`, in order, with their aggregate modulo 2^32. */
  ghost predicate LevelRep(l: PriceLevel, side: Side, v: Level, slots: seq<Order>)
    reads l, l.q`price, l.q`side, l.q`prev, l.q`next
  {
    l.price == v.price && Spells(l.q, side, v, slots) && l.Linked() && l.totalQty == Wrap(Sum(v.orders))
  }

  /** std::map::find: the position of the level at `price`, or the end. */
  function FindLevel(lv: seq<PriceLevel>, price: Price): (i: nat)
    reads lv
    ensures i <= |lv|
    ensures i < |lv| ==> lv[i].price == price
    ensures forall k :: 0 <= k < i ==> lv[k].price != price
  {
    if lv == [] || lv[0].price == price then 0 else 1 + FindLevel(lv[1..], price)
  }

  /** Where the ordered map places a new key. */
  function LowerBound(lv: seq<PriceLevel>, side: Side, price: Price): (i: nat)
    reads lv
    ensures i <= |lv|
    ensures i < |lv| ==> !Better(side, lv[i].price, price)
    ensures forall k :: 0 <= k < i ==> Better(side, lv[k].price, price)
  {
    if lv == [] || !Better(side, lv[0].price, price) then 0 else 1 + LowerBound(lv[1..], side, price)
  }

  class LevelMap {
    const side: Side
    /** The pool's slots, where the orders live. */
    ghost const slots: seq<Order>
    var levels: seq<PriceLevel>
    /** The levels' contents. */
    ghost var nested: seq<Level>
    /** All orders in the levels. */
    ghost var members: set<Order>

    constructor (side: Side, ghost slots: seq<Order>)
      ensures this.side == side && this.slots == slots && levels == [] && nested == [] && members == {} && Ok()
    {
      this.side, this.slots := side, slots;
      levels, nested, members := [], [], {};
    }

    ghost predicate Ok()
      reads this, levels, members`price, members`side, members`prev, members`next
    {
      && |levels| == |nested| && Shaped(side, nested)
      && (forall o :: o in members ==> o.side == side)
      && (forall i :: 0 <= i < |levels| ==> Within(levels[i], members))
      && (forall i :: 0 <= i < |levels| ==> LevelRep(levels[i], side, nested[i], slots))
    }

    static ghost predicate Within(l: PriceLevel, members: set<Order>)
      reads l`q
    {
      forall j :: 0 <= j < |l.q| ==> l.q[j] in members
    }

    /** Each price has one level. */
    lemma LevelsDiffer(k: nat)
      requires Ok() && k < |levels|
      ensures forall i :: 0 <= i < |levels| && i != k ==> levels[i] != levels[k] && levels[i].price != levels[k].price
    {
      forall i | 0 <= i < |levels| && i != k
        ensures levels[i].price != levels[k].price
      {
        assert if i < k then Better(side, nested[i].price, nested[k].price) else Better(side, nested[k].price, nested[i].price);
      }
    }

    lemma ReducePrep(k: nat, v: Level)
      requires Ok() && k < |levels|
      requires v.price == nested[k].price && AllAt(v) && |v.orders| == |nested[k].orders|
      requires forall j :: 0 <= j < |v.orders| ==> v.orders[j].slot == nested[k].orders[j].slot
      ensures |levels| == |nested| && levels[k].price == v.price && levels[k].totalQty == Wrap(Sum(nested[k].orders))
      ensures Shaped(side, nested[k := v]) && Spells(levels[k].q, side, v, slots) && levels[k].Linked()
      ensures forall i :: 0 <= i < |levels| && i != k ==> levels[i] != levels[k] && levels[i].price != levels[k].price
      ensures forall i :: 0 <= i < |levels| ==> LevelRep(levels[i], side, nested[i], slots) && Within(levels[i], members)
      ensures forall x :: x in members ==> x.side == side
    {
      LevelsDiffer(k);
      ShapedReplace(side, nested, k, v);
    }

    /** `total_qty -= qty` on the level at `price`; `v` is what that level then holds. */
    method Reduce(price: Price, qty: Quantity, ghost k: nat, ghost v: Level)
      requires Ok() && k < |levels| && nested[k].price == price
      requires v.price == price && AllAt(v) && |v.orders| == |nested[k].orders|
      requires forall j :: 0 <= j < |v.orders| ==> v.orders[j].slot == nested[k].orders[j].slot
      requires Wrap(Sum(v.orders)) == Wrap(Wrap(Sum(nested[k].orders)) - qty)
      modifies `nested, levels`totalQty
      ensures Ok() && nested == old(nested)[k := v]
    {
      hide Ok, Wrap, Sum, Shaped, LevelRep, Within, Spells, PriceLevel.Linked;
      ReducePrep(k, v);
      nested := nested[k := v];
      var i := FindLevel(levels, price);
      if i < |levels| {
        levels[i].totalQty := Wrap(levels[i].totalQty - qty);
      }
      LevelFrom(levels[k], side, v, slots);
      OkFrom();
    }

    static function DropOrder(v: Level, j: nat): Level
      requires j < |v.orders|
    {
      v.(orders := RemoveAt(v.orders, j))
    }

    /** The aggregate after an order leaves. */
    static lemma DropAggregate(v: Level, j: nat)
      requires j < |v.orders|
      ensures Wrap(Sum(DropOrder(v, j).orders)) == Wrap(Wrap(Sum(v.orders)) - Open(v.orders[j]))
    {
      SumRemove(v.orders, j);
      WrapOfWrap(Sum(v.orders), 0 - Open(v.orders[j]));
    }

    /** Levels share no order. */
    lemma OrdersDiffer(i: nat, k: nat)
      requires Ok() && i < |levels| && k < |levels| && i != k
      ensures levels[i] != levels[k] && forall j :: 0 <= j < |levels[i].q| ==> levels[i].q[j] !in levels[k].q
    {
      LevelsDiffer(k);
      assert forall x :: 0 <= x < |levels[k].q| ==> levels[k].q[x].price == levels[k].price;
      assert forall x :: 0 <= x < |levels[i].q| ==> levels[i].q[x].price == levels[i].price;
    }

    lemma OthersApart(k: nat)
      requires Ok() && k < |levels|
      ensures forall i, x {:trigger levels[i].q[x]} :: 0 <= i < |levels| && i != k && 0 <= x < |levels[i].q| ==>
                levels[i].q[x] !in levels[k].q
    {
      forall i, x {:trigger levels[i].q[x]} | 0 <= i < |levels| && i != k && 0 <= x < |levels[i].q|
        ensures levels[i].q[x] !in levels[k].q
      {
        OrdersDiffer(i, k);
      }
    }

    static lemma SpellsWithout(q: seq<Order>, side: Side, v: Level, slots: seq<Order>, j: nat)
      requires Spells(q, side, v, slots) && j < |q|
      ensures Spells(PriceLevel.Without(q, j), side, DropOrder(v, j), slots)
    {
    }

    lemma RemovePrep(k: nat, o: Order, j: nat)
      requires Ok() && k < |levels| && j < |levels[k].q| && levels[k].q[j] == o
      requires o.Remaining() == Open(nested[k].orders[j])
      ensures levels[k].Linked() && |levels| == |nested| && j < |nested[k].orders|
      ensures levels[k].price == DropOrder(nested[k], j).price
      ensures forall i :: 0 <= i < |levels| && i != k ==> levels[i] != levels[k]
      ensures forall i, x {:trigger levels[i].q[x]} :: 0 <= i < |levels| && i != k && 0 <= x < |levels[i].q| ==>
                levels[i].q[x] !in levels[k].q
      ensures Wrap(levels[k].totalQty - o.Remaining()) == Wrap(Sum(DropOrder(nested[k], j).orders))
      ensures Shaped(side, nested[k := DropOrder(nested[k], j)])
      ensures Spells(PriceLevel.Without(levels[k].q, j), side, DropOrder(nested[k], j), slots)
      ensures forall i :: 0 <= i < |levels| && i != k ==> LevelRep(levels[i], side, nested[i], slots) && Within(levels[i], members - {o})
      ensures forall x :: x in levels[k].q ==> x in members
      ensures forall x :: x in members ==> x.side == side
    {
      LevelsDiffer(k);
      DropAggregate(nested[k], j);
      ShapedReplace(side, nested, k, DropOrder(nested[k], j));
      OthersApart(k);
      SpellsWithout(levels[k].q, side, nested[k], slots, j);
    }

    lemma OkFrom()
      requires |levels| == |nested| && Shaped(side, nested)
      requires forall o :: o in members ==> o.side == side
      requires forall i :: 0 <= i < |levels| ==> Within(levels[i], members)
      requires forall i :: 0 <= i < |levels| ==> LevelRep(levels[i], side, nested[i], slots)
      ensures Ok()
    {
    }

    /** `level.remove(o)` on the level at position `k`, where `o` is the order at position `j`. */
    method RemoveFrom(k: nat, o: Order, ghost j: nat)
      requires Ok() && k < |levels| && j < |levels[k].q| && levels[k].q[j] == o
      requires o.Remaining() == Open(nested[k].orders[j])
      modifies `nested, `members, levels, levels[k].q`prev, levels[k].q`next
      ensures members == old(members) - {o}
      ensures Ok() && nested == old(nested)[k := DropOrder(old(nested)[k], j)] && levels == old(levels)
      ensures levels[k].q == PriceLevel.Without(old(levels[k].q), j) && levels[k].price == old(levels[k].price)
    {
      hide Ok, Wrap, Sum, Shaped, LevelRep, Within, Spells, DropOrder, PriceLevel.Linked;
      RemovePrep(k, o, j);
      nested := nested[k := DropOrder(nested[k], j)];
      members := members - {o};
      levels[k].Remove(o, j);
      LevelFrom(levels[k], side, nested[k], slots);
      Dropped(levels[k], members);
      OkFrom();
    }

    static lemma Dropped(l: PriceLevel, members: set<Order>)
      requires forall x :: x in l.q ==> x in members
      ensures Within(l, members)
    {
    }

    lemma LevelAt(k: nat)
      requires Ok() && k < |levels|
      ensures levels[k].price == nested[k].price && Spells(levels[k].q, side, nested[k], slots) && levels[k].Linked()
      ensures levels[k].totalQty == Wrap(Sum(nested[k].orders))
    {
    }

    static lemma LevelFrom(l: PriceLevel, side: Side, v: Level, slots: seq<Order>)
      requires l.price == v.price && Spells(l.q, side, v, slots) && l.Linked() && l.totalQty == Wrap(Sum(v.orders))
      ensures LevelRep(l, side, v, slots)
    {
    }

    /** `erase` of an empty level. */
    method Erase(k: nat)
      requires Ok() && k < |levels| && nested[k].orders == []
      modifies `levels, `nested
      ensures Ok() && levels == old(levels)[..k] + old(levels)[k+1..] && nested == old(nested)[..k] + old(nested)[k+1..]
    {
      ShapedErase(side, nested, k);
      levels := levels[..k] + levels[k+1..];
      nested := nested[..k] + nested[k+1..];
    }

    static lemma NewLevel(l: PriceLevel, side: Side, slots: seq<Order>, members: set<Order>)
      requires l.q == [] && l.totalQty == 0 && l.Linked()
      ensures LevelRep(l, side, Level(l.price, []), slots) && Within(l, members)
    {
    }

    lemma ErasePrep(k: nat)
      requires Ok() && k < |levels| && nested[k].orders == []
      ensures |levels| == |nested| && Shaped(side, nested[..k] + nested[k+1..])
      ensures Flat(nested[..k] + nested[k+1..]) == Flat(nested)
    {
      ShapedErase(side, nested, k);
      FlatEraseLevel(nested, k);
    }

    /** remove_from_book on this side: `o` is the order at position `j` of level `k`. */
    method RemoveOrder(o: Order, ghost k: nat, ghost j: nat)
      requires Ok() && k < |levels| && j < |levels[k].q| && levels[k].q[j] == o
      requires o.Remaining() == Open(nested[k].orders[j])
      modifies `levels, `nested, `members, levels, levels[k].q`prev, levels[k].q`next
      ensures Ok() && members == old(members) - {o}
      ensures |Flat(old(nested)[..k])| + j < |Flat(old(nested))|
      ensures Flat(nested) == RemoveAt(Flat(old(nested)), |Flat(old(nested)[..k])| + j)
      ensures forall x :: 0 <= x < |levels| ==> levels[x] in old(levels)
      ensures NoneEmpty(old(nested)) ==> NoneEmpty(nested)
    {
      hide Ok, Flat, Wrap, Sum, Spells, DropOrder, RemoveAt;
      RemoveFacts(k, o, j);
      var i := FindLevel(levels, o.price);
      if i == |levels| {
        return;
      }
      RemoveFrom(i, o, j);
      OrderCount(i);
      SameLength();
      if levels[i].Empty() {
        ErasePrep(i);
        Erase(i);
      }
    }

    lemma RemoveFacts(k: nat, o: Order, j: nat)
      requires Ok() && k < |levels| && j < |levels[k].q| && levels[k].q[j] == o
      ensures |levels| == |nested| && j < |nested[k].orders| && o.price == levels[k].price
      ensures forall i :: 0 <= i < |levels| && i != k ==> levels[i].price != levels[k].price
      ensures |Flat(nested[..k])| + j < |Flat(nested)|
      ensures Flat(nested[k := DropOrder(nested[k], j)]) == RemoveAt(Flat(nested), |Flat(nested[..k])| + j)
    {
      LevelAt(k);
      OrderAt(k, j);
      LevelsDiffer(k);
      FlatRemove(nested, k, j);
    }

    lemma OrderAt(k: nat, j: nat)
      requires Ok() && k < |levels| && j < |levels[k].q|
      ensures levels[k].q[j].price == levels[k].price && j < |nested[k].orders|
      ensures nested[k].orders[j].slot < |slots| && levels[k].q[j] == slots[nested[k].orders[j].slot]
    {
    }

    lemma SameLength()
      requires Ok()
      ensures |levels| == |nested|
    {
    }

    lemma OrderCount(k: nat)
      requires Ok() && k < |levels|
      ensures |levels[k].q| == |nested[k].orders| && (levels[k].Empty() <==> nested[k].orders == [])
    {
    }

    /** A level inserted at position `i`. */
    static function Splice<T>(s: seq<T>, i: nat, x: T): (r: seq<T>)
      requires i <= |s|
      ensures |r| == |s| + 1 && r[i] == x
      ensures forall k :: 0 <= k < i ==> r[k] == s[k]
      ensures forall k :: i < k < |r| ==> r[k] == s[k-1]
    {
      s[..i] + [x] + s[i..]
    }

    lemma InsertPrep(i: nat, price: Price)
      requires Ok() && i <= |levels|
      requires i < |levels| ==> !Better(side, levels[i].price, price) && levels[i].price != price
      requires forall k :: 0 <= k < i ==> Better(side, levels[k].price, price)
      ensures |levels| == |nested| && Shaped(side, Splice(nested, i, Level(price, [])))
      ensures Flat(Splice(nested, i, Level(price, []))) == Flat(nested)
      ensures forall o :: o in members ==> o.side == side
      ensures forall k :: 0 <= k < |levels| ==> Within(levels[k], members) && LevelRep(levels[k], side, nested[k], slots)
    {
      InsertEmptyLevel(side, nested, i, price);
    }

    /** operator[]: the level at `price`, created empty where it belongs if it is missing. */
    method AtOrInsert(price: Price) returns (i: nat)
      requires Ok()
      modifies `levels, `nested
      ensures Ok() && i < |levels| && nested[i].price == price
      ensures Flat(nested) == Flat(old(nested))
      ensures forall k :: 0 <= k < |levels| ==> levels[k] in old(levels) || fresh(levels[k])
      ensures NoneEmpty(old(nested)) ==> forall k :: 0 <= k < |nested| && k != i ==> nested[k].orders != []
    {
      hide Ok, Flat, Shaped, Wrap, LevelRep, Within, Splice;
      i := LowerBound(levels, side, price);
      if i == |levels| || levels[i].price != price {
        InsertPrep(i, price);
        var l := new PriceLevel(price);
        NewLevel(l, side, slots, members);
        levels := Splice(levels, i, l);
        nested := Splice(nested, i, Level(price, []));
        OkFrom();
      } else {
        LevelAt(i);
      }
    }

    static function JoinOrder(v: Level, r: Resting): Level {
      v.(orders := v.orders + [r])
    }

    /** push_back adds the full quantity; taking the earlier fills off leaves what is open. */
    static lemma JoinAggregate(v: Level, r: Resting)
      requires r.filled <= r.qty
      ensures Wrap(Sum(JoinOrder(v, r).orders)) == Wrap(Wrap(Wrap(Sum(v.orders)) + r.qty) - r.filled)
    {
      SumConcat(v.orders, [r]);
      SumSingle(r);
      WrapOfWrap(Sum(v.orders), r.qty);
      WrapOfWrap(Sum(v.orders) + r.qty, 0 - r.filled);
    }

    lemma PushPrep(k: nat, o: Order, r: Resting)
      requires Ok() && k < |levels| && o !in members
      requires o.side == side && o.price == nested[k].price == r.price && r.filled <= r.qty
      requires r.slot < |slots| && slots[r.slot] == o
      ensures levels[k].Linked() && |levels| == |nested| && levels[k].price == o.price == JoinOrder(nested[k], r).price
      ensures forall i :: 0 <= i < |levels| && i != k ==> levels[i] != levels[k]
      ensures forall i, x {:trigger levels[i].q[x]} :: 0 <= i < |levels| && i != k && 0 <= x < |levels[i].q| ==>
                levels[i].q[x] !in levels[k].q
      ensures Wrap(Wrap(levels[k].totalQty + r.qty) - r.filled) == Wrap(Sum(JoinOrder(nested[k], r).orders))
      ensures Shaped(side, nested[k := JoinOrder(nested[k], r)])
      ensures Spells(levels[k].q + [o], side, JoinOrder(nested[k], r), slots)
      ensures forall i :: 0 <= i < |levels| && i != k ==>
                LevelRep(levels[i], side, nested[i], slots) && Within(levels[i], members + {o})
      ensures forall i, x {:trigger levels[i].q[x]} :: 0 <= i < |levels| && 0 <= x < |levels[i].q| ==> levels[i].q[x] in members
      ensures forall x :: x in members ==> x.side == side
    {
      LevelsDiffer(k);
      JoinAggregate(nested[k], r);
      ShapedReplace(side, nested, k, JoinOrder(nested[k], r));
      OthersApart(k);
    }

    /** The tail of rest_order: push_back, then the correction for fills made as a taker. */
    method PushInto(k: nat, o: Order, ghost r: Resting)
      requires Ok() && k < |levels| && o !in members
      requires o.side == side && o.price == nested[k].price == r.price
      requires o.quantity == r.qty && o.filledQty == r.filled <= r.qty && r.slot < |slots| && slots[r.slot] == o
      modifies `nested, `members, levels, o`prev, o`next, members`next
      ensures Ok() && nested == old(nested)[k := JoinOrder(old(nested)[k], r)] && levels == old(levels)
      ensures members == old(members) + {o}
    {
      hide Ok, Wrap, Sum, Shaped, LevelRep, Within, Spells, JoinOrder, PriceLevel.Linked;
      PushPrep(k, o, r);
      nested := nested[k := JoinOrder(nested[k], r)];
      members := members + {o};
      var l := levels[k];
      l.price := o.price;
      l.PushBack(o);
      l.totalQty := Wrap(l.totalQty - o.filledQty);
      LevelFrom(l, side, nested[k], slots);
      Dropped(l, members);
      OkFrom();
    }

    /** rest_order on this side. */
    method RestOrder(o: Order, ghost r: Resting)
      requires Ok() && o !in members
      requires o.side == side && o.price == r.price
      requires o.quantity == r.qty && o.filledQty == r.filled <= r.qty && r.slot < |slots| && slots[r.slot] == o
      modifies `levels, `nested, `members, levels, o`prev, o`next, members`next
      ensures Ok() && Flat(nested) == Insert(side, Flat(old(nested)), r)
      ensures members == old(members) + {o}
      ensures forall k :: 0 <= k < |levels| ==> levels[k] in old(levels) || fresh(levels[k])
      ensures NoneEmpty(old(nested)) ==> NoneEmpty(nested)
    {
      hide Flat, Insert, Wrap, Sum, LevelRep;
      var i := AtOrInsert(o.price);
      InsertIntoLevel(side, nested, i, r);
      PushInto(i, o, r);
    }

    /** Behind a level out of reach every level is out of reach. */
    lemma OutOfReach(limit: int, i: nat)
      requires Ok() && i < |nested| && Better(side, limit, nested[i].price)
      ensures forall k :: i <= k < |nested| ==> Better(side, limit, nested[k].price)
    {
      forall k | i <= k < |nested|
        ensures Better(side, limit, nested[k].price)
      {
        assert k > i ==> Better(side, nested[i].price, nested[k].price);
      }
    }

    /** The loop of check_fok_fillable on this side: accumulates aggregates in 32 bits until they suffice. */
    method Available(limit: Price, want: Quantity) returns (available: Quantity, ghost n: nat)
      requires Ok() && want > 0
      ensures StopsAfter(side, nested, limit, want, n) && available == Wrap(Sum(Flat(nested[..n])))
      ensures available >= want <==> exists k :: 0 <= k < |nested| && EnoughAt(side, nested, limit, want, k)
    {
      hide Ok, Wrap, Sum, Flat;
      available, n := 0, 0;
      var i := 0;
      SameLength();
      assert Wrap(Sum(Flat(nested[..0]))) == 0 by { EmptySum(nested); }
      while i < |levels|
        invariant 0 <= i <= |levels| && n == i && available == Wrap(Sum(Flat(nested[..i]))) && available < want
        invariant forall k :: 0 <= k < i ==> !Better(side, limit, nested[k].price) && Wrap(Sum(Flat(nested[..k]))) < want
        invariant forall k :: 0 <= k < i ==> !EnoughAt(side, nested, limit, want, k)
      {
        LevelAt(i);
        if Better(side, limit, levels[i].price) {
          OutOfReach(limit, i);
          return;
        }
        SumNextLevel(nested, i);
        WrapOfWrap(Sum(Flat(nested[..i])), Sum(nested[i].orders));
        WrapOfWrap(Sum(nested[i].orders), available);
        available := Wrap(available + levels[i].totalQty);
        n := i + 1;
        if available >= want {
          assert EnoughAt(side, nested, limit, want, i);
          return;
        }
        i := i + 1;
      }
    }

    static lemma EmptySum(nv: seq<Level>)
      ensures Wrap(Sum(Flat(nv[..0]))) == 0
    {
      assert nv[..0] == [];
    }
  }
}
