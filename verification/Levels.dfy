/** A side of the book cut into price levels, and how edits of levels read on the flat queue. */
module Levels {
  import opened OrderTypes
  import opened PriceTimeQueue
  import opened BookSpec

  datatype Level = Level(price: int, orders: seq<Resting>)

  function Flat(nv: seq<Level>): seq<Resting> {
    if nv == [] then [] else nv[0].orders + Flat(nv[1..])
  }

  /** Levels in strict price order, each holding orders at its own price only. */
  ghost predicate Shaped(side: Side, nv: seq<Level>) {
    && (forall i, j {:trigger Better(side, nv[i].price, nv[j].price)} :: 0 <= i < j < |nv| ==>
          Better(side, nv[i].price, nv[j].price))
    && (forall i :: 0 <= i < |nv| ==> AllAt(nv[i]))
  }

  ghost predicate AllAt(l: Level) {
    forall j :: 0 <= j < |l.orders| ==> l.orders[j].price == l.price
  }

  ghost predicate NoneEmpty(nv: seq<Level>) {
    forall i :: 0 <= i < |nv| ==> nv[i].orders != []
  }

  lemma {:induction false} FlatConcat(a: seq<Level>, b: seq<Level>)
    ensures Flat(a + b) == Flat(a) + Flat(b)
  {
    if a == [] {
      assert a + b == b;
    } else {
      assert (a + b)[1..] == a[1..] + b;
      FlatConcat(a[1..], b);
    }
  }

  /** The flat queue around level `i`. */
  lemma FlatSplit(nv: seq<Level>, i: nat)
    requires i < |nv|
    ensures Flat(nv) == Flat(nv[..i]) + nv[i].orders + Flat(nv[i+1..])
  {
    FlatCut(nv, i);
  }

  lemma FlatReplace(nv: seq<Level>, i: nat, l: Level)
    requires i < |nv|
    ensures Flat(nv[i := l]) == Flat(nv[..i]) + l.orders + Flat(nv[i+1..])
  {
    FlatSplit(nv[i := l], i);
    assert nv[i := l][..i] == nv[..i] && nv[i := l][i+1..] == nv[i+1..];
  }

  lemma FlatInsertLevel(nv: seq<Level>, i: nat, l: Level)
    requires i <= |nv|
    ensures Flat(nv[..i] + [l] + nv[i..]) == Flat(nv[..i]) + l.orders + Flat(nv[i..])
  {
    FlatConcat(nv[..i] + [l], nv[i..]);
    FlatConcat(nv[..i], [l]);
    assert Flat([l]) == l.orders + Flat([]);
  }

  lemma FlatEraseLevel(nv: seq<Level>, i: nat)
    requires i < |nv| && nv[i].orders == []
    ensures Flat(nv[..i] + nv[i+1..]) == Flat(nv)
  {
    FlatSplit(nv, i);
    FlatConcat(nv[..i], nv[i+1..]);
  }

  /** Which level, and where in it, the flat position `k` lies. */
  lemma {:induction false} Locate(nv: seq<Level>, k: nat) returns (i: nat, j: nat)
    requires k < |Flat(nv)|
    ensures i < |nv| && j < |nv[i].orders| && k == |Flat(nv[..i])| + j && nv[i].orders[j] == Flat(nv)[k]
  {
    if k < |nv[0].orders| {
      i, j := 0, k;
    } else {
      i, j := Locate(nv[1..], k - |nv[0].orders|);
      assert nv[..i+1][1..] == nv[1..][..i];
      i := i + 1;
    }
  }

  lemma FlatRemove(nv: seq<Level>, i: nat, j: nat)
    requires i < |nv| && j < |nv[i].orders|
    ensures |Flat(nv[..i])| + j < |Flat(nv)|
    ensures Flat(nv[i := Level(nv[i].price, RemoveAt(nv[i].orders, j))]) == RemoveAt(Flat(nv), |Flat(nv[..i])| + j)
  {
    FlatSplit(nv, i);
    RemoveBetween(Flat(nv[..i]), nv[i].orders, Flat(nv[i+1..]), j);
    FlatReplace(nv, i, Level(nv[i].price, RemoveAt(nv[i].orders, j)));
  }

  lemma FlatUpdate(nv: seq<Level>, i: nat, j: nat, r: Resting)
    requires i < |nv| && j < |nv[i].orders|
    ensures |Flat(nv[..i])| + j < |Flat(nv)|
    ensures Flat(nv[i := Level(nv[i].price, nv[i].orders[j := r])]) == Flat(nv)[|Flat(nv[..i])| + j := r]
  {
    FlatSplit(nv, i);
    FlatReplace(nv, i, Level(nv[i].price, nv[i].orders[j := r]));
  }

  /** Every order of the levels `nv` has a price no worse, resp. strictly worse, than `p`. */
  lemma {:induction false} FlatPrices(side: Side, nv: seq<Level>, p: int, worse: bool)
    requires forall i :: 0 <= i < |nv| ==> AllAt(nv[i]) && Better(side, p, nv[i].price) == worse
    ensures Worse(side, Flat(nv), p, worse)
  {
    if nv != [] {
      FlatPrices(side, nv[1..], p, worse);
    }
  }

  /** The levels before `i` are no worse than a price none of them is worse than. */
  lemma BeforeLevel(side: Side, nv: seq<Level>, i: nat, p: int)
    requires Shaped(side, nv) && i <= |nv|
    requires forall k :: 0 <= k < i ==> !Better(side, p, nv[k].price)
    ensures Worse(side, Flat(nv[..i]), p, false)
  {
    assert forall k :: 0 <= k < i ==> AllAt(nv[k]) && nv[..i][k] == nv[k];
    FlatPrices(side, nv[..i], p, false);
  }

  /** From the first level that `p` beats, it beats them all. */
  lemma FromLevel(side: Side, nv: seq<Level>, i: nat, p: int)
    requires Shaped(side, nv) && i <= |nv|
    requires i < |nv| ==> Better(side, p, nv[i].price)
    ensures forall k :: i <= k < |nv| ==> Better(side, p, nv[k].price)
    ensures Worse(side, Flat(nv[i..]), p, true)
  {
    var b := nv[i..];
    forall k | 0 <= k < |b|
      ensures b[k] == nv[i + k] && AllAt(b[k]) && Better(side, p, b[k].price)
    {
      assert k > 0 ==> Better(side, nv[i].price, nv[i + k].price);
    }
    assert forall k :: i <= k < |nv| ==> nv[k] == b[k - i];
    FlatPrices(side, b, p, true);
  }

  /** Everything up to level `i` is no worse than its price, everything behind is. */
  lemma PricesAround(side: Side, nv: seq<Level>, i: nat)
    requires Shaped(side, nv) && i < |nv|
    ensures Worse(side, Flat(nv[..i+1]), nv[i].price, false) && Worse(side, Flat(nv[i+1..]), nv[i].price, true)
  {
    hide Flat;
    assert forall k :: 0 <= k < i ==> Better(side, nv[k].price, nv[i].price);
    BeforeLevel(side, nv, i + 1, nv[i].price);
    assert i + 1 < |nv| ==> Better(side, nv[i].price, nv[i+1].price);
    FromLevel(side, nv, i + 1, nv[i].price);
  }

  lemma FlatAround(nv: seq<Level>, i: nat)
    requires i < |nv|
    ensures Flat(nv) == Flat(nv[..i+1]) + Flat(nv[i+1..])
    ensures Flat(nv[..i+1]) == Flat(nv[..i]) + nv[i].orders
  {
    FlatUpTo(nv, i);
    FlatCut(nv, i + 1);
  }

  lemma FlatCut(nv: seq<Level>, i: nat)
    requires i <= |nv|
    ensures Flat(nv) == Flat(nv[..i]) + Flat(nv[i..])
  {
    assert nv == nv[..i] + nv[i..];
    FlatConcat(nv[..i], nv[i..]);
  }

  lemma FlatUpTo(nv: seq<Level>, i: nat)
    requires i < |nv|
    ensures Flat(nv[..i+1]) == Flat(nv[..i]) + nv[i].orders
  {
    assert nv[..i+1] == nv[..i] + [nv[i]];
    FlatConcat(nv[..i], [nv[i]]);
    assert Flat([nv[i]]) == nv[i].orders + Flat([]);
  }

  /** Appending to the level at the order's own price is insertion into the flat queue. */
  lemma InsertIntoLevel(side: Side, nv: seq<Level>, i: nat, r: Resting)
    requires Shaped(side, nv) && i < |nv| && nv[i].price == r.price
    ensures Flat(nv[i := Level(nv[i].price, nv[i].orders + [r])]) == Insert(side, Flat(nv), r)
    ensures Shaped(side, nv[i := Level(nv[i].price, nv[i].orders + [r])])
  {
    PricesAround(side, nv, i);
    FlatAround(nv, i);
    InsertBetween(side, Flat(nv[..i+1]), Flat(nv[i+1..]), r);
    FlatReplace(nv, i, Level(nv[i].price, nv[i].orders + [r]));
    assert Flat(nv[..i]) + (nv[i].orders + [r]) == Flat(nv[..i+1]) + [r];
    ShapedReplace(side, nv, i, Level(nv[i].price, nv[i].orders + [r]));
  }

  lemma ShapedReplace(side: Side, nv: seq<Level>, i: nat, l: Level)
    requires Shaped(side, nv) && i < |nv| && l.price == nv[i].price && AllAt(l)
    ensures Shaped(side, nv[i := l])
  {
  }

  lemma ShapedErase(side: Side, nv: seq<Level>, i: nat)
    requires Shaped(side, nv) && i < |nv|
    ensures Shaped(side, nv[..i] + nv[i+1..])
  {
  }

  /** A new, still empty level goes in front of the first one it beats. */
  lemma InsertEmptyLevel(side: Side, nv: seq<Level>, i: nat, price: int)
    requires Shaped(side, nv) && i <= |nv|
    requires forall k :: 0 <= k < i ==> Better(side, nv[k].price, price)
    requires i < |nv| ==> Better(side, price, nv[i].price)
    ensures Flat(nv[..i] + [Level(price, [])] + nv[i..]) == Flat(nv)
    ensures Shaped(side, nv[..i] + [Level(price, [])] + nv[i..])
  {
    hide Flat, Shaped;
    FlatInsertLevel(nv, i, Level(price, []));
    FlatCut(nv, i);
    FromLevel(side, nv, i, price);
    ShapedInsert(side, nv, i, Level(price, []));
  }

  lemma ShapedInsert(side: Side, nv: seq<Level>, i: nat, l: Level)
    requires Shaped(side, nv) && i <= |nv| && AllAt(l)
    requires forall k :: 0 <= k < i ==> Better(side, nv[k].price, l.price)
    requires forall k :: i <= k < |nv| ==> Better(side, l.price, nv[k].price)
    ensures Shaped(side, nv[..i] + [l] + nv[i..])
  {
  }

  // ---------------------------------------------------------------- cumulative depth

  lemma {:induction false} CumConcat(side: Side, a: seq<Resting>, b: seq<Resting>, p: int)
    ensures CumDepth(side, a + b, p) == CumDepth(side, a, p) + CumDepth(side, b, p)
  {
    if a == [] {
      assert a + b == b;
    } else {
      assert (a + b)[1..] == a[1..] + b;
      CumConcat(side, a[1..], b, p);
    }
  }

  /** A stretch of the queue counts in full, or not at all. */
  lemma {:induction false} CumUniform(side: Side, q: seq<Resting>, p: int, worse: bool)
    requires Worse(side, q, p, worse)
    ensures CumDepth(side, q, p) == if worse then 0 else Sum(q)
  {
    if q != [] {
      CumUniform(side, q[1..], p, worse);
    }
  }

  /** The depth at a level's price is what the levels up to it hold. */
  lemma CumAtLevel(side: Side, nv: seq<Level>, i: nat)
    requires Shaped(side, nv) && i < |nv|
    ensures CumDepth(side, Flat(nv), nv[i].price) == Sum(Flat(nv[..i+1]))
  {
    var p, a, b := nv[i].price, Flat(nv[..i+1]), Flat(nv[i+1..]);
    PricesAround(side, nv, i);
    FlatAround(nv, i);
    CumConcat(side, a, b, p);
    CumUniform(side, a, p, false);
    CumUniform(side, b, p, true);
  }

  lemma SumNextLevel(nv: seq<Level>, i: nat)
    requires i < |nv|
    ensures Sum(Flat(nv[..i+1])) == Sum(Flat(nv[..i])) + Sum(nv[i].orders)
  {
    assert nv[..i+1] == nv[..i] + [nv[i]];
    FlatConcat(nv[..i], [nv[i]]);
    assert Flat([nv[i]]) == nv[i].orders + Flat([]) == nv[i].orders;
    SumConcat(Flat(nv[..i]), nv[i].orders);
  }

  /** Up to some level within the limit, the depth accumulated in 32 bits reaches `want`. */
  ghost predicate EnoughAt(side: Side, nv: seq<Level>, limit: int, want: int, k: nat)
    requires k < |nv|
  {
    !Better(side, limit, nv[k].price) && Wrap(Sum(Flat(nv[..k+1]))) >= want
  }

  /** The pre-check over levels is the pre-check over the flat queue. */
  lemma EnoughIsFokAccepts(nv: seq<Level>, t: Taker)
    requires Shaped(t.side.Opposite(), nv) && NoneEmpty(nv)
    ensures (exists k :: 0 <= k < |nv| && EnoughAt(t.side.Opposite(), nv, t.price, t.qty, k)) <==> FokAccepts(Flat(nv), t)
  {
    var side, q := t.side.Opposite(), Flat(nv);
    if k :| 0 <= k < |nv| && EnoughAt(side, nv, t.price, t.qty, k) {
      CumAtLevel(side, nv, k);
      FlatSplit(nv, k);
      assert q[|Flat(nv[..k])|] == nv[k].orders[0];
    }
    if j :| 0 <= j < |q| && Reaches(t.side, t.price, q[j].price) && Wrap(CumDepth(side, q, q[j].price)) >= t.qty {
      var i, x := Locate(nv, j);
      assert AllAt(nv[i]);
      CumAtLevel(side, nv, i);
      assert EnoughAt(side, nv, t.price, t.qty, i);
    }
  }

  /**
   The accumulation of the pre-check stops after `n` levels: they are within the limit, no shorter
   sum was enough, and this one is, or nothing more is within the limit.
   */
  ghost predicate StopsAfter(side: Side, nv: seq<Level>, limit: int, want: int, n: nat) {
    && n <= |nv|
    && (forall i :: 0 <= i < n ==> !Better(side, limit, nv[i].price))
    && (forall i :: 0 <= i < n ==> Wrap(Sum(Flat(nv[..i]))) < want)
    && (n == |nv| || Better(side, limit, nv[n].price) || Wrap(Sum(Flat(nv[..n]))) >= want)
  }

  /** The pre-check stops at the price of order `k`. */
  ghost predicate StopsAtOrder(q: seq<Resting>, t: Taker, k: nat) {
    var s := t.side.Opposite();
    && k < |q| && Reaches(t.side, t.price, q[k].price)
    && (forall i :: 0 <= i < |q| && Better(s, q[i].price, q[k].price) ==> Wrap(CumDepth(s, q, q[i].price)) < t.qty)
    && (Wrap(CumDepth(s, q, q[k].price)) >= t.qty
        || forall i :: 0 <= i < |q| && Reaches(t.side, t.price, q[i].price) ==> !Better(s, q[k].price, q[i].price))
  }

  /**
   The amount the pre-check reports: the 32-bit depth at the first price within the limit where it
   suffices, or at the last price within the limit, or 0 if there is none.
   */
  ghost predicate FokAmount(q: seq<Resting>, t: Taker, amount: int) {
    || (amount == 0 && forall i :: 0 <= i < |q| ==> !Reaches(t.side, t.price, q[i].price))
    || exists k: nat :: StopsAtOrder(q, t, k) && amount == Wrap(CumDepth(t.side.Opposite(), q, q[k].price))
  }

  /** What an order at any flat position says about its level. */
  lemma LevelOf(side: Side, nv: seq<Level>, i: nat) returns (j: nat)
    requires Shaped(side, nv) && i < |Flat(nv)|
    ensures j < |nv| && Flat(nv)[i].price == nv[j].price
    ensures CumDepth(side, Flat(nv), Flat(nv)[i].price) == Sum(Flat(nv[..j+1]))
  {
    var x;
    j, x := Locate(nv, i);
    assert AllAt(nv[j]);
    CumAtLevel(side, nv, j);
  }

  lemma StopsAtOnce(nv: seq<Level>, t: Taker)
    requires Shaped(t.side.Opposite(), nv) && StopsAfter(t.side.Opposite(), nv, t.price, t.qty, 0) && t.qty > 0
    ensures forall i :: 0 <= i < |Flat(nv)| ==> !Reaches(t.side, t.price, Flat(nv)[i].price)
    ensures Wrap(Sum(Flat(nv[..0]))) == 0
  {
    assert nv[..0] == [];
    forall i | 0 <= i < |Flat(nv)|
      ensures !Reaches(t.side, t.price, Flat(nv)[i].price)
    {
      var j := LevelOf(t.side.Opposite(), nv, i);
      assert j > 0 ==> Better(t.side.Opposite(), nv[0].price, nv[j].price);
    }
  }

  /** The first order of level `n - 1` is where an accumulation over `n` levels stops. */
  lemma StopsBehind(nv: seq<Level>, t: Taker, n: nat) returns (k: nat)
    requires Shaped(t.side.Opposite(), nv) && NoneEmpty(nv) && n > 0
    requires StopsAfter(t.side.Opposite(), nv, t.price, t.qty, n)
    ensures StopsAtOrder(Flat(nv), t, k)
    ensures Wrap(CumDepth(t.side.Opposite(), Flat(nv), Flat(nv)[k].price)) == Wrap(Sum(Flat(nv[..n])))
  {
    hide CumDepth, Sum, Wrap;
    var s, q := t.side.Opposite(), Flat(nv);
    k := |Flat(nv[..n-1])|;
    FlatSplit(nv, n - 1);
    assert q[k] == nv[n-1].orders[0] && AllAt(nv[n-1]);
    CumAtLevel(s, nv, n - 1);
    forall i | 0 <= i < |q| && Better(s, q[i].price, q[k].price)
      ensures Wrap(CumDepth(s, q, q[i].price)) < t.qty
    {
      var j := LevelOf(s, nv, i);
      assert j > n - 1 ==> Better(s, nv[n-1].price, nv[j].price);
    }
    if Wrap(Sum(Flat(nv[..n]))) < t.qty {
      forall i | 0 <= i < |q| && Reaches(t.side, t.price, q[i].price)
        ensures !Better(s, q[k].price, q[i].price)
      {
        var j := LevelOf(s, nv, i);
        assert j > n && n < |nv| ==> Better(s, nv[n].price, nv[j].price);
        assert j < n - 1 ==> Better(s, nv[j].price, nv[n-1].price);
      }
    }
  }

  /** The accumulation over levels reports the amount that the flat queue defines. */
  lemma StopsAfterIsFokAmount(nv: seq<Level>, t: Taker, n: nat)
    requires Shaped(t.side.Opposite(), nv) && NoneEmpty(nv) && t.qty > 0
    requires StopsAfter(t.side.Opposite(), nv, t.price, t.qty, n)
    ensures FokAmount(Flat(nv), t, Wrap(Sum(Flat(nv[..n]))))
  {
    hide StopsAfter, StopsAtOrder, Flat, CumDepth, Sum, Wrap, Shaped, NoneEmpty;
    if n == 0 {
      StopsAtOnce(nv, t);
    } else {
      var k := StopsBehind(nv, t, n);
    }
  }

  // ---------------------------------------------------------------- depth snapshots

  datatype DepthEntry = DepthEntry(price: int, qty: nat, count: nat)

  /** How many leading orders have the price `p`. */
  function AtPrice(q: seq<Resting>, p: int): (k: nat)
    ensures k <= |q|
    ensures forall i :: 0 <= i < k ==> q[i].price == p
    ensures k < |q| ==> q[k].price != p
  {
    if q == [] || q[0].price != p then 0 else 1 + AtPrice(q[1..], p)
  }

  /** The first `n` prices of a queue, each with its open quantity (32-bit) and its number of orders. */
  function Ladder(q: seq<Resting>, n: nat): seq<DepthEntry>
    decreases |q|
  {
    if q == [] || n == 0 then []
    else
      var k := AtPrice(q, q[0].price);
      [DepthEntry(q[0].price, Wrap(Sum(q[..k])), k)] + Ladder(q[k..], n - 1)
  }

  function Rung(l: Level): DepthEntry {
    DepthEntry(l.price, Wrap(Sum(l.orders)), |l.orders|)
  }

  function Rungs(nv: seq<Level>): seq<DepthEntry> {
    if nv == [] then [] else Rungs(nv[..|nv|-1]) + [Rung(nv[|nv|-1])]
  }

  lemma {:induction false} RungsCons(l: Level, nv: seq<Level>)
    ensures Rungs([l] + nv) == [Rung(l)] + Rungs(nv)
  {
    if nv == [] {
      assert [l] + nv == [l] && [l][..0] == [];
    } else {
      RungsCons(l, nv[..|nv|-1]);
      assert ([l] + nv)[..|nv|] == [l] + nv[..|nv|-1];
    }
  }

  lemma RungsNext(nv: seq<Level>, i: nat)
    requires i < |nv|
    ensures Rungs(nv[..i+1]) == Rungs(nv[..i]) + [Rung(nv[i])] && Rungs(nv[..0]) == []
  {
    assert nv[..i+1][..i] == nv[..i];
  }

  /** The head level is exactly the leading orders of its price. */
  lemma HeadLevel(side: Side, nv: seq<Level>)
    requires Shaped(side, nv) && NoneEmpty(nv) && nv != []
    ensures Flat(nv) != [] && Flat(nv)[0].price == nv[0].price
    ensures AtPrice(Flat(nv), nv[0].price) == |nv[0].orders|
    ensures Flat(nv)[..|nv[0].orders|] == nv[0].orders && Flat(nv)[|nv[0].orders|..] == Flat(nv[1..])
  {
    var q, k := Flat(nv), AtPrice(Flat(nv), nv[0].price);
    if |nv| > 1 {
      assert Better(side, nv[0].price, nv[1].price);
      assert nv[1].orders != [] && Flat(nv[1..]) == nv[1].orders + Flat(nv[1..][1..]);
      assert q[|nv[0].orders|] == nv[1].orders[0];
    } else {
      assert nv[1..] == [];
    }
  }

  /** On a side cut into levels the ladder reads off the levels. */
  lemma {:induction false} LadderReadsLevels(side: Side, nv: seq<Level>, n: nat)
    requires Shaped(side, nv) && NoneEmpty(nv)
    ensures Ladder(Flat(nv), n) == Rungs(nv[..Min(n, |nv|)])
  {
    hide Flat, Rungs, Shaped, NoneEmpty, AtPrice;
    if nv == [] {
      FlatNone();
    } else if n > 0 {
      HeadLevel(side, nv);
      ShapedTail(side, nv);
      LadderReadsLevels(side, nv[1..], n - 1);
      RungsCons(nv[0], nv[1..][..Min(n - 1, |nv| - 1)]);
      assert nv[..Min(n, |nv|)] == [nv[0]] + nv[1..][..Min(n - 1, |nv| - 1)];
    } else {
      FlatNone();
    }
  }

  lemma FlatNone()
    ensures Flat([]) == [] && Rungs([]) == []
  {
  }

  lemma ShapedTail(side: Side, nv: seq<Level>)
    requires Shaped(side, nv) && NoneEmpty(nv) && nv != []
    ensures Shaped(side, nv[1..]) && NoneEmpty(nv[1..])
  {
    forall i, j | 0 <= i < j < |nv| - 1
      ensures Better(side, nv[1..][i].price, nv[1..][j].price)
    {
      assert Better(side, nv[i+1].price, nv[j+1].price);
    }
  }
}
