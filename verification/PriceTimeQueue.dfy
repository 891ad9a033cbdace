/**
 One side of the book as a single flat queue in price-time order, and the greedy fill over it.
 This is the reference the level-by-level engine of order_book.cpp is proved against.
 */
module PriceTimeQueue {
  import opened OrderTypes

  /** A resting order. `slot` is its pool slot, `stamp` the logical time at which it joined its level. */
  datatype Resting = Resting(id: OrderId, price: int, qty: nat, filled: nat, slot: nat, stamp: nat)

  /** An incoming order while it is being matched. */
  datatype Taker = Taker(id: OrderId, side: Side, otype: OrderType, price: int, qty: nat, filled: nat, slot: nat)

  function Open(r: Resting): nat {
    if r.filled <= r.qty then r.qty - r.filled else 0
  }

  function Left(t: Taker): nat {
    if t.filled <= t.qty then t.qty - t.filled else 0
  }

  function Sum(q: seq<Resting>): nat {
    if q == [] then 0 else Open(q[0]) + Sum(q[1..])
  }

  /** `p` is a strictly better price than `p'` for makers on `side`. */
  predicate Better(side: Side, p: int, p': int) {
    if side.BID? then p > p' else p < p'
  }

  /** A taker on `side` with limit `limit` accepts the maker price `px`. */
  predicate Reaches(side: Side, limit: int, px: int) {
    !Better(side.Opposite(), limit, px)
  }

  /** The price check of the match loops: LIMIT only. */
  predicate Crosses(t: Taker, px: int) {
    t.otype.LIMIT? ==> Reaches(t.side, t.price, px)
  }

  /** `a` has priority over `b`: a better price, or the same price and an earlier stamp. */
  predicate Prior(side: Side, a: Resting, b: Resting) {
    Better(side, a.price, b.price) || (a.price == b.price && a.stamp < b.stamp)
  }

  predicate Ahead(side: Side, a: Resting, b: Resting) {
    Prior(side, a, b) && a.id != b.id
  }

  /** Price-time order, over distinct orders. */
  ghost predicate Sorted(side: Side, q: seq<Resting>) {
    forall i, j {:trigger Ahead(side, q[i], q[j])} :: 0 <= i < j < |q| ==> Ahead(side, q[i], q[j])
  }

  ghost predicate AllOpen(q: seq<Resting>) {
    forall i :: 0 <= i < |q| ==> Open(q[i]) > 0
  }

  // ---------------------------------------------------------------- queue edits

  /** An order joins behind every order with a price at least as good. */
  function InsertPos(side: Side, q: seq<Resting>, price: int): (k: nat)
    ensures k <= |q|
    ensures forall i :: 0 <= i < k ==> !Better(side, price, q[i].price)
    ensures k < |q| ==> Better(side, price, q[k].price)
  {
    if q == [] || Better(side, price, q[0].price) then 0 else 1 + InsertPos(side, q[1..], price)
  }

  function InsertAt(q: seq<Resting>, k: nat, r: Resting): seq<Resting>
    requires k <= |q|
  {
    q[..k] + [r] + q[k..]
  }

  function Insert(side: Side, q: seq<Resting>, r: Resting): seq<Resting> {
    InsertAt(q, InsertPos(side, q, r.price), r)
  }

  function RemoveAt(q: seq<Resting>, k: nat): seq<Resting>
    requires k < |q|
  {
    q[..k] + q[k+1..]
  }

  function Find(q: seq<Resting>, id: OrderId): (k: nat)
    ensures k <= |q|
    ensures k < |q| ==> q[k].id == id
    ensures forall i :: 0 <= i < k ==> q[i].id != id
  {
    if q == [] || q[0].id == id then 0 else 1 + Find(q[1..], id)
  }

  lemma {:induction false} SumConcat(a: seq<Resting>, b: seq<Resting>)
    ensures Sum(a + b) == Sum(a) + Sum(b)
  {
    if a == [] {
      assert a + b == b;
    } else {
      assert (a + b)[1..] == a[1..] + b;
      SumConcat(a[1..], b);
    }
  }

  lemma SumSingle(r: Resting)
    ensures Sum([r]) == Open(r)
  {
    assert [r][1..] == [];
  }

  lemma SumSplit(q: seq<Resting>, k: nat)
    requires k < |q|
    ensures Sum(q) == Sum(q[..k]) + Open(q[k]) + Sum(q[k+1..])
    ensures Sum(q[..k+1]) == Sum(q[..k]) + Open(q[k])
  {
    hide Sum;
    assert q == q[..k] + ([q[k]] + q[k+1..]);
    assert q[..k+1] == q[..k] + [q[k]];
    SumConcat(q[..k], [q[k]] + q[k+1..]);
    SumConcat(q[..k], [q[k]]);
    SumConcat([q[k]], q[k+1..]);
    SumSingle(q[k]);
  }

  lemma SumRemove(q: seq<Resting>, k: nat)
    requires k < |q|
    ensures Sum(RemoveAt(q, k)) == Sum(q) - Open(q[k])
  {
    SumSplit(q, k);
    SumConcat(q[..k], q[k+1..]);
  }

  lemma SumUpdate(q: seq<Resting>, k: nat, r: Resting)
    requires k < |q|
    ensures Sum(q[k := r]) == Sum(q) - Open(q[k]) + Open(r)
  {
    SumSplit(q, k);
    SumSplit(q[k := r], k);
    assert q[k := r][..k] == q[..k] && q[k := r][k+1..] == q[k+1..];
  }

  /** In a sorted queue the insertion position of a price is the only place that keeps it sorted. */
  lemma InsertPosUnique(side: Side, q: seq<Resting>, price: int, k: nat)
    requires k <= |q|
    requires forall i :: 0 <= i < k ==> !Better(side, price, q[i].price)
    requires k < |q| ==> Better(side, price, q[k].price)
    ensures InsertPos(side, q, price) == k
  {
  }

  /** Every order of `q` is strictly worse priced than `p`, or none is. */
  ghost predicate Worse(side: Side, q: seq<Resting>, p: int, worse: bool) {
    forall i :: 0 <= i < |q| ==> Better(side, p, q[i].price) == worse
  }

  lemma InsertBetween(side: Side, a: seq<Resting>, b: seq<Resting>, r: Resting)
    requires Worse(side, a, r.price, false) && Worse(side, b, r.price, true)
    ensures Insert(side, a + b, r) == a + [r] + b
  {
    InsertPosUnique(side, a + b, r.price, |a|);
  }

  lemma RemoveBetween(a: seq<Resting>, o: seq<Resting>, b: seq<Resting>, j: nat)
    requires j < |o|
    ensures RemoveAt(a + o + b, |a| + j) == a + RemoveAt(o, j) + b
  {
    assert (a + o + b)[..|a| + j] == a + o[..j];
    assert (a + o + b)[|a| + j + 1..] == o[j+1..] + b;
  }

  /** Replacing an order by one of the same id, price and stamp. */
  lemma SortedUpdate(side: Side, q: seq<Resting>, k: nat, r: Resting)
    requires Sorted(side, q) && k < |q|
    requires r.id == q[k].id && r.price == q[k].price && r.stamp == q[k].stamp
    ensures Sorted(side, q[k := r])
  {
    var q' := q[k := r];
    forall i, j | 0 <= i < j < |q'|
      ensures Ahead(side, q'[i], q'[j])
    {
      assert Ahead(side, q[i], q[j]);
    }
  }

  lemma SortedRemove(side: Side, q: seq<Resting>, k: nat)
    requires Sorted(side, q) && k < |q|
    ensures Sorted(side, RemoveAt(q, k))
  {
  }

  /** A newcomer with a fresh id and the latest stamp joins behind its price. */
  lemma SortedInsert(side: Side, q: seq<Resting>, r: Resting)
    requires Sorted(side, q)
    requires forall i :: 0 <= i < |q| ==> q[i].id != r.id && q[i].stamp < r.stamp
    ensures Sorted(side, Insert(side, q, r))
  {
    var p := InsertPos(side, q, r.price);
    var q' := Insert(side, q, r);
    forall i, j | 0 <= i < j < |q'|
      ensures Ahead(side, q'[i], q'[j])
    {
      if i != p && j != p {
        assert Ahead(side, q[if i < p then i else i - 1], q[if j < p then j else j - 1]);
      } else if i == p && j > p + 1 {
        assert Ahead(side, q[p], q[j-1]);
      }
    }
  }

  // ---------------------------------------------------------------- the greedy fill

  /** What a taker leaves of the queue, its trades in order, and what it could not fill. */
  datatype FillResult = FillResult(rest: seq<Resting>, trades: seq<Trade>, left: nat)

  function Traded(t: Taker, f: nat): Taker {
    t.(filled := t.filled + f)
  }

  function Dent(r: Resting, f: nat): Resting {
    r.(filled := r.filled + f)
  }

  function TradeWith(t: Taker, r: Resting): nat {
    Min(Left(t), Open(r))
  }

  function Fill(q: seq<Resting>, t: Taker): FillResult {
    if q == [] || Left(t) == 0 || !Crosses(t, q[0].price) then FillResult(q, [], Left(t))
    else
      var f := TradeWith(t, q[0]);
      var trade := Trade(q[0].id, t.id, q[0].price, f);
      if f == Open(q[0]) then
        var r := Fill(q[1..], Traded(t, f));
        FillResult(r.rest, [trade] + r.trades, r.left)
      else
        FillResult([Dent(q[0], f)] + q[1..], [trade], 0)
  }

  /** How many leading orders the taker's price check lets it reach. */
  function Depth(q: seq<Resting>, t: Taker): (d: nat)
    ensures d <= |q|
    ensures forall i :: 0 <= i < d ==> Crosses(t, q[i].price)
    ensures d < |q| ==> !Crosses(t, q[d].price)
  {
    if q == [] || !Crosses(t, q[0].price) then 0 else 1 + Depth(q[1..], t)
  }

  /** What the order at position `k` receives when `x` is poured over the first `d` orders, front first. */
  function Alloc(q: seq<Resting>, d: nat, x: nat, k: nat): nat
    requires d <= |q| && k < |q|
  {
    if k < d && Sum(q[..k]) < x then Min(Open(q[k]), x - Sum(q[..k])) else 0
  }

  /** The trades are with the leading orders, in queue order, at their own prices, for exactly their share. */
  ghost predicate TradesInOrder(q: seq<Resting>, t: Taker, trades: seq<Trade>) {
    var d := Depth(q, t);
    && |trades| <= d
    && (forall k :: 0 <= k < |trades| ==>
          Alloc(q, d, Left(t), k) > 0 && trades[k] == Trade(q[k].id, t.id, q[k].price, Alloc(q, d, Left(t), k)))
    && (forall k :: |trades| <= k < |q| ==> Alloc(q, d, Left(t), k) == 0)
  }

  /** The survivors are the orders behind the exhausted ones, each reduced by its share. */
  ghost predicate SurvivorsReduced(q: seq<Resting>, t: Taker, rest: seq<Resting>) {
    var d := Depth(q, t);
    && |rest| <= |q|
    && (forall k :: 0 <= k < |q| - |rest| ==> Alloc(q, d, Left(t), k) == Open(q[k]))
    && (forall k :: |q| - |rest| <= k < |q| ==>
          Alloc(q, d, Left(t), k) < Open(q[k]) && rest[k - (|q| - |rest|)] == Dent(q[k], Alloc(q, d, Left(t), k)))
  }

  /** The closed form of a fill `r` of `q` by `t`, with no recursion over the queue. */
  ghost predicate Waterfall(q: seq<Resting>, t: Taker, r: FillResult) {
    && TradesInOrder(q, t, r.trades)
    && SurvivorsReduced(q, t, r.rest)
    && |q| - |r.rest| <= |r.trades| <= |q| - |r.rest| + 1
    && r.left == Left(t) - Min(Left(t), Sum(q[..Depth(q, t)]))
  }

  lemma DepthIgnoresFill(q: seq<Resting>, t: Taker, f: nat)
    ensures Depth(q, Traded(t, f)) == Depth(q, t)
  {
  }

  /** Once the head is exhausted the shares of the others are those of a smaller pour over the tail. */
  lemma AllocShift(q: seq<Resting>, t: Taker)
    requires q != [] && 0 < Open(q[0]) <= Left(t) && Crosses(t, q[0].price)
    ensures Depth(q, t) == 1 + Depth(q[1..], Traded(t, Open(q[0])))
    ensures Alloc(q, Depth(q, t), Left(t), 0) == Open(q[0])
    ensures forall k :: 1 <= k < |q| ==>
              Alloc(q, Depth(q, t), Left(t), k)
              == Alloc(q[1..], Depth(q[1..], Traded(t, Open(q[0]))), Left(Traded(t, Open(q[0]))), k - 1)
    ensures Sum(q[..Depth(q, t)]) == Open(q[0]) + Sum(q[1..][..Depth(q[1..], Traded(t, Open(q[0])))])
  {
    var d, t' := Depth(q, t), Traded(t, Open(q[0]));
    DepthIgnoresFill(q[1..], t, Open(q[0]));
    assert q[..d][1..] == q[1..][..d-1];
    assert q[..0] == [];
    forall k | 1 <= k < |q|
      ensures Alloc(q, d, Left(t), k) == Alloc(q[1..], d - 1, Left(t'), k - 1)
    {
      assert q[..k][1..] == q[1..][..k-1];
    }
  }

  /** The queue's head takes everything the taker has left. */
  lemma WaterfallDent(q: seq<Resting>, t: Taker, r: FillResult)
    requires AllOpen(q) && q != [] && 0 < Left(t) < Open(q[0]) && Crosses(t, q[0].price)
    requires r == FillResult([Dent(q[0], Left(t))] + q[1..], [Trade(q[0].id, t.id, q[0].price, Left(t))], 0)
    ensures Waterfall(q, t, r)
  {
  }

  /** The queue's head is exhausted and the fill goes on behind it. */
  lemma TradesPop(q: seq<Resting>, t: Taker, trades: seq<Trade>)
    requires q != [] && 0 < Open(q[0]) <= Left(t) && Crosses(t, q[0].price)
    requires TradesInOrder(q[1..], Traded(t, Open(q[0])), trades)
    ensures TradesInOrder(q, t, [Trade(q[0].id, t.id, q[0].price, Open(q[0]))] + trades)
  {
    AllocShift(q, t);
    assert forall k :: 1 <= k < |q| ==> q[k] == q[1..][k-1];
  }

  lemma SurvivorsPop(q: seq<Resting>, t: Taker, rest: seq<Resting>)
    requires q != [] && 0 < Open(q[0]) <= Left(t) && Crosses(t, q[0].price)
    requires SurvivorsReduced(q[1..], Traded(t, Open(q[0])), rest)
    ensures SurvivorsReduced(q, t, rest)
  {
    AllocShift(q, t);
    assert forall k :: 1 <= k < |q| ==> q[k] == q[1..][k-1];
  }

  lemma {:induction false} FillIsWaterfall(q: seq<Resting>, t: Taker)
    requires AllOpen(q)
    ensures Waterfall(q, t, Fill(q, t))
  {
    if q == [] || Left(t) == 0 || !Crosses(t, q[0].price) {
      assert q[..0] == [];
      assert forall k :: 0 <= k < |q| ==> Dent(q[k], 0) == q[k];
    } else if Open(q[0]) <= Left(t) {
      var t' := Traded(t, Open(q[0]));
      FillIsWaterfall(q[1..], t');
      TradesPop(q, t, Fill(q[1..], t').trades);
      SurvivorsPop(q, t, Fill(q[1..], t').rest);
      AllocShift(q, t);
    } else {
      WaterfallDent(q, t, Fill(q, t));
    }
  }
}
