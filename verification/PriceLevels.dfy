/** One price level: an intrusive doubly linked FIFO of orders with cached aggregates (order_book.hpp). */
module PriceLevels {
  import opened OrderTypes

  class PriceLevel {
    var price: Price
    var totalQty: Quantity
    var head: Order?
    var tail: Order?
    var orderCount: nat
    /** The orders of the level, oldest first. */
    ghost var q: seq<Order>

    constructor (price: Price)
      ensures this.price == price && totalQty == 0 && q == [] && Linked()
    {
      this.price, totalQty, orderCount := price, 0, 0;
      head, tail := null, null;
      q := [];
    }

    /** The order at position `i` of a level, or null past its ends. */
    static ghost function At(l: seq<Order>, i: int): Order? {
      if 0 <= i < |l| then l[i] else null
    }

    /** The links of every order, and the level's ends and count, spell out the sequence `q`. */
    ghost predicate Linked()
      reads `orderCount, `head, `tail, `q, q`prev, q`next
    {
      && orderCount == |q|
      && head == At(q, 0) && tail == At(q, |q| - 1)
      && Chained(q) && Distinct(q)
    }

    static predicate Differ(l: seq<Order>, i: nat, j: nat)
      requires i < |l| && j < |l|
    {
      l[i] != l[j]
    }

    static ghost predicate Distinct(l: seq<Order>) {
      forall i, j {:trigger Differ(l, i, j)} :: 0 <= i < |l| && 0 <= j < |l| && i != j ==> Differ(l, i, j)
    }

    static lemma DistinctAppend(l: seq<Order>, o: Order)
      requires Distinct(l) && o !in l
      ensures Distinct(l + [o])
    {
      forall i, j | 0 <= i < |l + [o]| && 0 <= j < |l + [o]| && i != j
        ensures Differ(l + [o], i, j)
      {
        assert i < |l| && j < |l| ==> Differ(l, i, j);
      }
    }

    static ghost function Without(l: seq<Order>, k: nat): seq<Order>
      requires k < |l|
    {
      l[..k] + l[k+1..]
    }

    static lemma EndsWithout(l: seq<Order>, k: nat)
      requires k < |l|
      ensures At(Without(l, k), 0) == if k == 0 then At(l, 1) else At(l, 0)
      ensures At(Without(l, k), |l| - 2) == if k == |l| - 1 then At(l, k - 1) else At(l, |l| - 1)
      ensures |Without(l, k)| == |l| - 1
    {
    }

    static lemma DistinctRemove(l: seq<Order>, k: nat)
      requires Distinct(l) && k < |l|
      ensures Distinct(Without(l, k)) && l[k] !in Without(l, k)
      ensures forall o :: o in Without(l, k) ==> o in l
    {
      var l' := Without(l, k);
      forall i | 0 <= i < |l'|
        ensures l'[i] != l[k]
      {
        assert Differ(l, if i < k then i else i + 1, k);
      }
      forall i, j | 0 <= i < |l'| && 0 <= j < |l'| && i != j
        ensures Differ(l', i, j)
      {
        assert Differ(l, if i < k then i else i + 1, if j < k then j else j + 1);
      }
    }

    /** The links between neighbours of `l`. */
    static ghost predicate Chained(l: seq<Order>)
      reads l`prev, l`next
    {
      forall i {:trigger l[i].prev} {:trigger l[i].next} :: 0 <= i < |l| ==>
        l[i].prev == At(l, i - 1) && l[i].next == At(l, i + 1)
    }

    /** The links of `l` step over position `k`. */
    static ghost predicate SteppedOver(l: seq<Order>, k: nat)
      reads l
    {
      forall i {:trigger l[i].prev} {:trigger l[i].next} :: 0 <= i < |l| && i != k ==>
        && l[i].prev == (if i == k + 1 then At(l, k - 1) else At(l, i - 1))
        && l[i].next == (if i + 1 == k then At(l, k + 1) else At(l, i + 1))
    }

    static lemma ChainedWithout(l: seq<Order>, k: nat)
      requires k < |l| && SteppedOver(l, k)
      ensures Chained(Without(l, k))
    {
    }

    /** `o` hangs on the end of the chain `l`. */
    static ghost predicate Extended(l: seq<Order>, o: Order)
      reads l, o
    {
      && o.prev == At(l, |l| - 1) && o.next == null
      && forall i {:trigger l[i].prev} {:trigger l[i].next} :: 0 <= i < |l| ==>
           l[i].prev == At(l, i - 1) && l[i].next == if i + 1 == |l| then o else At(l, i + 1)
    }

    static lemma ChainedAppend(l: seq<Order>, o: Order)
      requires Extended(l, o)
      ensures Chained(l + [o])
    {
    }

    method PushBack(o: Order)
      requires Linked() && o !in q
      modifies this, o`prev, o`next, q`next
      ensures Linked() && q == old(q) + [o] && price == old(price)
      ensures totalQty == Wrap(old(totalQty) + o.quantity)
    {
      hide Wrap;
      ghost var l := q;
      o.prev := tail;
      o.next := null;
      if tail != null {
        tail.next := o;
      } else {
        head := o;
      }
      assert Extended(l, o) by {
        forall i {:trigger l[i].prev} {:trigger l[i].next} | 0 <= i < |l|
          ensures l[i].prev == At(l, i - 1) && l[i].next == if i + 1 == |l| then o else At(l, i + 1)
        {
          assert i != |l| - 1 ==> Differ(l, i, |l| - 1);
        }
      }
      ChainedAppend(l, o);
      DistinctAppend(l, o);
      tail := o;
      totalQty := Wrap(totalQty + o.quantity);
      orderCount := orderCount + 1;
      q := l + [o];
    }

    /** Before the order: the previous one, or the head, steps over it. */
    method UnlinkBefore(o: Order, ghost k: nat)
      requires k < |q| && q[k] == o && o.prev == At(q, k - 1) && o.next == At(q, k + 1) && Distinct(q)
      requires head == At(q, 0) && forall i {:trigger q[i].next} :: 0 <= i < |q| ==> q[i].next == At(q, i + 1)
      modifies `head, q`next
      ensures head == if k == 0 then At(q, 1) else At(q, 0)
      ensures forall i {:trigger q[i].next} :: 0 <= i < |q| ==>
        q[i].next == if i + 1 == k then At(q, k + 1) else At(q, i + 1)
    {
      ghost var l := q;
      if o.prev != null {
        o.prev.next := o.next;
      } else {
        head := o.next;
      }
      forall i {:trigger l[i].next} | 0 <= i < |l|
        ensures l[i].next == if i + 1 == k then At(l, k + 1) else At(l, i + 1)
      {
        assert 0 < k && i != k - 1 ==> Differ(l, i, k - 1);
      }
    }

    /** Behind the order: the next one, or the tail, steps over it. */
    method UnlinkAfter(o: Order, ghost k: nat)
      requires k < |q| && q[k] == o && o.prev == At(q, k - 1) && o.next == At(q, k + 1) && Distinct(q)
      requires tail == At(q, |q| - 1) && forall i {:trigger q[i].prev} :: 0 <= i < |q| ==> q[i].prev == At(q, i - 1)
      modifies `tail, q`prev
      ensures tail == if k == |q| - 1 then At(q, k - 1) else At(q, |q| - 1)
      ensures forall i {:trigger q[i].prev} :: 0 <= i < |q| ==>
        q[i].prev == if i == k + 1 then At(q, k - 1) else At(q, i - 1)
    {
      ghost var l := q;
      if o.next != null {
        o.next.prev := o.prev;
      } else {
        tail := o.prev;
      }
      forall i {:trigger l[i].prev} | 0 <= i < |l|
        ensures l[i].prev == if i == k + 1 then At(l, k - 1) else At(l, i - 1)
      {
        assert k + 1 < |l| && i != k + 1 ==> Differ(l, i, k + 1);
      }
    }

    /** The link surgery of `Remove`: the neighbours, or the level's ends, step over `o`, and `o` lets go of them. */
    method Unlink(o: Order, ghost k: nat)
      requires Linked() && k < |q| && q[k] == o
      modifies `head, `tail, q`prev, q`next
      ensures SteppedOver(q, k) && o.prev == null && o.next == null
      ensures head == if k == 0 then At(q, 1) else At(q, 0)
      ensures tail == if k == |q| - 1 then At(q, k - 1) else At(q, |q| - 1)
    {
      hide At;
      UnlinkBefore(o, k);
      UnlinkAfter(o, k);
      o.prev, o.next := null, null;
      forall i {:trigger q[i].prev} {:trigger q[i].next} | 0 <= i < |q| && i != k
        ensures q[i].prev == (if i == k + 1 then At(q, k - 1) else At(q, i - 1))
        ensures q[i].next == if i + 1 == k then At(q, k + 1) else At(q, i + 1)
      {
        assert Differ(q, i, k);
      }
    }

    /** Takes the order at position `k` out of the level, through its own links. */
    method Remove(o: Order, ghost k: nat)
      requires Linked() && k < |q| && q[k] == o
      modifies this, q`prev, q`next
      ensures Linked() && q == Without(old(q), k) && o !in q && price == old(price)
      ensures forall x :: x in q ==> x in old(q)
      ensures o.prev == null && o.next == null
      ensures totalQty == Wrap(old(totalQty - o.Remaining()))
    {
      hide Wrap, Without, Chained, Distinct, SteppedOver, At;
      Unlink(o, k);
      totalQty := Wrap(totalQty - o.Remaining());
      orderCount := orderCount - 1;
      DistinctRemove(q, k);
      ChainedWithout(q, k);
      EndsWithout(q, k);
      q := Without(q, k);
    }

    predicate Empty()
      reads this
    {
      head == null
    }
  }
}
