/**
 The fixed-capacity pool of order slots, as its single allocating thread sees it: memory_pool.hpp.
 FreeListProtocol.dfy treats the same free list step by step under concurrent deallocation.
 */
module MemoryPools {
  import opened OrderTypes

  /** The null slot link. */
  const NULL: int := -1

  lemma {:induction false} InRange(s: set<int>, n: nat)
    requires forall x :: x in s ==> 0 <= x < n
    ensures |s| <= n
    decreases n
  {
    if n == 0 {
      assert forall x :: x !in s;
      assert s == {};
    } else {
      InRange(s - {n - 1}, n - 1);
    }
  }

  /** Distinct numbers below `n` that leave `x` out are fewer than `n`. */
  lemma {:induction false} Pigeonhole(l: seq<nat>, n: nat, x: nat)
    requires x < n && x !in l && forall k :: 0 <= k < |l| ==> l[k] < n
    requires forall j, k :: 0 <= j < k < |l| ==> l[j] != l[k]
    ensures |l| < n
  {
    var s: set<int> := set k | 0 <= k < |l| :: l[k];
    DistinctSize(l);
    assert x !in s;
    InRange(s + {x}, n);
  }

  lemma {:induction false} DistinctSize(l: seq<nat>)
    requires forall j, k :: 0 <= j < k < |l| ==> l[j] != l[k]
    ensures |set k | 0 <= k < |l| :: l[k] as int| == |l|
  {
    if l != [] {
      var n := |l| - 1;
      DistinctSize(l[..n]);
      assert (set k | 0 <= k < |l| :: l[k] as int) == (set k | 0 <= k < n :: l[..n][k] as int) + {l[n] as int};
    }
  }

  class MemoryPool {
    const slots: seq<Order>
    const links: array<int>
    var freeHead: int
    var inUse: nat
    /** The free list, head first. */
    ghost var free: seq<nat>

    ghost predicate Valid()
      reads this, links
    {
      && 0 < |slots| == links.Length
      && (forall i :: 0 <= i < |slots| ==> slots[i].slot == i)
      && inUse + |free| == |slots|
      && freeHead == Cell(free, 0)
      && Chained(free)
    }

    /** The slot at position `k` of a free list, or the null link past its end. */
    static ghost function Cell(l: seq<nat>, k: nat): int {
      if k < |l| then l[k] else NULL
    }

    /** `l` lists distinct slots, each linked to the next. */
    ghost predicate Chained(l: seq<nat>)
      reads this, links
    {
      && (forall k :: 0 <= k < |l| ==> l[k] < links.Length)
      && (forall k {:trigger links[l[k]]} :: 0 <= k < |l| ==> links[l[k]] == Cell(l, k + 1))
      && (forall j, k :: 0 <= j < k < |l| ==> l[j] != l[k])
    }

    constructor (capacity: nat)
      requires capacity > 0
      ensures Valid() && |slots| == capacity && inUse == 0
      ensures free == seq(capacity, i => i)
      ensures fresh(links) && forall i :: 0 <= i < |slots| ==> fresh(slots[i])
    {
      var s: seq<Order> := [];
      var l := new int[capacity];
      for i := 0 to capacity
        invariant |s| == i
        invariant forall k :: 0 <= k < i ==> s[k].slot == k && fresh(s[k])
      {
        var o := new Order(i);
        s := s + [o];
      }
      for i := 0 to capacity - 1
        invariant forall k :: 0 <= k < i ==> l[k] == k + 1
      {
        l[i] := i + 1;
      }
      l[capacity - 1] := NULL;
      slots, links := s, l;
      freeHead, inUse := 0, 0;
      free := seq(capacity, i => i);
      new;
      assert Chained(free);
    }

    /** Unlinks the head of the free list. */
    method PopFreeSlot() returns (slot: int)
      requires freeHead == Cell(free, 0) && Chained(free)
      modifies `freeHead, `free
      ensures slot == old(Cell(free, 0)) && free == old(if free == [] then [] else free[1..])
      ensures freeHead == Cell(free, 0) && Chained(free)
    {
      slot := freeHead;
      if slot != NULL {
        freeHead := links[slot];
        free := free[1..];
        assert forall k :: 0 <= k < |free| ==> free[k] == old(free)[k+1];
      }
    }

    /** A free slot, or null exactly when there is none. */
    method Allocate() returns (o: Order?)
      requires Valid()
      modifies `freeHead, `inUse, `free
      ensures Valid()
      ensures o == null <==> old(free) == []
      ensures o == null ==> free == old(free) && inUse == old(inUse)
      ensures o != null ==> free == old(free)[1..] && inUse == old(inUse) + 1
      ensures o != null ==> o.slot == old(free)[0] && o.slot < |slots| && slots[o.slot] == o
    {
      var slot := PopFreeSlot();
      if slot == NULL {
        return null;
      }
      inUse := inUse + 1;
      o := slots[slot];
    }

    /** Links a slot in front of the free list. */
    method PushFreeSlot(slot: nat)
      requires freeHead == Cell(free, 0) && Chained(free) && slot < links.Length && slot !in free
      modifies `freeHead, `free, links
      ensures free == [slot] + old(free)
      ensures freeHead == Cell(free, 0) && Chained(free)
    {
      links[slot] := freeHead;
      freeHead := slot;
      free := [slot] + free;
      assert forall k :: 1 <= k < |free| ==> free[k] == old(free)[k-1];
    }

    /** A slot that is off the list is one in use. */
    lemma FreeIsPartial(x: nat)
      requires Valid() && x < |slots| && x !in free
      ensures inUse > 0
    {
      Pigeonhole(free, links.Length, x);
    }

    /** Returns a slot; freeing a slot that is already free is the caller's error, freeing null is none. */
    method Deallocate(o: Order?)
      requires Valid()
      requires o != null ==> o.slot < |slots| && slots[o.slot] == o && o.slot !in free
      modifies `freeHead, `inUse, `free, links
      ensures Valid()
      ensures o == null ==> free == old(free) && inUse == old(inUse)
      ensures o != null ==> free == [o.slot] + old(free) && inUse == old(inUse) - 1
    {
      if o == null {
        return;
      }
      FreeIsPartial(o.slot);
      PushFreeSlot(o.slot);
      inUse := inUse - 1;
    }

    /** available() and in_use(): the two counts always add up to the capacity. */
    method Usage() returns (available: nat, used: nat)
      requires Valid()
      ensures available == |free| && available + used == |slots|
    {
      available, used := |slots| - inUse, inUse;
    }
  }
}
