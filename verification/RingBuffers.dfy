/** The single-producer single-consumer ring, one call at a time: spsc_ring_buffer.hpp. RingProtocol.dfy interleaves its steps. */
module RingBuffers {
  import opened Masks

  datatype Option<T> = None | Some(value: T)

  class SPSCRingBuffer<T(0)> {
    /** The capacity is 2^k; one slot always stays empty. */
    ghost const k: nat
    const capacity: nat
    const buffer: array<T>
    var head: nat
    var tail: nat

    ghost predicate Valid()
      reads this
    {
      && 1 <= k <= 63 && capacity == Pow2(k) == buffer.Length
      && head < capacity && tail < capacity
    }

    /** The queued items, oldest first. */
    ghost function Contents(): (s: seq<T>)
      requires Valid()
      reads this, buffer
    {
      var h, t := head, tail;
      seq(Distance(h, t, capacity), i requires 0 <= i < Distance(h, t, capacity) <= buffer.Length reads buffer =>
        buffer[if t + i < capacity then t + i else t + i - capacity])
    }

    constructor (ghost k: nat, capacity: nat)
      requires 1 <= k <= 63 && capacity == Pow2(k)
      ensures Valid() && this.capacity == capacity && Contents() == [] && fresh(buffer)
    {
      this.k, this.capacity := k, capacity;
      buffer := new T[capacity];
      head, tail := 0, 0;
    }

    lemma MaskStep(i: nat)
      requires Valid() && i < capacity
      ensures BitAnd(i + 1, capacity - 1) == if i + 1 < capacity then i + 1 else 0
    {
      MaskIsModulo(i + 1, k);
      if i + 1 == capacity {
        ModUnique(i + 1, 1, 0, capacity);
      } else {
        ModUnique(i + 1, 0, i + 1, capacity);
      }
    }

    method Push(item: T) returns (ok: bool)
      requires Valid()
      modifies this`head, buffer
      ensures Valid() && ok == (|old(Contents())| < capacity - 1)
      ensures Contents() == if ok then old(Contents()) + [item] else old(Contents())
    {
      var h := head;
      MaskStep(h);
      var nextH := BitAnd(h + 1, capacity - 1);
      if nextH == tail {
        return false;
      }
      buffer[h] := item;
      head := nextH;
      return true;
    }

    method Pop() returns (r: Option<T>)
      requires Valid()
      modifies this`tail
      ensures Valid()
      ensures if old(Contents()) == [] then r == None && Contents() == []
              else r == Some(old(Contents())[0]) && Contents() == old(Contents())[1..]
    {
      var t := tail;
      if t == head {
        return None;
      }
      var item := buffer[t];
      MaskStep(t);
      tail := BitAnd(t + 1, capacity - 1);
      return Some(item);
    }

    method Peek() returns (r: Option<T>)
      requires Valid()
      ensures r == if Contents() == [] then None else Some(Contents()[0])
    {
      var t := tail;
      if t == head {
        return None;
      }
      return Some(buffer[t]);
    }

    method SizeApprox() returns (n: nat)
      requires Valid()
      ensures n == |Contents()|
    {
      var h: int := head;
      var t: int := tail;
      SizeFormula(h, t, k);
      n := BitAnd(Size(Size(h - t) + capacity), capacity - 1);
    }

    method Empty() returns (r: bool)
      requires Valid()
      ensures r <==> Contents() == []
    {
      r := head == tail;
    }

    method Full() returns (r: bool)
      requires Valid()
      ensures r <==> |Contents()| == capacity - 1
    {
      var h := head;
      MaskStep(h);
      var next := BitAnd(h + 1, capacity - 1);
      r := next == tail;
    }
  }
}
