/**
 The SPSC ring under concurrency: one producer thread and one consumer thread, every load and store
 of an index and every access to a slot a step of its own. Each thread works on its own copy of the
 other's index, which may be stale by the time it is used.
 */
module RingProtocol {
  import opened Masks

  /** The producer inside push() or size_approx(). */
  datatype Producer<T> =
    | PIdle
    | PHead(item: T, h: nat)     // has loaded head_
    | PReady(item: T, h: nat)    // has compared with tail_: may write slot h from here on
    | PWrote(item: T, h: nat)    // has written slot h
    | PSizing(h: nat)            // size_approx has loaded head_

  /** The consumer inside pop(), peek() or size_approx(); `seen` remembers the item count at the load of head_. */
  datatype Consumer<T> =
    | CIdle
    | CTail(t: nat)              // has loaded tail_
    | CReady(t: nat)             // has compared with head_: may read slot t from here on
    | CTook(t: nat, item: T)     // has copied slot t
    | CSizing(h: nat, seen: nat) // size_approx has loaded head_

  /** `pushed` and `popped` list the items of completed pushes and pops; the rest is the program's state. */
  datatype Ring<T> = Ring(
    k: nat, head: nat, tail: nat, buffer: seq<T>, producer: Producer<T>, consumer: Consumer<T>,
    pushed: seq<T>, popped: seq<T>)

  datatype Action<T> =
    | PushBegin(item: T) | PushCheck | PushWrite | PushPublish
    | PopBegin | PopCheck | PopRead | PopPublish | PeekReturn
    | ProducerSize | ProducerSized | ConsumerSize | ConsumerSized

  function Capacity<T>(r: Ring<T>): nat {
    Pow2(r.k)
  }

  function Advance(i: nat, k: nat): nat {
    BitAnd(i + 1, Pow2(k) - 1)
  }

  /** What size_approx computes from its two loads. */
  function SizeOf(h: int, t: int, k: nat): nat {
    BitAnd(Size(Size(h - t) + Pow2(k)), Pow2(k) - 1)
  }

  function Count<T>(r: Ring<T>): int {
    |r.pushed| - |r.popped|
  }

  /** The two slot accesses carry their bounds check; InBounds shows that it never fails. */
  predicate Enabled<T>(r: Ring<T>, a: Action<T>) {
    match a
    case PushBegin(_) => r.producer.PIdle?
    case PushCheck => r.producer.PHead?
    case PushWrite => r.producer.PReady? && r.producer.h < |r.buffer|
    case PushPublish => r.producer.PWrote?
    case PopBegin => r.consumer.CIdle?
    case PopCheck => r.consumer.CTail?
    case PopRead => r.consumer.CReady? && r.consumer.t < |r.buffer|
    case PopPublish => r.consumer.CTook?
    case PeekReturn => r.consumer.CReady?
    case ProducerSize => r.producer.PIdle?
    case ProducerSized => r.producer.PSizing?
    case ConsumerSize => r.consumer.CIdle?
    case ConsumerSized => r.consumer.CSizing?
  }

  function Next<T>(r: Ring<T>, a: Action<T>): Ring<T>
    requires Enabled(r, a)
  {
    match a
    case PushBegin(item) => r.(producer := PHead(item, r.head))
    case PushCheck =>
      if Advance(r.producer.h, r.k) == r.tail then r.(producer := PIdle)   // full: push returns false
      else r.(producer := PReady(r.producer.item, r.producer.h))
    case PushWrite =>
      r.(buffer := r.buffer[r.producer.h := r.producer.item], producer := PWrote(r.producer.item, r.producer.h))
    case PushPublish =>
      r.(head := Advance(r.producer.h, r.k), producer := PIdle, pushed := r.pushed + [r.producer.item])
    case PopBegin => r.(consumer := CTail(r.tail))
    case PopCheck =>
      if r.consumer.t == r.head then r.(consumer := CIdle)                 // empty: pop returns nullopt
      else r.(consumer := CReady(r.consumer.t))
    case PopRead => r.(consumer := CTook(r.consumer.t, r.buffer[r.consumer.t]))
    case PopPublish =>
      r.(tail := Advance(r.consumer.t, r.k), consumer := CIdle, popped := r.popped + [r.consumer.item])
    case PeekReturn => r.(consumer := CIdle)
    case ProducerSize => r.(producer := PSizing(r.head))
    case ProducerSized => r.(producer := PIdle)
    case ConsumerSize => r.(consumer := CSizing(r.head, if |r.popped| <= |r.pushed| then |r.pushed| - |r.popped| else 0))
    case ConsumerSized => r.(consumer := CIdle)
  }

  function Step<T>(r: Ring<T>, a: Action<T>): Ring<T> {
    if Enabled(r, a) then Next(r, a) else r
  }

  function Run<T>(r: Ring<T>, acts: seq<Action<T>>): Ring<T> {
    if acts == [] then r else Step(Run(r, acts[..|acts|-1]), acts[|acts|-1])
  }

  /** A ring of 2^k slots with whatever they held before. */
  function Init<T>(k: nat, buffer: seq<T>): Ring<T> {
    Ring(k, 0, 0, buffer, PIdle, CIdle, [], [])
  }

  // ---------------------------------------------------------------- the inductive invariant

  /** The slot of the item with sequence number `i`. */
  function At(i: nat, k: nat): nat {
    i % Pow2(k)
  }

  lemma AdvanceAt(i: nat, k: nat)
    requires k >= 1
    ensures Advance(At(i, k), k) == At(i + 1, k)
  {
    var n := Pow2(k);
    MaskIsModulo(At(i, k) + 1, k);
    ModAdd(i, 1, n);
    if i % n + 1 < n {
      ModUnique(i % n + 1, 0, i % n + 1, n);
    } else {
      ModUnique(i % n + 1, 1, 0, n);
    }
  }

  /** Sequence numbers less than a whole ring apart have different slots; a whole ring apart, the same. */
  lemma AtDiffers(i: nat, j: nat, k: nat)
    requires i <= j <= i + Pow2(k)
    ensures At(i, k) == At(j, k) <==> i == j || j == i + Pow2(k)
  {
    var n := Pow2(k);
    if j < i + n {
      ModAdd(i, j - i, n);
    } else {
      ModPeriod(i, n);
    }
  }

  ghost predicate Shape<T>(r: Ring<T>) {
    && 1 <= r.k <= 63 && |r.buffer| == Capacity(r)
    && |r.popped| <= |r.pushed| < |r.popped| + Capacity(r)
    && r.head == At(|r.pushed|, r.k) && r.tail == At(|r.popped|, r.k)
  }

  /** First in, first out; what is not popped yet sits in the slots from tail to head. */
  ghost predicate Fifo<T>(r: Ring<T>) {
    && r.popped <= r.pushed
    && forall i :: |r.popped| <= i < |r.pushed| && At(i, r.k) < |r.buffer| ==> r.buffer[At(i, r.k)] == r.pushed[i]
  }

  ghost predicate ProducerOk<T>(r: Ring<T>) {
    match r.producer
    case PIdle => true
    case PHead(_, h) => h == r.head
    case PReady(_, h) => h == r.head && Count(r) < Capacity(r) - 1
    case PWrote(item, h) => h == r.head && Count(r) < Capacity(r) - 1 && h < |r.buffer| && r.buffer[h] == item
    case PSizing(h) => h == r.head
  }

  ghost predicate ConsumerOk<T>(r: Ring<T>) {
    match r.consumer
    case CIdle => true
    case CTail(t) => t == r.tail
    case CReady(t) => t == r.tail && Count(r) > 0
    case CTook(t, item) => t == r.tail && Count(r) > 0 && item == r.pushed[|r.popped|]
    case CSizing(h, seen) => seen < Capacity(r) && h == At(|r.popped| + seen, r.k)
  }

  ghost predicate Inv<T>(r: Ring<T>) {
    Shape(r) && Fifo(r) && ProducerOk(r) && ConsumerOk(r)
  }

  lemma InitInv<T>(k: nat, buffer: seq<T>)
    requires 1 <= k <= 63 && |buffer| == Pow2(k)
    ensures Inv(Init(k, buffer))
  {
    ModUnique(0, 0, 0, Pow2(k));
  }

  lemma AtBound(i: nat, k: nat)
    ensures At(i, k) < Pow2(k)
  {
  }

  /** The slots next in line, and the slot a whole ring ahead of the oldest item. */
  lemma Neighbours<T>(r: Ring<T>)
    requires Shape(r)
    ensures Advance(r.head, r.k) == At(|r.pushed| + 1, r.k) && Advance(r.tail, r.k) == At(|r.popped| + 1, r.k)
    ensures r.head == r.tail <==> Count(r) == 0
    ensures Advance(r.head, r.k) == r.tail <==> Count(r) == Capacity(r) - 1
    ensures r.head < Capacity(r) && r.tail < Capacity(r)
  {
    hide At, Advance;
    AdvanceAt(|r.pushed|, r.k);
    AdvanceAt(|r.popped|, r.k);
    AtDiffers(|r.popped|, |r.pushed|, r.k);
    AtDiffers(|r.popped|, |r.pushed| + 1, r.k);
    AtBound(|r.pushed|, r.k);
    AtBound(|r.popped|, r.k);
  }

  lemma StepKeepsShape<T>(r: Ring<T>, a: Action<T>)
    requires Inv(r)
    ensures Shape(Step(r, a))
  {
    Neighbours(r);
    hide At, Advance, Pow2;
  }

  lemma StepKeepsFifo<T>(r: Ring<T>, a: Action<T>)
    requires Inv(r)
    ensures Fifo(Step(r, a))
  {
    hide At, Advance, Pow2;
    if a.PushWrite? {
      forall i | |r.popped| <= i < |r.pushed|
        ensures At(i, r.k) != At(|r.pushed|, r.k)
      {
        AtDiffers(i, |r.pushed|, r.k);
      }
    }
  }

  lemma StepKeepsThreads<T>(r: Ring<T>, a: Action<T>)
    requires Inv(r)
    ensures ProducerOk(Step(r, a)) && ConsumerOk(Step(r, a))
  {
    hide At, Advance, Pow2;
    Neighbours(r);
  }

  lemma StepKeepsInv<T>(r: Ring<T>, a: Action<T>)
    requires Inv(r)
    ensures Inv(Step(r, a))
  {
    hide Shape, Fifo, ProducerOk, ConsumerOk, Step;
    StepKeepsShape(r, a);
    StepKeepsFifo(r, a);
    StepKeepsThreads(r, a);
  }

  lemma {:induction false} RunKeepsInv<T>(r: Ring<T>, acts: seq<Action<T>>)
    requires Inv(r)
    ensures Inv(Run(r, acts))
  {
    if acts != [] {
      RunKeepsInv(r, acts[..|acts|-1]);
      StepKeepsInv(Run(r, acts[..|acts|-1]), acts[|acts|-1]);
    }
  }

  // ---------------------------------------------------------------- main results

  function Around(i: nat, n: nat): nat {
    if i < n then i else i - n
  }

  predicate InRing<T>(r: Ring<T>) {
    |r.buffer| == Capacity(r) && r.head < Capacity(r) && r.tail < Capacity(r)
  }

  /** The contents of the slots from tail up to head, around the end of the buffer. */
  function Held<T>(r: Ring<T>): seq<T>
    requires InRing(r)
  {
    seq(Distance(r.head, r.tail, Capacity(r)),
        d requires 0 <= d < Distance(r.head, r.tail, Capacity(r)) <= |r.buffer| && r.tail < |r.buffer| =>
          r.buffer[Around(r.tail + d, |r.buffer|)])
  }

  lemma HeldCount<T>(r: Ring<T>)
    requires Shape(r)
    ensures InRing(r) && |Held(r)| == Count(r)
  {
    hide Pow2;
    AtBound(|r.pushed|, r.k);
    AtBound(|r.popped|, r.k);
    ModAdd(|r.popped|, Count(r), Capacity(r));
  }

  lemma AroundAt(i: nat, d: nat, k: nat)
    requires d < Pow2(k)
    ensures Around(At(i, k) + d, Pow2(k)) == At(i + d, k)
  {
    ModAdd(i, d, Pow2(k));
  }

  lemma HeldItem<T>(r: Ring<T>, d: nat)
    requires Shape(r) && Fifo(r) && InRing(r) && |Held(r)| == Count(r) && d < Count(r)
    ensures Held(r)[d] == r.pushed[|r.popped| + d]
  {
    hide At, Around, Pow2;
    AroundAt(|r.popped|, d, r.k);
    AtBound(|r.popped| + d, r.k);
    assert Held(r)[d] == r.buffer[Around(r.tail + d, |r.buffer|)];
  }

  lemma HeldIsTheRest<T>(r: Ring<T>)
    requires Shape(r) && Fifo(r)
    ensures InRing(r) && r.pushed == r.popped + Held(r)
  {
    HeldCount(r);
    hide Pow2, At, Held;
    forall d | 0 <= d < Count(r)
      ensures Held(r)[d] == r.pushed[|r.popped| + d]
    {
      HeldItem(r, d);
    }
  }

  // ---------------------------------------------------------------- what the callers see

  /** The arguments that push() was called with, in the order of the calls. */
  function Offered<T>(r: Ring<T>, acts: seq<Action<T>>): seq<T> {
    if acts == [] then []
    else
      var before, a := Run(r, acts[..|acts|-1]), acts[|acts|-1];
      Offered(r, acts[..|acts|-1]) + (if a.PushBegin? && Enabled(before, a) then [a.item] else [])
  }

  function Latest<T>(s: seq<T>): seq<T> {
    if s == [] then [] else s[|s|-1..]
  }

  /** The arguments of the calls of push() whose comparison found fewer than capacity - 1 items. */
  function AcceptedItems<T>(r: Ring<T>, acts: seq<Action<T>>): seq<T> {
    if acts == [] then []
    else
      var before, a := Run(r, acts[..|acts|-1]), acts[|acts|-1];
      AcceptedItems(r, acts[..|acts|-1]) +
      (if a.PushCheck? && Enabled(before, a) && Count(before) < Capacity(before) - 1 then Latest(Offered(r, acts[..|acts|-1])) else [])
  }

  /** What the calls of pop() returned. */
  function Returned<T>(r: Ring<T>, acts: seq<Action<T>>): seq<T> {
    if acts == [] then []
    else
      var before, a := Run(r, acts[..|acts|-1]), acts[|acts|-1];
      Returned(r, acts[..|acts|-1]) + (if a.PopPublish? && Enabled(before, a) then [before.consumer.item] else [])
  }

  /** An item that push() has accepted and not published yet. */
  function Unpublished<T>(p: Producer<T>): seq<T> {
    if p.PReady? || p.PWrote? then [p.item] else []
  }

  predicate MidPush<T>(p: Producer<T>) {
    p.PHead? || p.PReady? || p.PWrote?
  }

  /** What a step adds to the history, given the argument `offered` of the latest call of push(). */
  lemma StepAccepts<T>(r: Ring<T>, a: Action<T>, offered: seq<T>)
    requires Inv(r) && (MidPush(r.producer) ==> Latest(offered) == [r.producer.item])
    ensures var r' := Step(r, a);
            var offered' := offered + (if a.PushBegin? && Enabled(r, a) then [a.item] else []);
      && (MidPush(r'.producer) ==> Latest(offered') == [r'.producer.item])
      && r'.pushed + Unpublished(r'.producer)
         == r.pushed + Unpublished(r.producer)
            + (if a.PushCheck? && Enabled(r, a) && Count(r) < Capacity(r) - 1 then Latest(offered) else [])
      && r'.popped == r.popped + (if a.PopPublish? && Enabled(r, a) then [r.consumer.item] else [])
  {
    NoSharedSlot(r);
    RefusalsAreExact(r);
    hide At, Advance, Pow2, Fifo, Shape;
    assert offered + [] == offered && r.pushed + [] == r.pushed;
  }

  lemma {:induction false} CallsExplainTheRing<T>(r: Ring<T>, acts: seq<Action<T>>)
    requires Inv(r) && r.producer.PIdle?
    ensures var r' := Run(r, acts);
      && (MidPush(r'.producer) ==> Latest(Offered(r, acts)) == [r'.producer.item])
      && r'.pushed + Unpublished(r'.producer) == r.pushed + AcceptedItems(r, acts)
      && r'.popped == r.popped + Returned(r, acts)
  {
    hide Inv, Step, Latest, Enabled, Count, Capacity;
    if acts != [] {
      var acts0, a := acts[..|acts|-1], acts[|acts|-1];
      CallsExplainTheRing(r, acts0);
      RunKeepsInv(r, acts0);
      StepAccepts(Run(r, acts0), a, Offered(r, acts0));
    }
  }

  /**
   First in, first out, from call to call. In every interleaving the arguments of the accepted calls
   of push() are, in order, what the calls of pop() returned, then what the slots from tail to head
   hold, then the item still to be published; nothing is lost, changed, reordered or repeated, and at
   most capacity - 1 items are held.
   */
  lemma FirstInFirstOut<T>(k: nat, buffer: seq<T>, acts: seq<Action<T>>)
    requires 1 <= k <= 63 && |buffer| == Pow2(k)
    ensures var r := Run(Init(k, buffer), acts);
      && InRing(r) && r.pushed == r.popped + Held(r) && |Held(r)| <= Capacity(r) - 1
      && r.popped == Returned(Init(k, buffer), acts)
      && AcceptedItems(Init(k, buffer), acts) == Returned(Init(k, buffer), acts) + Held(r) + Unpublished(r.producer)
  {
    hide Run, Init, Held, Pow2, AcceptedItems, Returned, Offered, Unpublished, Latest;
    InitInv(k, buffer);
    FreshRing(k, buffer);
    RunKeepsInv(Init(k, buffer), acts);
    HeldIsTheRest(Run(Init(k, buffer), acts));
    CallsExplainTheRing(Init(k, buffer), acts);
  }

  lemma FreshRing<T>(k: nat, buffer: seq<T>)
    ensures var r := Init(k, buffer); r.pushed == r.popped == [] && r.producer.PIdle?
  {
  }

  // ---------------------------------------------------------------- every call returns

  /** The next step of push() or size_approx(), and of pop(), peek() aside, or size_approx(), by where they are. */
  function ProducerAction<T>(p: Producer<T>): Action<T> {
    match p
    case PHead(_, _) => PushCheck
    case PReady(_, _) => PushWrite
    case PSizing(_) => ProducerSized
    case _ => PushPublish
  }

  function ConsumerAction<T>(c: Consumer<T>): Action<T> {
    match c
    case CIdle => PopBegin
    case CTail(_) => PopCheck
    case CReady(_) => PopRead
    case CSizing(_, _) => ConsumerSized
    case _ => PopPublish
  }

  /** Steps of its own that a call still needs at most. */
  function ProducerLeft<T>(p: Producer<T>): nat {
    match p
    case PIdle => 0
    case PHead(_, _) => 3
    case PReady(_, _) => 2
    case _ => 1
  }

  function ConsumerLeft<T>(c: Consumer<T>): nat {
    match c
    case CIdle => 0
    case CTail(_) => 3
    case CReady(_) => 2
    case _ => 1
  }

  predicate ByProducer<T>(a: Action<T>) {
    a.PushBegin? || a.PushCheck? || a.PushWrite? || a.PushPublish? || a.ProducerSize? || a.ProducerSized?
  }

  /**
   No call waits for the other thread: in the middle of a call a thread always has a step, each of its
   steps brings the call nearer to its end, of which at most three are left, and the other thread's
   steps do not undo that.
   */
  lemma NoCallWaits<T>(r: Ring<T>, a: Action<T>)
    requires Inv(r)
    ensures !r.producer.PIdle? ==> Enabled(r, ProducerAction(r.producer))
    ensures !r.consumer.CIdle? ==> Enabled(r, ConsumerAction(r.consumer))
    ensures Enabled(r, a) && ByProducer(a) && !r.producer.PIdle? ==> ProducerLeft(Next(r, a).producer) < ProducerLeft(r.producer)
    ensures Enabled(r, a) && !ByProducer(a) && !r.consumer.CIdle? ==> ConsumerLeft(Next(r, a).consumer) < ConsumerLeft(r.consumer)
    ensures if ByProducer(a) then Step(r, a).consumer == r.consumer else Step(r, a).producer == r.producer
  {
    NoSharedSlot(r);
  }

  /** A call ends at its publishing store, at the comparison that finds the ring full or empty, or as a read-only call. */
  lemma CallsEndRightly<T>(r: Ring<T>, a: Action<T>)
    requires Inv(r) && Enabled(r, a)
    ensures !r.producer.PIdle? && Next(r, a).producer.PIdle? ==>
              a.PushPublish? || (a.PushCheck? && Count(r) == Capacity(r) - 1) || a.ProducerSized?
    ensures !r.consumer.CIdle? && Next(r, a).consumer.CIdle? ==>
              a.PopPublish? || (a.PopCheck? && Count(r) == 0) || a.PeekReturn? || a.ConsumerSized?
  {
    RefusalsAreExact(r);
    hide Inv, Advance;
  }

  /** The producer may be writing its slot, the consumer may be reading its slot: never the same one, always in bounds. */
  lemma NoSharedSlot<T>(r: Ring<T>)
    requires Inv(r)
    ensures (r.producer.PReady? || r.producer.PWrote?) ==> r.producer.h < |r.buffer|
    ensures (r.consumer.CReady? || r.consumer.CTook?) ==> r.consumer.t < |r.buffer|
    ensures (r.producer.PReady? || r.producer.PWrote?) && (r.consumer.CReady? || r.consumer.CTook?)
            ==> r.producer.h != r.consumer.t
  {
    AtBound(|r.pushed|, r.k);
    AtBound(|r.popped|, r.k);
    AtDiffers(|r.popped|, |r.pushed|, r.k);
  }

  /** push() refuses exactly when the ring is full at its load of tail_, pop() exactly when it is empty at its load of head_. */
  lemma RefusalsAreExact<T>(r: Ring<T>)
    requires Inv(r)
    ensures Enabled(r, PushCheck) ==> (Next(r, PushCheck).producer.PIdle? <==> Count(r) == Capacity(r) - 1)
    ensures Enabled(r, PopCheck) ==> (Next(r, PopCheck).consumer.CIdle? <==> Count(r) == 0)
  {
    hide At, Advance;
    Neighbours(r);
  }

  /** What peek() points at is the next item to be popped, whatever the producer does meanwhile. */
  lemma PeekSeesTheNext<T>(r: Ring<T>, a: Action<T>)
    requires Inv(r) && Count(r) > 0
    ensures r.tail < |r.buffer| && r.buffer[r.tail] == r.pushed[|r.popped|]
    ensures !a.PopPublish? ==> Step(r, a).tail == r.tail && |Step(r, a).popped| == |r.popped| && Count(Step(r, a)) > 0
  {
    AtBound(|r.popped|, r.k);
  }

  /**
   size_approx, called by the producer or by the consumer, returns the exact number of items at the
   moment it loads the other side's index.
   */
  lemma SizeIsExact<T>(r: Ring<T>)
    requires Inv(r)
    ensures r.producer.PSizing? ==> SizeOf(r.producer.h, r.tail, r.k) == Count(r)
    ensures r.consumer.CSizing? ==> SizeOf(r.consumer.h, r.tail, r.k) == r.consumer.seen
    ensures Enabled(r, ConsumerSize) ==> Next(r, ConsumerSize).consumer.seen == Count(r)
  {
    hide Size, Pow2;
    SizeOfCount(|r.popped|, Count(r), r.k);
    if r.consumer.CSizing? {
      SizeOfCount(|r.popped|, r.consumer.seen, r.k);
    }
  }

  lemma SizeOfCount(first: nat, count: nat, k: nat)
    requires 1 <= k <= 63 && count < Pow2(k)
    ensures SizeOf(At(first + count, k), At(first, k), k) == count
  {
    AtBound(first, k);
    AtBound(first + count, k);
    ModAdd(first, count, Pow2(k));
    SizeFormula(At(first + count, k), At(first, k), k);
  }

  // ---------------------------------------------------------------- a third thread

  lemma RunSnoc<T>(r: Ring<T>, acts: seq<Action<T>>, a: Action<T>)
    ensures Run(r, acts + [a]) == Step(Run(r, acts), a)
  {
    assert (acts + [a])[..|acts|] == acts;
  }

  function PushSteps<T>(item: T): seq<Action<T>> {
    [PushBegin(item)] + [PushCheck] + [PushWrite] + [PushPublish]
  }

  function PopSteps<T>(): seq<Action<T>> {
    [PopBegin] + [PopCheck] + [PopRead] + [PopPublish]
  }

  /** A whole push() into an empty ring. */
  lemma PushWhole<T>(r: Ring<T>, item: T)
    requires Inv(r) && r.producer.PIdle? && Count(r) == 0
    ensures var r' := Step(Step(Step(Step(r, PushBegin(item)), PushCheck), PushWrite), PushPublish);
      && Inv(r') && r'.k == r.k && r'.producer.PIdle? && r'.consumer == r.consumer
      && r'.pushed == r.pushed + [item] && r'.popped == r.popped
  {
    hide Advance, Inv;
    var r1 := Step(r, PushBegin(item));
    StepKeepsInv(r, PushBegin(item));
    assert r1 == r.(producer := PHead(item, r.head));
    CapacityIsTwo(r1);
    RefusalsAreExact(r1);
    StepKeepsInv(r1, PushCheck);
    var r2 := Step(r1, PushCheck);
    assert r2 == r.(producer := PReady(item, r.head));
    NoSharedSlot(r2);
    StepKeepsInv(r2, PushWrite);
    var r3 := Step(r2, PushWrite);
    assert r3 == r.(producer := PWrote(item, r.head), buffer := r3.buffer);
    StepKeepsInv(r3, PushPublish);
  }

  lemma Pushing<T>(r0: Ring<T>, acts: seq<Action<T>>, item: T)
    ensures Run(r0, acts + PushSteps(item))
            == Step(Step(Step(Step(Run(r0, acts), PushBegin(item)), PushCheck), PushWrite), PushPublish)
  {
    hide Run, Step;
    RunSnoc(r0, acts, PushBegin(item));
    RunSnoc(r0, acts + [PushBegin(item)], PushCheck);
    RunSnoc(r0, acts + [PushBegin(item)] + [PushCheck], PushWrite);
    RunSnoc(r0, acts + [PushBegin(item)] + [PushCheck] + [PushWrite], PushPublish);
    assert acts + PushSteps(item) == acts + [PushBegin(item)] + [PushCheck] + [PushWrite] + [PushPublish];
  }

  lemma CapacityIsTwo<T>(r: Ring<T>)
    requires Inv(r)
    ensures Capacity(r) >= 2
  {
  }

  /** A whole pop() of the only item. */
  lemma PopWhole<T>(r: Ring<T>)
    requires Inv(r) && r.consumer.CIdle? && Count(r) == 1
    ensures var r' := Step(Step(Step(Step(r, PopBegin), PopCheck), PopRead), PopPublish);
      && Inv(r') && r'.k == r.k && r'.consumer.CIdle? && r'.producer == r.producer
      && r'.pushed == r.pushed && |r'.popped| == |r.popped| + 1
  {
    hide Advance, Inv;
    var r1 := Step(r, PopBegin);
    StepKeepsInv(r, PopBegin);
    assert r1 == r.(consumer := CTail(r.tail));
    RefusalsAreExact(r1);
    StepKeepsInv(r1, PopCheck);
    var r2 := Step(r1, PopCheck);
    assert r2 == r.(consumer := CReady(r.tail));
    NoSharedSlot(r2);
    StepKeepsInv(r2, PopRead);
    var r3 := Step(r2, PopRead);
    assert r3 == r.(consumer := CTook(r.tail, r.buffer[r.tail]));
    StepKeepsInv(r3, PopPublish);
  }

  lemma Popping<T>(r0: Ring<T>, acts: seq<Action<T>>)
    ensures Run(r0, acts + PopSteps()) == Step(Step(Step(Step(Run(r0, acts), PopBegin), PopCheck), PopRead), PopPublish)
  {
    hide Run, Step;
    RunSnoc(r0, acts, PopBegin);
    RunSnoc(r0, acts + [PopBegin], PopCheck);
    RunSnoc(r0, acts + [PopBegin] + [PopCheck], PopRead);
    RunSnoc(r0, acts + [PopBegin] + [PopCheck] + [PopRead], PopPublish);
    assert acts + PopSteps() == acts + [PopBegin] + [PopCheck] + [PopRead] + [PopPublish];
  }

  /** One item through an empty ring. */
  lemma Passing<T>(r0: Ring<T>, acts: seq<Action<T>>, item: T)
    requires var r := Run(r0, acts); Inv(r) && r.producer.PIdle? && r.consumer.CIdle? && Count(r) == 0
    ensures var r, r' := Run(r0, acts), Run(r0, acts + (PushSteps(item) + PopSteps()));
      && Inv(r') && r'.k == r.k && r'.producer.PIdle? && r'.consumer.CIdle?
      && Count(r') == 0 && |r'.popped| == |r.popped| + 1
  {
    hide Run, Inv, PushSteps, PopSteps, Step;
    PushWhole(Run(r0, acts), item);
    Pushing(r0, acts, item);
    PopWhole(Run(r0, acts + PushSteps(item)));
    Popping(r0, acts + PushSteps(item));
    assert acts + PushSteps(item) + PopSteps() == acts + (PushSteps(item) + PopSteps());
  }

  /** Pushes and pops only add up, and the capacity stays. */
  lemma {:induction false} RunGrows<T>(r: Ring<T>, acts: seq<Action<T>>)
    ensures var r' := Run(r, acts); r'.k == r.k && r.pushed <= r'.pushed && r.popped <= r'.popped
  {
    if acts != [] {
      RunGrows(r, acts[..|acts|-1]);
    }
  }

  /** Where a size computed modulo `n`, `moved` steps off the count, is still within 1 of it. */
  predicate NearlyExact(count: int, moved: nat, n: nat)
    requires n > 0
  {
    moved % n == 0 || (moved % n == 1 && count >= 1) || (moved % n == n - 1 && count < n - 1)
  }

  lemma DistanceIsModulo(i: nat, j: nat, n: nat)
    requires n > 0
    ensures Distance(i % n, j % n, n) == (i - j) % n
  {
    var qi, qj := i / n, j / n;
    var d := Distance(i % n, j % n, n);
    var q := if i % n >= j % n then qi - qj else qi - qj - 1;
    assert i == qi * n + i % n && j == qj * n + j % n;
    assert (qi - qj) * n == qi * n - qj * n && (qi - qj - 1) * n == qi * n - qj * n - n;
    assert i - j == q * n + d;
    ModUnique(i - j, q, d, n);
  }

  /** How far a count that is off by `moved` comes out, modulo `n`. */
  lemma ModuloOff(count: nat, moved: nat, n: nat)
    requires count < n
    ensures (count - moved) % n == if moved % n <= count then count - moved % n else count - moved % n + n
    ensures -1 <= (count - moved) % n - count <= 1 <==> NearlyExact(count, moved, n)
    ensures (count - moved) % n == count <==> moved % n == 0
  {
    var q, e := moved / n, moved % n;
    assert moved == q * n + e;
    assert (0 - q) * n == 0 - q * n && (0 - q - 1) * n == 0 - q * n - n;
    if e <= count {
      ModUnique(count - moved, 0 - q, count - e, n);
    } else {
      ModUnique(count - moved, 0 - q - 1, count - e + n, n);
    }
  }

  /**
   What any other thread gets from size_approx: it loads head_ in state `r` and tail_ in the later
   state `r'`. The result is the count at either load shifted, modulo the capacity, by the pops,
   respectively the pushes, that completed in between. It is exact, or within 1, precisely when
   that number is a multiple of the capacity, or as NearlyExact says.
   */
  lemma SizeForAnyThread<T>(r: Ring<T>, acts: seq<Action<T>>)
    requires Inv(r)
    ensures var r' := Run(r, acts); var n := Capacity(r); var size := SizeOf(r.head, r'.tail, r.k);
            var pops, pushes := |r'.popped| - |r.popped|, |r'.pushed| - |r.pushed|;
      && pops >= 0 && pushes >= 0 && n > 0 && size < n
      && size == (Count(r) - pops) % n == (Count(r') - pushes) % n
      && (size == Count(r) <==> pops % n == 0) && (size == Count(r') <==> pushes % n == 0)
      && (-1 <= size - Count(r) <= 1 <==> NearlyExact(Count(r), pops, n))
      && (-1 <= size - Count(r') <= 1 <==> NearlyExact(Count(r'), pushes, n))
  {
    hide Run, Pow2, SizeOf, NearlyExact;
    RunKeepsInv(r, acts);
    RunGrows(r, acts);
    var r' := Run(r, acts);
    AtBound(|r.pushed|, r.k);
    AtBound(|r'.popped|, r.k);
    SizeIsDistance(r.head, r'.tail, r.k);
    DistanceIsModulo(|r.pushed|, |r'.popped|, Capacity(r));
    ModuloOff(Count(r), |r'.popped| - |r.popped|, Capacity(r));
    ModuloOff(Count(r'), |r'.pushed| - |r.pushed|, Capacity(r));
  }

  lemma SizeIsDistance(h: nat, t: nat, k: nat)
    requires k <= 63 && h < Pow2(k) && t < Pow2(k)
    ensures SizeOf(h, t, k) == Distance(h, t, Pow2(k))
  {
    SizeFormula(h, t, k);
  }

  /**
   The bound "stale by 1" does not hold for a third thread: in a ring of 8 it can load head, see
   three items pass through one by one, load tail, and report 5 items although there was never more than one.
   */
  lemma ThirdThreadCanBeFarOff(buffer: seq<int>)
    requires |buffer| == Pow2(3)
    ensures var pass := PushSteps(0) + PopSteps();
            var r, r' := Init(3, buffer), Run(Init(3, buffer), pass + pass + pass);
      Count(r) == Count(r') == 0 && SizeOf(r.head, r'.tail, 3) == 5
  {
    hide Run, Inv, PushSteps, PopSteps, SizeOf;
    var r := Init(3, buffer);
    var pass := PushSteps(0) + PopSteps();
    InitInv(3, buffer);
    RunNothing(r);
    Passing(r, [], 0);
    assert [] + pass == pass;
    Passing(r, pass, 0);
    Passing(r, pass + pass, 0);
    FarOff(Run(r, pass + pass + pass));
  }

  lemma RunNothing<T>(r: Ring<T>)
    ensures Run(r, []) == r
  {
  }

  lemma FarOff<T>(r: Ring<T>)
    requires Inv(r) && r.k == 3 && |r.popped| == 3
    ensures SizeOf(0, r.tail, 3) == 5
  {
    assert Pow2(3) == 8;
    ModUnique(3, 0, 3, 8);
    SizeFormula(0, 3, 3);
  }
}
