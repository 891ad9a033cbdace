/**
 The market data feed: a publishing thread, the consumer thread and the thread that starts and stops
 it, interleaved step by step over the ring of RingProtocol.dfy.
 */
module FeedProtocol {
  import opened Masks
  import opened RingProtocol

  /** The publishing thread: in ring_.push(), or out of it with the matching counter still to be updated. */
  datatype Publisher = PubIdle | InPush | Accepted | Refused

  /** The consumer thread in consumer_loop(). */
  datatype Loop<T> =
    | NotStarted
    | CheckRunning      // about to load running_
    | CheckHead         // running_ was false: empty() about to load head_
    | CheckTail(h: nat) // empty() about to load tail_
    | InPop
    | Got(item: T)      // pop() returned a tick
    | Handled           // the handler was called, consumed_ not yet updated
    | Done              // the loop has ended

  datatype Control = Free | Joining

  /**
   `handled` lists the ticks the handler was called on, `seen` counts the pushes at the loop's last load
   of head_ in empty(), `atStop` those at stop()'s exchange.
   */
  datatype Feed<T> = Feed(
    ring: Ring<T>, running: bool, publisher: Publisher, loop: Loop<T>, control: Control,
    published: nat, dropped: nat, consumed: nat,
    handled: seq<T>, seen: nat, atStop: nat)

  datatype Act<T> =
    | Start | StopExchange | StopJoin
    | PublishBegin(item: T) | PublishStep | PublishCount
    | LoopRunning | LoopHead | LoopTail | LoopPop | LoopHandle | LoopCount

  predicate Ready<T>(f: Feed<T>, a: Act<T>) {
    match a
    case Start => f.control.Free?
    case StopExchange => f.control.Free?
    case StopJoin => f.control.Joining? && f.loop.Done?
    case PublishBegin(_) => f.publisher.PubIdle?
    case PublishStep => f.publisher.InPush?
    case PublishCount => f.publisher.Accepted? || f.publisher.Refused?
    case LoopRunning => f.loop.CheckRunning?
    case LoopHead => f.loop.CheckHead?
    case LoopTail => f.loop.CheckTail?
    case LoopPop => f.loop.InPop?
    case LoopHandle => f.loop.Got?
    case LoopCount => f.loop.Handled?
  }

  function Do<T>(f: Feed<T>, a: Act<T>): Feed<T>
    requires Ready(f, a)
  {
    match a
    case Start => if f.running then f else f.(running := true, loop := CheckRunning)
    case StopExchange =>
      if f.running then f.(running := false, control := Joining, atStop := |f.ring.pushed|) else f
    case StopJoin => f.(control := Free)
    case PublishBegin(item) => f.(ring := Step(f.ring, PushBegin(item)), publisher := InPush)
    case PublishStep =>
      var r := Step(f.ring, ProducerAction(f.ring.producer));
      f.(ring := r, publisher := if !r.producer.PIdle? then InPush else if f.ring.producer.PWrote? then Accepted else Refused)
    case PublishCount =>
      if f.publisher.Accepted? then f.(publisher := PubIdle, published := f.published + 1)
      else f.(publisher := PubIdle, dropped := f.dropped + 1)
    case LoopRunning => f.(loop := if f.running then InPop else CheckHead)
    case LoopHead => f.(loop := CheckTail(f.ring.head), seen := |f.ring.pushed|)
    case LoopTail => f.(loop := if f.loop.h == f.ring.tail then Done else InPop)
    case LoopPop =>
      var r := Step(f.ring, ConsumerAction(f.ring.consumer));
      f.(ring := r, loop := if !r.consumer.CIdle? then InPop
                            else if f.ring.consumer.CTook? then Got(f.ring.consumer.item) else CheckRunning)
    case LoopHandle => f.(handled := f.handled + [f.loop.item], loop := Handled)
    case LoopCount => f.(consumed := f.consumed + 1, loop := CheckRunning)
  }

  function Move<T>(f: Feed<T>, a: Act<T>): Feed<T> {
    if Ready(f, a) then Do(f, a) else f
  }

  function Play<T>(f: Feed<T>, acts: seq<Act<T>>): Feed<T> {
    if acts == [] then f else Move(Play(f, acts[..|acts|-1]), acts[|acts|-1])
  }

  function NewFeed<T>(k: nat, buffer: seq<T>): Feed<T> {
    Feed(RingProtocol.Init(k, buffer), false, PubIdle, NotStarted, Free, 0, 0, 0, [], 0, 0)
  }

  // ---------------------------------------------------------------- the inductive invariant

  /** Where the two threads are in the ring agrees with where they are in the feed. */
  ghost predicate InStep<T>(f: Feed<T>) {
    && (f.publisher.InPush? <==> !f.ring.producer.PIdle?) && !f.ring.producer.PSizing?
    && (!f.loop.InPop? ==> f.ring.consumer.CIdle?) && !f.ring.consumer.CSizing?
  }

  ghost predicate Tallied<T>(f: Feed<T>) {
    && f.published + (if f.publisher.Accepted? then 1 else 0) == |f.ring.pushed|
    && f.consumed + (if f.loop.Got? || f.loop.Handled? then 1 else 0) == |f.ring.popped|
    && f.handled + (if f.loop.Got? then [f.loop.item] else []) == f.ring.popped
  }

  /** The consumer thread's life: it is past its last check only after stop(), and then has seen every earlier push. */
  ghost predicate Lifecycle<T>(f: Feed<T>) {
    && (f.running ==> f.control.Free? && !f.loop.NotStarted? && !f.loop.Done?)
    && (!f.running && f.control.Free? ==> f.loop.NotStarted? || f.loop.Done?)
    && (f.control.Joining? ==> !f.running && !f.loop.NotStarted? && f.atStop <= |f.ring.pushed|)
    && (f.loop.CheckHead? || f.loop.CheckTail? ==> f.control.Joining?)
    && (f.loop.CheckTail? || (f.loop.Done? && f.control.Joining?) ==> f.atStop <= f.seen)
    && (f.loop.CheckTail? || f.loop.Done? ==> f.seen <= |f.ring.pushed|)
    && (f.loop.CheckTail? ==> f.loop.h == At(f.seen, f.ring.k) && |f.ring.popped| <= f.seen < |f.ring.popped| + Capacity(f.ring))
    && (f.loop.Done? ==> f.seen == |f.ring.popped|)
  }

  ghost predicate FeedInv<T>(f: Feed<T>) {
    RingProtocol.Inv(f.ring) && InStep(f) && Tallied(f) && Lifecycle(f)
  }

  lemma NewFeedInv<T>(k: nat, buffer: seq<T>)
    requires 1 <= k <= 63 && |buffer| == Pow2(k)
    ensures FeedInv(NewFeed(k, buffer))
  {
    RingProtocol.InitInv(k, buffer);
  }

  /** One step of push(). */
  lemma PushMoves<T>(r: Ring<T>)
    requires RingProtocol.Inv(r) && !r.producer.PIdle? && !r.producer.PSizing?
    ensures var r' := Step(r, ProducerAction(r.producer));
      && RingProtocol.Inv(r') && r'.k == r.k && r'.popped == r.popped && r'.consumer == r.consumer && r'.tail == r.tail
      && r'.pushed == (if r.producer.PWrote? then r.pushed + [r.producer.item] else r.pushed)
      && !r'.producer.PSizing? && (r.producer.PWrote? ==> r'.producer.PIdle?)
      && (r.producer.PReady? ==> !r'.producer.PIdle?)
  {
    NoSharedSlot(r);
    StepKeepsInv(r, ProducerAction(r.producer));
    hide RingProtocol.Inv, Advance;
  }

  /** One step of pop(). */
  lemma PopMoves<T>(r: Ring<T>)
    requires RingProtocol.Inv(r) && !r.consumer.CSizing?
    ensures var r' := Step(r, ConsumerAction(r.consumer));
      && RingProtocol.Inv(r') && r'.k == r.k && r'.pushed == r.pushed && r'.producer == r.producer
      && r'.popped == (if r.consumer.CTook? then r.popped + [r.consumer.item] else r.popped)
      && !r'.consumer.CSizing? && (r.consumer.CTook? ==> r'.consumer.CIdle?)
      && (r.consumer.CIdle? || r.consumer.CReady? ==> !r'.consumer.CIdle?)
  {
    NoSharedSlot(r);
    StepKeepsInv(r, ConsumerAction(r.consumer));
    hide RingProtocol.Inv, Advance;
  }

  lemma BeginMoves<T>(r: Ring<T>, item: T)
    requires RingProtocol.Inv(r) && r.producer.PIdle?
    ensures var r' := Step(r, PushBegin(item));
      RingProtocol.Inv(r') && r' == r.(producer := r'.producer) && r'.producer.PHead?
  {
    StepKeepsInv(r, PushBegin(item));
  }

  lemma RingMoves<T>(f: Feed<T>, a: Act<T>)
    requires FeedInv(f) && Ready(f, a)
    ensures RingProtocol.Inv(Do(f, a).ring) && InStep(Do(f, a))
  {
    hide RingProtocol.Inv, Step, Tallied, At;
    match a
    case PublishBegin(item) => BeginMoves(f.ring, item);
    case PublishStep => PushMoves(f.ring);
    case LoopPop => PopMoves(f.ring);
    case _ =>
  }

  lemma TalliesMove<T>(f: Feed<T>, a: Act<T>)
    requires FeedInv(f) && Ready(f, a)
    ensures Tallied(Do(f, a))
  {
    hide RingProtocol.Inv, Step, At;
    match a
    case PublishBegin(item) => BeginMoves(f.ring, item);
    case PublishStep => PushMoves(f.ring);
    case LoopPop => PopMoves(f.ring);
    case _ =>
  }

  lemma LifeMoves<T>(f: Feed<T>, a: Act<T>)
    requires FeedInv(f) && Ready(f, a)
    ensures Lifecycle(Do(f, a))
  {
    hide RingProtocol.Inv, Step, Tallied, At, Pow2;
    match a
    case PublishBegin(item) => BeginMoves(f.ring, item);
    case PublishStep => PushMoves(f.ring);
    case LoopPop => PopMoves(f.ring);
    case LoopHead => ShapeOf(f.ring);
    case LoopTail =>
      ShapeOf(f.ring);
      AtDiffers(|f.ring.popped|, f.seen, f.ring.k);
    case _ =>
  }

  lemma ShapeOf<T>(r: Ring<T>)
    requires RingProtocol.Inv(r)
    ensures Shape(r)
  {
  }

  lemma MoveKeepsInv<T>(f: Feed<T>, a: Act<T>)
    requires FeedInv(f)
    ensures FeedInv(Move(f, a))
  {
    hide RingProtocol.Inv, InStep, Tallied, Lifecycle, Do;
    if Ready(f, a) {
      RingMoves(f, a);
      TalliesMove(f, a);
      LifeMoves(f, a);
    }
  }

  lemma {:induction false} PlayKeepsInv<T>(f: Feed<T>, acts: seq<Act<T>>)
    requires FeedInv(f)
    ensures FeedInv(Play(f, acts))
  {
    hide FeedInv;
    if acts != [] {
      PlayKeepsInv(f, acts[..|acts|-1]);
      MoveKeepsInv(Play(f, acts[..|acts|-1]), acts[|acts|-1]);
    }
  }

  // ---------------------------------------------------------------- main results

  /** A call of publish() ends. */
  predicate Returns<T>(f: Feed<T>, a: Act<T>) {
    a.PublishCount? && Ready(f, a)
  }

  /** A call of publish() makes the comparison that decides it. */
  predicate Compares<T>(f: Feed<T>, a: Act<T>) {
    a.PublishStep? && Ready(f, a) && f.ring.producer.PHead?
  }

  predicate MeetsFullRing<T>(f: Feed<T>, a: Act<T>) {
    Compares(f, a) && Count(f.ring) == Capacity(f.ring) - 1
  }

  /** The number of actions of a run that find the feed as `counts` says. */
  function Times<T>(f: Feed<T>, acts: seq<Act<T>>, counts: (Feed<T>, Act<T>) -> bool): nat {
    if acts == [] then 0
    else
      Times(f, acts[..|acts|-1], counts) + (if counts(Play(f, acts[..|acts|-1]), acts[|acts|-1]) then 1 else 0)
  }

  /** The arguments that publish() was called with, in the order of the calls. */
  function OfferedTicks<T>(f: Feed<T>, acts: seq<Act<T>>): seq<T> {
    if acts == [] then []
    else
      var a := acts[|acts|-1];
      OfferedTicks(f, acts[..|acts|-1]) +
      (if a.PublishBegin? && Ready(Play(f, acts[..|acts|-1]), a) then [a.item] else [])
  }

  /** The arguments of the calls whose comparison found room. */
  function AcceptedTicks<T>(f: Feed<T>, acts: seq<Act<T>>): seq<T> {
    if acts == [] then []
    else
      var before, a := Play(f, acts[..|acts|-1]), acts[|acts|-1];
      AcceptedTicks(f, acts[..|acts|-1]) +
      (if Compares(before, a) && !MeetsFullRing(before, a) then Latest(OfferedTicks(f, acts[..|acts|-1])) else [])
  }

  /** What one move adds to the counters, given the number of calls that met a full ring. */
  lemma MoveCounts<T>(f: Feed<T>, a: Act<T>)
    requires FeedInv(f)
    ensures var g := Move(f, a);
      && g.published + g.dropped == f.published + f.dropped + (if Returns(f, a) then 1 else 0)
      && g.dropped + (if g.publisher.Refused? then 1 else 0)
         == f.dropped + (if f.publisher.Refused? then 1 else 0) + (if MeetsFullRing(f, a) then 1 else 0)
  {
    hide RingProtocol.Inv, Tallied, Lifecycle, At, Capacity;
    if a.PublishStep? && Ready(f, a) {
      PushMoves(f.ring);
      PushDecides(f.ring);
    }
  }

  /** push() returns false from its comparison with a full ring only. */
  lemma PushDecides<T>(r: Ring<T>)
    requires RingProtocol.Inv(r) && !r.producer.PIdle? && !r.producer.PSizing?
    ensures var r' := Step(r, ProducerAction(r.producer));
      r'.producer.PIdle? <==> r.producer.PWrote? || (r.producer.PHead? && Count(r) == Capacity(r) - 1)
  {
    NoSharedSlot(r);
    RefusalsAreExact(r);
    hide RingProtocol.Inv, Advance, Capacity;
  }

  lemma RoomOrFull<T>(r: Ring<T>)
    requires RingProtocol.Inv(r)
    ensures Count(r) < Capacity(r) - 1 || Count(r) == Capacity(r) - 1
  {
  }

  /** What one move adds to the ring's history, given the argument `offered` of the latest call. */
  lemma MoveAccepts<T>(f: Feed<T>, a: Act<T>, offered: seq<T>)
    requires FeedInv(f) && (MidPush(f.ring.producer) ==> Latest(offered) == [f.ring.producer.item])
    ensures var g := Move(f, a);
            var offered' := offered + (if a.PublishBegin? && Ready(f, a) then [a.item] else []);
      && (MidPush(g.ring.producer) ==> Latest(offered') == [g.ring.producer.item])
      && g.ring.pushed + Unpublished(g.ring.producer)
         == f.ring.pushed + Unpublished(f.ring.producer)
            + (if Compares(f, a) && !MeetsFullRing(f, a) then Latest(offered) else [])
  {
    hide RingProtocol.Inv, Tallied, Lifecycle, At, Capacity, Step, Latest, Unpublished, Count;
    var r := f.ring;
    RoomOrFull(r);
    assert offered + [] == offered;
    assert r.pushed + Unpublished(r.producer) + [] == r.pushed + Unpublished(r.producer);
    if Ready(f, a) {
      match a
      case PublishBegin(item) => StepAccepts(r, PushBegin(item), offered);
      case PublishStep => StepAccepts(r, ProducerAction(r.producer), offered);
      case LoopPop => StepAccepts(r, ConsumerAction(r.consumer), offered);
      case _ =>
    }
  }

  lemma {:induction false} CallsExplainTheFeed<T>(f: Feed<T>, acts: seq<Act<T>>)
    requires FeedInv(f) && f.publisher.PubIdle?
    ensures var g := Play(f, acts);
      && g.published + g.dropped == f.published + f.dropped + Times(f, acts, Returns)
      && g.dropped + (if g.publisher.Refused? then 1 else 0) == f.dropped + Times(f, acts, MeetsFullRing)
      && (MidPush(g.ring.producer) ==> Latest(OfferedTicks(f, acts)) == [g.ring.producer.item])
      && g.ring.pushed + Unpublished(g.ring.producer) == f.ring.pushed + AcceptedTicks(f, acts)
  {
    if acts == [] {
      IdleHasNothing(f);
    } else {
      hide FeedInv, Move, Latest, Returns, MeetsFullRing, Compares, Ready, Unpublished, MidPush;
      var acts0, a := acts[..|acts|-1], acts[|acts|-1];
      CallsExplainTheFeed(f, acts0);
      PlayKeepsInv(f, acts0);
      MoveCounts(Play(f, acts0), a);
      MoveAccepts(Play(f, acts0), a, OfferedTicks(f, acts0));
    }
  }

  lemma IdleHasNothing<T>(f: Feed<T>)
    requires FeedInv(f) && f.publisher.PubIdle?
    ensures !MidPush(f.ring.producer) && Unpublished(f.ring.producer) == []
  {
  }

  /**
   At every step of every run: published plus a not yet counted push is the pushes of the ring,
   consumed plus a not yet counted pop is its pops; published plus dropped is the number of calls of
   publish() that have returned, and dropped, plus a not yet counted refusal, the number of those that
   met a ring with capacity - 1 items in it.
   */
  lemma CountersAgree<T>(k: nat, buffer: seq<T>, acts: seq<Act<T>>)
    requires 1 <= k <= 63 && |buffer| == Pow2(k)
    ensures var f0 := NewFeed(k, buffer); var f := Play(f0, acts);
      && f.published + (if f.publisher.Accepted? then 1 else 0) == |f.ring.pushed|
      && f.consumed + (if f.loop.Got? || f.loop.Handled? then 1 else 0) == |f.ring.popped|
      && f.published + f.dropped == Times(f0, acts, Returns)
      && f.dropped + (if f.publisher.Refused? then 1 else 0) == Times(f0, acts, MeetsFullRing)
      && f.handled + (if f.loop.Got? then [f.loop.item] else []) == f.ring.popped <= f.ring.pushed
  {
    hide Play, Times;
    NewFeedInv(k, buffer);
    PlayKeepsInv(NewFeed(k, buffer), acts);
    CallsExplainTheFeed(NewFeed(k, buffer), acts);
  }

  /**
   From publish() to the handler: in every interleaving the arguments of the accepted calls are, in
   order, the ticks the handler was called on, the one it is about to be called on, those in the ring,
   and the one still to be published.
   */
  lemma TicksArriveInOrder<T>(k: nat, buffer: seq<T>, acts: seq<Act<T>>)
    requires 1 <= k <= 63 && |buffer| == Pow2(k)
    ensures var f := Play(NewFeed(k, buffer), acts);
      && InRing(f.ring)
      && AcceptedTicks(NewFeed(k, buffer), acts)
         == f.handled + (if f.loop.Got? then [f.loop.item] else []) + Held(f.ring) + Unpublished(f.ring.producer)
  {
    hide Play, AcceptedTicks, Held, Unpublished, RingProtocol.Inv;
    NewFeedInv(k, buffer);
    PlayKeepsInv(NewFeed(k, buffer), acts);
    CallsExplainTheFeed(NewFeed(k, buffer), acts);
    FifoOf(Play(NewFeed(k, buffer), acts).ring);
    HeldIsTheRest(Play(NewFeed(k, buffer), acts).ring);
  }

  lemma FifoOf<T>(r: Ring<T>)
    requires RingProtocol.Inv(r)
    ensures Shape(r) && Fifo(r)
  {
  }

  /**
   When stop() has joined: everything accepted before its exchange was handled, in publish order, and
   all that is accepted was handled and counted if and only if nothing was pushed after the consumer's last check.
   */
  lemma JoinedHasDrained<T>(f: Feed<T>)
    requires FeedInv(f) && Ready(f, StopJoin)
    ensures f.handled == f.ring.popped == f.ring.pushed[..f.seen] && f.atStop <= f.seen <= |f.ring.pushed|
    ensures f.consumed == |f.handled|
    ensures f.handled == f.ring.pushed <==> f.seen == |f.ring.pushed|
  {
  }

  predicate Publishes<T>(a: Act<T>) {
    a.PublishBegin? || a.PublishStep? || a.PublishCount?
  }

  lemma {:induction false} QuietPlay<T>(f: Feed<T>, acts: seq<Act<T>>)
    requires FeedInv(f) && forall i :: 0 <= i < |acts| ==> !Publishes(acts[i])
    requires f.control.Joining? ==> f.atStop == |f.ring.pushed|
    ensures Play(f, acts).control.Joining? ==> Play(f, acts).atStop == |f.ring.pushed|
    ensures Play(f, acts).ring.pushed == f.ring.pushed && Play(f, acts).publisher == f.publisher
    ensures Play(f, acts).published == f.published
  {
    hide RingProtocol.Inv, Tallied, Lifecycle, Step;
    if acts != [] {
      var g := Play(f, acts[..|acts|-1]);
      QuietPlay(f, acts[..|acts|-1]);
      PlayKeepsInv(f, acts[..|acts|-1]);
      if Ready(g, acts[|acts|-1]) && acts[|acts|-1].LoopPop? {
        PopMoves(g.ring);
      }
    }
  }

  /**
   stop() flushes: stop a feed while no publish is in progress, let every thread run in any order
   without a further publish, and when the join succeeds the handler has been called on exactly the
   accepted ticks in publish order, the ring is empty, and published equals consumed.
   */
  lemma StopFlushes<T>(f: Feed<T>, acts: seq<Act<T>>)
    requires FeedInv(f) && f.publisher.PubIdle? && f.running
    requires forall i :: 0 <= i < |acts| ==> !Publishes(acts[i])
    requires Ready(Play(Move(f, StopExchange), acts), StopJoin)
    ensures var g := Play(Move(f, StopExchange), acts);
      && g.handled == f.ring.pushed == g.ring.pushed == g.ring.popped
      && g.published == g.consumed == |g.handled|
  {
    hide Play;
    var f1 := Move(f, StopExchange);
    MoveKeepsInv(f, StopExchange);
    PlayKeepsInv(f1, acts);
    QuietPlay(f1, acts);
    JoinedHasDrained(Play(f1, acts));
  }

  // ---------------------------------------------------------------- stop() returns

  /** Steps of its own that the consumer still needs at most, once running_ is false and nothing is published. */
  function Work<T>(f: Feed<T>): int {
    12 * Count(f.ring) +
    match f.loop
    case Got(_) => 11
    case Handled => 10
    case CheckRunning => if Count(f.ring) > 0 then 9 else 6
    case CheckHead => if Count(f.ring) > 0 then 8 else 5
    case CheckTail(_) => if Count(f.ring) > 0 then 7 else 4
    case InPop =>
      (match f.ring.consumer
       case CTail(_) => if Count(f.ring) > 0 then 5 else 7
       case CReady(_) => 4
       case CTook(_, _) => 3
       case _ => if Count(f.ring) > 0 then 6 else 8)
    case _ => 0
  }

  predicate ByLoop<T>(a: Act<T>) {
    a.LoopRunning? || a.LoopHead? || a.LoopTail? || a.LoopPop? || a.LoopHandle? || a.LoopCount?
  }

  /** The one step the consumer thread can take. */
  function LoopAct<T>(f: Feed<T>): Act<T> {
    match f.loop
    case CheckRunning => LoopRunning
    case CheckHead => LoopHead
    case CheckTail(_) => LoopTail
    case InPop => LoopPop
    case Got(_) => LoopHandle
    case _ => LoopCount
  }

  lemma WorkBound<T>(f: Feed<T>)
    requires FeedInv(f)
    ensures 0 <= Work(f) < 12 * Capacity(f.ring)
  {
  }

  /** Where the consumer of the ring is after one step of pop(). */
  lemma PopProgress<T>(r: Ring<T>)
    requires RingProtocol.Inv(r) && !r.consumer.CSizing?
    ensures var c, c' := r.consumer, Step(r, ConsumerAction(r.consumer)).consumer;
      && (c.CIdle? ==> c'.CTail?) && (c.CReady? ==> c'.CTook?) && (c.CTook? ==> c'.CIdle?)
      && (c.CTail? ==> if Count(r) > 0 then c'.CReady? else c'.CIdle?)
      && (c.CTook? ==> Count(r) > 0)
  {
    NoSharedSlot(r);
    RefusalsAreExact(r);
    hide Shape, Fifo, ProducerOk, Advance;
  }

  lemma LoopWorks<T>(f: Feed<T>)
    requires FeedInv(f) && f.control.Joining? && !f.loop.Done?
    ensures Work(Move(f, LoopAct(f))) < Work(f)
  {
    hide RingProtocol.Inv, Step, At, Tallied;
    if f.loop.InPop? {
      PopMoves(f.ring);
      PopProgress(f.ring);
    } else if f.loop.CheckTail? {
      ShapeOf(f.ring);
      AtDiffers(|f.ring.popped|, f.seen, f.ring.k);
    }
  }

  /**
   stop() does not wait for ever: while it waits the consumer always has exactly one step to take,
   each such step uses up work, no other thread's step short of a publish adds any, and the work is bounded.
   */
  lemma StopTerminates<T>(f: Feed<T>, a: Act<T>)
    requires FeedInv(f) && f.control.Joining? && !f.loop.Done?
    ensures Ready(f, LoopAct(f)) && (ByLoop(a) && Ready(f, a) <==> a == LoopAct(f))
    ensures 0 <= Work(f) < 12 * Capacity(f.ring)
    ensures Work(Move(f, LoopAct(f))) < Work(f)
    ensures !ByLoop(a) && !Publishes(a) ==> Move(f, a) == f
  {
    WorkBound(f);
    LoopWorks(f);
    hide RingProtocol.Inv, Step, Tallied, Work;
  }

  /** The steps that the consumer takes in a run. */
  function LoopSteps<T>(f: Feed<T>, acts: seq<Act<T>>): nat {
    if acts == [] then 0
    else
      var g := Play(f, acts[..|acts|-1]);
      LoopSteps(f, acts[..|acts|-1]) + (if ByLoop(acts[|acts|-1]) && Ready(g, acts[|acts|-1]) then 1 else 0)
  }

  /** While stop() waits and nothing is published, every consumer step of the run is paid for out of the work at its start. */
  lemma {:induction false} WorkPays<T>(f: Feed<T>, acts: seq<Act<T>>)
    requires FeedInv(f) && f.control.Joining?
    requires forall i :: 0 <= i < |acts| ==> !Publishes(acts[i]) && !acts[i].StopJoin?
    ensures Play(f, acts).control.Joining? && FeedInv(Play(f, acts))
    ensures LoopSteps(f, acts) + Work(Play(f, acts)) <= Work(f)
  {
    hide FeedInv, Work, Do;
    PlayKeepsInv(f, acts);
    if acts != [] {
      WorkPays(f, acts[..|acts|-1]);
      WorkPaysOnce(Play(f, acts[..|acts|-1]), acts[|acts|-1]);
    }
  }

  lemma WorkPaysOnce<T>(f: Feed<T>, a: Act<T>)
    requires FeedInv(f) && f.control.Joining? && !Publishes(a) && !a.StopJoin?
    ensures Move(f, a).control.Joining?
    ensures Work(Move(f, a)) + (if ByLoop(a) && Ready(f, a) then 1 else 0) <= Work(f)
  {
    hide FeedInv, Work;
    if !f.loop.Done? {
      StopTerminates(f, a);
    }
  }

  /**
   stop() returns. In every run without a publish, however the threads are scheduled while it waits,
   the consumer takes fewer than 12 steps per slot of the ring, and as long as its loop has not ended it
   has a step to take. So a run in which it is not held up for ever reaches the end of the loop.
   */
  lemma StopEnds<T>(f: Feed<T>, acts: seq<Act<T>>)
    requires FeedInv(f) && f.control.Joining?
    requires forall i :: 0 <= i < |acts| ==> !Publishes(acts[i]) && !acts[i].StopJoin?
    ensures LoopSteps(f, acts) < 12 * Capacity(f.ring)
    ensures var g := Play(f, acts); if g.loop.Done? then Ready(g, StopJoin) else Ready(g, LoopAct(g))
  {
    hide FeedInv, Work, Play, LoopSteps, Capacity;
    WorkPays(f, acts);
    WorkBound(f);
    var g := Play(f, acts);
    WorkBound(g);
    if !g.loop.Done? {
      StopTerminates(g, LoopAct(g));
    }
  }

  /** Left to itself the consumer does end its loop. */
  lemma {:induction false} ConsumerAlone<T>(f: Feed<T>) returns (acts: seq<Act<T>>)
    requires FeedInv(f) && f.control.Joining?
    ensures |acts| <= Work(f) && (forall i :: 0 <= i < |acts| ==> ByLoop(acts[i]))
    ensures Play(f, acts).loop.Done? && Ready(Play(f, acts), StopJoin)
    decreases Work(f)
  {
    hide FeedInv, Work, Do, Play;
    WorkBound(f);
    if f.loop.Done? {
      acts := [];
      PlayNothing(f);
    } else {
      StopTerminates(f, LoopAct(f));
      WorkPaysOnce(f, LoopAct(f));
      MoveKeepsInv(f, LoopAct(f));
      var rest := ConsumerAlone(Move(f, LoopAct(f)));
      acts := [LoopAct(f)] + rest;
      PlayCons(f, LoopAct(f), rest);
    }
  }

  lemma {:induction false} PlayCons<T>(f: Feed<T>, a: Act<T>, acts: seq<Act<T>>)
    ensures Play(f, [a] + acts) == Play(Move(f, a), acts)
  {
    hide Move;
    if acts == [] {
      assert [a] + acts == [a] && [a][..0] == [];
      PlayNothing(f);
    } else {
      assert ([a] + acts)[..|acts|] == [a] + acts[..|acts|-1];
      PlayCons(f, a, acts[..|acts|-1]);
    }
  }

  // ---------------------------------------------------------------- a publish concurrent with stop()

  lemma PlaySnoc<T>(f: Feed<T>, acts: seq<Act<T>>, a: Act<T>)
    ensures Play(f, acts + [a]) == Move(Play(f, acts), a)
  {
    assert (acts + [a])[..|acts|] == acts;
  }

  /** stop() comes at once, and the consumer gets as far as its last load of head_. */
  function EarlySchedule(): seq<Act<int>> {
    [Start] + [StopExchange] + [LoopRunning] + [LoopHead]
  }

  function PublishSchedule(tick: int): seq<Act<int>> {
    [PublishBegin(tick)] + [PublishStep] + [PublishStep] + [PublishStep] + [PublishCount]
  }

  /** Without the proviso of StopFlushes, stop() can return with an accepted tick that has not been handled. */
  lemma LateTickIsStranded(tick: int)
    ensures var f := Play(NewFeed(1, [0, 0]), EarlySchedule() + PublishSchedule(tick) + [LoopTail]);
      Ready(f, StopJoin) && f.published == 1 && f.consumed == 0 && f.handled == [] && f.ring.pushed == [tick]
  {
    hide Play, Move, EarlySchedule, PublishSchedule;
    var f0 := NewFeed(1, [0, 0]);
    PlayEarly();
    PlayPublish(f0, EarlySchedule(), tick);
    PlaySnoc(f0, EarlySchedule() + PublishSchedule(tick), LoopTail);
    LatePublish(Play(f0, EarlySchedule()), tick);
    LastCheck(Play(f0, EarlySchedule() + PublishSchedule(tick)));
  }

  /**
   A later start() makes up for it: restart the feed after any stop(), stop it again while no publish
   is in progress, and every tick accepted so far, stranded ones included, has been handled in order.
   */
  lemma RestartFlushes<T>(f: Feed<T>, acts: seq<Act<T>>)
    requires FeedInv(f) && Ready(f, StopJoin) && f.publisher.PubIdle?
    requires forall i :: 0 <= i < |acts| ==> !Publishes(acts[i])
    requires var restarted := Move(Move(f, StopJoin), Start); Ready(Play(Move(restarted, StopExchange), acts), StopJoin)
    ensures var g := Play(Move(Move(Move(f, StopJoin), Start), StopExchange), acts);
      g.handled == f.ring.pushed && g.published == g.consumed == |f.ring.pushed|
  {
    hide Play;
    MoveKeepsInv(f, StopJoin);
    MoveKeepsInv(Move(f, StopJoin), Start);
    StopFlushes(Move(Move(f, StopJoin), Start), acts);
  }

  lemma PlayEarly()
    ensures Play(NewFeed(1, [0, 0]), EarlySchedule()) == NewFeed(1, [0, 0]).(loop := CheckTail(0), control := Joining)
  {
    hide Play;
    var f0 := NewFeed(1, [0, 0]);
    PlayNothing(f0);
    PlaySnoc(f0, [], Start);
    PlaySnoc(f0, [] + [Start], StopExchange);
    PlaySnoc(f0, [] + [Start] + [StopExchange], LoopRunning);
    PlaySnoc(f0, [] + [Start] + [StopExchange] + [LoopRunning], LoopHead);
    assert EarlySchedule() == [] + [Start] + [StopExchange] + [LoopRunning] + [LoopHead];
  }

  lemma PlayPublish(f: Feed<int>, acts: seq<Act<int>>, tick: int)
    ensures Play(f, acts + PublishSchedule(tick))
            == Move(Move(Move(Move(Move(Play(f, acts), PublishBegin(tick)), PublishStep), PublishStep), PublishStep), PublishCount)
  {
    hide Play, Move;
    var a1 := acts + [PublishBegin(tick)];
    PlaySnoc(f, acts, PublishBegin(tick));
    PlaySnoc(f, a1, PublishStep);
    PlaySnoc(f, a1 + [PublishStep], PublishStep);
    PlaySnoc(f, a1 + [PublishStep] + [PublishStep], PublishStep);
    PlaySnoc(f, a1 + [PublishStep] + [PublishStep] + [PublishStep], PublishCount);
    assert acts + PublishSchedule(tick) == a1 + [PublishStep] + [PublishStep] + [PublishStep] + [PublishCount];
  }

  lemma LastCheck(f: Feed<int>)
    requires f.loop == CheckTail(0) && f.ring.tail == 0
    ensures Move(f, LoopTail) == f.(loop := Done)
  {
  }

  lemma PlayNothing<T>(f: Feed<T>)
    ensures Play(f, []) == f
  {
  }

  lemma AdvanceFirst()
    ensures Advance(0, 1) == 1
  {
  }

  /** A whole publish() on an empty ring of two slots. */
  lemma LatePublish(f: Feed<int>, tick: int)
    requires f == NewFeed(1, [0, 0]).(loop := CheckTail(0), control := Joining)
    ensures Move(Move(Move(Move(Move(f, PublishBegin(tick)), PublishStep), PublishStep), PublishStep), PublishCount)
            == f.(ring := f.ring.(head := 1, buffer := [tick, 0], pushed := [tick]), published := 1)
  {
    AdvanceFirst();
    hide Advance;
    var r := f.ring;
    var f1 := Move(f, PublishBegin(tick));
    assert f1 == f.(ring := r.(producer := PHead(tick, 0)), publisher := InPush);
    var f2 := Move(f1, PublishStep);
    assert f2 == f.(ring := r.(producer := PReady(tick, 0)), publisher := InPush);
    var f3 := Move(f2, PublishStep);
    assert f3 == f.(ring := r.(producer := PWrote(tick, 0), buffer := [tick, 0]), publisher := InPush);
    var f4 := Move(f3, PublishStep);
    assert f4 == f.(ring := r.(head := 1, buffer := [tick, 0], pushed := [tick]), publisher := Accepted);
  }
}
