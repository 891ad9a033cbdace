/** A feed that is running makes progress: no publish() waits, and what was accepted gets to the handler. */
module FeedLiveness {
  import opened RingProtocol
  import opened FeedProtocol

  // ---------------------------------------------------------------- publish() returns

  /** The next step of publish(), and how many it still needs at most. */
  function PublishAct<T>(f: Feed<T>): Act<T> {
    if f.publisher.InPush? then PublishStep else PublishCount
  }

  function PublishLeft<T>(f: Feed<T>): nat {
    match f.publisher
    case PubIdle => 0
    case InPush => ProducerLeft(f.ring.producer) + 1
    case _ => 1
  }

  /**
   publish() waits for nobody: in the middle of a call there is always a next step, each step brings the
   call nearer to its end, of which at most four are left, and no other thread's step undoes that.
   */
  lemma NoPublishWaits<T>(f: Feed<T>, a: Act<T>)
    requires FeedInv(f) && !f.publisher.PubIdle?
    ensures PublishLeft(f) <= 4 && Ready(f, PublishAct(f)) && (Publishes(a) && Ready(f, a) <==> a == PublishAct(f))
    ensures PublishLeft(Move(f, PublishAct(f))) < PublishLeft(f)
    ensures !Publishes(a) ==> PublishLeft(Move(f, a)) == PublishLeft(f)
  {
    hide RingProtocol.Inv, Tallied, Lifecycle, Step;
    if f.publisher.InPush? {
      NoCallWaits(f.ring, ProducerAction(f.ring.producer));
      StepIsNext(f.ring, ProducerAction(f.ring.producer));
    }
    if a.LoopPop? && Ready(f, a) {
      PopMoves(f.ring);
    }
  }

  lemma StepIsNext<T>(r: Ring<T>, a: Action<T>)
    requires Enabled(r, a)
    ensures Step(r, a) == Next(r, a)
  {
  }

  // ---------------------------------------------------------------- ticks are delivered

  /** Consumer steps until the handler has been called on the first `n` ticks, at most, while the feed runs. */
  function Owed<T>(f: Feed<T>, n: nat): int {
    if |f.handled| >= n then 0
    else
      12 * (n - |f.ring.popped|) +
      match f.loop
      case Got(_) => 11
      case Handled => 10
      case CheckRunning => 9
      case _ =>
        match f.ring.consumer
        case CTail(_) => 5
        case CReady(_) => 4
        case CTook(_, _) => 3
        case _ => 6
  }

  lemma OwedBound<T>(f: Feed<T>, n: nat)
    requires FeedInv(f) && n <= |f.ring.pushed|
    ensures 0 <= Owed(f, n) < 12 * Capacity(f.ring) && (Owed(f, n) == 0 <==> |f.handled| >= n)
  {
  }

  /** While the feed runs, every consumer step pays for itself, and no other step, a publish included, adds to the debt. */
  lemma OwedMoves<T>(f: Feed<T>, a: Act<T>, n: nat)
    requires FeedInv(f) && f.running && !a.StopExchange? && n <= |f.ring.pushed|
    ensures Move(f, a).running && f.ring.pushed <= Move(f, a).ring.pushed
    ensures Owed(Move(f, a), n) + (if ByLoop(a) && Ready(f, a) && Owed(f, n) > 0 then 1 else 0) <= Owed(f, n)
  {
    hide RingProtocol.Inv, Step;
    OwedBound(f, n);
    if Ready(f, a) {
      match a
      case PublishBegin(item) => BeginMoves(f.ring, item);
      case PublishStep => PushMoves(f.ring);
      case LoopPop =>
        PopMoves(f.ring);
        PopProgress(f.ring);
      case _ =>
    }
  }

  lemma {:induction false} OwedPlay<T>(f: Feed<T>, acts: seq<Act<T>>, n: nat)
    requires FeedInv(f) && f.running && n <= |f.ring.pushed|
    requires forall i :: 0 <= i < |acts| ==> !acts[i].StopExchange?
    ensures var g := Play(f, acts);
      && FeedInv(g) && g.running && f.ring.pushed <= g.ring.pushed
      && (Owed(g, n) > 0 ==> LoopSteps(f, acts) + Owed(g, n) <= Owed(f, n))
  {
    hide FeedInv, Owed, Move;
    PlayKeepsInv(f, acts);
    if acts != [] {
      var g := Play(f, acts[..|acts|-1]);
      OwedPlay(f, acts[..|acts|-1], n);
      OwedBound(g, n);
      OwedMoves(g, acts[|acts|-1], n);
    }
  }

  /** A running feed's consumer always has a step. */
  lemma RunningLoopIsReady<T>(f: Feed<T>)
    requires FeedInv(f) && f.running
    ensures Ready(f, LoopAct(f))
  {
  }

  /**
   start() delivers. Whatever is published meanwhile and however the threads are scheduled, as long as
   nobody calls stop() the consumer always has a step to take, and after 12 steps per slot of the ring the
   handler has been called, in publish order, on everything that was in the ring when start() returned.
   */
  lemma StartedFeedDelivers<T>(f: Feed<T>, acts: seq<Act<T>>)
    requires FeedInv(f) && Ready(f, Start)
    requires forall i :: 0 <= i < |acts| ==> !acts[i].StopExchange?
    ensures var g := Play(Move(f, Start), acts);
      && Ready(g, LoopAct(g))
      && (LoopSteps(Move(f, Start), acts) >= 12 * Capacity(f.ring) ==> f.ring.pushed <= g.handled)
  {
    hide FeedInv, Owed, Play, LoopSteps, Capacity;
    var f1, n := Move(f, Start), |f.ring.pushed|;
    MoveKeepsInv(f, Start);
    OwedPlay(f1, acts, n);
    var g := Play(f1, acts);
    RunningLoopIsReady(g);
    OwedBound(f1, n);
    OwedBound(g, n);
    HandledIsPrefix(g);
  }

  lemma HandledIsPrefix<T>(f: Feed<T>)
    requires FeedInv(f)
    ensures f.handled <= f.ring.pushed
  {
  }
}
