/**
 What the slots held by filled takers cost. A book can trade again if and only if at least two slots
 are not held that way; every further arrival that is filled takes one more for ever.
 */
module LeakLaws {
  import opened OrderTypes
  import opened PriceTimeQueue
  import opened BookSpec
  import opened BookInvariant
  import opened BookRuns
  import opened MatchTheorems
  import opened BookLaws
  import opened OrderLaws

  lemma {:induction false} RunConcat(b: Book, cs: seq<Command>, ds: seq<Command>)
    ensures Run(b, cs + ds) == Run(Run(b, cs), ds)
    decreases |ds|
  {
    hide Step;
    if ds == [] {
      assert cs + ds == cs;
    } else {
      assert (cs + ds)[..|cs + ds|-1] == cs + ds[..|ds|-1];
      RunConcat(b, cs, ds[..|ds|-1]);
    }
  }

  lemma RunOne(b: Book, c: Command)
    ensures Run(b, [c]) == Step(b, c)
  {
    hide Step;
    assert [c][..0] == [];
    assert Run(b, []) == b;
  }

  // ---------------------------------------------------------------- trading needs two slots

  /** An order that finds something to trade with needs a slot, and so does what it trades with. */
  lemma RoomToMeet(b: Book, capacity: nat, s: Side)
    requires Inv(b, capacity) && Queue(b, s) != [] && b.free != []
    ensures |FilledTakers(b)| + 2 <= capacity
  {
    hide Inv, FilledTakers;
    SlotsAreCounted(b, capacity);
    assert Queue(b, s)[0].id in RestingIds(b);
  }

  lemma EmptyFill(t: Taker)
    ensures Fill([], t) == FillResult([], [], Left(t))
  {
  }

  lemma TradeNeedsRoom(b: Book, capacity: nat, c: Command)
    requires Inv(b, capacity)
    ensures Step(b, c).log != b.log || FilledOnArrival(b, c) ==> |FilledTakers(b)| + 2 <= capacity
  {
    hide Inv, FilledTakers, PriorityKept, Waterfall, Recorded, Joined, Reclaimed, Fill, FokAccepts, AddOrder, CancelOrder, AmendOrder;
    StepHasPriority(b, capacity, c);
    if c.Add? {
      if Refused(b, c.otype, c.price, c.qty) {
        RefusedUnchanged(b, c.side, c.otype, c.price, c.qty);
      } else if Queue(b, c.side.Opposite()) == [] {
        AddExecutes(b, capacity, c.side, c.otype, c.price, c.qty);
        EmptyFill(Admit(b, c.side, c.otype, c.price, c.qty).1);
      } else {
        RoomToMeet(b, capacity, c.side.Opposite());
      }
    }
  }

  /** Filled takers never hold the last slot: a run that starts from a fresh book cannot reach it. */
  lemma {:induction false} LeakStaysBelowCapacity(capacity: nat, cs: seq<Command>)
    requires capacity > 0
    ensures |FilledTakers(Run(Init(capacity), cs))| < capacity
  {
    hide FilledTakers, Step, Inv, FilledOnArrival;
    if cs == [] {
      NoTakersYet(capacity);
    } else {
      var b := Run(Init(capacity), cs[..|cs|-1]);
      LeakStaysBelowCapacity(capacity, cs[..|cs|-1]);
      ReachableInv(capacity, cs[..|cs|-1]);
      StepFilledTakers(b, capacity, cs[|cs|-1]);
      TradeNeedsRoom(b, capacity, cs[|cs|-1]);
    }
  }

  lemma NoTakersYet(capacity: nat)
    ensures FilledTakers(Init(capacity)) == {}
  {
  }

  /** With at most one slot left for other orders, the book never trades again, whatever is sent to it. */
  lemma {:induction false} DeadBook(b: Book, capacity: nat, cs: seq<Command>)
    requires Inv(b, capacity) && |FilledTakers(b)| + 2 > capacity
    ensures Run(b, cs).log == b.log
  {
    hide FilledTakers, Step, Inv, FilledOnArrival;
    if cs != [] {
      var b1 := Run(b, cs[..|cs|-1]);
      DeadBook(b, capacity, cs[..|cs|-1]);
      RunKeepsInv(b, capacity, cs[..|cs|-1]);
      FilledTakersNeverShrink(b, capacity, cs[..|cs|-1]);
      SubsetSize(FilledTakers(b), FilledTakers(b1));
      TradeNeedsRoom(b1, capacity, cs[|cs|-1]);
    }
  }

  // ---------------------------------------------------------------- two slots are enough

  /** An ask and a bid of one unit each that meet. */
  function AskOne(): Command {
    Add(ASK, LIMIT, 100, 1)
  }

  function BidOne(): Command {
    Add(BID, LIMIT, 100, 1)
  }

  ghost predicate Bare(b: Book, capacity: nat) {
    Inv(b, capacity) && b.bids == [] && b.asks == []
  }

  lemma FirstAsk(b: Book, capacity: nat)
    requires Bare(b, capacity) && |b.free| >= 2
    ensures var b1 := Step(b, AskOne());
      && Inv(b1, capacity) && b1.bids == [] && |b1.asks| == 1 && Open(b1.asks[0]) == 1 && b1.asks[0].price == 100
      && b1.free != [] && b1.log == b.log && FilledTakers(b1) == FilledTakers(b)
  {
    QuietAdd(b, ASK, 100, 1);
    hide Inv, AddOrder, FilledTakers, TopOfBook, FilledOnArrival;
    StepKeepsInv(b, capacity, AskOne());
    StepFilledTakers(b, capacity, AskOne());
    NotFilledByNothing(b, capacity);
  }

  lemma NotFilledByNothing(b: Book, capacity: nat)
    requires Bare(b, capacity) && b.free != []
    ensures !FilledOnArrival(b, AskOne())
  {
    hide Inv;
    EmptyFill(Admit(b, ASK, LIMIT, 100, 1).1);
  }

  lemma FillOne(m: Resting, t: Taker)
    requires Open(m) == 1 && Left(t) == 1 && Crosses(t, m.price)
    ensures Fill([m], t) == FillResult([], [Trade(m.id, t.id, m.price, 1)], 0)
  {
    assert [m][1..] == [];
  }

  lemma ThenBid(b: Book, capacity: nat)
    requires Inv(b, capacity) && b.bids == [] && |b.asks| == 1 && Open(b.asks[0]) == 1 && b.asks[0].price == 100
    requires b.free != []
    ensures var b2 := Step(b, BidOne());
      Bare(b2, capacity) && |b2.log| == |b.log| + 1 && |FilledTakers(b2)| == |FilledTakers(b)| + 1
  {
    AdmittedId(b, capacity);
    hide Inv, AddOrder, FilledTakers, Fill, Waterfall, Recorded, Reclaimed, FokAccepts, Insert;
    var t := Admit(b, BID, LIMIT, 100, 1).1;
    assert b.asks == [b.asks[0]];
    FillOne(b.asks[0], t);
    AddExecutes(b, capacity, BID, LIMIT, 100, 1);
    StepKeepsInv(b, capacity, BidOne());
    StepFilledTakers(b, capacity, BidOne());
    FilledAreIndexed(b);
  }

  lemma FilledAreIndexed(b: Book)
    ensures FilledTakers(b) <= b.index.Keys
  {
  }

  /** On a bare book the pair trades once and takes one slot for ever. */
  lemma PairLeaks(b: Book, capacity: nat)
    requires Bare(b, capacity) && |b.free| >= 2
    ensures var b2 := Run(b, [AskOne()] + [BidOne()]);
      Bare(b2, capacity) && |b2.log| == |b.log| + 1 && |FilledTakers(b2)| == |FilledTakers(b)| + 1
  {
    hide Inv, FilledTakers, Step, Run;
    FirstAsk(b, capacity);
    ThenBid(Step(b, AskOne()), capacity);
    RunOne(b, AskOne());
    RunOne(Step(b, AskOne()), BidOne());
    RunConcat(b, [AskOne()], [BidOne()]);
  }

  lemma RestingNeedsId(b: Book)
    requires RestingIds(b) == {}
    ensures b.bids == [] && b.asks == []
  {
    assert b.bids != [] ==> b.bids[0].id in RestingIds(b);
    assert b.asks != [] ==> b.asks[0].id in RestingIds(b);
  }

  lemma CancelOne(b: Book, capacity: nat, id: OrderId)
    requires Inv(b, capacity) && id in RestingIds(b)
    ensures var b1 := Step(b, Cancel(id));
      Inv(b1, capacity) && RestingIds(b1) <= RestingIds(b) && |RestingIds(b1)| < |RestingIds(b)|
      && b1.log == b.log && FilledTakers(b1) == FilledTakers(b)
  {
    StepKeepsInv(b, capacity, Cancel(id));
    CancelFilledTakers(b, id);
    CancelRemovesExactly(b, capacity, id);
    hide Inv, FilledTakers, Ids, CancelOrder;
    var b1 := Step(b, Cancel(id));
    SlotsAreCounted(b, capacity);
    SlotsAreCounted(b1, capacity);
    assert |b1.free| == |b.free| + 1;
    assert Ids(b1.bids) <= Ids(b.bids) && Ids(b1.asks) <= Ids(b.asks);
  }

  /** Cancelling everything that rests leaves a bare book, the same log and the same filled takers. */
  lemma {:induction false} CancelAll(b: Book, capacity: nat) returns (cs: seq<Command>)
    requires Inv(b, capacity)
    ensures Bare(Run(b, cs), capacity) && Run(b, cs).log == b.log && FilledTakers(Run(b, cs)) == FilledTakers(b)
    decreases |RestingIds(b)|
  {
    hide Inv, FilledTakers, RestingIds, Step, Run;
    if RestingIds(b) == {} {
      RestingNeedsId(b);
      cs := [];
      RunNone(b);
    } else {
      var id :| id in RestingIds(b);
      CancelOne(b, capacity, id);
      var rest := CancelAll(Step(b, Cancel(id)), capacity);
      cs := [Cancel(id)] + rest;
      RunOne(b, Cancel(id));
      RunConcat(b, [Cancel(id)], rest);
    }
  }

  lemma RunNone(b: Book)
    ensures Run(b, []) == b
  {
  }

  /** The exact threshold: some commands make the book trade again if and only if two slots are not held by filled takers. */
  lemma CanTradeAgain(b: Book, capacity: nat)
    requires Inv(b, capacity)
    ensures (exists cs :: Run(b, cs).log != b.log) <==> |FilledTakers(b)| + 2 <= capacity
  {
    hide Inv, FilledTakers, RestingIds, Run;
    if |FilledTakers(b)| + 2 <= capacity {
      var cs := CancelAll(b, capacity);
      var b1 := Run(b, cs);
      BareFree(b1, capacity);
      PairLeaks(b1, capacity);
      RunConcat(b, cs, [AskOne()] + [BidOne()]);
      assert Run(b, cs + ([AskOne()] + [BidOne()])).log != b.log;
    } else {
      forall cs
        ensures Run(b, cs).log == b.log
      {
        DeadBook(b, capacity, cs);
      }
    }
  }

  lemma BareFree(b: Book, capacity: nat)
    requires Bare(b, capacity)
    ensures |b.free| + |FilledTakers(b)| == capacity
  {
    hide Inv, FilledTakers;
    SlotsAreCounted(b, capacity);
    assert RestingIds(b) == {};
  }

  function Pairs(n: nat): seq<Command> {
    if n == 0 then [] else Pairs(n - 1) + ([AskOne()] + [BidOne()])
  }

  /** Each of the first capacity - 1 pairs leaks a slot; after them the book is dead, though nothing rests in it. */
  lemma {:induction false} PairsLeak(capacity: nat, n: nat)
    requires n < capacity
    ensures var b := Run(Init(capacity), Pairs(n)); Bare(b, capacity) && |FilledTakers(b)| == n && |b.log| == n
  {
    hide Inv, FilledTakers, Run;
    if n == 0 {
      NoTakersYet(capacity);
      InitInv(capacity);
      RunNone(Init(capacity));
    } else {
      PairsLeak(capacity, n - 1);
      var b := Run(Init(capacity), Pairs(n - 1));
      BareFree(b, capacity);
      PairLeaks(b, capacity);
      RunConcat(Init(capacity), Pairs(n - 1), [AskOne()] + [BidOne()]);
    }
  }

  /** For every capacity the dead book is reachable: capacity - 1 crossing pairs of one unit get there. */
  lemma DeadBookIsReachable(capacity: nat, cs: seq<Command>)
    requires capacity > 0
    ensures var b := Run(Init(capacity), Pairs(capacity - 1));
      b.bids == [] && b.asks == [] && |FilledTakers(b)| == capacity - 1 && Run(b, cs).log == b.log
  {
    hide Inv, FilledTakers, Run;
    PairsLeak(capacity, capacity - 1);
    DeadBook(Run(Init(capacity), Pairs(capacity - 1)), capacity, cs);
  }
}
