/**
 What the book reports of a run: which commands publish a tick and what each tick says, which ids
 add_order gives out, and what the statistics count.
 */
module ReportLaws {
  import opened OrderTypes
  import opened PriceTimeQueue
  import opened BookSpec
  import opened BookInvariant
  import opened BookRuns
  import opened MatchTheorems
  import opened BookLaws
  import opened OrderLaws

  // ---------------------------------------------------------------- what a command achieves

  /** An order is accepted: it has a quantity, a LIMIT also a price, and a slot is free. */
  predicate Accepts(b: Book, c: Command) {
    c.Add? && c.qty > 0 && (c.otype.LIMIT? ==> c.price > 0) && b.free != []
  }

  ghost predicate Cancels(b: Book, c: Command) {
    c.Cancel? && c.id in RestingIds(b)
  }

  ghost predicate Amends(b: Book, c: Command) {
    c.Amend? && c.id in RestingIds(b) && c.id in b.ledger && b.ledger[c.id].filled < c.qty
  }

  /** Everything that succeeds publishes a tick, except that a rejected fill-or-kill is silent. */
  ghost predicate Announces(b: Book, c: Command) {
    || (Accepts(b, c) && !FokRejected(b, Admit(b, c.side, c.otype, c.price, c.qty).1))
    || Cancels(b, c) || Amends(b, c)
  }

  /** The number of commands of a run that find the book as `counts` says. */
  ghost function Times(b: Book, cs: seq<Command>, counts: (Book, Command) -> bool): nat {
    if cs == [] then 0
    else
      Times(b, cs[..|cs|-1], counts) + (if counts(Run(b, cs[..|cs|-1]), cs[|cs|-1]) then 1 else 0)
  }

  // ---------------------------------------------------------------- statistics

  /** Matching and settling count nothing and give out no id. */
  lemma {:induction false} MatchCountsNothing(b: Book, t: Taker)
    ensures Match(b, t).0.counter == b.counter && Match(b, t).0.cancelled == b.cancelled && Match(b, t).0.ticks == b.ticks
    decreases |Queue(b, t.side.Opposite())|, Left(t)
  {
    if CanTrade(b, t) {
      MatchStepCountsNothing(b, t);
      MatchCountsNothing(MatchStep(b, t).0, MatchStep(b, t).1);
    }
  }

  lemma MatchStepCountsNothing(b: Book, t: Taker)
    requires CanTrade(b, t)
    ensures var b' := MatchStep(b, t).0; b'.counter == b.counter && b'.cancelled == b.cancelled && b'.ticks == b.ticks
  {
  }

  lemma AddCounts(b: Book, c: Command)
    requires c.Add?
    ensures var (b', id) := AddOrder(b, c.side, c.otype, c.price, c.qty);
      && b'.counter == b.counter + (if Accepts(b, c) then 1 else 0) && b'.cancelled == b.cancelled
      && id == (if Accepts(b, c) then b'.counter else 0)
  {
    hide Match, FokAccepts, TopOfBook, Insert;
    if Accepts(b, c) {
      var (b1, t) := Admit(b, c.side, c.otype, c.price, c.qty);
      MatchCountsNothing(b1, t);
    }
  }

  /**
   One call: only an accepted order gets an id, the next in line; only a successful cancellation is
   counted as one.
   */
  lemma StepCounts(b: Book, capacity: nat, c: Command)
    requires Inv(b, capacity)
    ensures Step(b, c).counter == b.counter + (if Accepts(b, c) then 1 else 0)
    ensures Step(b, c).cancelled == b.cancelled + (if Cancels(b, c) then 1 else 0)
  {
    hide Inv, AddOrder, RestingIds, TopOfBook, Insert, RemoveAt;
    match c
    case Add(_, _, _, _) => AddCounts(b, c);
    case Cancel(id) => LiveIsResting(b, capacity, id);
    case Amend(_, _) =>
  }

  /**
   Over every run orders_added counts the accepted orders and orders_cancelled the cancellations that
   found their order resting; nothing else moves either, whatever the other commands do.
   */
  lemma {:induction false} StatisticsCount(b: Book, capacity: nat, cs: seq<Command>)
    requires Inv(b, capacity)
    ensures Run(b, cs).counter == b.counter + Times(b, cs, Accepts)
    ensures Run(b, cs).cancelled == b.cancelled + Times(b, cs, Cancels)
  {
    hide Inv, Step, Cancels, Accepts;
    if cs != [] {
      StatisticsCount(b, capacity, cs[..|cs|-1]);
      RunKeepsInv(b, capacity, cs[..|cs|-1]);
      StepCounts(Run(b, cs[..|cs|-1]), capacity, cs[|cs|-1]);
    }
  }

  /** add_order returns consecutive ids: one more than the number of orders accepted before. */
  lemma IdsAreConsecutive(capacity: nat, cs: seq<Command>, c: Command)
    requires c.Add?
    ensures var b := Run(Init(capacity), cs);
      AddOrder(b, c.side, c.otype, c.price, c.qty).1
      == if Accepts(b, c) then Times(Init(capacity), cs, Accepts) + 1 else 0
  {
    hide Run, Accepts, AddOrder, Times;
    InitInv(capacity);
    StatisticsCount(Init(capacity), capacity, cs);
    AddCounts(Run(Init(capacity), cs), c);
  }

  // ---------------------------------------------------------------- ticks

  /** One more tick than before, and it tells the truth about the book as it is now. */
  ghost predicate Announced(b: Book, b': Book) {
    |b'.ticks| == |b.ticks| + 1 && b'.ticks[..|b.ticks|] == b.ticks && Shows(b'.ticks[|b.ticks|], b')
  }

  lemma PublishAnnounces(b: Book, capacity: nat, b1: Book)
    requires b1.ticks == b.ticks && Inv(Publish(b1), capacity)
    ensures Announced(b, Publish(b1))
  {
    hide Inv, TopOfBook, Shows;
    TickShowsTheBest(Publish(b1), capacity);
    SameTopOfBook(b1);
  }

  lemma SameTopOfBook(b: Book)
    ensures TopOfBook(Publish(b)) == TopOfBook(b)
  {
    hide BestQty;
  }

  lemma AddPublishes(b: Book, c: Command) returns (settled: Book)
    requires c.Add?
    ensures settled.ticks == b.ticks
    ensures Announces(b, c) ==> Step(b, c) == Publish(settled)
    ensures !Announces(b, c) ==> Step(b, c).ticks == b.ticks
  {
    hide Match, FokAccepts, TopOfBook, Insert, Publish, RestingIds;
    settled := b;
    if Accepts(b, c) {
      var (b1, t) := Admit(b, c.side, c.otype, c.price, c.qty);
      MatchCountsNothing(b1, t);
      settled := Settle(Match(b1, t).0, Match(b1, t).1);
    }
  }

  lemma UnqueueTicks(b: Book, s: Side, id: OrderId)
    ensures Unqueue(b, s, id).ticks == b.ticks
  {
  }

  lemma CancelPublishes(b: Book, capacity: nat, c: Command) returns (settled: Book)
    requires Inv(b, capacity) && c.Cancel?
    ensures settled.ticks == b.ticks
    ensures Announces(b, c) ==> Step(b, c) == Publish(settled)
    ensures !Announces(b, c) ==> Step(b, c).ticks == b.ticks
  {
    hide Inv, TopOfBook, Publish, RestingIds, SetStatus, FokRejected, Admit;
    LiveIsResting(b, capacity, c.id);
    hide Unqueue;
    settled := b;
    if Live(b, c.id) {
      UnqueueTicks(b, b.ledger[c.id].side, c.id);
      settled := Close(Unqueue(b, b.ledger[c.id].side, c.id), c.id, b.index[c.id], CANCELLED).(cancelled := b.cancelled + 1);
    }
  }

  lemma AmendPublishes(b: Book, capacity: nat, c: Command) returns (settled: Book)
    requires Inv(b, capacity) && c.Amend?
    ensures settled.ticks == b.ticks
    ensures Announces(b, c) ==> Step(b, c) == Publish(settled)
    ensures !Announces(b, c) ==> Step(b, c).ticks == b.ticks
  {
    hide Inv, TopOfBook, Insert, RemoveAt, Publish, RestingIds, Find, SetQty, FokRejected, Admit;
    LiveIsResting(b, capacity, c.id);
    settled := b;
    if Live(b, c.id) && c.qty > b.ledger[c.id].filled {
      settled := if c.qty > b.ledger[c.id].qty then AmendUp(b, c.id, c.qty) else AmendDown(b, c.id, c.qty);
    }
  }

  /** A command that achieves something publishes exactly one tick, a true one; any other publishes none. */
  lemma StepTicks(b: Book, capacity: nat, c: Command)
    requires Inv(b, capacity)
    ensures if Announces(b, c) then Announced(b, Step(b, c)) else Step(b, c).ticks == b.ticks
  {
    hide Inv, Announces, Announced, Step, Publish;
    StepKeepsInv(b, capacity, c);
    var settled: Book;
    match c {
      case Add(_, _, _, _) => settled := AddPublishes(b, c);
      case Cancel(_) => settled := CancelPublishes(b, capacity, c);
      case Amend(_, _) => settled := AmendPublishes(b, capacity, c);
    }
    if Announces(b, c) {
      PublishAnnounces(b, capacity, settled);
    }
  }

  /** Tick `i` of the run was published by command `n`, and shows the book as that command left it. */
  ghost predicate TickOf(capacity: nat, cs: seq<Command>, i: nat, n: nat)
    requires n < |cs|
  {
    && Announces(Run(Init(capacity), cs[..n]), cs[n])
    && i == Times(Init(capacity), cs[..n], Announces) < |Run(Init(capacity), cs).ticks|
    && Shows(Run(Init(capacity), cs).ticks[i], Run(Init(capacity), cs[..n+1]))
  }

  /** Over every run: one tick per announcing command, in order, each true when it was published. */
  lemma {:induction false} EveryTickIsTrue(capacity: nat, cs: seq<Command>, i: nat)
    ensures |Run(Init(capacity), cs).ticks| == Times(Init(capacity), cs, Announces)
    ensures i < |Run(Init(capacity), cs).ticks| ==> exists n :: 0 <= n < |cs| && TickOf(capacity, cs, i, n)
  {
    hide Step, Announces, Shows, Inv;
    if cs != [] {
      var m := |cs| - 1;
      var b := Run(Init(capacity), cs[..m]);
      EveryTickIsTrue(capacity, cs[..m], i);
      ReachableInv(capacity, cs[..m]);
      StepTicks(b, capacity, cs[m]);
      assert cs[..m+1] == cs;
      if i < |b.ticks| {
        var n :| 0 <= n < m && TickOf(capacity, cs[..m], i, n);
        assert cs[..m][..n] == cs[..n] && cs[..m][..n+1] == cs[..n+1];
        assert TickOf(capacity, cs, i, n);
      } else if i < |Step(b, cs[m]).ticks| {
        assert TickOf(capacity, cs, i, m);
      }
    }
  }

  lemma LastTradeShown(t: Tick, b: Book)
    requires Shows(t, b)
    ensures ShowsLastTrade(t, b.log)
  {
  }

  /** An order that trades publishes one tick, which carries the last of the trades it just made. */
  lemma TickCarriesTheTrade(b: Book, capacity: nat, c: Command)
    requires Inv(b, capacity) && Accepts(b, c)
    requires var t := Admit(b, c.side, c.otype, c.price, c.qty).1; !FokRejected(b, t) && Sweep(b, t).trades != []
    ensures var trades := Sweep(b, Admit(b, c.side, c.otype, c.price, c.qty).1).trades; var last := trades[|trades|-1];
            var ticks := Step(b, c).ticks;
      && Step(b, c).log == b.log + trades && |ticks| == |b.ticks| + 1 && ticks[..|b.ticks|] == b.ticks
      && ticks[|b.ticks|].lastPx == last.price && ticks[|b.ticks|].lastQty == last.qty
  {
    hide Inv, AddOrder, Fill, Waterfall, FokRejected, Recorded, Joined, Reclaimed, Cancels, Amends, Shows;
    AddExecutes(b, capacity, c.side, c.otype, c.price, c.qty);
    StepTicks(b, capacity, c);
    LastTradeShown(Step(b, c).ticks[|b.ticks|], Step(b, c));
  }
}
