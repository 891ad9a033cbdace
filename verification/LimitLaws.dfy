/** No order trades beyond its limit: the run law behind the price checks of the match loops and the fill-or-kill pre-check. */
module LimitLaws {
  import opened OrderTypes
  import opened PriceTimeQueue
  import opened BookSpec
  import opened BookInvariant
  import opened BookRuns
  import opened MatchTheorems
  import opened BookLaws
  import opened FillOrKill

  // ---------------------------------------------------------------- the terms of an order

  /** Side, type and price of an accepted order never change. */
  ghost predicate TermsKept(l: map<OrderId, Entry>, l': map<OrderId, Entry>) {
    forall id :: id in l ==>
      id in l' && l'[id].side == l[id].side && l'[id].otype == l[id].otype && l'[id].price == l[id].price
  }

  lemma EditKeepsTerms(l: map<OrderId, Entry>, id: OrderId, f: nat, status: OrderStatus)
    ensures TermsKept(l, l) && TermsKept(l, Credit(l, id, f)) && TermsKept(l, SetStatus(l, id, status)) && TermsKept(l, SetQty(l, id, f))
  {
  }

  lemma TermsKeptOn(l: map<OrderId, Entry>, l1: map<OrderId, Entry>, l2: map<OrderId, Entry>)
    requires TermsKept(l, l1) && TermsKept(l1, l2)
    ensures TermsKept(l, l2)
  {
  }

  lemma TradeKeepsTerms(b: Book, t: Taker)
    requires CanTrade(b, t)
    ensures TermsKept(b.ledger, MatchStep(b, t).0.ledger)
  {
    hide TermsKept, Credit;
    var m := Queue(b, t.side.Opposite())[0];
    var f := TradeWith(t, m);
    EditKeepsTerms(b.ledger, m.id, f, NEW);
    EditKeepsTerms(Credit(b.ledger, m.id, f), t.id, f, NEW);
    TermsKeptOn(b.ledger, Credit(b.ledger, m.id, f), Credit(Credit(b.ledger, m.id, f), t.id, f));
  }

  lemma {:induction false} MatchKeepsTerms(b: Book, t: Taker)
    ensures TermsKept(b.ledger, Match(b, t).0.ledger)
    decreases |Queue(b, t.side.Opposite())|, Left(t)
  {
    hide TermsKept;
    EditKeepsTerms(b.ledger, t.id, 0, NEW);
    if CanTrade(b, t) {
      var (b1, t1) := MatchStep(b, t);
      TradeKeepsTerms(b, t);
      MatchKeepsTerms(b1, t1);
      TermsKeptOn(b.ledger, b1.ledger, Match(b1, t1).0.ledger);
    }
  }

  lemma SettleKeepsTerms(b: Book, t: Taker)
    ensures TermsKept(b.ledger, Publish(Settle(b, t)).ledger)
  {
    hide TermsKept, SetStatus, TopOfBook, Insert;
    EditKeepsTerms(b.ledger, t.id, 0, CANCELLED);
  }

  lemma AdmitKeepsTerms(b: Book, c: Command)
    requires c.Add? && b.free != [] && b.counter + 1 !in b.ledger
    ensures TermsKept(b.ledger, Admit(b, c.side, c.otype, c.price, c.qty).0.ledger)
  {
  }

  /** An admitted order's record keeps the terms it was submitted with, and so does every older record. */
  lemma AddKeepsTerms(b: Book, c: Command)
    requires c.Add? && b.counter + 1 !in b.ledger
    ensures TermsKept(b.ledger, Step(b, c).ledger)
    ensures !Refused(b, c.otype, c.price, c.qty) ==>
              TermsKept(Admit(b, c.side, c.otype, c.price, c.qty).0.ledger, Step(b, c).ledger)
  {
    hide Match, FokAccepts, Settle, Publish, Admit, TermsKept, SetStatus;
    EditKeepsTerms(b.ledger, 0, 0, NEW);
    if !Refused(b, c.otype, c.price, c.qty) {
      var (b1, t) := Admit(b, c.side, c.otype, c.price, c.qty);
      var (bm, tm) := Match(b1, t);
      AdmitKeepsTerms(b, c);
      MatchKeepsTerms(b1, t);
      SettleKeepsTerms(bm, tm);
      TermsKeptOn(b1.ledger, bm.ledger, Publish(Settle(bm, tm)).ledger);
      EditKeepsTerms(b1.ledger, t.id, 0, REJECTED);
      TermsKeptOn(b.ledger, b1.ledger, Step(b, c).ledger);
    }
  }

  lemma CancelKeepsTerms(b: Book, id: OrderId)
    ensures TermsKept(b.ledger, CancelOrder(b, id).0.ledger)
  {
    hide TermsKept, SetStatus, RemoveAt, Find, TopOfBook;
    EditKeepsTerms(b.ledger, id, 0, CANCELLED);
  }

  lemma AmendKeepsTerms(b: Book, id: OrderId, qty: nat)
    ensures TermsKept(b.ledger, AmendOrder(b, id, qty).0.ledger)
  {
    hide TermsKept, SetQty, RemoveAt, Insert, Find, TopOfBook;
    EditKeepsTerms(b.ledger, id, qty, NEW);
  }

  lemma StepKeepsTerms(b: Book, capacity: nat, c: Command)
    requires Inv(b, capacity)
    ensures TermsKept(b.ledger, Step(b, c).ledger)
  {
    AdmittedId(b, capacity);
    hide Inv, AddOrder, CancelOrder, AmendOrder, TermsKept;
    match c
    case Add(_, _, _, _) => AddKeepsTerms(b, c);
    case Cancel(id) => CancelKeepsTerms(b, id);
    case Amend(id, qty) => AmendKeepsTerms(b, id, qty);
  }

  // ---------------------------------------------------------------- trades

  /** The trade is at the taker's limit or better, if its type has one. */
  ghost predicate InLimit(l: map<OrderId, Entry>, tr: Trade) {
    tr.taker in l && (l[tr.taker].otype.LIMIT? || l[tr.taker].otype.FOK? ==> Reaches(l[tr.taker].side, l[tr.taker].price, tr.price))
  }

  ghost predicate AllInLimit(b: Book) {
    forall i :: 0 <= i < |b.log| ==> InLimit(b.ledger, b.log[i])
  }

  /** The trades of one sweep by an order that found a limit check. */
  lemma SweepInLimit(b: Book, t: Taker, k: nat)
    requires Waterfall(Queue(b, t.side.Opposite()), t, Sweep(b, t)) && k < |Sweep(b, t).trades|
    ensures Sweep(b, t).trades[k].taker == t.id
    ensures t.otype.LIMIT? ==> Reaches(t.side, t.price, Sweep(b, t).trades[k].price)
  {
    hide Fill, SurvivorsReduced;
  }

  lemma NewInLimit(b: Book, capacity: nat, c: Command, i: nat)
    requires Inv(b, capacity) && c.Add? && !Refused(b, c.otype, c.price, c.qty)
    requires |b.log| <= i < |Step(b, c).log|
    ensures InLimit(Step(b, c).ledger, Step(b, c).log[i])
  {
    hide Inv, AddOrder, Fill, Waterfall, FokAccepts, Recorded, Joined, Reclaimed, Insert;
    var (b1, t) := Admit(b, c.side, c.otype, c.price, c.qty);
    AddExecutes(b, capacity, c.side, c.otype, c.price, c.qty);
    AdmittedId(b, capacity);
    AddKeepsTerms(b, c);
    SweepInLimit(b1, t, i - |b.log|);
    if c.otype.FOK? {
      FokAllOrNothing(b, capacity, c.side, c.price, c.qty);
    }
  }

  lemma StepInLimit(b: Book, capacity: nat, c: Command)
    requires Inv(b, capacity) && AllInLimit(b)
    ensures AllInLimit(Step(b, c))
  {
    hide Inv, Step, HadPriority, InLimit, TermsKept;
    StepKeepsTerms(b, capacity, c);
    StepHasPriority(b, capacity, c);
    var b' := Step(b, c);
    forall i | 0 <= i < |b'.log|
      ensures InLimit(b'.ledger, b'.log[i])
    {
      if i < |b.log| {
        assert InLimit(b.ledger, b.log[i]);
        InLimitStays(b.ledger, b'.ledger, b.log[i]);
      } else {
        OnlyAddTrades(b, capacity, c);
        NewInLimit(b, capacity, c, i);
      }
    }
  }

  lemma InLimitStays(l: map<OrderId, Entry>, l': map<OrderId, Entry>, tr: Trade)
    requires TermsKept(l, l') && InLimit(l, tr)
    ensures InLimit(l', tr)
  {
  }

  lemma OnlyAddTrades(b: Book, capacity: nat, c: Command)
    requires Inv(b, capacity) && Step(b, c).log != b.log
    ensures c.Add? && !Refused(b, c.otype, c.price, c.qty)
  {
    hide Inv, PriorityKept, CancelOrder, AmendOrder, MatchOrder;
    StepHasPriority(b, capacity, c);
  }

  /**
   Over every run no LIMIT and no fill-or-kill order ever trades, as the incoming order, at a price worse
   than its own.
   */
  lemma {:induction false} NobodyTradesThrough(capacity: nat, cs: seq<Command>)
    ensures AllInLimit(Run(Init(capacity), cs))
  {
    hide Step, InLimit, Inv;
    if cs != [] {
      NobodyTradesThrough(capacity, cs[..|cs|-1]);
      ReachableInv(capacity, cs[..|cs|-1]);
      StepInLimit(Run(Init(capacity), cs[..|cs|-1]), capacity, cs[|cs|-1]);
    }
  }
}
