/**
 What the threads using the pool of FreeListProtocol.dfy see: their calls and what these return. The
 accounts below hold at every step of every interleaving, so they also order the events: where two
 counts never differ by more than one, the events alternate.
 */
module FreeListHistory {
  import opened FreeListProtocol

  datatype Seen =
    | AllocateCalled | AllocateReturned
    | GaveNull | Gave(slot: nat)                // what allocate() returned
    | FreeCalled(id: nat) | FreeReturned(id: nat)
    | Freed(slot: nat)                          // what deallocate() was called on

  predicate Sees(p: Pool, a: Action, e: Seen) {
    Enabled(p, a) &&
    match e
    case AllocateCalled => a.PopLoad?
    case AllocateReturned => a.PopCount? || a.PopReturnNull?
    case GaveNull => a.PopReturnNull?
    case Gave(x) => a.PopCount? && p.popper.top == x
    case FreeCalled(id) => a.PushEnter? && a.id == id
    case FreeReturned(id) => a == PushCount(id)
    case Freed(x) => a.PushEnter? && a.slot == x
  }

  function One(b: bool): nat {
    if b then 1 else 0
  }

  /** How often `e` was seen in a run. */
  function Times(p: Pool, acts: seq<Action>, e: Seen): nat {
    if acts == [] then 0
    else Times(p, acts[..|acts|-1], e) + One(Sees(Run(p, acts[..|acts|-1]), acts[|acts|-1], e))
  }

  /** How often `e` took effect on the stack. */
  function Happened(trace: seq<Event>, e: Event): nat {
    if trace == [] then 0
    else Happened(trace[..|trace|-1], e) + One(trace[|trace|-1] == e)
  }

  predicate BeingFreed(p: Pool, x: nat) {
    x < |p.holder| && p.holder[x].Thread?
  }

  // ---------------------------------------------------------------- one step

  predicate Marks(p: Pool, a: Action, e: Event) {
    Enabled(p, a) &&
    match e
    case FoundEmpty => a.PopLoad? && p.head.Null?
    case Popped(x) => a.PopExchange? && p.popper.top == x
    case Pushed(x) => a.PushExchange? && p.pushers[a.id].slot == x
  }

  lemma HappenedSnoc(trace: seq<Event>, v: Event, e: Event)
    ensures Happened(trace + [v], e) == Happened(trace, e) + One(v == e)
  {
    assert (trace + [v])[..|trace|] == trace;
  }

  /** A failed exchange never finds the list empty, so only the first load of allocate() observes that. */
  lemma StepMarks(p: Pool, capacity: nat, a: Action, e: Event)
    requires Inv(p, capacity)
    ensures Happened(Step(p, a).trace, e) == Happened(p.trace, e) + One(Marks(p, a, e))
  {
    hide Replay, Counted, PushersOk, HeldRightly, Happened, Get, Put, Tail;
    assert p.trace + [] == p.trace;
    if Enabled(p, a) {
      match a
      case PopLoad => HappenedSnoc(p.trace, FoundEmpty, e);
      case PopExchange => HappenedSnoc(p.trace, Popped(p.popper.top), e);
      case PushExchange(id) => HappenedSnoc(p.trace, Pushed(p.pushers[id].slot), e);
      case _ =>
    }
  }

  lemma AllocateMoves(p: Pool, a: Action, x: nat)
    ensures var p' := Step(p, a);
      && One(Sees(p, a, AllocateCalled)) + One(!p.popper.Idle?) == One(Sees(p, a, AllocateReturned)) + One(!p'.popper.Idle?)
      && One(Marks(p, a, Popped(x))) + One(p.popper == Won(x)) == One(Sees(p, a, Gave(x))) + One(p'.popper == Won(x))
  {
    hide Get, Put, Tail;
  }

  lemma NullMoves(p: Pool, capacity: nat, a: Action)
    requires Inv(p, capacity)
    ensures One(Marks(p, a, FoundEmpty)) + One(p.popper == Loaded(Null))
            == One(Sees(p, a, GaveNull)) + One(Step(p, a).popper == Loaded(Null))
  {
    hide Replay, Counted, PushersOk, HeldRightly, Get, Put, Tail;
  }

  lemma InFlightHolds(p: Pool, capacity: nat, id: nat)
    requires Inv(p, capacity) && InFlight(p, id)
    ensures p.pushers[id].slot < |p.holder| && p.holder[p.pushers[id].slot] == Thread(id)
  {
  }

  lemma WonHolds(p: Pool, capacity: nat)
    requires Inv(p, capacity) && p.popper.Won?
    ensures p.popper.top < |p.holder| && p.holder[p.popper.top].Allocator?
  {
  }

  lemma TopHolds(p: Pool, capacity: nat)
    requires Inv(p, capacity) && p.popper.Read?
    ensures p.popper.top < |p.holder| && p.holder[p.popper.top].FreeList?
  {
  }

  /** Who holds the slots that a step moves. */
  lemma Holders(p: Pool, capacity: nat, a: Action)
    requires Inv(p, capacity) && Enabled(p, a)
    ensures a.PopExchange? ==> p.popper.top < |p.holder| && p.holder[p.popper.top].FreeList?
    ensures a.PopCount? ==> p.popper.top < |p.holder| && p.holder[p.popper.top].Allocator?
    ensures a.PushExchange? ==> p.pushers[a.id].slot < |p.holder| && p.holder[p.pushers[a.id].slot].Thread?
  {
    hide Inv;
    match a
    case PopExchange => TopHolds(p, capacity);
    case PopCount => WonHolds(p, capacity);
    case PushExchange(id) => InFlightHolds(p, capacity, id);
    case _ =>
  }

  lemma FreeCallMoves(p: Pool, a: Action, id: nat)
    ensures One(Sees(p, a, FreeCalled(id))) + One(id in p.pushers) == One(Sees(p, a, FreeReturned(id))) + One(id in Step(p, a).pushers)
  {
    hide Get, Put, Tail;
  }

  lemma FreeMoves(p: Pool, capacity: nat, a: Action, x: nat)
    requires Inv(p, capacity)
    ensures One(Sees(p, a, Freed(x))) + One(BeingFreed(p, x)) == One(Marks(p, a, Pushed(x))) + One(BeingFreed(Step(p, a), x))
  {
    if Enabled(p, a) {
      Holders(p, capacity, a);
    }
    hide Inv, Get, Tail;
  }

  lemma ClientMoves(p: Pool, capacity: nat, a: Action, x: nat)
    requires Inv(p, capacity)
    ensures One(Sees(p, a, Gave(x))) + One(MayFree(p, x)) == One(Sees(p, a, Freed(x))) + One(MayFree(Step(p, a), x))
  {
    if Enabled(p, a) {
      Holders(p, capacity, a);
    }
    hide Inv, Get, Tail;
  }

  // ---------------------------------------------------------------- main result

  /**
   The calls of every run, whatever the interleaving, for every slot `x` and freeing thread `id`.
   allocate(): every call but the one in progress has returned; it gave null once for each time the list
   was found empty, and slot `x` once for each time that was popped, up to what the call in progress
   holds. deallocate(): every call but those in progress has returned, and has pushed its slot once.
   Slot `x` was given out as often as it was given back, and once more exactly while a client has it.
   */
  ghost predicate Accounts(p0: Pool, acts: seq<Action>, id: nat, x: nat) {
    var p := Run(p0, acts);
    && Times(p0, acts, AllocateCalled) == Times(p0, acts, AllocateReturned) + One(!p.popper.Idle?)
    && Happened(p.trace, FoundEmpty) == Times(p0, acts, GaveNull) + One(p.popper == Loaded(Null))
    && Happened(p.trace, Popped(x)) == Times(p0, acts, Gave(x)) + One(p.popper == Won(x))
    && Times(p0, acts, FreeCalled(id)) == Times(p0, acts, FreeReturned(id)) + One(id in p.pushers)
    && Times(p0, acts, Freed(x)) == Happened(p.trace, Pushed(x)) + One(BeingFreed(p, x))
    && Times(p0, acts, Gave(x)) == Times(p0, acts, Freed(x)) + One(MayFree(p, x))
  }

  lemma {:induction false} CallsAreAccounted(capacity: nat, acts: seq<Action>, id: nat, x: nat)
    requires capacity > 0
    ensures Accounts(Init(capacity), acts, id, x)
  {
    hide Inv, Step, Sees, Marks, One, Happened, BeingFreed, MayFree;
    if acts == [] {
      InitAccounts(capacity, id, x);
    } else {
      var acts0, a := acts[..|acts|-1], acts[|acts|-1];
      var p := Run(Init(capacity), acts0);
      CallsAreAccounted(capacity, acts0, id, x);
      InitInv(capacity);
      RunKeepsInv(Init(capacity), capacity, acts0);
      StepMarks(p, capacity, a, FoundEmpty);
      StepMarks(p, capacity, a, Popped(x));
      StepMarks(p, capacity, a, Pushed(x));
      AllocateMoves(p, a, x);
      NullMoves(p, capacity, a);
      FreeCallMoves(p, a, id);
      FreeMoves(p, capacity, a, x);
      ClientMoves(p, capacity, a, x);
    }
  }

  lemma InitAccounts(capacity: nat, id: nat, x: nat)
    requires capacity > 0
    ensures Accounts(Init(capacity), [], id, x)
  {
  }

  lemma {:induction false} RunExtendsTrace(p: Pool, acts: seq<Action>, call: seq<Action>)
    ensures Run(p, acts).trace <= Run(p, acts + call).trace
  {
    if call == [] {
      assert acts + call == acts;
    } else {
      assert (acts + call)[..|acts + call|-1] == acts + call[..|call|-1];
      RunExtendsTrace(p, acts, call[..|call|-1]);
    }
  }

  lemma {:induction false} HappenedSince(trace: seq<Event>, trace': seq<Event>, e: Event)
    requires trace <= trace' && Happened(trace, e) < Happened(trace', e)
    ensures exists i :: |trace| <= i < |trace'| && trace'[i] == e
  {
    var n := |trace'| - 1;
    assert |trace| == |trace'| ==> trace == trace';
    if trace'[n] != e {
      HappenedSince(trace, trace'[..n], e);
      var i :| |trace| <= i < n && trace'[..n][i] == e;
      assert trace'[i] == e;
    }
  }

  /** A call of allocate() that comes back with null has found the list empty since it began. */
  lemma NullAfterEmpty(capacity: nat, acts: seq<Action>, call: seq<Action>)
    requires capacity > 0 && Run(Init(capacity), acts).popper.Idle?
    requires Times(Init(capacity), acts + call, GaveNull) > Times(Init(capacity), acts, GaveNull)
    ensures var before, after := Run(Init(capacity), acts).trace, Run(Init(capacity), acts + call).trace;
      before <= after && exists i :: |before| <= i < |after| && after[i] == FoundEmpty
  {
    hide Run, Times, Happened;
    CallsAreAccounted(capacity, acts, 0, 0);
    CallsAreAccounted(capacity, acts + call, 0, 0);
    RunExtendsTrace(Init(capacity), acts, call);
    HappenedSince(Run(Init(capacity), acts).trace, Run(Init(capacity), acts + call).trace, FoundEmpty);
  }

  // ---------------------------------------------------------------- a thread alone

  /** The next step of allocate(), and how many it needs if nobody interferes; one try more when its copies are stale. */
  function AllocateAct(p: Pool): Action {
    match p.popper
    case Idle => PopLoad
    case Loaded(h) => if h.Null? then PopReturnNull else PopRead
    case Read(top, _) => if p.head == At(top) then PopExchange else PopRetry
    case Won(_) => PopCount
  }

  function AllocateLeft(p: Pool): nat {
    match p.popper
    case Idle => 0
    case Loaded(h) => if h.Null? then 1 else if p.head == h then 3 else 5
    case Read(top, _) => if p.head == At(top) then 2 else 4
    case Won(_) => 1
  }

  function FreeAct(p: Pool, id: nat): Action
    requires id in p.pushers
  {
    match p.pushers[id]
    case Entering(_) => PushLoad(id)
    case Holding(_, _) => PushStore(id)
    case Stored(_, h) => if p.head == h then PushExchange(id) else PushRetry(id)
    case Linked(_) => PushCount(id)
  }

  function FreeLeft(p: Pool, id: nat): nat {
    if id !in p.pushers then 0
    else
      match p.pushers[id]
      case Entering(_) => 4
      case Holding(_, h) => if p.head == h then 3 else 5
      case Stored(_, h) => if p.head == h then 2 else 4
      case Linked(_) => 1
  }

  lemma OwnStepHelps(p: Pool, id: nat)
    ensures Enabled(p, AllocateAct(p)) && (!p.popper.Idle? ==> AllocateLeft(Step(p, AllocateAct(p))) < AllocateLeft(p))
    ensures id in p.pushers ==> Enabled(p, FreeAct(p, id)) && FreeLeft(Step(p, FreeAct(p, id)), id) < FreeLeft(p, id)
  {
    hide Get, Put, Tail;
  }

  lemma {:induction false} RunCons(p: Pool, a: Action, acts: seq<Action>)
    ensures Run(p, [a] + acts) == Run(Step(p, a), acts)
  {
    hide Step;
    if acts == [] {
      assert [a] + acts == [a] && [a][..0] == [];
      RunNothing(p);
    } else {
      assert ([a] + acts)[..|acts|] == [a] + acts[..|acts|-1];
      RunCons(p, a, acts[..|acts|-1]);
    }
  }

  predicate ByAllocator(a: Action) {
    a.PopLoad? || a.PopRead? || a.PopExchange? || a.PopRetry? || a.PopReturnNull? || a.PopCount?
  }

  predicate ByThread(a: Action, id: nat) {
    a == PushLoad(id) || a == PushStore(id) || a == PushExchange(id) || a == PushRetry(id) || a == PushCount(id)
  }

  /** Whatever the other threads have done, allocate() alone is done after at most five more steps. */
  lemma {:induction false} AllocateAlone(p: Pool) returns (acts: seq<Action>)
    ensures |acts| <= AllocateLeft(p) <= 5 && (forall i :: 0 <= i < |acts| ==> ByAllocator(acts[i]))
    ensures Run(p, acts).popper.Idle?
    decreases AllocateLeft(p)
  {
    hide Run, Step;
    if p.popper.Idle? {
      acts := [];
      RunNothing(p);
    } else {
      OwnStepHelps(p, 0);
      var rest := AllocateAlone(Step(p, AllocateAct(p)));
      acts := [AllocateAct(p)] + rest;
      RunCons(p, AllocateAct(p), rest);
    }
  }

  /** The same for any call of deallocate(). */
  lemma {:induction false} FreeAlone(p: Pool, id: nat) returns (acts: seq<Action>)
    ensures |acts| <= FreeLeft(p, id) <= 5 && (forall i :: 0 <= i < |acts| ==> ByThread(acts[i], id))
    ensures id !in Run(p, acts).pushers
    decreases FreeLeft(p, id)
  {
    hide Run, Step;
    if id !in p.pushers {
      acts := [];
      RunNothing(p);
    } else {
      OwnStepHelps(p, id);
      var rest := FreeAlone(Step(p, FreeAct(p, id)), id);
      acts := [FreeAct(p, id)] + rest;
      RunCons(p, FreeAct(p, id), rest);
    }
  }
}
