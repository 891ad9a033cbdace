/**
 The CAS free list of memory_pool.hpp under its stated contract: one allocating thread, any number
 of deallocating threads. Every load, every access to a link, every compare-exchange and every
 counter update is a step of its own, and steps of different threads interleave freely.
 */
module FreeListProtocol {

  /** A Slot* : null, or the address of slot `slot`. */
  datatype Ref = Null | At(slot: nat)

  /** Where the allocating thread is in pop_free_slot and allocate. */
  datatype Popper =
    | Idle
    | Loaded(head: Ref)               // holds a value of free_head_
    | Read(top: nat, next: Ref)       // has also read top's link, about to try the exchange
    | Won(top: nat)                   // exchange done, allocated_ not yet incremented

  /** Where a deallocating thread is in push_free_slot and deallocate. */
  datatype Pusher =
    | Entering(slot: nat)
    | Holding(slot: nat, head: Ref)   // holds a value of free_head_
    | Stored(slot: nat, head: Ref)    // has stored it in slot's link, about to try the exchange
    | Linked(slot: nat)               // exchange done, allocated_ not yet decremented

  /** Who may touch a slot: a record of who won it last. */
  datatype Holder = FreeList | Allocator | Client | Thread(id: nat)

  /** The abstract operations, in the order in which they take effect. */
  datatype Event = Popped(slot: nat) | Pushed(slot: nat) | FoundEmpty

  /**
   `head`, `next`, `inUse` (allocated_), `popper` and `pushers` are the program's state; `stack`, `holder` and
   `trace` record what its successful exchanges mean.
   */
  datatype Pool = Pool(
    head: Ref, next: seq<Ref>, inUse: int, popper: Popper, pushers: map<nat, Pusher>,
    stack: seq<nat>, holder: seq<Holder>, trace: seq<Event>)

  datatype Action =
    | PopLoad | PopRead | PopExchange | PopRetry | PopReturnNull | PopCount
    | PushEnter(id: nat, slot: nat)
    | PushLoad(id: nat) | PushStore(id: nat) | PushExchange(id: nat) | PushRetry(id: nat) | PushCount(id: nat)

  function Init(capacity: nat): Pool
    requires capacity > 0
  {
    Pool(At(0), seq(capacity, i requires 0 <= i < capacity => if i + 1 < capacity then At(i + 1) else Null), 0, Idle, map[],
         seq(capacity, i => i), seq(capacity, i => FreeList), [])
  }

  /** An emptiness check takes effect at the load that saw null. */
  function Observe(p: Pool): Pool {
    p.(popper := Loaded(p.head), trace := p.trace + if p.head.Null? then [FoundEmpty] else [])
  }

  function Get(next: seq<Ref>, x: nat): Ref {
    if x < |next| then next[x] else Null
  }

  function Put<T>(s: seq<T>, x: nat, v: T): seq<T> {
    if x < |s| then s[x := v] else s
  }

  function Tail(s: seq<nat>): seq<nat> {
    if s == [] then [] else s[1..]
  }

  /** A client may free what it was given and has not freed yet. */
  predicate MayFree(p: Pool, x: nat) {
    x < |p.holder| && p.holder[x].Client?
  }

  predicate Enabled(p: Pool, a: Action) {
    match a
    case PopLoad => p.popper.Idle?
    case PopRead => p.popper.Loaded? && p.popper.head.At?
    case PopExchange => p.popper.Read? && p.head == At(p.popper.top)
    case PopRetry => p.popper.Read?
    case PopReturnNull => p.popper == Loaded(Null)
    case PopCount => p.popper.Won?
    case PushEnter(id, x) => id !in p.pushers && MayFree(p, x)
    case PushLoad(id) => id in p.pushers && p.pushers[id].Entering?
    case PushStore(id) => id in p.pushers && p.pushers[id].Holding?
    case PushExchange(id) => id in p.pushers && p.pushers[id].Stored? && p.head == p.pushers[id].head
    case PushRetry(id) => id in p.pushers && p.pushers[id].Stored?
    case PushCount(id) => id in p.pushers && p.pushers[id].Linked?
  }

  /** compare_exchange_weak may fail spuriously, so a retry is possible whatever the head is. */
  function Next(p: Pool, a: Action): Pool
    requires Enabled(p, a)
  {
    match a
    case PopLoad => Observe(p)
    case PopRead => p.(popper := Read(p.popper.head.slot, Get(p.next, p.popper.head.slot)))
    case PopExchange =>
      var x := p.popper.top;
      p.(head := p.popper.next, popper := Won(x),
         stack := Tail(p.stack), holder := Put(p.holder, x, Allocator), trace := p.trace + [Popped(x)])
    case PopRetry => Observe(p)
    case PopReturnNull => p.(popper := Idle)
    case PopCount => p.(popper := Idle, inUse := p.inUse + 1, holder := Put(p.holder, p.popper.top, Client))
    case PushEnter(id, x) => p.(pushers := p.pushers[id := Entering(x)], holder := Put(p.holder, x, Thread(id)))
    case PushLoad(id) => p.(pushers := p.pushers[id := Holding(p.pushers[id].slot, p.head)])
    case PushStore(id) =>
      var t := p.pushers[id];
      p.(next := Put(p.next, t.slot, t.head), pushers := p.pushers[id := Stored(t.slot, t.head)])
    case PushExchange(id) =>
      var x := p.pushers[id].slot;
      p.(head := At(x), pushers := p.pushers[id := Linked(x)],
         stack := [x] + p.stack, holder := Put(p.holder, x, FreeList), trace := p.trace + [Pushed(x)])
    case PushRetry(id) => p.(pushers := p.pushers[id := Holding(p.pushers[id].slot, p.head)])
    case PushCount(id) => p.(pushers := p.pushers - {id}, inUse := p.inUse - 1)
  }

  /** An action that is not enabled changes nothing, so every list of actions is a run. */
  function Step(p: Pool, a: Action): Pool {
    if Enabled(p, a) then Next(p, a) else p
  }

  function Run(p: Pool, acts: seq<Action>): Pool {
    if acts == [] then p else Step(Run(p, acts[..|acts|-1]), acts[|acts|-1])
  }

  // ---------------------------------------------------------------- the inductive invariant

  function Entry(stack: seq<nat>, i: nat): Ref {
    if i < |stack| then At(stack[i]) else Null
  }

  predicate Differ(stack: seq<nat>, i: nat, j: nat)
    requires i < |stack| && j < |stack|
  {
    stack[i] != stack[j]
  }

  ghost predicate Distinct(stack: seq<nat>) {
    forall i, j {:trigger Differ(stack, i, j)} :: 0 <= i < j < |stack| ==> Differ(stack, i, j)
  }

  /** The links from the head spell the abstract stack: an acyclic, null-terminated list. */
  ghost predicate Spells(head: Ref, next: seq<Ref>, stack: seq<nat>) {
    && Distinct(stack) && head == Entry(stack, 0)
    && forall i :: 0 <= i < |stack| ==> stack[i] < |next| && next[stack[i]] == Entry(stack, i + 1)
  }

  /** The thread still owns the slot it is freeing. */
  predicate InFlight(p: Pool, id: nat) {
    id in p.pushers && !p.pushers[id].Linked?
  }

  /** The holder record is what the program state says: every slot has exactly one holder. */
  ghost predicate HeldRightly(p: Pool) {
    |p.holder| == |p.next| && ListHeld(p) && AllocatorHeld(p) && FlightHeld(p)
  }

  ghost predicate ListHeld(p: Pool) {
    forall x :: 0 <= x < |p.holder| ==> (p.holder[x].FreeList? <==> x in p.stack)
  }

  ghost predicate AllocatorHeld(p: Pool) {
    && (forall x :: 0 <= x < |p.holder| ==> (p.holder[x].Allocator? <==> p.popper == Won(x)))
    && (p.popper.Won? ==> p.popper.top < |p.holder|)
  }

  ghost predicate FlightHeld(p: Pool) {
    && (forall x :: 0 <= x < |p.holder| && p.holder[x].Thread? ==>
          InFlight(p, p.holder[x].id) && p.pushers[p.holder[x].id].slot == x)
    && (forall id :: InFlight(p, id) ==>
          p.pushers[id].slot < |p.holder| && p.holder[p.pushers[id].slot] == Thread(id))
  }

  /** What the local copies of the allocating thread are worth: its candidate cannot leave the list. */
  ghost predicate PopperOk(p: Pool) {
    && (p.popper.Loaded? && p.popper.head.At? ==> p.popper.head.slot in p.stack)
    && (p.popper.Read? ==> p.popper.top in p.stack && p.popper.top < |p.next| && p.popper.next == p.next[p.popper.top])
  }

  ghost predicate PushersOk(p: Pool) {
    forall id :: id in p.pushers && p.pushers[id].Stored? && p.pushers[id].slot < |p.next| ==>
      p.next[p.pushers[id].slot] == p.pushers[id].head
  }

  function Clients(holder: seq<Holder>): set<nat> {
    set x | 0 <= x < |holder| && holder[x].Client?
  }

  function Flying(pushers: map<nat, Pusher>): set<nat> {
    set id | id in pushers && !pushers[id].Linked?
  }

  /** The counter lags behind the list by the updates still to come; no slot is ever lost. */
  ghost predicate Counted(p: Pool) {
    && p.inUse == |Clients(p.holder)| + |p.pushers|
    && |p.next| == |p.stack| + |Clients(p.holder)| + |Flying(p.pushers)| + (if p.popper.Won? then 1 else 0)
  }

  // ---------------------------------------------------------------- the abstract stack

  datatype Outcome = Impossible | Stack(contents: seq<nat>)

  /** One operation of a sequential LIFO free list. */
  function Perform(s: seq<nat>, e: Event): Outcome {
    match e
    case Popped(x) => if s != [] && s[0] == x then Stack(s[1..]) else Impossible
    case Pushed(x) => if x in s then Impossible else Stack([x] + s)
    case FoundEmpty => if s == [] then Stack(s) else Impossible
  }

  function Replay(start: seq<nat>, trace: seq<Event>): Outcome {
    if trace == [] then Stack(start)
    else
      match Replay(start, trace[..|trace|-1])
      case Impossible => Impossible
      case Stack(s) => Perform(s, trace[|trace|-1])
  }

  ghost predicate Inv(p: Pool, capacity: nat) {
    && |p.next| == capacity && Spells(p.head, p.next, p.stack)
    && HeldRightly(p) && PopperOk(p) && PushersOk(p) && Counted(p)
    && Replay(seq(capacity, i => i), p.trace) == Stack(p.stack)
  }

  lemma InitInv(capacity: nat)
    requires capacity > 0
    ensures Inv(Init(capacity), capacity)
  {
    InitList(capacity);
    InitHeld(capacity);
    InitCounts(capacity);
    hide Spells, ListHeld, AllocatorHeld, FlightHeld, Counted, Distinct;
  }

  lemma InitList(capacity: nat)
    requires capacity > 0
    ensures var p := Init(capacity); |p.next| == capacity && Spells(p.head, p.next, p.stack)
  {
    var p := Init(capacity);
    assert forall i, j {:trigger Differ(p.stack, i, j)} :: 0 <= i < j < |p.stack| ==> Differ(p.stack, i, j);
  }

  lemma InitHeld(capacity: nat)
    requires capacity > 0
    ensures HeldRightly(Init(capacity))
  {
    var p := Init(capacity);
    assert forall x :: 0 <= x < capacity ==> p.stack[x] == x && p.holder[x].FreeList?;
  }

  lemma InitCounts(capacity: nat)
    requires capacity > 0
    ensures Counted(Init(capacity))
  {
    var p := Init(capacity);
    assert forall x :: 0 <= x < capacity ==> p.holder[x].FreeList?;
    assert Clients(p.holder) == {} && Flying(p.pushers) == {};
  }

  lemma ReplaySnoc(start: seq<nat>, trace: seq<Event>, e: Event, s: seq<nat>)
    requires Replay(start, trace) == Stack(s)
    ensures Replay(start, trace + [e]) == Perform(s, e)
  {
    assert (trace + [e])[..|trace|] == trace;
  }

  // ---------------------------------------------------------------- the list

  /** Taking the top: its link, read when it was already on the list, is still right. */
  lemma SpellsPop(head: Ref, next: seq<Ref>, stack: seq<nat>)
    requires Spells(head, next, stack) && stack != []
    ensures Spells(next[stack[0]], next, stack[1..])
    ensures stack[0] !in stack[1..]
  {
    forall i, j | 0 <= i < j < |stack| - 1
      ensures Differ(stack[1..], i, j)
    {
      assert Differ(stack, i + 1, j + 1);
    }
    forall i | 0 <= i < |stack| - 1
      ensures stack[1..][i] != stack[0]
    {
      assert Differ(stack, 0, i + 1);
    }
  }

  /** Adding a slot whose link is the current head, however that head came to be current. */
  lemma SpellsPush(head: Ref, next: seq<Ref>, stack: seq<nat>, x: nat)
    requires Spells(head, next, stack) && x < |next| && x !in stack && next[x] == head
    ensures Spells(At(x), next, [x] + stack)
  {
    var stack' := [x] + stack;
    forall i, j | 0 <= i < j < |stack'|
      ensures Differ(stack', i, j)
    {
      assert i > 0 ==> Differ(stack, i - 1, j - 1);
    }
    assert forall i :: 0 < i < |stack'| ==> stack'[i] == stack[i-1] && Entry(stack', i + 1) == Entry(stack, i);
  }

  lemma StepKeepsList(p: Pool, capacity: nat, a: Action)
    requires Inv(p, capacity)
    ensures Spells(Step(p, a).head, Step(p, a).next, Step(p, a).stack) && |Step(p, a).next| == capacity
  {
    hide Replay, Counted;
    if Enabled(p, a) {
      if a.PopExchange? {
        SpellsPop(p.head, p.next, p.stack);
      } else if a.PushExchange? {
        assert InFlight(p, a.id);
        SpellsPush(p.head, p.next, p.stack, p.pushers[a.id].slot);
      } else if a.PushStore? {
        assert InFlight(p, a.id);
      }
    }
  }

  lemma StepKeepsListHeld(p: Pool, capacity: nat, a: Action)
    requires Inv(p, capacity)
    ensures ListHeld(Step(p, a)) && |Step(p, a).holder| == |Step(p, a).next|
  {
    hide Replay, Counted, PushersOk;
    if Enabled(p, a) && a.PopExchange? {
      SpellsPop(p.head, p.next, p.stack);
    }
  }

  lemma StepKeepsAllocatorHeld(p: Pool, capacity: nat, a: Action)
    requires Inv(p, capacity)
    ensures AllocatorHeld(Step(p, a))
  {
    hide Replay, Counted, PushersOk, Spells;
  }

  lemma StepKeepsFlightHeld(p: Pool, capacity: nat, a: Action)
    requires Inv(p, capacity)
    ensures FlightHeld(Step(p, a))
  {
    hide Replay, Counted, PushersOk, Spells;
  }

  lemma StepKeepsPopper(p: Pool, capacity: nat, a: Action)
    requires Inv(p, capacity)
    ensures PopperOk(Step(p, a))
  {
    hide Replay, Counted;
    if Enabled(p, a) && a.PushStore? {
      assert InFlight(p, a.id);
    }
  }

  lemma StepKeepsPushers(p: Pool, capacity: nat, a: Action)
    requires Inv(p, capacity)
    ensures PushersOk(Step(p, a))
  {
    hide Replay, Counted, Spells;
    if Enabled(p, a) && a.PushStore? {
      assert forall id :: id in p.pushers && p.pushers[id].Stored? ==> InFlight(p, id);
      assert InFlight(p, a.id);
    }
  }

  lemma StepKeepsReplay(p: Pool, capacity: nat, a: Action)
    requires Inv(p, capacity)
    ensures Replay(seq(capacity, i => i), Step(p, a).trace) == Stack(Step(p, a).stack)
  {
    hide Counted, PushersOk, Replay, AllocatorHeld, Clients;
    var start := seq(capacity, i => i);
    assert p.trace + [] == p.trace;
    if Enabled(p, a) {
      match a
      case PopLoad => ReplaySnoc(start, p.trace, FoundEmpty, p.stack);
      case PopRetry => ReplaySnoc(start, p.trace, FoundEmpty, p.stack);
      case PopExchange => ReplaySnoc(start, p.trace, Popped(p.popper.top), p.stack);
      case PushExchange(id) =>
        assert InFlight(p, id);
        ReplaySnoc(start, p.trace, Pushed(p.pushers[id].slot), p.stack);
      case _ =>
    }
  }

  // ---------------------------------------------------------------- the counter

  lemma ClientsPut(holder: seq<Holder>, x: nat, h: Holder)
    requires x < |holder|
    ensures |Clients(Put(holder, x, h))|
            == |Clients(holder)| - (if holder[x].Client? then 1 else 0) + (if h.Client? then 1 else 0)
  {
    assert Clients(Put(holder, x, h)) == Clients(holder) - {x} + (if h.Client? then {x} else {});
  }

  lemma FlyingPut(pushers: map<nat, Pusher>, id: nat, t: Pusher)
    ensures |Flying(pushers[id := t])|
            == |Flying(pushers)| - (if id in pushers && !pushers[id].Linked? then 1 else 0) + (if t.Linked? then 0 else 1)
    ensures |pushers[id := t]| == |pushers| + (if id in pushers then 0 else 1)
  {
    assert Flying(pushers[id := t]) == Flying(pushers) - {id} + (if t.Linked? then {} else {id});
    SizePut(pushers, id, t);
  }

  lemma SizePut(pushers: map<nat, Pusher>, id: nat, t: Pusher)
    ensures |pushers[id := t]| == |pushers| + (if id in pushers then 0 else 1)
  {
  }

  lemma FlyingDrop(pushers: map<nat, Pusher>, id: nat)
    requires id in pushers && pushers[id].Linked?
    ensures Flying(pushers - {id}) == Flying(pushers) && |pushers - {id}| == |pushers| - 1
  {
    assert (pushers - {id}).Keys == pushers.Keys - {id};
    assert |(pushers - {id}).Keys| == |pushers - {id}| && |pushers.Keys| == |pushers|;
  }

  lemma TailShorter(s: seq<nat>)
    ensures |Tail(s)| == if s == [] then 0 else |s| - 1
  {
  }

  lemma PutLength(s: seq<Ref>, x: nat, v: Ref)
    ensures |Put(s, x, v)| == |s|
  {
  }

  lemma StepKeepsCounts(p: Pool, capacity: nat, a: Action)
    requires Inv(p, capacity)
    ensures Counted(Step(p, a))
  {
    hide Replay, Spells, Clients, Flying, PushersOk, Put, Get, Tail;
    TailShorter(p.stack);
    if Enabled(p, a) {
      match a
      case PopExchange => ClientsPut(p.holder, p.popper.top, Allocator);
      case PopCount => ClientsPut(p.holder, p.popper.top, Client);
      case PushEnter(id, x) =>
        ClientsPut(p.holder, x, Thread(id));
        FlyingPut(p.pushers, id, Entering(x));
      case PushLoad(id) => FlyingPut(p.pushers, id, Next(p, a).pushers[id]);
      case PushStore(id) =>
        FlyingPut(p.pushers, id, Next(p, a).pushers[id]);
        PutLength(p.next, p.pushers[id].slot, p.pushers[id].head);
      case PushRetry(id) => FlyingPut(p.pushers, id, Next(p, a).pushers[id]);
      case PushExchange(id) =>
        assert InFlight(p, id);
        ClientsPut(p.holder, p.pushers[id].slot, FreeList);
        FlyingPut(p.pushers, id, Linked(p.pushers[id].slot));
      case PushCount(id) => FlyingDrop(p.pushers, id);
      case _ =>
    }
  }

  lemma StepKeepsInv(p: Pool, capacity: nat, a: Action)
    requires Inv(p, capacity)
    ensures Inv(Step(p, a), capacity)
  {
    hide Spells, ListHeld, AllocatorHeld, FlightHeld, PopperOk, PushersOk, Counted, Replay, Step;
    StepKeepsList(p, capacity, a);
    StepKeepsListHeld(p, capacity, a);
    StepKeepsAllocatorHeld(p, capacity, a);
    StepKeepsFlightHeld(p, capacity, a);
    StepKeepsPopper(p, capacity, a);
    StepKeepsPushers(p, capacity, a);
    StepKeepsReplay(p, capacity, a);
    StepKeepsCounts(p, capacity, a);
  }

  lemma {:induction false} RunKeepsInv(p: Pool, capacity: nat, acts: seq<Action>)
    requires Inv(p, capacity)
    ensures Inv(Run(p, acts), capacity)
  {
    if acts != [] {
      RunKeepsInv(p, capacity, acts[..|acts|-1]);
      StepKeepsInv(Run(p, acts[..|acts|-1]), capacity, acts[|acts|-1]);
    }
  }

  // ---------------------------------------------------------------- main results

  /**
   Linearizability: in every interleaving the successful exchanges and the empty observations, in
   order, are operations of a sequential LIFO stack of slots, and the list in memory is that stack.
   */
  lemma ExchangesAreStackOperations(capacity: nat, acts: seq<Action>)
    requires capacity > 0
    ensures var p := Run(Init(capacity), acts);
      && Replay(seq(capacity, i => i), p.trace) == Stack(p.stack)
      && |p.next| == capacity && Spells(p.head, p.next, p.stack)
  {
    hide Run;
    InitInv(capacity);
    RunKeepsInv(Init(capacity), capacity, acts);
  }

  /** Every slot is in one place: on the list, won by the allocator, with a client, or with the one thread freeing it. */
  lemma SlotsArePartitioned(capacity: nat, acts: seq<Action>, x: nat)
    requires 0 <= x < capacity
    ensures var p := Run(Init(capacity), acts);
      && (x in p.stack <==> p.popper != Won(x) && !MayFree(p, x) && !exists id :: InFlight(p, id) && p.pushers[id].slot == x)
      && !(p.popper == Won(x) && MayFree(p, x))
      && (forall id :: InFlight(p, id) && p.pushers[id].slot == x ==> p.popper != Won(x) && !MayFree(p, x))
      && (forall i, j :: InFlight(p, i) && InFlight(p, j) && p.pushers[i].slot == p.pushers[j].slot ==> i == j)
  {
    hide Run, Replay, Counted, Spells;
    InitInv(capacity);
    RunKeepsInv(Init(capacity), capacity, acts);
  }

  /**
   Null is loaded only by the first load of allocate(), and only while the list is empty; a failed exchange
   never sees it. And allocate() comes back only with the slot it won, or with null after it has loaded null.
   */
  lemma NullMeansEmpty(p: Pool, capacity: nat, a: Action)
    requires Inv(p, capacity) && Enabled(p, a)
    ensures Next(p, a).popper == Loaded(Null) && p.popper != Loaded(Null) ==> a.PopLoad? && p.stack == []
    ensures Next(p, a).popper.Idle? && !p.popper.Idle? ==>
              (a.PopCount? && p.popper.Won?) || (a.PopReturnNull? && p.popper == Loaded(Null))
  {
    hide Replay, Counted, PushersOk, HeldRightly;
  }

  /**
   The counter: it exceeds the slots off the list by the frees that are linked but not counted down,
   and falls short by the allocation not yet counted up. At rest it is exact. It never goes below
   zero, and it stays within the capacity exactly while no more frees lag behind than slots are on
   the list or just won.
   */
  lemma CounterIsExactAtRest(capacity: nat, acts: seq<Action>)
    requires capacity > 0
    ensures var p := Run(Init(capacity), acts);
      && p.inUse == capacity - |p.stack| + (|p.pushers| - |Flying(p.pushers)|) - (if p.popper.Won? then 1 else 0)
      && p.inUse == |Clients(p.holder)| + |p.pushers| >= 0
      && (p.pushers == map[] && !p.popper.Won? ==> p.inUse == capacity - |p.stack| == |Clients(p.holder)|)
      && (p.inUse <= capacity <==> |p.pushers| - |Flying(p.pushers)| <= |p.stack| + (if p.popper.Won? then 1 else 0))
  {
    hide Run, Replay, Spells, HeldRightly;
    InitInv(capacity);
    RunKeepsInv(Init(capacity), capacity, acts);
    var p := Run(Init(capacity), acts);
    assert p.pushers == map[] ==> Flying(p.pushers) == {};
  }

  /** Between two times that a slot is taken from a stack it is put back. */
  lemma {:induction false} AwayUntilPushed(start: seq<nat>, trace: seq<Event>, i: nat, x: nat)
    requires Distinct(start) && Replay(start, trace).Stack? && i < |trace| && trace[i] == Popped(x)
    requires forall k :: i < k < |trace| ==> trace[k] != Pushed(x)
    ensures Distinct(Replay(start, trace).contents) && x !in Replay(start, trace).contents
    decreases |trace|
  {
    var n := |trace| - 1;
    var s := Replay(start, trace[..n]).contents;
    ReplayDistinct(start, trace[..n]);
    if i < n {
      AwayUntilPushed(start, trace[..n], i, x);
    }
    PerformDistinct(s, trace[n]);
    if i == n {
      TopIsOnce(s);
    }
  }

  lemma TopIsOnce(s: seq<nat>)
    requires Distinct(s) && s != []
    ensures s[0] !in s[1..]
  {
    forall i | 0 <= i < |s| - 1
      ensures s[1..][i] != s[0]
    {
      assert Differ(s, 0, i + 1);
    }
  }

  lemma PerformDistinct(s: seq<nat>, e: Event)
    requires Distinct(s) && Perform(s, e).Stack?
    ensures Distinct(Perform(s, e).contents)
  {
    var s' := Perform(s, e).contents;
    forall i, j | 0 <= i < j < |s'|
      ensures Differ(s', i, j)
    {
      match e
      case Popped(_) => assert Differ(s, i + 1, j + 1);
      case Pushed(_) => assert i > 0 ==> Differ(s, i - 1, j - 1);
      case FoundEmpty =>
    }
  }

  lemma {:induction false} ReplayDistinct(start: seq<nat>, trace: seq<Event>)
    requires Distinct(start) && Replay(start, trace).Stack?
    ensures Distinct(Replay(start, trace).contents)
  {
    if trace != [] {
      ReplayDistinct(start, trace[..|trace|-1]);
      PerformDistinct(Replay(start, trace[..|trace|-1]).contents, trace[|trace|-1]);
    }
  }

  lemma {:induction false} ReplayPrefix(start: seq<nat>, trace: seq<Event>, n: nat)
    requires n <= |trace| && Replay(start, trace).Stack?
    ensures Replay(start, trace[..n]).Stack?
  {
    if n < |trace| {
      ReplayPrefix(start, trace[..|trace|-1], n);
      assert trace[..|trace|-1][..n] == trace[..n];
    } else {
      assert trace[..n] == trace;
    }
  }

  /** No slot is handed out twice: in every run, between two allocations of a slot lies a free of it. */
  lemma NoDoubleHandOut(capacity: nat, acts: seq<Action>, i: nat, j: nat, x: nat)
    requires capacity > 0
    requires var trace := Run(Init(capacity), acts).trace; i < j < |trace| && trace[i] == trace[j] == Popped(x)
    ensures exists k :: i < k < j && Run(Init(capacity), acts).trace[k] == Pushed(x)
  {
    hide Run;
    var trace := Run(Init(capacity), acts).trace;
    var start := seq(capacity, i => i);
    ExchangesAreStackOperations(capacity, acts);
    ReplayPrefix(start, trace, j);
    ReplayPrefix(start, trace, j + 1);
    assert trace[..j+1][..j] == trace[..j];
    assert forall i, j {:trigger Differ(start, i, j)} :: 0 <= i < j < capacity ==> Differ(start, i, j);
    if forall k :: i < k < j ==> trace[k] != Pushed(x) {
      AwayUntilPushed(start, trace[..j], i, x);
    }
  }

  // ---------------------------------------------------------------- lock freedom

  predicate IsExchange(a: Action) {
    a.PopExchange? || a.PushExchange?
  }

  /** Action `i` of the run is an exchange that succeeds. */
  ghost predicate Succeeds(p: Pool, acts: seq<Action>, i: nat) {
    i < |acts| && IsExchange(acts[i]) && Enabled(Run(p, acts[..i]), acts[i])
  }

  /** free_head_ changes only by a successful exchange. */
  lemma {:induction false} HeadMovesBySuccess(p: Pool, acts: seq<Action>)
    requires Run(p, acts).head != p.head
    ensures exists i: nat :: Succeeds(p, acts, i)
  {
    var acts1 := acts[..|acts|-1];
    if Run(p, acts1).head != p.head {
      HeadMovesBySuccess(p, acts1);
      hide Run;
      var i: nat :| Succeeds(p, acts1, i);
      assert acts1[..i] == acts[..i];
      assert Succeeds(p, acts, i);
    } else {
      assert Succeeds(p, acts, |acts1|);
    }
  }

  /** A thread is about to try the exchange `own`, with `copy` as the value it expects. */
  predicate Trying(p: Pool, own: Action, copy: Ref) {
    || (own.PopExchange? && p.popper.Read? && copy == At(p.popper.top))
    || (own.PushExchange? && own.id in p.pushers && p.pushers[own.id].Stored? && copy == p.pushers[own.id].head)
  }

  /** The exchange fails for real, not spuriously, exactly when the head is no longer the expected value. */
  lemma FailsForReal(p: Pool, own: Action, copy: Ref)
    requires Trying(p, own, copy)
    ensures Enabled(p, own) <==> p.head == copy
  {
  }

  /**
   Lock-freedom: a thread loaded the head in state `p`. If its own exchange, not yet done since, then
   fails for real, some other thread's exchange has succeeded in the meantime.
   */
  lemma FailureIsProgress(p: Pool, acts: seq<Action>, own: Action)
    requires IsExchange(own) && own !in acts && Trying(Run(p, acts), own, p.head) && !Enabled(Run(p, acts), own)
    ensures exists i: nat :: Succeeds(p, acts, i) && acts[i] != own
  {
    hide Run;
    FailsForReal(Run(p, acts), own, p.head);
    HeadMovesBySuccess(p, acts);
  }

  // ---------------------------------------------------------------- ABA, and a counter that runs ahead

  /**
   ABA cannot hurt. When the allocator's exchange succeeds its candidate is still the top and the
   link it read is still right; when a pusher's succeeds its slot's link is the current head, even
   if that head left the list and came back in the meantime.
   */
  lemma ExchangesAreFresh(p: Pool, capacity: nat, a: Action)
    requires Inv(p, capacity) && Enabled(p, a)
    ensures a.PopExchange? ==> p.stack != [] && p.popper.top == p.stack[0] && p.popper.next == Entry(p.stack, 1)
    ensures a.PushExchange? ==>
      var x := p.pushers[a.id].slot; x < capacity && x !in p.stack && p.next[x] == p.head == Entry(p.stack, 0)
  {
    hide Replay, Counted;
    assert a.PushExchange? ==> InFlight(p, a.id);
  }

  lemma RunSnoc(p: Pool, acts: seq<Action>, a: Action)
    ensures Run(p, acts + [a]) == Step(Run(p, acts), a)
  {
    assert (acts + [a])[..|acts|] == acts;
  }

  /** Allocate from a pool at rest: four steps. */
  function TakeSteps(): seq<Action> {
    [PopLoad] + [PopRead] + [PopExchange] + [PopCount]
  }

  lemma Taking(p: Pool, acts: seq<Action>, r: Pool)
    requires r == Run(p, acts) && r.popper.Idle? && r.head.At? && r.stack != []
    ensures var x := r.head.slot;
      Run(p, acts + TakeSteps()) == r.(
        head := Get(r.next, x), inUse := r.inUse + 1, stack := Tail(r.stack),
        holder := Put(Put(r.holder, x, Allocator), x, Client), trace := r.trace + [Popped(x)])
  {
    RunSnoc(p, acts, PopLoad);
    RunSnoc(p, acts + [PopLoad], PopRead);
    RunSnoc(p, acts + [PopLoad] + [PopRead], PopExchange);
    RunSnoc(p, acts + [PopLoad] + [PopRead] + [PopExchange], PopCount);
    assert acts + TakeSteps() == acts + [PopLoad] + [PopRead] + [PopExchange] + [PopCount];
    assert r.trace + [] == r.trace;
  }

  /** Free up to the point where the slot's link is stored: three steps. */
  function StoreSteps(id: nat, x: nat): seq<Action> {
    [PushEnter(id, x)] + [PushLoad(id)] + [PushStore(id)]
  }

  lemma Storing(p: Pool, acts: seq<Action>, r: Pool, id: nat, x: nat)
    requires r == Run(p, acts) && id !in r.pushers && MayFree(r, x)
    ensures Run(p, acts + StoreSteps(id, x)) == r.(
      next := Put(r.next, x, r.head), pushers := r.pushers[id := Stored(x, r.head)], holder := Put(r.holder, x, Thread(id)))
  {
    RunSnoc(p, acts, PushEnter(id, x));
    RunSnoc(p, acts + [PushEnter(id, x)], PushLoad(id));
    RunSnoc(p, acts + [PushEnter(id, x)] + [PushLoad(id)], PushStore(id));
    assert acts + StoreSteps(id, x) == acts + [PushEnter(id, x)] + [PushLoad(id)] + [PushStore(id)];
    assert r.pushers[id := Entering(x)][id := Holding(x, r.head)][id := Stored(x, r.head)] == r.pushers[id := Stored(x, r.head)];
  }

  /**
   ABA does happen to pushers: thread 7 reads head 1, the allocator takes slot 1, thread 8 gives it
   back, and 7's exchange then succeeds on the same head.
   */
  lemma AbaHappens()
    ensures var before := TakeSteps() + StoreSteps(7, 0);
            var after := before + TakeSteps() + StoreSteps(8, 1) + [PushExchange(8)];
            var p, p' := Run(Init(2), before), Run(Init(2), after);
      && 7 in p.pushers && p.pushers[7] == Stored(0, At(1)) && p.head == At(1)
      && 7 in p'.pushers && p'.pushers[7] == p.pushers[7] && Enabled(p', PushExchange(7))
      && p'.trace == p.trace + [Popped(1), Pushed(1)]
  {
    hide Run, TakeSteps, StoreSteps;
    var p0 := Init(2);
    RunNothing(p0);
    Taking(p0, [], p0);
    assert [] + TakeSteps() == TakeSteps();
    Storing(p0, TakeSteps(), Run(p0, TakeSteps()), 7, 0);
    var before := TakeSteps() + StoreSteps(7, 0);
    Taking(p0, before, Run(p0, before));
    Storing(p0, before + TakeSteps(), Run(p0, before + TakeSteps()), 8, 1);
    RunSnoc(p0, before + TakeSteps() + StoreSteps(8, 1), PushExchange(8));
  }

  lemma RunNothing(p: Pool)
    ensures Run(p, []) == p
  {
  }

  /**
   in_use() can exceed the capacity, and available() then wraps: a slot that is linked again but
   not yet counted down can already be allocated once more.
   */
  lemma CounterCanExceedCapacity()
    ensures var acts := TakeSteps() + StoreSteps(0, 0) + [PushExchange(0)] + TakeSteps();
            Run(Init(1), acts).inUse == 2
  {
    hide Run, TakeSteps, StoreSteps;
    var p0 := Init(1);
    RunNothing(p0);
    Taking(p0, [], p0);
    assert [] + TakeSteps() == TakeSteps();
    Storing(p0, TakeSteps(), Run(p0, TakeSteps()), 0, 0);
    var acts := TakeSteps() + StoreSteps(0, 0);
    RunSnoc(p0, acts, PushExchange(0));
    Taking(p0, acts + [PushExchange(0)], Run(p0, acts + [PushExchange(0)]));
  }
}
