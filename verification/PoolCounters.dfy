// c/mempool/mempool.c: the counters of the pool, and the word _ptr of a node given back,
// are written after the lock has been released, one after the other, while other threads
// go on.
module PoolCounters {
  import opened Bytes

  type Node = nat

  datatype Pc =
    | Idle
    | Popped(n: Node)       // pool_malloc: off the free list
    | AllocCounted(n: Node) // ... _stat_alloc incremented
    | Freeing(n: Node)      // pool_free: called, before its lock section
    | Pushed(n: Node)       // ... back on the free list
    | Stored                // ... and its _ptr written
    | FreeCounted           // ... _stat_free incremented

  datatype State = State(
    free: set<Node>,   // the free list
    held: set<Node>,   // returned to a caller and not given back
    threads: seq<Pc>,
    ptr: map<Node, int>, // the word _ptr of each node written so far
    statAlloc: int,
    statFree: int,
    used: int          // _total_used_nodes before reduction to 64 bits
  )

  ghost predicate Init(s: State) {
    && s.free == {} && s.held == {} && s.statAlloc == s.statFree == s.used == 0
    && forall t :: 0 <= t < |s.threads| ==> s.threads[t] == Idle
  }

  function Go(s: State, t: nat, pc: Pc): State
    requires t < |s.threads|
  {
    s.(threads := s.threads[t := pc])
  }

  function NodeOf(pc: Pc): set<Node> {
    match pc
    case Popped(n) => {n}
    case AllocCounted(n) => {n}
    case Freeing(n) => {n}
    case _ => {}
  }

  // Slots carved from a new block are none that exist.
  ghost predicate Carved(s: State, slots: set<Node>) {
    slots !! s.free && slots !! s.held
    && forall t :: 0 <= t < |s.threads| ==> NodeOf(s.threads[t]) !! slots
  }

  // The lock section of pool_malloc, with an expansion if the list is empty.
  ghost predicate Pop(s: State, s': State, t: nat, slots: set<Node>, n: Node)
    requires t < |s.threads|
  {
    && Carved(s, slots) && (s.free != {} ==> slots == {})
    && n in s.free + slots
    && s' == Go(s, t, Popped(n)).(free := s.free + slots - {n})
  }

  // The caller that holds a node writes what it likes into it.
  predicate HolderWrites(s: State, s': State, n: Node, v: int) {
    n in s.held && s' == s.(ptr := s.ptr[n := v])
  }

  // A free starts, which happens only after the allocation has returned.
  predicate Gives(s: State, s': State, t: nat, n: Node)
    requires t < |s.threads|
  {
    n in s.held && s' == Go(s, t, Freeing(n)).(held := s.held - {n})
  }

  ghost predicate IdleStep(s: State, s': State, t: nat)
    requires t < |s.threads|
  {
    || (exists slots, n :: Pop(s, s', t, slots, n))
    || (exists n :: Gives(s, s', t, n))
    || (exists n, v :: HolderWrites(s, s', n, v))
  }

  ghost predicate Step(s: State, s': State, t: nat) {
    && t < |s.threads|
    && match s.threads[t]
       case Idle => IdleStep(s, s', t)
       case Popped(n) => s' == Go(s, t, AllocCounted(n)).(statAlloc := s.statAlloc + 1)
       case AllocCounted(n) => s' == Go(s, t, Idle).(used := s.used + 1, held := s.held + {n})
       case Freeing(n) => s' == Go(s, t, Pushed(n)).(free := s.free + {n})
       case Pushed(n) => s' == Go(s, t, Stored).(ptr := s.ptr[n := n])
       case Stored => s' == Go(s, t, FreeCounted).(statFree := s.statFree + 1)
       case FreeCounted => s' == Go(s, t, Idle).(used := s.used - 1)
  }

  ghost predicate Next(s: State, s': State) {
    exists t: nat :: Step(s, s', t)
  }

  ghost predicate Behaviour(trace: seq<State>) {
    && trace != [] && Init(trace[0])
    && forall i :: 0 <= i < |trace| - 1 ==> Next(trace[i], trace[i + 1])
  }

  // A call under way that `used` still has to account for, one that the difference of
  // the two statistics has to.
  datatype Tally = InUse | Net

  function Weight(pc: Pc, k: Tally): nat {
    match k
    case InUse => if pc.Freeing? || pc.Pushed? || pc.Stored? || pc.FreeCounted? then 1 else 0
    case Net => if pc.AllocCounted? || pc.Freeing? || pc.Pushed? || pc.Stored? then 1 else 0
  }

  function Sum(threads: seq<Pc>, k: Tally): nat {
    if threads == [] then 0 else Sum(threads[..|threads| - 1], k) + Weight(threads[|threads| - 1], k)
  }

  lemma {:induction false} SumUpdate(threads: seq<Pc>, t: nat, pc: Pc, k: Tally)
    requires t < |threads|
    ensures Sum(threads[t := pc], k) == Sum(threads, k) - Weight(threads[t], k) + Weight(pc, k)
    ensures Weight(threads[t], k) <= Sum(threads, k)
  {
    var n := |threads| - 1;
    if t == n {
      assert threads[t := pc][..n] == threads[..n];
    } else {
      assert threads[t := pc][..n] == threads[..n][t := pc];
      SumUpdate(threads[..n], t, pc, k);
    }
  }

  lemma {:induction false} SumIdle(threads: seq<Pc>, k: Tally)
    requires forall t :: 0 <= t < |threads| ==> threads[t] == Idle
    ensures Sum(threads, k) == 0
  {
    if threads != [] {
      SumIdle(threads[..|threads| - 1], k);
    }
  }

  ghost predicate CountsOk(s: State) {
    && s.used == |s.held| + Sum(s.threads, InUse)
    && s.statAlloc == s.statFree + |s.held| + Sum(s.threads, Net)
  }

  // Every node is in one place.
  ghost predicate NodesOk(s: State) {
    && s.free !! s.held
    && (forall t :: 0 <= t < |s.threads| ==> NodeOf(s.threads[t]) !! s.free + s.held)
    && (forall t, u :: 0 <= t < u < |s.threads| ==> NodeOf(s.threads[t]) !! NodeOf(s.threads[u]))
  }

  lemma NotHeld(s: State, t: nat, n: Node)
    requires NodesOk(s) && t < |s.threads| && s.threads[t] == AllocCounted(n)
    ensures n !in s.held
  {
    assert n in NodeOf(s.threads[t]);
  }

  lemma StepKeepsCounts(s: State, s': State, t: nat)
    requires CountsOk(s) && NodesOk(s) && Step(s, s', t)
    ensures CountsOk(s')
  {
    hide Sum, NodesOk, NodeOf, Carved, IdleStep, CountsOk;
    match s.threads[t]
    case Idle => IdleKeepsCounts(s, s', t);
    case AllocCounted(n) =>
      NotHeld(s, t, n);
      CountsMove(s, s', t, s'.threads[t]);
    case _ => CountsMove(s, s', t, s'.threads[t]);
  }

  lemma IdleKeepsCounts(s: State, s': State, t: nat)
    requires CountsOk(s) && t < |s.threads| && s.threads[t] == Idle && IdleStep(s, s', t)
    ensures CountsOk(s')
  {
    hide CountsOk, Pop, HolderWrites, Gives;
    if n, v :| HolderWrites(s, s', n, v) {
      WriteKeepsCounts(s, s', n, v);
    } else if slots, n :| Pop(s, s', t, slots, n) {
      PopKeepsCounts(s, s', t, slots, n);
    } else {
      var n :| Gives(s, s', t, n);
      GiveKeepsCounts(s, s', t, n);
    }
  }

  lemma WriteKeepsCounts(s: State, s': State, n: Node, v: int)
    requires CountsOk(s) && HolderWrites(s, s', n, v)
    ensures CountsOk(s')
  {
  }

  lemma PopKeepsCounts(s: State, s': State, t: nat, slots: set<Node>, n: Node)
    requires CountsOk(s) && t < |s.threads| && s.threads[t] == Idle && Pop(s, s', t, slots, n)
    ensures CountsOk(s')
  {
    hide CountsOk, Carved;
    CountsMove(s, s', t, Popped(n));
  }

  lemma GiveKeepsCounts(s: State, s': State, t: nat, n: Node)
    requires CountsOk(s) && t < |s.threads| && s.threads[t] == Idle && Gives(s, s', t, n)
    ensures CountsOk(s')
  {
    hide CountsOk;
    CountsMove(s, s', t, Freeing(n));
  }

  // A thread moves on, and the counters and the nodes held make up for its weight.
  lemma CountsMove(s: State, s': State, t: nat, pc: Pc)
    requires CountsOk(s) && t < |s.threads| && s'.threads == s.threads[t := pc]
    requires s'.used - s.used == |s'.held| - |s.held| + Weight(pc, InUse) - Weight(s.threads[t], InUse)
    requires s'.statAlloc - s.statAlloc ==
             s'.statFree - s.statFree + |s'.held| - |s.held| + Weight(pc, Net) - Weight(s.threads[t], Net)
    ensures CountsOk(s')
  {
    hide Sum, Weight;
    SumUpdate(s.threads, t, pc, InUse);
    SumUpdate(s.threads, t, pc, Net);
  }

  lemma StepKeepsNodes(s: State, s': State, t: nat)
    requires NodesOk(s) && Step(s, s', t)
    ensures NodesOk(s')
  {
  }

  lemma {:induction false} InvAlways(trace: seq<State>, i: nat)
    requires Behaviour(trace) && i < |trace|
    ensures CountsOk(trace[i]) && NodesOk(trace[i])
  {
    if i == 0 {
      SumIdle(trace[0].threads, InUse);
      SumIdle(trace[0].threads, Net);
    } else {
      InvAlways(trace, i - 1);
      assert Next(trace[i - 1], trace[i - 1 + 1]);
      var t: nat :| Step(trace[i - 1], trace[i], t);
      StepKeepsCounts(trace[i - 1], trace[i], t);
      StepKeepsNodes(trace[i - 1], trace[i], t);
    }
  }

  // The unsigned counter never wraps: it is positive whenever a thread is about to
  // decrement it, in every interleaving, and frees never outrun allocations.
  lemma NeverWraps(trace: seq<State>, i: nat)
    requires Behaviour(trace) && i < |trace|
    ensures trace[i].used >= 0 && 0 <= trace[i].statFree <= trace[i].statAlloc
    ensures forall t :: 0 <= t < |trace[i].threads| && trace[i].threads[t] == FreeCounted ==> trace[i].used > 0
  {
    InvAlways(trace, i);
    StatFreeCounts(trace, i);
    forall t | 0 <= t < |trace[i].threads| && trace[i].threads[t] == FreeCounted ensures trace[i].used > 0 {
      SumUpdate(trace[i].threads, t, Idle, InUse);
    }
  }

  lemma {:induction false} StatFreeCounts(trace: seq<State>, i: nat)
    requires Behaviour(trace) && i < |trace|
    ensures trace[i].statFree >= 0
  {
    if i > 0 {
      StatFreeCounts(trace, i - 1);
      assert Next(trace[i - 1], trace[i - 1 + 1]);
    }
  }

  // With no call under way the counters agree with each other and with the nodes held.
  lemma QuietCounters(trace: seq<State>, i: nat)
    requires Behaviour(trace) && i < |trace|
    requires forall t :: 0 <= t < |trace[i].threads| ==> trace[i].threads[t] == Idle
    ensures trace[i].used == trace[i].statAlloc - trace[i].statFree == |trace[i].held|
  {
    InvAlways(trace, i);
    SumIdle(trace[i].threads, InUse);
    SumIdle(trace[i].threads, Net);
  }

  // No node is with two callers, or with a caller and on the free list.
  lemma OneHolder(trace: seq<State>, i: nat, t: nat, u: nat, n: Node)
    requires Behaviour(trace) && i < |trace| && t < u < |trace[i].threads|
    ensures n in NodeOf(trace[i].threads[t]) ==>
              n !in NodeOf(trace[i].threads[u]) && n !in trace[i].free && n !in trace[i].held
    ensures n in trace[i].held ==> n !in trace[i].free
  {
    InvAlways(trace, i);
  }

  // ---- the store behind the lock section of pool_free -----------------------------

  // Somebody has the node: a caller, or a thread on its way to one or back.
  ghost predicate Owned(s: State, n: Node) {
    n in s.held || exists u :: 0 <= u < |s.threads| && n in NodeOf(s.threads[u])
  }

  // A node that a thread has given back is on the free list or has an owner.
  ghost predicate PushedOk(s: State) {
    forall t :: 0 <= t < |s.threads| && s.threads[t].Pushed? ==>
      s.threads[t].n in s.free || Owned(s, s.threads[t].n)
  }

  // Some thread takes the node off the free list.
  ghost predicate Pops(s: State, s': State, n: Node) {
    exists u: nat, slots :: u < |s.threads| && s.threads[u] == Idle && Pop(s, s', u, slots, n)
  }

  // Some thread puts it back.
  predicate Pushes(s: State, s': State, n: Node) {
    exists u :: 0 <= u < |s.threads| && s.threads[u] == Freeing(n)
      && s' == Go(s, u, Pushed(n)).(free := s.free + {n})
  }

  // Line 86, by a thread that has given the node back.
  predicate Stores(s: State, s': State, t: nat, n: Node) {
    t < |s.threads| && s.threads[t] == Pushed(n) && s' == Go(s, t, Stored).(ptr := s.ptr[n := n])
  }

  // What an owner's node goes through in one step: it keeps an owner or is put back.
  lemma OwnedStep(s: State, s': State, n: Node)
    requires NodesOk(s) && Next(s, s') && Owned(s, n)
    ensures n !in s.free
    ensures if Pushes(s, s', n) then n in s'.free else Owned(s', n)
  {
    hide NodesOk, Step, Pushes, Owned;
    var t: nat :| Step(s, s', t);
    OwnedApart(s, n);
    if Pushes(s, s', n) {
      PushedIsFree(s, s', n);
    } else if n in s.held {
      HeldStep(s, s', t, n);
    } else {
      var u := OwnerOf(s, n);
      CarriedStep(s, s', t, u, n);
    }
  }

  lemma PushedIsFree(s: State, s': State, n: Node)
    requires Pushes(s, s', n)
    ensures n in s'.free
  {
  }

  lemma OwnerOf(s: State, n: Node) returns (u: nat)
    requires Owned(s, n) && n !in s.held
    ensures u < |s.threads| && n in NodeOf(s.threads[u])
  {
    u :| u < |s.threads| && n in NodeOf(s.threads[u]);
  }

  lemma HeldStep(s: State, s': State, t: nat, n: Node)
    requires Step(s, s', t) && n in s.held
    ensures Owned(s', n)
  {
    hide Carved;
    if n !in s'.held {
      assert s'.threads[t] == Freeing(n) && n in NodeOf(s'.threads[t]);
    }
  }

  lemma CarriedStep(s: State, s': State, t: nat, u: nat, n: Node)
    requires Step(s, s', t) && u < |s.threads| && n in NodeOf(s.threads[u]) && !Pushes(s, s', n)
    ensures Owned(s', n)
  {
    hide Carved;
    assert u != t ==> s'.threads[u] == s.threads[u];
    assert n in s'.held || n in NodeOf(s'.threads[u]);
  }

  lemma OwnedApart(s: State, n: Node)
    requires NodesOk(s) && Owned(s, n)
    ensures n !in s.free
  {
  }

  // A node on the free list stays there until somebody takes it off.
  lemma FreeStep(s: State, s': State, n: Node)
    requires Next(s, s') && n in s.free
    ensures if Pops(s, s', n) then Owned(s', n) else n in s'.free
  {
    var t: nat :| Step(s, s', t);
    if Pops(s, s', n) {
      var u: nat, slots :| u < |s.threads| && s.threads[u] == Idle && Pop(s, s', u, slots, n);
      assert s'.threads[u] == Popped(n) && n in NodeOf(s'.threads[u]);
    } else if s.threads[t] == Idle && exists slots, m :: Pop(s, s', t, slots, m) {
      var slots, m :| Pop(s, s', t, slots, m);
      assert m != n;
    }
  }

  lemma StepKeepsPushed(s: State, s': State)
    requires NodesOk(s) && PushedOk(s) && Next(s, s')
    ensures PushedOk(s')
  {
    hide NodesOk, Owned, Pops, Pushes, Next;
    forall u | 0 <= u < |s'.threads| && s'.threads[u].Pushed?
      ensures s'.threads[u].n in s'.free || Owned(s', s'.threads[u].n)
    {
      var n := s'.threads[u].n;
      PushedBefore(s, s', u, n);
      if s.threads[u] == Pushed(n) {
        if n in s.free {
          FreeStep(s, s', n);
        } else {
          OwnedStep(s, s', n);
        }
      }
    }
  }

  lemma PushedBefore(s: State, s': State, u: nat, n: Node)
    requires Next(s, s') && u < |s'.threads| && s'.threads[u] == Pushed(n)
    ensures |s.threads| == |s'.threads|
    ensures s.threads[u] == Pushed(n) || n in s'.free
  {
    var t: nat :| Step(s, s', t);
  }

  lemma {:induction false} PushedAlways(trace: seq<State>, i: nat)
    requires Behaviour(trace) && i < |trace|
    ensures PushedOk(trace[i])
  {
    hide CountsOk, NodesOk, PushedOk, Next;
    if i == 0 {
      NonePushed(trace[0]);
    } else {
      InvAlways(trace, i - 1);
      PushedAlways(trace, i - 1);
      assert Next(trace[i - 1], trace[i - 1 + 1]);
      StepKeepsPushed(trace[i - 1], trace[i]);
    }
  }

  lemma NonePushed(s: State)
    requires Init(s)
    ensures PushedOk(s)
  {
  }

  predicate StillPushed(trace: seq<State>, m: nat, i: nat, t: nat, n: Node)
    requires i < |trace|
  {
    forall j :: m <= j <= i ==> t < |trace[j].threads| && trace[j].threads[t] == Pushed(n)
  }

  // With the thread before its store all the time, the node was taken at step m and not
  // put back until i.
  ghost predicate TakenAt(trace: seq<State>, m: nat, i: nat, t: nat, n: Node) {
    && m < i < |trace| && StillPushed(trace, m, i, t, n)
    && Pops(trace[m], trace[m + 1], n)
    && forall j :: m < j < i ==> !Pushes(trace[j], trace[j + 1], n)
  }

  lemma TakenEarlier(trace: seq<State>, m: nat, i: nat, t: nat, n: Node)
    requires TakenAt(trace, m, i + 1, t, n)
    ensures m == i ==> Pops(trace[i], trace[i + 1], n)
    ensures m < i ==> TakenAt(trace, m, i, t, n) && !Pushes(trace[i], trace[i + 1], n)
  {
    hide Pops, Pushes;
  }

  lemma TakenLater(trace: seq<State>, m: nat, i: nat, t: nat, n: Node)
    requires i + 1 < |trace| && t < |trace[i + 1].threads| && trace[i + 1].threads[t] == Pushed(n)
    requires if m == i
             then Pops(trace[i], trace[i + 1], n) && t < |trace[i].threads| && trace[i].threads[t] == Pushed(n)
             else TakenAt(trace, m, i, t, n) && !Pushes(trace[i], trace[i + 1], n)
    ensures TakenAt(trace, m, i + 1, t, n)
  {
    hide Pops, Pushes;
  }

  lemma {:induction false} OwnedSince(trace: seq<State>, m: nat, i: nat, t: nat, n: Node)
    requires Behaviour(trace) && TakenAt(trace, m, i, t, n)
    ensures Owned(trace[i], n)
    decreases i
  {
    hide Pops, Pushes, Owned, NodesOk, CountsOk, Next, TakenAt;
    TakenInside(trace, m, i, t, n);
    var k := i - 1;
    InvAlways(trace, k);
    assert Next(trace[k], trace[k + 1]);
    TakenEarlier(trace, m, k, t, n);
    if m == k {
      TakenIsOwned(trace[k], trace[i], n);
    } else {
      OwnedSince(trace, m, k, t, n);
      OwnedStep(trace[k], trace[i], n);
    }
  }

  lemma TakenInside(trace: seq<State>, m: nat, i: nat, t: nat, n: Node)
    requires TakenAt(trace, m, i, t, n)
    ensures m < i < |trace|
  {
  }

  lemma TakenIsOwned(s: State, s': State, n: Node)
    requires Pops(s, s', n)
    ensures Owned(s', n)
  {
    var u: nat, slots :| u < |s.threads| && s.threads[u] == Idle && Pop(s, s', u, slots, n);
    assert n in NodeOf(s'.threads[u]);
  }

  lemma {:induction false} TakenWhen(trace: seq<State>, i: nat, t: nat, n: Node) returns (m: nat)
    requires Behaviour(trace) && i < |trace| && t < |trace[i].threads|
    requires trace[i].threads[t] == Pushed(n) && Owned(trace[i], n)
    ensures TakenAt(trace, m, i, t, n)
  {
    hide Pops, Pushes, Owned, PushedOk, NodesOk, CountsOk, Next, TakenAt;
    InvAlways(trace, i);
    OwnedApart(trace[i], n);
    var k := i - 1;
    assert Next(trace[k], trace[k + 1]);
    PushedBefore(trace[k], trace[i], t, n);
    InvAlways(trace, k);
    PushedAlways(trace, k);
    if n in trace[k].free {
      FreeStep(trace[k], trace[i], n);
      m := k;
    } else {
      PushedMeans(trace[k], t, n);
      m := TakenWhen(trace, k, t, n);
      TakenInside(trace, m, k, t, n);
      OwnedStep(trace[k], trace[i], n);
    }
    TakenLater(trace, m, k, t, n);
  }

  lemma PushedMeans(s: State, t: nat, n: Node)
    requires PushedOk(s) && t < |s.threads| && s.threads[t] == Pushed(n)
    ensures n in s.free || Owned(s, n)
  {
  }

  // The store falls into a node that has an owner exactly if somebody has taken the node
  // since it was put back, and not put it back again; otherwise into one on the free list.
  lemma StoreMeetsOwner(trace: seq<State>, i: nat, t: nat, n: Node)
    requires Behaviour(trace) && i < |trace| && t < |trace[i].threads| && trace[i].threads[t] == Pushed(n)
    ensures Owned(trace[i], n) <==> exists m :: TakenAt(trace, m, i, t, n)
    ensures Owned(trace[i], n) <==> n !in trace[i].free
  {
    hide TakenAt, Owned, PushedOk, NodesOk;
    InvAlways(trace, i);
    PushedAlways(trace, i);
    PushedMeans(trace[i], t, n);
    if Owned(trace[i], n) {
      OwnedApart(trace[i], n);
      var m := TakenWhen(trace, i, t, n);
    }
    if m: nat :| TakenAt(trace, m, i, t, n) {
      OwnedSince(trace, m, i, t, n);
    }
  }

  function Word(s: State, n: Node): Option<int> {
    if n in s.ptr then Some(s.ptr[n]) else None
  }

  ghost predicate LateStore(s: State, s': State, n: Node) {
    exists t: nat :: Stores(s, s', t, n)
  }

  ghost predicate HolderStep(s: State, s': State, n: Node) {
    exists v :: HolderWrites(s, s', n, v)
  }

  lemma WordStep(s: State, s': State, n: Node)
    requires Next(s, s') && !HolderStep(s, s', n)
    ensures Word(s', n) == if LateStore(s, s', n) then Some(n) else Word(s, n)
  {
    var t: nat :| Step(s, s', t);
    if s.threads[t].Pushed? {
      assert Stores(s, s', t, s.threads[t].n);
    } else if s.threads[t] == Idle && exists m, v :: HolderWrites(s, s', m, v) {
      var m, v :| HolderWrites(s, s', m, v);
      assert m != n;
    }
  }

  // What a caller finds in the word _ptr of its node after any run in which it has not
  // written there itself: what was there, unless a store behind the lock section of
  // pool_free fell into the node; then the node's own address.
  lemma {:induction false} HolderReads(trace: seq<State>, i: nat, j: nat, n: Node)
    requires Behaviour(trace) && i <= j < |trace|
    requires forall k :: i <= k < j ==> !HolderStep(trace[k], trace[k + 1], n)
    ensures Word(trace[j], n) == if exists k :: i <= k < j && LateStore(trace[k], trace[k + 1], n)
                                 then Some(n) else Word(trace[i], n)
    decreases j
  {
    hide LateStore, HolderStep, Next, Word;
    if i < j {
      var k := j - 1;
      HolderReads(trace, i, k, n);
      assert Next(trace[k], trace[k + 1]);
      WordStep(trace[k], trace[k + 1], n);
    }
  }

  lemma Begin(s: State)
    requires Init(s)
    ensures Behaviour([s])
  {
  }

  lemma Extend(trace: seq<State>, s: State, t: nat) returns (longer: seq<State>)
    requires Behaviour(trace) && Step(trace[|trace| - 1], s, t)
    ensures longer == trace + [s] && Behaviour(longer)
  {
    hide Step, Init;
    longer := trace + [s];
    assert Next(trace[|trace| - 1], s);
    forall i | 0 <= i < |longer| - 1 ensures Next(longer[i], longer[i + 1]) {
      if i < |trace| - 1 {
        assert longer[i] == trace[i] && longer[i + 1] == trace[i + 1];
      }
    }
  }

  // One thread gives a node back, a second one takes it and writes into it, and then the
  // first one stores: the node is held and no longer has what its holder wrote.
  lemma HolderLosesWord(v: int) returns (trace: seq<State>)
    ensures Behaviour(trace) && |trace| > 2
    ensures var n := |trace| - 1;
            && HolderWrites(trace[n - 2], trace[n - 1], 0, v) && LateStore(trace[n - 1], trace[n], 0)
            && 0 in trace[n].held && Word(trace[n - 1], 0) == Some(v) && Word(trace[n], 0) == Some(0)
  {
    hide Behaviour;
    var s0 := State({}, {}, [Idle, Idle], map[], 0, 0, 0);
    var s1 := Go(s0, 0, Popped(0));
    var s2 := Go(s1, 0, AllocCounted(0)).(statAlloc := 1);
    var s3 := Go(s2, 0, Idle).(used := 1, held := {0});
    var s4 := Go(s3, 0, Freeing(0)).(held := {});
    var s5 := Go(s4, 0, Pushed(0)).(free := {0});
    var s6 := Go(s5, 1, Popped(0)).(free := {});
    var s7 := Go(s6, 1, AllocCounted(0)).(statAlloc := 2);
    var s8 := Go(s7, 1, Idle).(used := 2, held := {0});
    var s9 := s8.(ptr := s8.ptr[0 := v]);
    var s10 := Go(s9, 0, Stored).(ptr := s9.ptr[0 := 0]);
    Begin(s0);
    assert Pop(s0, s1, 0, {0}, 0);
    trace := Extend([s0], s1, 0);
    trace := Extend(trace, s2, 0);
    assert s2.held + {0} == {0};
    trace := Extend(trace, s3, 0);
    assert s3.held - {0} == {} && Gives(s3, s4, 0, 0);
    trace := Extend(trace, s4, 0);
    assert s4.free + {0} == {0};
    trace := Extend(trace, s5, 0);
    assert Pop(s5, s6, 1, {}, 0);
    trace := Extend(trace, s6, 1);
    trace := Extend(trace, s7, 1);
    assert s7.held + {0} == {0};
    trace := Extend(trace, s8, 1);
    assert HolderWrites(s8, s9, 0, v);
    trace := Extend(trace, s9, 1);
    trace := Extend(trace, s10, 0);
    assert Stores(s9, s10, 0, 0);
  }
}
