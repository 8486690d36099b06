// passthrough_ll.c: which file an entry stands for. The inode that a lookup or a link
// hands to the kernel is the one of the file the request was about, in every run.
module InodeFiles {
  import opened Bytes
  import opened InodeRefs

  // ---- one step ----

  // x stands before id on the list.
  predicate Front(list: seq<Id>, x: Id, id: Id) {
    exists i, j :: 0 <= i < j < |list| && list[i] == x && list[j] == id
  }

  // What lo_find may answer to a thread that looks for the key: the first listed inode
  // of the file, or nothing, and that only if none is listed.
  ghost predicate Answers(s: State, fd: Fd, key: Key, pc: Pc) {
    match pc
    case Found(id, f) =>
      && f == fd && id in s.list && id in s.table && s.table[id].key == key
      && forall x :: Front(s.list, x, id) && x in s.table ==> s.table[x].key != key
    case Missing(f, k) => f == fd && k == key && !Listed(s, key)
    case Opened(f, k) => f == fd && k == key
    case Freeing(f) => f == fd
    case _ => false
  }

  lemma SearchAnswers(s: State, s': State, t: nat, fd: Fd, key: Key)
    requires ListOk(s) && t < |s.threads| && s.threads[t] == Opened(fd, key) && OpenedStep(s, s', t, fd, key)
    ensures t < |s'.threads| && Answers(s, fd, key, s'.threads[t])
  {
    hide FindKey;
    FindKeyFound(s, s.list, key);
    var i := FindKey(s, s.list, key);
    if i < |s.list| {
      forall x | Front(s.list, x, s.list[i]) && x in s.table ensures s.table[x].key != key {
        var a, b :| 0 <= a < b < |s.list| && s.list[a] == x && s.list[b] == s.list[i];
        assert b == i;
      }
    }
  }

  lemma FindsTheFile(s: State, s': State, t: nat)
    requires ListOk(s) && Next(s, s') && t < |s.threads| && s.threads[t].Opened?
    ensures t < |s'.threads| && Answers(s, s.threads[t].fd, s.threads[t].key, s'.threads[t])
  {
    hide ListOk, OpenedStep, IdleStep, LookingStep, HoldingStep, LinkingStep, Next;
    var u := NextIsStep(s, s');
    if u == t {
      SearchAnswers(s, s', t, s.threads[t].fd, s.threads[t].key);
    }
  }

  // ---- the inode of a file stays the inode of that file ----

  lemma KeyStep(s: State, s': State, id: Id)
    requires ListOk(s) && Next(s, s') && id in s.table && id in s'.table
    ensures s'.table[id].key == s.table[id].key
  {
    hide IdleStep, LookingStep, OpenedStep, HoldingStep, LinkingStep, Unref, Insert;
    var u := NextIsStep(s, s');
    if s.threads[u].Missing? {
      MissingStep(s, s', u);
      InsertAdds(s, u, s.threads[u].fd, s.threads[u].key);
    } else {
      StepIsPlain(s, s', u);
    }
  }

  lemma InsertAdds(s: State, t: nat, fd: Fd, key: Key)
    requires t < |s.threads|
    ensures var s' := Insert(s, t, fd, key);
            && s.ids in s'.table && s'.table[s.ids] == Inode(1, fd, key) && s'.threads[t] == Holding(s.ids)
            && forall id :: id in s.table && id != s.ids ==> id in s'.table && s'.table[id] == s.table[id]
  {
  }

  // ---- where a reference comes from ----

  // Between two lock sections the thread works for one of these: the file it has opened,
  // or the inode that a link names.
  datatype Cause = Lookup(fd: Fd, key: Key) | Link(id: Id)

  // The thread's request was caused like this.
  predicate Begins(pc: Pc, c: Cause) {
    match c
    case Lookup(fd, key) => pc == Opened(fd, key)
    case Link(id) => pc.Linking? && pc.id == id
  }

  // It is still that request.
  predicate Works(pc: Pc, c: Cause) {
    || (c.Lookup? && (pc == Opened(c.fd, c.key) || pc == Missing(c.fd, c.key) || (pc.Found? && pc.fd == c.fd)))
    || pc.Holding?
    || (c.Link? && pc.Linking? && pc.id == c.id)
  }

  // The inode it holds is the one.
  predicate Right(s: State, pc: Pc, c: Cause) {
    match pc
    case Found(id, _) => c.Lookup? && id in s.table && s.table[id].key == c.key
    case Holding(id) => id in s.table && (if c.Lookup? then s.table[id].key == c.key else id == c.id)
    case _ => true
  }

  // One step of the thread itself.
  lemma OwnStep(s: State, s': State, t: nat, c: Cause)
    requires Inv(s) && t < |s.threads| && Step(s, s', t) && Works(s.threads[t], c) && Right(s, s.threads[t], c)
    requires t < |s'.threads| && (s'.threads[t].Found? || s'.threads[t].Missing? || s'.threads[t].Holding?)
    requires Inv(s')
    ensures Works(s'.threads[t], c) && Right(s', s'.threads[t], c)
  {
    hide Inv, IdleStep, LookingStep, OpenedStep, Insert;
    InvIsListOk(s);
    match s.threads[t]
    case Opened(fd, key) =>
      SearchAnswers(s, s', t, fd, key);
      if s'.threads[t].Found? {
        FoundStays(s, s', t, fd, key);
      }
    case Missing(fd, key) => InsertAdds(s, t, fd, key);
    case _ =>
  }

  lemma FoundStays(s: State, s': State, t: nat, fd: Fd, key: Key)
    requires t < |s.threads| && OpenedStep(s, s', t, fd, key) && t < |s'.threads| && s'.threads[t].Found?
    requires s'.threads[t].id in s.table && s.threads[t] == Opened(fd, key)
    ensures s'.threads[t].id in s'.table && s'.table[s'.threads[t].id].key == s.table[s'.threads[t].id].key
  {
    hide FindKey;
  }

  // The request of a thread that is past its search, from where it began.
  ghost predicate Since(trace: seq<State>, m: nat, i: nat, t: nat, c: Cause) {
    && m < i < |trace| && t < |trace[m].threads| && Begins(trace[m].threads[t], c)
    && forall k :: m <= k <= i ==> t < |trace[k].threads| && Works(trace[k].threads[t], c)
  }

  predicate Underway(pc: Pc) {
    pc.Found? || pc.Missing? || pc.Holding?
  }

  lemma HeldInode(trace: seq<State>, i: nat, t: nat)
    requires Behaviour(trace) && i < |trace| && t < |trace[i].threads|
    ensures match trace[i].threads[t]
            case Found(id, _) => id in trace[i].table
            case Holding(id) => id in trace[i].table
            case _ => true
  {
    hide Behaviour;
    NoUseAfterFree(trace, i, t);
  }

  // Whatever a thread has found, is about to insert or holds is for the file it opened
  // or the inode it was told to link.
  lemma {:induction false} ServesItsRequest(trace: seq<State>, i: nat, t: nat) returns (m: nat, c: Cause)
    requires Behaviour(trace) && i < |trace| && t < |trace[i].threads| && Underway(trace[i].threads[t])
    ensures Since(trace, m, i, t, c) && Right(trace[i], trace[i].threads[t], c)
  {
    hide Behaviour, Step, Inv, Works, Begins, Right, Next;
    NotUnderway(trace, i, t);
    var k := i - 1;
    AtStep(trace, k);
    var s, s' := trace[k], trace[k + 1];
    var u := NextIsStep(s, s');
    HeldInode(trace, i, t);
    HeldInode(trace, k, t);
    if Underway(s.threads[t]) {
      m, c := ServesItsRequest(trace, k, t);
      if u == t {
        SinceMeans(trace, m, k, t, c);
        OwnStep(s, s', t, c);
      } else {
        RightStays(s, s', t, c);
        SinceMeans(trace, m, k, t, c);
      }
    } else {
      m := k;
      c := FirstStep(s, s', t);
    }
    SinceLonger(trace, m, k, t, c);
  }

  lemma NotUnderway(trace: seq<State>, i: nat, t: nat)
    requires Behaviour(trace) && i < |trace| && t < |trace[i].threads| && Underway(trace[i].threads[t])
    ensures i > 0
  {
  }

  lemma AtStep(trace: seq<State>, k: nat)
    requires Behaviour(trace) && k + 1 < |trace|
    ensures Inv(trace[k]) && Inv(trace[k + 1]) && Next(trace[k], trace[k + 1])
  {
    InvAlways(trace, k);
    InvAlways(trace, k + 1);
  }

  // A request comes under way by a search or by a link.
  lemma FirstStep(s: State, s': State, t: nat) returns (c: Cause)
    requires Inv(s) && Step(s, s', t) && t < |s.threads| && t < |s'.threads|
    requires !Underway(s.threads[t]) && Underway(s'.threads[t])
    ensures Begins(s.threads[t], c) && Works(s.threads[t], c) && Works(s'.threads[t], c)
    ensures Right(s', s'.threads[t], c)
  {
    hide Inv, OpenedStep, FindKey;
    InvIsListOk(s);
    c := Link(0);
    match s.threads[t]
    case Opened(fd, key) =>
      c := Lookup(fd, key);
      SearchAnswers(s, s', t, fd, key);
      if s'.threads[t].Found? {
        FoundStays(s, s', t, fd, key);
      }
    case Linking(id, _) => c := Link(id);
    case _ =>
  }

  lemma RightStays(s: State, s': State, t: nat, c: Cause)
    requires Inv(s) && Next(s, s') && t < |s.threads| && t < |s'.threads| && s'.threads[t] == s.threads[t]
    requires Right(s, s.threads[t], c)
    requires match s.threads[t]
             case Found(id, _) => id in s'.table
             case Holding(id) => id in s'.table
             case _ => true
    ensures Right(s', s'.threads[t], c)
  {
    hide Inv, Next;
    InvIsListOk(s);
    match s.threads[t]
    case Found(id, _) => KeyStep(s, s', id);
    case Holding(id) => KeyStep(s, s', id);
    case _ =>
  }

  lemma SinceMeans(trace: seq<State>, m: nat, i: nat, t: nat, c: Cause)
    requires Since(trace, m, i, t, c)
    ensures m < i < |trace| && t < |trace[i].threads| && Works(trace[i].threads[t], c)
  {
  }

  lemma SinceLonger(trace: seq<State>, m: nat, i: nat, t: nat, c: Cause)
    requires i + 1 < |trace| && t < |trace[i + 1].threads| && Works(trace[i + 1].threads[t], c)
    requires if m == i then t < |trace[m].threads| && Begins(trace[m].threads[t], c) && Works(trace[m].threads[t], c)
             else Since(trace, m, i, t, c)
    ensures Since(trace, m, i + 1, t, c)
  {
    hide Begins, Works;
  }

  // ---- the reply ----

  lemma OnlyHolders(s: State, s': State, id: Id) returns (t: nat)
    requires Next(s, s') && Kernel(s', id) > Kernel(s, id)
    ensures t < |s.threads| && s.threads[t] == Holding(id)
  {
    hide OpenedStep, LookingStep, LinkingStep;
    t :| Step(s, s', t);
    match s.threads[t]
    case Holding(_) =>
    case Opened(fd, key) => SearchKeepsKernel(s, s', t, fd, key);
    case Linking(x, _) => LinkKeepsKernel(s, s', t, x);
    case Looking(_) => LookKeepsKernel(s, s', t);
    case _ =>
  }

  lemma SearchKeepsKernel(s: State, s': State, t: nat, fd: Fd, key: Key)
    requires t < |s.threads| && OpenedStep(s, s', t, fd, key)
    ensures s'.kernel == s.kernel
  {
    hide FindKey;
  }

  lemma LinkKeepsKernel(s: State, s': State, t: nat, id: Id)
    requires t < |s.threads| && LinkingStep(s, s', t, id)
    ensures s'.kernel == s.kernel
  {
  }

  lemma LookKeepsKernel(s: State, s': State, t: nat)
    requires t < |s.threads| && LookingStep(s, s', t)
    ensures s'.kernel == s.kernel
  {
  }

  // An entry that reaches the kernel is the one of the request: its inode has the key of
  // the file that the request opened, or is the inode that the link named.
  lemma EntryIsTheFile(trace: seq<State>, i: nat, id: Id) returns (t: nat, m: nat, c: Cause)
    requires Behaviour(trace) && i + 1 < |trace| && Kernel(trace[i + 1], id) > Kernel(trace[i], id)
    ensures t < |trace[i].threads| && trace[i].threads[t] == Holding(id) && Since(trace, m, i, t, c)
    ensures id in trace[i].table && if c.Lookup? then trace[i].table[id].key == c.key else id == c.id
  {
    hide Behaviour, Since, Next;
    AtStep(trace, i);
    t := OnlyHolders(trace[i], trace[i + 1], id);
    m, c := ServesItsRequest(trace, i, t);
  }

  // ---- an inode from start to end ----

  const FILE := Key(7, 1)

  function Entered(n: nat): State {
    State(map[0 := Inode(n, 3, FILE)], [0], map[0 := n], [Idle], map[3 := ByInode(0), 4 := Closed], 1)
  }

  // A file is looked up for the first time, and a second time.
  lemma LookedUp() returns (trace: seq<State>)
    ensures trace != [] && Behaviour(trace)
    ensures trace[|trace| - 1] == Entered(1).(owner := map[3 := ByInode(0)])
  {
    hide Behaviour, FindKey;
    var s0 := State(map[], [], map[], [Idle], map[], 0);
    var s1 := Go(s0, 0, Looking(Root));
    var s2 := Go(s1, 0, Opened(3, FILE)).(owner := map[3 := ByThread(0)]);
    var s3 := Go(s2, 0, Missing(3, FILE));
    var s4 := Insert(s3, 0, 3, FILE);
    Begin(s0);
    assert Known(s0, Root) && Open(s1, s2, 0, 3, FILE);
    trace := Extend([s0], s1, 0);
    trace := Extend(trace, s2, 0);
    assert FindKey(s2, [], FILE) == 0 by { FindKeyFound(s2, [], FILE); }
    trace := Extend(trace, s3, 0);
    trace := Extend(trace, s4, 0);
    assert [0] + [] == [0];
    trace := Extend(trace, Entered(1).(owner := map[3 := ByInode(0)]), 0);
  }

  lemma FoundAgain() returns (trace: seq<State>)
    ensures trace != [] && Behaviour(trace) && trace[|trace| - 1] == Entered(2)
  {
    hide Behaviour, FindKey;
    trace := LookedUp();
    var s0 := Entered(1).(owner := map[3 := ByInode(0)]);
    var s1 := Go(s0, 0, Looking(Root));
    var s2 := Go(s1, 0, Opened(4, FILE)).(owner := map[3 := ByInode(0), 4 := ByThread(0)]);
    var s3 := Go(Bump(s2, 0), 0, Found(0, 4));
    var s4 := Go(s3, 0, Holding(0)).(owner := map[3 := ByInode(0), 4 := Closed]);
    assert Known(s0, Root) && Open(s1, s2, 0, 4, FILE);
    trace := Extend(trace, s1, 0);
    trace := Extend(trace, s2, 0);
    FindKeyFound(s2, [0], FILE);
    assert [0][0] == 0 && s2.table[0].key == FILE && FindKey(s2, [0], FILE) == 0;
    trace := Extend(trace, s3, 0);
    trace := Extend(trace, s4, 0);
    trace := Extend(trace, Entered(2), 0);
  }

  // It is linked,
  lemma LinkedOnce() returns (trace: seq<State>)
    ensures trace != [] && Behaviour(trace) && trace[|trace| - 1] == Entered(3)
  {
    hide Behaviour;
    trace := FoundAgain();
    var s0 := Entered(2);
    var s1 := Go(s0, 0, Linking(0, Root));
    var s2 := Go(Bump(s1, 0), 0, Holding(0));
    assert Known(s0, Root) && Kernel(s0, 0) == 2;
    trace := Extend(trace, s1, 0);
    trace := Extend(trace, s2, 0);
    trace := Extend(trace, Entered(3), 0);
  }

  // and then the kernel forgets all three entries: nothing is left.
  lemma WholeLife() returns (trace: seq<State>)
    ensures trace != [] && Behaviour(trace)
    ensures trace[|trace| - 1] == State(map[], [], map[0 := 0], [Idle], map[3 := Closed, 4 := Closed], 1)
  {
    hide Behaviour, Unlinked;
    trace := LinkedOnce();
    var s3 := Entered(3);
    var s4 := Go(s3, 0, Forgetting(0, 3)).(kernel := map[0 := 0]);
    var s5 := State(map[], [], map[0 := 0], [Freeing(3)], map[3 := ByThread(0), 4 := Closed], 1);
    assert Forget(s3, s4, 0, 0, 3);
    trace := Extend(trace, s4, 0);
    UnlinkedOne(0);
    assert s4.table - {0} == map[];
    trace := Extend(trace, s5, 0);
    trace := Extend(trace, Go(s5, 0, Idle).(owner := map[3 := Closed, 4 := Closed]), 0);
  }

  lemma UnlinkedOne(id: Id)
    ensures Unlinked([id], id) == []
  {
  }
}
