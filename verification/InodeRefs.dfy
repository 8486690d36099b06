// passthrough_ll.c: reference counts of inodes under any interleaving of the lock
// sections of lookup, link, readdirplus and forget requests. The kernel is part of
// the state: it counts the entries it was handed and gives references back.
module InodeRefs {
  import opened Bytes

  type Id = nat // a struct lo_inode
  type Fd = nat

  datatype Key = Key(ino: nat, dev: nat)

  datatype Inode = Inode(refcount: nat, fd: Fd, key: Key)

  // The directory of a request.
  datatype Parent = Root | Dir(id: Id)

  // Where a request stands. A thread between two lock sections keeps what it needs in
  // local variables, and these are the arguments here.
  datatype Pc =
    | Idle
    | Looking(parent: Parent)    // lo_do_lookup: before openat in the parent
    | Opened(fd: Fd, key: Key)   // ... after openat
    | Found(id: Id, fd: Fd)      // ... lo_find raised the count; newfd still to be closed
    | Missing(fd: Fd, key: Key)  // ... lo_find returned NULL
    | Holding(id: Id)            // one reference taken for an entry not yet replied
    | Linking(id: Id, parent: Parent) // lo_link: before linkat and its lock section
    | Forgetting(id: Id, n: nat) // unref_inode: before its lock section
    | Freeing(fd: Fd)            // ... count reached zero, unlinked, close still to come

  // Who is to close a descriptor.
  datatype Owner = ByInode(id: Id) | ByThread(t: nat) | Closed

  datatype State = State(
    table: map<Id, Inode>,  // the inodes that are not freed
    list: seq<Id>,          // the circular list, from root.next on
    kernel: map<Id, nat>,   // entries handed out minus entries forgotten
    threads: seq<Pc>,
    owner: map<Fd, Owner>,  // every descriptor ever opened by a lookup
    ids: Id                 // inodes allocated so far
  )

  function Kernel(s: State, id: Id): nat {
    if id in s.kernel then s.kernel[id] else 0
  }

  ghost predicate Init(s: State) {
    && s.table == map[] && s.list == [] && s.kernel == map[] && s.owner == map[] && s.ids == 0
    && forall t :: 0 <= t < |s.threads| ==> s.threads[t] == Idle
  }

  function Go(s: State, t: nat, pc: Pc): State
    requires t < |s.threads|
  {
    s.(threads := s.threads[t := pc])
  }

  // The loop of lo_find: the first inode on the list with this key.
  function FindKey(s: State, list: seq<Id>, key: Key): (i: nat)
    ensures i <= |list|
  {
    if list == [] || (list[0] in s.table && s.table[list[0]].key == key) then 0
    else 1 + FindKey(s, list[1..], key)
  }

  function Bump(s: State, id: Id): State
    requires id in s.table
  {
    s.(table := s.table[id := s.table[id].(refcount := s.table[id].refcount + 1)])
  }

  // A request names the root or an inode the kernel has an entry for.
  predicate Known(s: State, parent: Parent) {
    parent.Dir? ==> Kernel(s, parent.id) > 0
  }

  // The inodes whose descriptors a request is about to use without a reference of its own.
  predicate Uses(pc: Pc, id: Id) {
    match pc
    case Looking(parent) => parent == Dir(id)
    case Linking(x, parent) => x == id || parent == Dir(id)
    case _ => false
  }

  // openat: a descriptor not in use, for a file with any key.
  ghost predicate Open(s: State, s': State, t: nat, fd: Fd, key: Key)
    requires t < |s.threads|
  {
    && (fd in s.owner ==> s.owner[fd] == Closed)
    && s' == Go(s, t, Opened(fd, key)).(owner := s.owner[fd := ByThread(t)])
  }

  // openat may also fail.
  ghost predicate LookingStep(s: State, s': State, t: nat)
    requires t < |s.threads|
  {
    s' == Go(s, t, Idle) || exists fd, key :: Open(s, s', t, fd, key)
  }

  function Unlinked(list: seq<Id>, id: Id): seq<Id> {
    if list == [] then [] else if list[0] == id then list[1..] else [list[0]] + Unlinked(list[1..], id)
  }

  ghost predicate IdleStep(s: State, s': State, t: nat)
    requires t < |s.threads|
  {
    || (exists parent :: Known(s, parent) && s' == Go(s, t, Looking(parent)))
    || (exists id, parent :: Kernel(s, id) > 0 && Known(s, parent) && s' == Go(s, t, Linking(id, parent)))
    || (exists id, n :: Forget(s, s', t, id, n))
  }

  // fstatat may have failed; otherwise this is the lock section of lo_find.
  predicate OpenedStep(s: State, s': State, t: nat, fd: Fd, key: Key)
    requires t < |s.threads|
  {
    || s' == Go(s, t, Freeing(fd))
    || (var i := FindKey(s, s.list, key);
        s' == if i == |s.list| then Go(s, t, Missing(fd, key))
              else if s.list[i] in s.table then Go(Bump(s, s.list[i]), t, Found(s.list[i], fd))
              else s)
  }

  // calloc and the lock section that links the inode behind the root.
  function Insert(s: State, t: nat, fd: Fd, key: Key): State
    requires t < |s.threads|
  {
    Go(s, t, Holding(s.ids)).(
      table := s.table[s.ids := Inode(1, fd, key)], list := [s.ids] + s.list,
      owner := s.owner[fd := ByInode(s.ids)], ids := s.ids + 1)
  }

  // The entry reaches the kernel, or it did not fit into a readdirplus reply.
  predicate HoldingStep(s: State, s': State, t: nat, id: Id)
    requires t < |s.threads|
  {
    || s' == Go(s, t, Idle).(kernel := s.kernel[id := Kernel(s, id) + 1])
    || s' == Go(s, t, Forgetting(id, 1))
  }

  // linkat or fstatat may have failed; otherwise this is the lock section of lo_link.
  predicate LinkingStep(s: State, s': State, t: nat, id: Id)
    requires t < |s.threads|
  {
    s' == Go(s, t, Idle) || (id in s.table && s' == Go(Bump(s, id), t, Holding(id)))
  }

  // One thread takes its next step.
  ghost predicate Step(s: State, s': State, t: nat) {
    && t < |s.threads|
    && match s.threads[t]
       case Idle => IdleStep(s, s', t)
       case Looking(parent) => LookingStep(s, s', t)
       case Opened(fd, key) => OpenedStep(s, s', t, fd, key)
       case Found(id, fd) => s' == Go(s, t, Holding(id)).(owner := s.owner[fd := Closed])
       case Missing(fd, key) => s' == Insert(s, t, fd, key)
       case Holding(id) => HoldingStep(s, s', t, id)
       case Linking(id, parent) => LinkingStep(s, s', t, id)
       case Forgetting(id, n) => id in s.table && s' == Unref(s, t, id, n)
       case Freeing(fd) => s' == Go(s, t, Idle).(owner := s.owner[fd := Closed])
  }

  // The kernel forgets entries it has, and keeps one of an inode a request is using.
  ghost predicate Forget(s: State, s': State, t: nat, id: Id, n: nat)
    requires t < |s.threads|
  {
    && 0 < n <= Kernel(s, id)
    && ((exists u :: 0 <= u < |s.threads| && Uses(s.threads[u], id)) ==> n < Kernel(s, id))
    && s' == Go(s, t, Forgetting(id, n)).(kernel := s.kernel[id := Kernel(s, id) - n])
  }

  // The lock section of unref_inode.
  function Unref(s: State, t: nat, id: Id, n: nat): State
    requires t < |s.threads| && id in s.table
  {
    var inode := s.table[id];
    var left := if inode.refcount >= n then inode.refcount - n else 0;
    if left == 0 then
      Go(s, t, Freeing(inode.fd)).(table := s.table - {id}, list := Unlinked(s.list, id),
                                   owner := s.owner[inode.fd := ByThread(t)])
    else Go(s, t, Idle).(table := s.table[id := inode.(refcount := left)])
  }

  ghost predicate Next(s: State, s': State) {
    exists t :: Step(s, s', t)
  }

  // A run: any interleaving of the lock sections of all requests.
  ghost predicate Behaviour(trace: seq<State>) {
    && trace != [] && Init(trace[0])
    && forall i :: 0 <= i < |trace| - 1 ==> Next(trace[i], trace[i + 1])
  }

  // References a request has taken and not handed over, or must still give back.
  function Share(pc: Pc, id: Id): nat {
    match pc
    case Found(i, _) => if i == id then 1 else 0
    case Holding(i) => if i == id then 1 else 0
    case Forgetting(i, n) => if i == id then n else 0
    case _ => 0
  }

  function Shares(threads: seq<Pc>, id: Id): nat {
    if threads == [] then 0 else Shares(threads[..|threads| - 1], id) + Share(threads[|threads| - 1], id)
  }

  lemma {:induction false} SharesUpdate(threads: seq<Pc>, t: nat, pc: Pc, id: Id)
    requires t < |threads|
    ensures Shares(threads[t := pc], id) == Shares(threads, id) - Share(threads[t], id) + Share(pc, id)
    ensures Share(threads[t], id) <= Shares(threads, id)
  {
    var n := |threads| - 1;
    if t == n {
      assert threads[t := pc][..n] == threads[..n];
    } else {
      assert threads[t := pc][..n] == threads[..n][t := pc];
      SharesUpdate(threads[..n], t, pc, id);
    }
  }

  lemma {:induction false} SharesNone(threads: seq<Pc>, id: Id)
    requires forall t :: 0 <= t < |threads| ==> Share(threads[t], id) == 0
    ensures Shares(threads, id) == 0
  {
    if threads != [] {
      SharesNone(threads[..|threads| - 1], id);
    }
  }

  // ---- the invariant ----

  function Ref(s: State, id: Id): nat {
    if id in s.table then s.table[id].refcount else 0
  }

  // Every reference is with the kernel or with a request, and an inode without any is gone.
  ghost predicate CountsOk(s: State) {
    && (forall id :: Ref(s, id) == Kernel(s, id) + Shares(s.threads, id))
    && (forall id :: id in s.table ==> s.table[id].refcount > 0)
  }

  // Exactly the inodes that are not freed are on the list.
  ghost predicate ListOk(s: State) {
    && NoDuplicates(s.list)
    && (forall id :: id in s.list <==> id in s.table)
    && (forall id :: id in s.table ==> id < s.ids)
  }

  predicate HasFd(pc: Pc, fd: Fd) {
    match pc
    case Opened(f, _) => f == fd
    case Found(_, f) => f == fd
    case Missing(f, _) => f == fd
    case Freeing(f) => f == fd
    case _ => false
  }

  // Each descriptor that is not closed has one owner, who knows it.
  ghost predicate FdsOk(s: State) {
    && (forall id :: id in s.table ==> s.table[id].fd in s.owner && s.owner[s.table[id].fd] == ByInode(id))
    && (forall t, fd :: 0 <= t < |s.threads| && HasFd(s.threads[t], fd) ==> fd in s.owner && s.owner[fd] == ByThread(t))
    && (forall fd :: fd in s.owner && s.owner[fd].ByInode? ==>
          s.owner[fd].id in s.table && s.table[s.owner[fd].id].fd == fd)
    && (forall fd :: fd in s.owner && s.owner[fd].ByThread? ==>
          s.owner[fd].t < |s.threads| && HasFd(s.threads[s.owner[fd].t], fd))
  }

  // A request on an inode is backed by an entry of the kernel.
  ghost predicate LinksOk(s: State) {
    forall t, id :: 0 <= t < |s.threads| && Uses(s.threads[t], id) ==> Kernel(s, id) > 0
  }

  ghost predicate Inv(s: State) {
    CountsOk(s) && ListOk(s) && FdsOk(s) && LinksOk(s)
  }

  lemma InitInv(s: State)
    requires Init(s)
    ensures Inv(s)
  {
    forall id ensures Shares(s.threads, id) == 0 {
      SharesNone(s.threads, id);
    }
  }

  lemma {:induction false} FindKeyFound(s: State, list: seq<Id>, key: Key)
    ensures var i := FindKey(s, list, key);
            && (i < |list| ==> list[i] in s.table && s.table[list[i]].key == key)
            && (forall j :: 0 <= j < i ==> !(list[j] in s.table && s.table[list[j]].key == key))
  {
    if list != [] && !(list[0] in s.table && s.table[list[0]].key == key) {
      FindKeyFound(s, list[1..], key);
    }
  }

  lemma {:induction false} UnlinkedElems(list: seq<Id>, id: Id)
    requires NoDuplicates(list)
    ensures NoDuplicates(Unlinked(list, id))
    ensures forall x :: x in Unlinked(list, id) <==> x in list && x != id
  {
    if list != [] {
      assert list == [list[0]] + list[1..];
      if list[0] != id {
        UnlinkedElems(list[1..], id);
        var rest := Unlinked(list[1..], id);
        forall i, j | 0 <= i < j < |rest| + 1 ensures ([list[0]] + rest)[i] != ([list[0]] + rest)[j] {
          assert rest[j - 1] in list[1..];
        }
      }
    }
  }

  // The counts stay right when a step moves references between the inode, the kernel
  // and the thread without losing any.
  lemma Balanced(s: State, s': State, t: nat, pc: Pc)
    requires CountsOk(s) && t < |s.threads| && s'.threads == s.threads[t := pc]
    requires forall id :: Ref(s', id) + Kernel(s, id) + Share(s.threads[t], id)
                       == Ref(s, id) + Kernel(s', id) + Share(pc, id)
    requires (forall id :: id in s.table ==> s.table[id].refcount > 0) ==>
               forall id :: id in s'.table ==> s'.table[id].refcount > 0
    ensures CountsOk(s')
  {
    forall id ensures Ref(s', id) == Kernel(s', id) + Shares(s'.threads, id) {
      SharesUpdate(s.threads, t, pc, id);
    }
  }

  lemma BumpKeepsCounts(s: State, t: nat, id: Id, pc: Pc)
    requires CountsOk(s) && t < |s.threads| && id in s.table
    requires forall x :: Share(pc, x) == Share(s.threads[t], x) + (if x == id then 1 else 0)
    ensures CountsOk(Go(Bump(s, id), t, pc))
  {
    Balanced(s, Go(Bump(s, id), t, pc), t, pc);
  }

  lemma IdleKeepsCounts(s: State, s': State, t: nat)
    requires CountsOk(s) && t < |s.threads| && s.threads[t] == Idle && IdleStep(s, s', t)
    ensures CountsOk(s')
  {
    hide CountsOk, Shares;
    if id: Id, n: nat :| Forget(s, s', t, id, n) {
      Balanced(s, s', t, Forgetting(id, n));
    } else {
      assert s'.table == s.table && s'.kernel == s.kernel && s'.threads == s.threads[t := s'.threads[t]];
      UsesNoShare(s'.threads[t]);
      Balanced(s, s', t, s'.threads[t]);
    }
  }

  lemma UsesNoShare(pc: Pc)
    requires pc.Looking? || pc.Linking?
    ensures forall id :: Share(pc, id) == 0
  {
  }

  lemma InsertKeepsCounts(s: State, t: nat, fd: Fd, key: Key)
    requires CountsOk(s) && ListOk(s) && t < |s.threads| && s.threads[t] == Missing(fd, key)
    ensures CountsOk(Insert(s, t, fd, key))
  {
    Balanced(s, Insert(s, t, fd, key), t, Holding(s.ids));
  }

  // The assertion of unref_inode holds, and the count drops by what was to be given back.
  lemma UnrefKeepsCounts(s: State, t: nat, id: Id, n: nat)
    requires CountsOk(s) && t < |s.threads| && s.threads[t] == Forgetting(id, n) && id in s.table
    ensures s.table[id].refcount >= n && CountsOk(Unref(s, t, id, n))
  {
    SharesUpdate(s.threads, t, Idle, id);
    assert Ref(s, id) == Kernel(s, id) + Shares(s.threads, id);
    var s' := Unref(s, t, id, n);
    Balanced(s, s', t, s'.threads[t]);
  }

  lemma OpenedKeepsCounts(s: State, s': State, t: nat, fd: Fd, key: Key)
    requires CountsOk(s) && ListOk(s) && t < |s.threads| && s.threads[t] == Opened(fd, key)
    requires OpenedStep(s, s', t, fd, key)
    ensures CountsOk(s')
  {
    var i := FindKey(s, s.list, key);
    FindKeyFound(s, s.list, key);
    if s' == Go(s, t, Freeing(fd)) || i == |s.list| {
      Balanced(s, s', t, s'.threads[t]);
    } else {
      BumpKeepsCounts(s, t, s.list[i], Found(s.list[i], fd));
    }
  }

  lemma OtherKeepsCounts(s: State, s': State, t: nat)
    requires CountsOk(s) && Step(s, s', t)
    requires s.threads[t].Looking? || s.threads[t].Found? || s.threads[t].Holding? || s.threads[t].Freeing?
    ensures CountsOk(s')
  {
    Balanced(s, s', t, s'.threads[t]);
  }

  lemma LinkingKeepsCounts(s: State, s': State, t: nat, id: Id, parent: Parent)
    requires CountsOk(s) && t < |s.threads| && s.threads[t] == Linking(id, parent) && LinkingStep(s, s', t, id)
    ensures CountsOk(s')
  {
    if s' == Go(s, t, Idle) {
      Balanced(s, s', t, Idle);
    } else {
      BumpKeepsCounts(s, t, id, Holding(id));
    }
  }

  lemma StepKeepsCounts(s: State, s': State, t: nat)
    requires CountsOk(s) && ListOk(s) && Step(s, s', t)
    ensures CountsOk(s')
  {
    hide CountsOk, ListOk, IdleStep, OpenedStep, LinkingStep, HoldingStep, Insert, Unref;
    match s.threads[t]
    case Idle => IdleKeepsCounts(s, s', t);
    case Opened(fd, key) => OpenedKeepsCounts(s, s', t, fd, key);
    case Missing(fd, key) => InsertKeepsCounts(s, t, fd, key);
    case Linking(id, parent) => LinkingKeepsCounts(s, s', t, id, parent);
    case Forgetting(id, n) => UnrefKeepsCounts(s, t, id, n);
    case _ => OtherKeepsCounts(s, s', t);
  }

  lemma InsertKeepsList(s: State, t: nat, fd: Fd, key: Key)
    requires ListOk(s) && t < |s.threads|
    ensures ListOk(Insert(s, t, fd, key))
  {
    var list' := [s.ids] + s.list;
    forall i, j | 0 <= i < j < |list'| ensures list'[i] != list'[j] {
      assert list'[j] in s.list;
    }
  }

  lemma UnrefKeepsList(s: State, t: nat, id: Id, n: nat)
    requires ListOk(s) && t < |s.threads| && id in s.table
    ensures ListOk(Unref(s, t, id, n))
  {
    UnlinkedElems(s.list, id);
  }

  lemma StepKeepsList(s: State, s': State, t: nat)
    requires ListOk(s) && Step(s, s', t)
    ensures ListOk(s')
  {
    hide Insert, Unref, NoDuplicates, FindKey;
    match s.threads[t]
    case Missing(fd, key) => InsertKeepsList(s, t, fd, key);
    case Forgetting(id, n) => UnrefKeepsList(s, t, id, n);
    case _ => assert s'.list == s.list && s'.table.Keys == s.table.Keys && s'.ids == s.ids;
  }

  // A step that hands descriptors on: only thread t and the descriptor fd change.
  lemma HandOn(s: State, s': State, t: nat, pc: Pc, fd: Fd)
    requires FdsOk(s) && t < |s.threads| && s'.threads == s.threads[t := pc]
    requires forall f :: HasFd(s.threads[t], f) || HasFd(pc, f) ==> f == fd
    requires s'.owner.Keys == s.owner.Keys + {fd} && forall f :: f in s.owner && f != fd ==> s'.owner[f] == s.owner[f]
    requires HasFd(pc, fd) <==> s'.owner[fd] == ByThread(t)
    requires s'.owner[fd].ByThread? ==> s'.owner[fd].t == t
    requires forall id :: id in s'.table && s'.table[id].fd != fd ==> id in s.table && s.table[id].fd == s'.table[id].fd
    requires forall id :: id in s.table && s.table[id].fd != fd ==> id in s'.table && s.table[id].fd == s'.table[id].fd
    requires forall id :: (id in s'.table && s'.table[id].fd == fd) <==> s'.owner[fd] == ByInode(id)
    requires fd in s.owner && s.owner[fd].ByThread? ==> s.owner[fd].t == t
    ensures FdsOk(s')
  {
  }

  lemma NoHandOn(s: State, s': State, t: nat, pc: Pc)
    requires FdsOk(s) && t < |s.threads| && s'.threads == s.threads[t := pc] && s'.owner == s.owner
    requires forall f :: HasFd(s.threads[t], f) <==> HasFd(pc, f)
    requires s'.table.Keys == s.table.Keys && forall id :: id in s.table ==> s'.table[id].fd == s.table[id].fd
    ensures FdsOk(s')
  {
  }

  lemma IdleKeepsFds(s: State, s': State, t: nat)
    requires FdsOk(s) && t < |s.threads| && s.threads[t] == Idle && IdleStep(s, s', t)
    ensures FdsOk(s')
  {
    hide FdsOk, Known;
    NoHandOn(s, s', t, s'.threads[t]);
  }

  lemma LookingKeepsFds(s: State, s': State, t: nat)
    requires FdsOk(s) && t < |s.threads| && s.threads[t].Looking? && LookingStep(s, s', t)
    ensures FdsOk(s')
  {
    if fd, key :| Open(s, s', t, fd, key) {
      HandOn(s, s', t, Opened(fd, key), fd);
    } else {
      NoHandOn(s, s', t, s'.threads[t]);
    }
  }

  lemma OpenedKeepsFds(s: State, s': State, t: nat, fd: Fd, key: Key)
    requires FdsOk(s) && ListOk(s) && t < |s.threads| && s.threads[t] == Opened(fd, key)
    requires OpenedStep(s, s', t, fd, key)
    ensures FdsOk(s')
  {
    FindKeyFound(s, s.list, key);
    NoHandOn(s, s', t, s'.threads[t]);
  }

  lemma InsertKeepsFds(s: State, t: nat, fd: Fd, key: Key)
    requires FdsOk(s) && ListOk(s) && t < |s.threads| && s.threads[t] == Missing(fd, key)
    ensures FdsOk(Insert(s, t, fd, key))
  {
    assert HasFd(s.threads[t], fd);
    HandOn(s, Insert(s, t, fd, key), t, Holding(s.ids), fd);
  }

  lemma UnrefKeepsFds(s: State, t: nat, id: Id, n: nat)
    requires FdsOk(s) && t < |s.threads| && s.threads[t] == Forgetting(id, n) && id in s.table
    ensures FdsOk(Unref(s, t, id, n))
  {
    var s' := Unref(s, t, id, n);
    if s'.threads[t] == Idle {
      NoHandOn(s, s', t, Idle);
    } else {
      HandOn(s, s', t, s'.threads[t], s.table[id].fd);
    }
  }

  // close(): the descriptor was open, and owned by the thread that closes it.
  lemma CloseKeepsFds(s: State, t: nat, fd: Fd, pc: Pc)
    requires FdsOk(s) && t < |s.threads| && HasFd(s.threads[t], fd) && (pc == Idle || pc.Holding?)
    ensures fd in s.owner && s.owner[fd] == ByThread(t)
    ensures FdsOk(Go(s, t, pc).(owner := s.owner[fd := Closed]))
  {
    HandOn(s, Go(s, t, pc).(owner := s.owner[fd := Closed]), t, pc, fd);
  }

  lemma RefKeepsFds(s: State, s': State, t: nat)
    requires FdsOk(s) && Step(s, s', t) && (s.threads[t].Holding? || s.threads[t].Linking?)
    ensures FdsOk(s')
  {
    NoHandOn(s, s', t, s'.threads[t]);
  }

  lemma StepKeepsFds(s: State, s': State, t: nat)
    requires FdsOk(s) && ListOk(s) && Step(s, s', t)
    ensures FdsOk(s')
  {
    hide FdsOk, ListOk, IdleStep, LookingStep, OpenedStep, Insert, Unref;
    match s.threads[t]
    case Idle => IdleKeepsFds(s, s', t);
    case Looking(_) => LookingKeepsFds(s, s', t);
    case Opened(fd, key) => OpenedKeepsFds(s, s', t, fd, key);
    case Found(id, fd) => CloseKeepsFds(s, t, fd, Holding(id));
    case Missing(fd, key) => InsertKeepsFds(s, t, fd, key);
    case Forgetting(id, n) => UnrefKeepsFds(s, t, id, n);
    case Freeing(fd) => CloseKeepsFds(s, t, fd, Idle);
    case _ => RefKeepsFds(s, s', t);
  }

  lemma ForgetKeepsLinks(s: State, s': State, t: nat, id: Id, n: nat)
    requires LinksOk(s) && t < |s.threads| && Forget(s, s', t, id, n)
    ensures LinksOk(s')
  {
    forall u, x | 0 <= u < |s'.threads| && Uses(s'.threads[u], x) ensures Kernel(s', x) > 0 {
      assert s'.threads[u] == s.threads[u] && Uses(s.threads[u], x);
      assert x == id ==> n < Kernel(s, id);
      assert Kernel(s', x) == if x == id then Kernel(s, id) - n else Kernel(s, x);
    }
  }

  lemma IdleKeepsLinks(s: State, s': State, t: nat)
    requires LinksOk(s) && t < |s.threads| && IdleStep(s, s', t)
    ensures LinksOk(s')
  {
    hide LinksOk, Forget;
    if id: Id, n: nat :| Forget(s, s', t, id, n) {
      ForgetKeepsLinks(s, s', t, id, n);
    } else {
      MoreLinks(s, s', t, s'.threads[t]);
    }
  }

  lemma MoreLinks(s: State, s': State, t: nat, pc: Pc)
    requires LinksOk(s) && t < |s.threads| && s'.threads == s.threads[t := pc]
    requires forall id :: Uses(pc, id) ==> Kernel(s, id) > 0
    requires forall id :: Kernel(s, id) <= Kernel(s', id)
    ensures LinksOk(s')
  {
  }

  lemma StepKeepsLinks(s: State, s': State, t: nat)
    requires LinksOk(s) && Step(s, s', t)
    ensures LinksOk(s')
  {
    hide Step, IdleStep, LinksOk, Uses, Kernel;
    StepThread(s, s', t);
    if s.threads[t] == Idle {
      IdleSteps(s, s', t);
      IdleKeepsLinks(s, s', t);
    } else {
      KernelGrows(s, s', t);
      MoreLinks(s, s', t, s'.threads[t]);
    }
  }

  lemma IdleSteps(s: State, s': State, t: nat)
    requires t < |s.threads| && s.threads[t] == Idle && Step(s, s', t)
    ensures IdleStep(s, s', t)
  {
  }

  // Only an arriving forget takes from the kernel's entries, and only an arriving
  // request comes to use an inode.
  lemma KernelGrows(s: State, s': State, t: nat)
    requires t < |s.threads| == |s'.threads| && s.threads[t] != Idle && Step(s, s', t)
    ensures forall id :: Kernel(s, id) <= Kernel(s', id) && !Uses(s'.threads[t], id)
  {
    hide IdleStep, FindKey, Unlinked;
  }

  lemma StepKeepsInv(s: State, s': State)
    requires Inv(s) && Next(s, s')
    ensures Inv(s')
  {
    var t :| Step(s, s', t);
    StepKeepsCounts(s, s', t);
    StepKeepsList(s, s', t);
    StepKeepsFds(s, s', t);
    StepKeepsLinks(s, s', t);
  }

  lemma {:induction false} InvAlways(trace: seq<State>, i: nat)
    requires Behaviour(trace) && i < |trace|
    ensures Inv(trace[i])
  {
    if i == 0 {
      InitInv(trace[0]);
    } else {
      InvAlways(trace, i - 1);
      assert Next(trace[i - 1], trace[i - 1 + 1]);
      StepKeepsInv(trace[i - 1], trace[i]);
    }
  }

  // ---- what holds in every run ----

  // The count of an inode is the entries the kernel holds, plus those on their way to
  // it, plus those on their way back; with no request under way, the kernel's alone.
  lemma RefcountIsLookupCount(trace: seq<State>, i: nat, id: Id)
    requires Behaviour(trace) && i < |trace|
    ensures var s := trace[i];
            Ref(s, id) == Kernel(s, id) + Shares(s.threads, id)
    ensures var s := trace[i];
            (forall t :: 0 <= t < |s.threads| ==> s.threads[t] == Idle) ==> Ref(s, id) == Kernel(s, id)
  {
    InvAlways(trace, i);
    var s := trace[i];
    if forall t :: 0 <= t < |s.threads| ==> s.threads[t] == Idle {
      SharesNone(s.threads, id);
    }
  }

  // An inode is on the list, once, exactly while its count is positive.
  lemma ListedWhileReferenced(trace: seq<State>, i: nat, id: Id)
    requires Behaviour(trace) && i < |trace|
    ensures id in trace[i].list <==> Ref(trace[i], id) > 0
    ensures NoDuplicates(trace[i].list)
  {
    InvAlways(trace, i);
  }

  lemma InUse(s: State, t: nat, id: Id)
    requires Inv(s) && t < |s.threads| && Uses(s.threads[t], id)
    ensures id in s.table
  {
    assert Ref(s, id) == Kernel(s, id) + Shares(s.threads, id);
  }

  // No request touches an inode that has been freed, be it the one it is about or the
  // directory whose descriptor it passes to openat or linkat; and the assertion in
  // unref_inode holds: what is given back had been taken.
  lemma NoUseAfterFree(trace: seq<State>, i: nat, t: nat)
    requires Behaviour(trace) && i < |trace| && t < |trace[i].threads|
    ensures var s := trace[i];
            match s.threads[t]
            case Looking(Dir(id)) => id in s.table
            case Found(id, _) => id in s.table
            case Holding(id) => id in s.table
            case Linking(id, parent) => id in s.table && (parent.Dir? ==> parent.id in s.table)
            case Forgetting(id, n) => n > 0 ==> id in s.table && s.table[id].refcount >= n
            case _ => true
  {
    InvAlways(trace, i);
    var s := trace[i];
    match s.threads[t]
    case Found(id, _) => SharesUpdate(s.threads, t, Idle, id);
    case Holding(id) => SharesUpdate(s.threads, t, Idle, id);
    case Forgetting(id, n) =>
      SharesUpdate(s.threads, t, Idle, id);
      assert Ref(s, id) == Kernel(s, id) + Shares(s.threads, id);
    case Looking(Dir(id)) => InUse(s, t, id);
    case Linking(id, parent) =>
      InUse(s, t, id);
      if parent.Dir? {
        InUse(s, t, parent.id);
      }
    case _ =>
  }

  // Descriptors: each inode on the list has its own, and it is open.
  lemma OwnDescriptors(trace: seq<State>, i: nat, x: Id, y: Id)
    requires Behaviour(trace) && i < |trace| && x in trace[i].table && y in trace[i].table
    ensures var s := trace[i];
            s.table[x].fd in s.owner && s.owner[s.table[x].fd] == ByInode(x)
    ensures trace[i].table[x].fd == trace[i].table[y].fd ==> x == y
  {
    InvAlways(trace, i);
  }

  // A thread that is about to close a descriptor is its only owner, so that none is
  // closed twice or while an inode has it.
  lemma ClosedOnce(trace: seq<State>, i: nat, t: nat, fd: Fd)
    requires Behaviour(trace) && i < |trace| && t < |trace[i].threads|
    requires HasFd(trace[i].threads[t], fd)
    ensures var s := trace[i]; fd in s.owner && s.owner[fd] == ByThread(t)
    ensures forall u :: 0 <= u < |trace[i].threads| && HasFd(trace[i].threads[u], fd) ==> u == t
    ensures forall id :: id in trace[i].table ==> trace[i].table[id].fd != fd
  {
    InvAlways(trace, i);
  }

  // None is lost: one that was opened is closed, or a listed inode or a thread has it.
  lemma NoDescriptorLeaks(trace: seq<State>, i: nat, fd: Fd)
    requires Behaviour(trace) && i < |trace| && fd in trace[i].owner && trace[i].owner[fd] != Closed
    ensures var s := trace[i];
            || (exists id :: id in s.list && id in s.table && s.table[id].fd == fd)
            || (exists t :: 0 <= t < |s.threads| && HasFd(s.threads[t], fd))
  {
    InvAlways(trace, i);
    var s := trace[i];
    match s.owner[fd]
    case ByInode(id) => assert id in s.list;
    case ByThread(t) => assert HasFd(s.threads[t], fd);
  }

  // ---- one inode for each file? ----

  predicate UniqueKeys(s: State) {
    forall x, y :: x in s.table && y in s.table && s.table[x].key == s.table[y].key ==> x == y
  }

  ghost predicate Listed(s: State, key: Key) {
    exists id :: id in s.table && s.table[id].key == key
  }

  // The guard that lo_do_lookup lacks: an inode is put in although one with its key has
  // been listed since this thread searched.
  ghost predicate LateInsert(s: State, s': State, t: nat) {
    && t < |s.threads| && s.threads[t].Missing?
    && Listed(s, s.threads[t].key)
    && s' == Insert(s, t, s.threads[t].fd, s.threads[t].key)
  }

  ghost predicate Races(s: State, s': State) {
    exists t: nat :: LateInsert(s, s', t)
  }

  // A step changes its thread's place only; all but an insertion leave the ids, and add
  // no inode and change no key.
  predicate Plain(s: State, s': State, t: nat)
    requires t < |s.threads|
  {
    && |s'.threads| == |s.threads| && s'.threads == s.threads[t := s'.threads[t]] && s'.ids == s.ids
    && forall id :: id in s'.table ==> id in s.table && s'.table[id].key == s.table[id].key
  }

  lemma IdleIsPlain(s: State, s': State, t: nat)
    requires t < |s.threads| && (IdleStep(s, s', t) || LookingStep(s, s', t))
    ensures Plain(s, s', t) && !s'.threads[t].Missing?
  {
    assert |s'.threads| == |s.threads| && s'.table == s.table && s'.ids == s.ids;
  }

  lemma OpenedIsPlain(s: State, s': State, t: nat, fd: Fd, key: Key)
    requires t < |s.threads| && s.threads[t] == Opened(fd, key) && OpenedStep(s, s', t, fd, key)
    ensures Plain(s, s', t)
    ensures ListOk(s) && s'.threads[t].Missing? ==> s'.threads[t].key == key && !Listed(s, key) && !Listed(s', key)
  {
    hide FindKey, NoDuplicates;
    FindKeyFound(s, s.list, key);
  }

  lemma StepIsPlain(s: State, s': State, t: nat)
    requires t < |s.threads| && Step(s, s', t) && !s.threads[t].Missing?
    ensures Plain(s, s', t)
    ensures ListOk(s) && s'.threads[t].Missing? ==> !Listed(s', s'.threads[t].key)
  {
    hide IdleStep, LookingStep, OpenedStep, ListOk, Listed, Unlinked;
    match s.threads[t]
    case Idle => IdleIsPlain(s, s', t);
    case Looking(_) => IdleIsPlain(s, s', t);
    case Opened(fd, key) => OpenedIsPlain(s, s', t, fd, key);
    case _ =>
  }

  // The insertion itself: the key it adds is new, and it is one thread's.
  lemma InsertUnique(s: State, t: nat, fd: Fd, key: Key)
    requires ListOk(s) && UniqueKeys(s) && t < |s.threads|
    ensures var s' := Insert(s, t, fd, key);
            && (UniqueKeys(s') <==> !Listed(s, key))
            && (forall u: nat :: LateInsert(s, s', u) ==> s.threads[u].key == key)
  {
    var s' := Insert(s, t, fd, key);
    if Listed(s, key) {
      var id :| id in s.table && s.table[id].key == key;
      assert id != s.ids && id in s'.table && s'.table[id].key == s'.table[s.ids].key;
    }
    forall u: nat | LateInsert(s, s', u) ensures s.threads[u].key == key {
      assert s'.table[s.ids].key == key;
    }
  }

  // A single step keeps the keys unique exactly if it is not a race.
  lemma StepUnique(s: State, s': State)
    requires ListOk(s) && UniqueKeys(s) && Next(s, s')
    ensures UniqueKeys(s') <==> !Races(s, s')
  {
    hide UniqueKeys, ListOk, Step, Listed, Insert, LateInsert;
    var t := NextIsStep(s, s');
    if s.threads[t].Missing? {
      var fd, key := s.threads[t].fd, s.threads[t].key;
      MissingStep(s, s', t);
      InsertUnique(s, t, fd, key);
    } else {
      StepIsPlain(s, s', t);
      FewerKeys(s, s');
      NoInsert(s, s');
    }
  }

  lemma MissingStep(s: State, s': State, t: nat)
    requires Step(s, s', t) && t < |s.threads| && s.threads[t].Missing?
    ensures s' == Insert(s, t, s.threads[t].fd, s.threads[t].key)
    ensures LateInsert(s, s', t) <==> Listed(s, s.threads[t].key)
    ensures forall u: nat :: LateInsert(s, s', u) ==> u < |s.threads| && Listed(s, s.threads[u].key)
  {
  }

  lemma NoInsert(s: State, s': State)
    requires s'.ids == s.ids
    ensures forall u: nat :: !LateInsert(s, s', u)
  {
  }

  lemma StepThread(s: State, s': State, t: nat)
    requires Step(s, s', t)
    ensures t < |s.threads| == |s'.threads| && s'.threads == s.threads[t := s'.threads[t]]
  {
    hide IdleStep, LookingStep, OpenedStep, HoldingStep, LinkingStep, Unref, Insert;
    StepBound(s, s', t);
    if s.threads[t].Missing? {
      MissingStep(s, s', t);
      InsertThread(s, t, s.threads[t].fd, s.threads[t].key);
    } else {
      StepIsPlain(s, s', t);
    }
  }

  lemma StepBound(s: State, s': State, t: nat)
    requires Step(s, s', t)
    ensures t < |s.threads|
  {
    hide IdleStep, LookingStep, OpenedStep, HoldingStep, LinkingStep, Unref, Insert;
  }

  lemma InsertThread(s: State, t: nat, fd: Fd, key: Key)
    requires t < |s.threads|
    ensures var s' := Insert(s, t, fd, key);
            |s'.threads| == |s.threads| && s'.threads == s.threads[t := s'.threads[t]]
  {
  }

  lemma NextIsStep(s: State, s': State) returns (u: nat)
    requires Next(s, s')
    ensures u < |s.threads| == |s'.threads| && Step(s, s', u)
    ensures s'.threads == s.threads[u := s'.threads[u]]
  {
    hide Step, Plain;
    u :| Step(s, s', u);
    StepThread(s, s', u);
  }

  lemma FewerKeys(s: State, s': State)
    requires UniqueKeys(s)
    requires forall id :: id in s'.table ==> id in s.table && s'.table[id].key == s.table[id].key
    ensures UniqueKeys(s')
  {
  }

  // One inode for each file, exactly: in every run, the listed inodes have had distinct
  // keys all the time if and only if no insertion came too late.
  lemma {:induction false} UniqueUnlessRace(trace: seq<State>, n: nat)
    requires Behaviour(trace) && n < |trace|
    ensures (forall i :: 0 <= i <= n ==> UniqueKeys(trace[i]))
       <==> (forall i :: 0 <= i < n ==> !Races(trace[i], trace[i + 1]))
  {
    hide UniqueKeys, Races, Inv, Next;
    if n == 0 {
      NoKeys(trace[0]);
    } else {
      UniqueUnlessRace(trace, n - 1);
      InvAlways(trace, n - 1);
      InvIsListOk(trace[n - 1]);
      var s, s' := trace[n - 1], trace[n - 1 + 1];
      assert Next(s, s');
      if UniqueKeys(s) {
        StepUnique(s, s');
      }
    }
  }

  lemma NoKeys(s: State)
    requires Init(s)
    ensures UniqueKeys(s)
  {
  }

  lemma InvIsListOk(s: State)
    requires Inv(s)
    ensures ListOk(s)
  {
  }

  // ---- where a race comes from ----

  // Another thread puts the key in while this one stands between search and insertion.
  predicate Overtakes(s: State, s': State, t: nat, u: nat, key: Key) {
    && t < |s.threads| && u < |s.threads| && u != t
    && s.threads[t].Missing? && s.threads[t].key == key
    && s.threads[u].Missing? && s.threads[u].key == key
    && s' == Insert(s, u, s.threads[u].fd, key)
  }

  // A thread whose search has failed finds its key listed only if it was overtaken.
  lemma {:induction false} ListedMeansOvertaken(trace: seq<State>, i: nat, t: nat) returns (m: nat, u: nat)
    requires Behaviour(trace) && i < |trace| && t < |trace[i].threads| && trace[i].threads[t].Missing?
    requires Listed(trace[i], trace[i].threads[t].key)
    ensures m < i && Overtakes(trace[m], trace[m + 1], t, u, trace[i].threads[t].key)
  {
    hide Inv, Next, Listed, Step;
    NotAtFirst(trace, i, t);
    InvAlways(trace, i - 1);
    InvIsListOk(trace[i - 1]);
    var s, s' := trace[i - 1], trace[i - 1 + 1];
    var key := s'.threads[t].key;
    u := NextIsStep(s, s');
    if u == t {
      SearchFailed(s, s', t);
    } else if Listed(s, key) {
      m, u := ListedMeansOvertaken(trace, i - 1, t);
    } else {
      NewlyListed(s, s', u, key);
      m := i - 1;
    }
  }

  lemma NotAtFirst(trace: seq<State>, i: nat, t: nat)
    requires Behaviour(trace) && i < |trace| && t < |trace[i].threads| && trace[i].threads[t].Missing?
    ensures i > 0
  {
  }

  // A thread arrives at Missing by a search that found nothing.
  lemma SearchFailed(s: State, s': State, t: nat)
    requires ListOk(s) && t < |s.threads| == |s'.threads| && Step(s, s', t) && s'.threads[t].Missing?
    ensures !Listed(s', s'.threads[t].key)
  {
    hide Step, ListOk, Listed, Insert;
    if s.threads[t].Missing? {
      MissingStep(s, s', t);
      InsertHolds(s, t, s.threads[t].fd, s.threads[t].key);
    } else {
      StepIsPlain(s, s', t);
    }
  }

  lemma InsertHolds(s: State, t: nat, fd: Fd, key: Key)
    requires t < |s.threads|
    ensures var s' := Insert(s, t, fd, key); t < |s'.threads| && s'.threads[t].Holding?
  {
  }

  lemma NewlyListed(s: State, s': State, u: nat, key: Key)
    requires ListOk(s) && u < |s.threads| && Step(s, s', u) && !Listed(s, key) && Listed(s', key)
    ensures s.threads[u].Missing? && s.threads[u].key == key && s' == Insert(s, u, s.threads[u].fd, key)
  {
    hide Unlinked, NoDuplicates, Step;
    if s.threads[u].Missing? {
      MissingStep(s, s', u);
    } else {
      StepIsPlain(s, s', u);
    }
  }

  // Requests handled one at a time.
  ghost predicate Serial(trace: seq<State>) {
    forall i, t, u :: 0 <= i < |trace| && 0 <= t < u < |trace[i].threads| ==>
      trace[i].threads[t] == Idle || trace[i].threads[u] == Idle
  }

  lemma RaceIsNotSerial(trace: seq<State>, i: nat)
    requires Behaviour(trace) && i < |trace| - 1 && Races(trace[i], trace[i + 1])
    ensures !Serial(trace)
  {
    hide Behaviour, Insert;
    var t: nat :| LateInsert(trace[i], trace[i + 1], t);
    var m, u := ListedMeansOvertaken(trace, i, t);
    var first, second := if t < u then t else u, if t < u then u else t;
    assert trace[m].threads[first] != Idle && trace[m].threads[second] != Idle;
  }

  // So with requests one at a time no two listed inodes stand for the same file.
  lemma SerialUnique(trace: seq<State>, n: nat)
    requires Behaviour(trace) && Serial(trace) && n < |trace|
    ensures UniqueKeys(trace[n])
  {
    hide Behaviour, UniqueKeys, Insert, Races, Serial;
    UniqueUnlessRace(trace, n);
    forall i | 0 <= i < n ensures !Races(trace[i], trace[i + 1]) {
      if Races(trace[i], trace[i + 1]) {
        RaceIsNotSerial(trace, i);
      }
    }
  }

  lemma Extend(trace: seq<State>, s': State, t: nat) returns (longer: seq<State>)
    requires Behaviour(trace) && Step(trace[|trace| - 1], s', t)
    ensures longer == trace + [s'] && Behaviour(longer)
  {
    hide Step, Init;
    longer := trace + [s'];
    assert Next(trace[|trace| - 1], s');
    forall i | 0 <= i < |longer| - 1 ensures Next(longer[i], longer[i + 1]) {
      if i < |trace| - 1 {
        assert longer[i] == trace[i] && longer[i + 1] == trace[i + 1];
      }
    }
  }

  // Two lookups of one file have searched, and neither has inserted.
  lemma BothSearched(k: Key) returns (trace: seq<State>)
    ensures trace != [] && Behaviour(trace)
    ensures trace[|trace| - 1] == State(map[], [], map[], [Missing(3, k), Missing(4, k)],
                                        map[3 := ByThread(0), 4 := ByThread(1)], 0)
  {
    hide Behaviour;
    var s0 := State(map[], [], map[], [Idle, Idle], map[], 0);
    var s1 := Go(s0, 0, Looking(Root));
    var s2 := Go(s1, 1, Looking(Root));
    var s3 := Go(s2, 0, Opened(3, k)).(owner := s2.owner[3 := ByThread(0)]);
    var s4 := Go(s3, 1, Opened(4, k)).(owner := s3.owner[4 := ByThread(1)]);
    var s5 := Go(s4, 0, Missing(3, k));
    Begin(s0);
    assert Known(s0, Root) && Known(s1, Root) && Open(s2, s3, 0, 3, k) && Open(s3, s4, 1, 4, k);
    trace := Extend([s0], s1, 0);
    trace := Extend(trace, s2, 1);
    trace := Extend(trace, s3, 0);
    trace := Extend(trace, s4, 1);
    trace := Extend(trace, s5, 0);
    trace := Extend(trace, Go(s5, 1, Missing(4, k)), 1);
  }

  // Then both insert: a race, after which the file has two inodes.
  lemma TwoInodesOneFile() returns (trace: seq<State>)
    ensures Behaviour(trace) && !UniqueKeys(trace[|trace| - 1])
  {
    hide Behaviour;
    var k := Key(7, 1);
    trace := BothSearched(k);
    var s := Insert(trace[|trace| - 1], 0, 3, k);
    var s' := Insert(s, 1, 4, k);
    trace := Extend(trace, s, 0);
    trace := Extend(trace, s', 1);
    assert 0 in s'.table && 1 in s'.table && s'.table[0].key == s'.table[1].key;
  }

  lemma Begin(s: State)
    requires Init(s)
    ensures Behaviour([s])
  {
  }
}
