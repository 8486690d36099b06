// dt_uhttpd_select.c: clients are queued under a lock; a worker thread is created on
// demand, serves the queue, and stops itself once the queue is empty. Every shared
// access is one atomic step, and any thread may take the next one.
module WorkerThread {
  import opened Bytes

  type Client = nat
  type WorkerId = nat // pthread_t; 0 stands for no thread

  // Where a worker stands in dt_uhttpd_main and the functions it calls.
  datatype WorkerPc =
    | TestRun                                       // while (http_run(http)), no lock held
    | WantBuild                                     // dt_build_select_list before its lock
    | Build                                         // ... holding the lock
    | Select(asked: set<Client>)                    // blocked in select()
    | WantHandle(ready: set<Client>)                // dt_handle_send before its lock
    | Handle(ready: set<Client>, todo: seq<Client>) // ... at the next node of the list
    | WantEmpty                                     // before the lock of the main loop
    | TestEmpty                                     // ... list_empty
    | LeaveEmpty                                    // ... before the unlock
    | Stopped

  // Where a request thread stands in dt_uhttpd_send_content.
  datatype RequestPc =
    | Idle
    | WantAdd(c: Client)    // client allocated, before the lock
    | Append(c: Client)
    | TestRunning           // if (!http_run(..))
    | Join                  // if (tid > 0) pthread_join
    | SetRun
    | Create
    | Leave                 // before the unlock

  datatype Owner = Free | ByWorker(w: WorkerId) | ByRequest(r: nat)

  datatype State = State(
    owner: Owner,
    queue: seq<Client>,
    run: bool,
    tid: nat,
    workers: map<WorkerId, WorkerPc>,
    requests: seq<RequestPc>,
    clients: Client,           // clients allocated so far
    accepted: set<Client>,     // ever appended to the queue
    destroyed: seq<Client>,    // dt_destroy_clent calls, in order
    failed: bool               // the last pthread_create failed
  )

  ghost predicate Init(s: State) {
    && s.owner == Free && s.queue == [] && !s.run && s.tid == 0 && s.workers == map[]
    && (forall r :: 0 <= r < |s.requests| ==> s.requests[r] == Idle)
    && s.clients == 0 && s.accepted == {} && s.destroyed == [] && !s.failed
  }

  function Without(q: seq<Client>, c: Client): seq<Client> {
    if q == [] then [] else if q[0] == c then q[1..] else [q[0]] + Without(q[1..], c)
  }

  // The worker's own moves. `ok` stands for the outcome of a call it makes.
  ghost predicate WorkerStep(s: State, t: State, w: WorkerId) {
    && w in s.workers
    && match s.workers[w]
       case TestRun =>
         t == Move(s, w, if s.run then WantBuild else Stopped)
       case WantBuild =>
         s.owner == Free && t == Move(s, w, Build).(owner := ByWorker(w))
       case Build =>
         t == Move(s, w, Select(set c | c in s.queue)).(owner := Free)
       case Select(asked) =>
         // an error or a timeout goes straight to the test for an empty queue
         || t == Move(s, w, WantEmpty)
         || exists ready: set<Client> :: ready <= asked && t == Move(s, w, WantHandle(ready))
       case WantHandle(ready) =>
         s.owner == Free && t == Move(s, w, Handle(ready, s.queue)).(owner := ByWorker(w))
       case Handle(ready, todo) =>
         if todo == [] then t == Move(s, w, WantEmpty).(owner := Free)
         else
           // dt_sendtoclient answers OK, or the client is unlinked and destroyed
           || t == Move(s, w, Handle(ready, todo[1..]))
           || (todo[0] in ready
               && t == Move(s, w, Handle(ready, todo[1..])).(queue := Without(s.queue, todo[0]),
                                                             destroyed := s.destroyed + [todo[0]]))
       case WantEmpty =>
         s.owner == Free && t == Move(s, w, TestEmpty).(owner := ByWorker(w))
       case TestEmpty =>
         t == Move(s, w, LeaveEmpty).(run := s.run && s.queue != [])
       case LeaveEmpty =>
         t == Move(s, w, TestRun).(owner := Free)
       case Stopped => false
  }

  function Move(s: State, w: WorkerId, pc: WorkerPc): State {
    s.(workers := s.workers[w := pc])
  }

  function Go(s: State, r: nat, pc: RequestPc): State
    requires r < |s.requests|
  {
    s.(requests := s.requests[r := pc])
  }

  predicate Created(s: State, t: State, r: nat, w: WorkerId)
    requires r < |s.requests|
  {
    w > 0 && w !in s.workers && t == Go(s, r, Leave).(tid := w, workers := s.workers[w := TestRun], failed := false)
  }

  ghost predicate RequestStep(s: State, t: State, r: nat) {
    && r < |s.requests|
    && match s.requests[r]
       case Idle => t == Go(s, r, WantAdd(s.clients)).(clients := s.clients + 1)
       case WantAdd(c) => s.owner == Free && t == Go(s, r, Append(c)).(owner := ByRequest(r))
       case Append(c) => t == Go(s, r, TestRunning).(queue := s.queue + [c], accepted := s.accepted + {c})
       case TestRunning =>
         t == Go(s, r, if s.run then Leave else if s.tid > 0 then Join else SetRun)
       case Join =>
         // pthread_join returns once the worker has stopped
         s.tid in s.workers && s.workers[s.tid] == Stopped && t == Go(s, r, SetRun).(tid := 0)
       case SetRun => t == Go(s, r, Create).(run := true)
       case Create =>
         || (exists w: WorkerId :: Created(s, t, r, w))
         || t == Go(s, r, Leave).(run := false, failed := true)
       case Leave => t == Go(s, r, Idle).(owner := Free)
  }

  ghost predicate Next(s: State, t: State) {
    || (exists w :: WorkerStep(s, t, w))
    || (exists r :: RequestStep(s, t, r))
  }

  // A run: any interleaving of the steps of all threads.
  ghost predicate Behaviour(trace: seq<State>) {
    && trace != [] && Init(trace[0])
    && forall i :: 0 <= i < |trace| - 1 ==> Next(trace[i], trace[i + 1])
  }

  // ---- the invariant ----

  predicate WorkerHolds(pc: WorkerPc) {
    pc.Build? || pc.Handle? || pc.TestEmpty? || pc.LeaveEmpty?
  }

  predicate RequestHolds(pc: RequestPc) {
    !pc.Idle? && !pc.WantAdd?
  }

  predicate Live(s: State, w: WorkerId) {
    w in s.workers && s.workers[w] != Stopped
  }

  // The lock is owned by exactly the thread that is inside a locked section.
  ghost predicate LockOk(s: State) {
    && (forall w :: w in s.workers ==> (WorkerHolds(s.workers[w]) <==> s.owner == ByWorker(w)))
    && (forall r :: 0 <= r < |s.requests| ==> (RequestHolds(s.requests[r]) <==> s.owner == ByRequest(r)))
    && (s.owner.ByWorker? ==> s.owner.w in s.workers)
    && (s.owner.ByRequest? ==> s.owner.r < |s.requests|)
  }

  // What the request holding the lock is about to do.
  function Holding(s: State): RequestPc {
    if s.owner.ByRequest? && s.owner.r < |s.requests| then s.requests[s.owner.r] else Idle
  }

  ghost predicate WorkersOk(s: State) {
    && 0 !in s.workers
    && (forall w :: Live(s, w) ==> w == s.tid)
    && (s.tid > 0 ==> s.tid in s.workers)
    && (s.run ==> Holding(s) == Create || Live(s, s.tid))
    && (Holding(s) == Create ==> s.run && s.tid == 0)
    && (Holding(s) == SetRun ==> !s.run && s.tid == 0)
    && (Holding(s) == Join ==> !s.run && s.tid > 0)
    // A worker that has cleared run has only its unlock and its last test left.
    && (!s.run && Live(s, s.tid) ==> s.workers[s.tid] == LeaveEmpty || s.workers[s.tid] == TestRun)
  }

  // Without a worker to come, the queue is empty unless creating one has failed.
  ghost predicate QueueServed(s: State) {
    && (!s.run && !s.owner.ByRequest? && !s.failed ==> s.queue == [])
    && (s.failed && !s.run ==> s.queue != [])
    && (s.failed ==> s.tid == 0)
    && (s.failed && s.run ==> Holding(s) == Create)
    && (!Holding(s).Idle? && !Holding(s).WantAdd? && !Holding(s).Append? ==> s.queue != [])
    && (Holding(s) == Leave ==> s.run || s.failed)
    && (Holding(s).Append? && !s.run && !s.failed ==> s.queue == [])
  }

  predicate Suffix(todo: seq<Client>, q: seq<Client>) {
    |todo| <= |q| && q[|q| - |todo|..] == todo
  }

  function Elems(q: seq<Client>): set<Client> {
    set c | c in q
  }

  predicate Carries(pc: RequestPc) {
    pc.WantAdd? || pc.Append?
  }

  // A client on its way into the queue is new, and no other request has it.
  predicate CarriedOk(requests: seq<RequestPc>, clients: Client, accepted: set<Client>) {
    && (forall r :: 0 <= r < |requests| && Carries(requests[r]) ==>
          requests[r].c < clients && requests[r].c !in accepted)
    && (forall r, r' :: 0 <= r < r' < |requests| && Carries(requests[r]) && Carries(requests[r']) ==>
          requests[r].c != requests[r'].c)
  }

  // Each client is on its way in, queued or destroyed, and only one of these.
  ghost predicate ClientsOk(s: State) {
    && NoDuplicates(s.queue + s.destroyed)
    && s.accepted == Elems(s.queue) + Elems(s.destroyed)
    && (forall c :: c in s.accepted ==> c < s.clients)
    && CarriedOk(s.requests, s.clients, s.accepted)
  }

  // What the worker remembers of the queue is still there.
  ghost predicate NotesOk(s: State) {
    forall w :: w in s.workers ==>
      match s.workers[w]
      case Select(asked) => forall c :: c in asked ==> c in s.queue
      case WantHandle(ready) => forall c :: c in ready ==> c in s.queue
      case Handle(_, todo) => Suffix(todo, s.queue)
      case _ => true
  }

  ghost predicate Inv(s: State) {
    LockOk(s) && WorkersOk(s) && QueueServed(s) && ClientsOk(s) && NotesOk(s)
  }

  lemma {:induction false} WithoutAt(q: seq<Client>, k: nat)
    requires k < |q| && NoDuplicates(q)
    ensures Without(q, q[k]) == q[..k] + q[k + 1..]
  {
    hide NoDuplicates, Without;
    WithoutNext(q, q[k]);
    if k > 0 {
      DistinctTail(q, k);
      WithoutAt(q[1..], k - 1);
      assert q[..k] == [q[0]] + q[1..][..k - 1];
      assert q[k + 1..] == q[1..][k..];
    }
  }

  lemma WithoutSuffix(q: seq<Client>, todo: seq<Client>)
    requires todo != [] && Suffix(todo, q) && NoDuplicates(q)
    ensures Without(q, todo[0]) == q[..|q| - |todo|] + todo[1..]
  {
    hide NoDuplicates, Without;
    var k := |q| - |todo|;
    assert q[k] == q[k..][0] && q[k..][1..] == q[k + 1..];
    WithoutAt(q, k);
  }

  lemma WithoutNext(q: seq<Client>, c: Client)
    requires q != []
    ensures Without(q, c) == if q[0] == c then q[1..] else [q[0]] + Without(q[1..], c)
  {
  }

  lemma DistinctTail(q: seq<Client>, k: nat)
    requires NoDuplicates(q) && 0 < k < |q|
    ensures NoDuplicates(q[1..]) && q[0] != q[k]
  {
  }

  lemma InitInv(s: State)
    requires Init(s)
    ensures Inv(s)
  {
  }

  // How one thread's hold on the lock changes: not at all, taken or released.
  predicate LockMoves(was: Owner, now: Owner, mine: Owner, held: bool, holds: bool) {
    || (now == was && holds == held)
    || (was == Free && now == mine && !held && holds)
    || (now == Free && held && !holds)
  }

  lemma WorkerLockShape(s: State, t: State, w: WorkerId)
    requires WorkerStep(s, t, w)
    ensures w in s.workers && w in t.workers && t.requests == s.requests
    ensures t.workers == s.workers[w := t.workers[w]]
    ensures LockMoves(s.owner, t.owner, ByWorker(w), WorkerHolds(s.workers[w]), WorkerHolds(t.workers[w]))
  {
  }

  lemma WorkerKeepsLock(s: State, t: State, w: WorkerId)
    requires LockOk(s) && WorkerStep(s, t, w)
    ensures LockOk(t)
  {
    hide WorkerStep, WorkerHolds, RequestHolds;
    WorkerLockShape(s, t, w);
  }

  // A request may also have created a worker, which holds nothing.
  lemma RequestLockShape(s: State, t: State, r: nat)
    requires RequestStep(s, t, r)
    ensures r < |s.requests| == |t.requests| && t.requests == s.requests[r := t.requests[r]]
    ensures t.workers == s.workers || exists w: WorkerId :: w !in s.workers && t.workers == s.workers[w := TestRun]
    ensures LockMoves(s.owner, t.owner, ByRequest(r), RequestHolds(s.requests[r]), RequestHolds(t.requests[r]))
  {
    if t.workers != s.workers {
      var w :| Created(s, t, r, w);
      assert w !in s.workers && t.workers == s.workers[w := TestRun];
    }
  }

  lemma RequestKeepsLock(s: State, t: State, r: nat)
    requires LockOk(s) && RequestStep(s, t, r)
    ensures LockOk(t)
  {
    hide RequestStep, RequestHolds;
    RequestLockShape(s, t, r);
  }

  lemma TheWorker(s: State, t: State, w: WorkerId)
    requires WorkersOk(s) && WorkerStep(s, t, w)
    ensures Live(s, w) && w == s.tid && t.tid == s.tid
    ensures forall v :: Live(t, v) ==> v == s.tid
  {
    assert Live(s, w);
    forall v | Live(t, v) ensures v == s.tid {
      assert v == w || Live(s, v);
    }
  }

  lemma WorkerKeepsWorkers(s: State, t: State, w: WorkerId)
    requires LockOk(s) && WorkersOk(s) && WorkerStep(s, t, w)
    ensures WorkersOk(t)
  {
    TheWorker(s, t, w);
  }

  // pthread_create has made a worker, or failed.
  lemma CreateKeepsWorkers(s: State, t: State, r: nat)
    requires LockOk(s) && WorkersOk(s) && r < |s.requests| && s.requests[r] == Create && RequestStep(s, t, r)
    ensures WorkersOk(t)
  {
    assert Holding(s) == Create && Holding(t) == Leave;
    forall v | Live(t, v) ensures v == t.tid {
      assert Live(s, v) || v == t.tid;
    }
  }

  lemma OtherKeepsWorkers(s: State, t: State, r: nat)
    requires LockOk(s) && WorkersOk(s) && r < |s.requests| && s.requests[r] != Create && RequestStep(s, t, r)
    ensures WorkersOk(t)
  {
    hide Created;
    if RequestHolds(s.requests[r]) {
      assert Holding(s) == s.requests[r];
    }
    assert t.workers == s.workers && forall v :: Live(t, v) == Live(s, v);
  }

  lemma RequestKeepsWorkers(s: State, t: State, r: nat)
    requires LockOk(s) && WorkersOk(s) && RequestStep(s, t, r)
    ensures WorkersOk(t)
  {
    hide LockOk, WorkersOk;
    if s.requests[r] == Create {
      CreateKeepsWorkers(s, t, r);
    } else {
      OtherKeepsWorkers(s, t, r);
    }
  }

  lemma WorkerKeepsService(s: State, t: State, w: WorkerId)
    requires LockOk(s) && WorkersOk(s) && QueueServed(s) && NotesOk(s) && WorkerStep(s, t, w)
    ensures QueueServed(t)
  {
    TheWorker(s, t, w);
  }

  lemma RequestKeepsService(s: State, t: State, r: nat)
    requires LockOk(s) && WorkersOk(s) && QueueServed(s) && RequestStep(s, t, r)
    ensures QueueServed(t)
  {
    if RequestHolds(s.requests[r]) {
      assert Holding(s) == s.requests[r];
    }
  }

  lemma MoveToEnd(q: seq<Client>, k: nat, destroyed: seq<Client>)
    requires k < |q| && NoDuplicates(q + destroyed)
    ensures NoDuplicates(q) && NoDuplicates(q[..k] + q[k + 1..] + (destroyed + [q[k]]))
  {
    var all, all' := q + destroyed, q[..k] + q[k + 1..] + (destroyed + [q[k]]);
    forall i, j | 0 <= i < j < |q| ensures q[i] != q[j] {
      assert all[i] == q[i] && all[j] == q[j];
    }
    assert forall i :: 0 <= i < k ==> all'[i] == all[i];
    assert forall i :: k <= i < |all| - 1 ==> all'[i] == all[i + 1];
    assert all'[|all| - 1] == all[k];
  }

  lemma ElemsMove(q: seq<Client>, k: nat, destroyed: seq<Client>)
    requires k < |q|
    ensures Elems(q[..k] + q[k + 1..]) + Elems(destroyed + [q[k]]) == Elems(q) + Elems(destroyed)
  {
    assert q == q[..k] + [q[k]] + q[k + 1..];
  }

  // Unlinking the next node of the walk and destroying its client.
  lemma DestroyOne(q: seq<Client>, todo: seq<Client>, destroyed: seq<Client>)
    requires todo != [] && Suffix(todo, q) && NoDuplicates(q + destroyed)
    ensures NoDuplicates(Without(q, todo[0]) + (destroyed + [todo[0]]))
    ensures Suffix(todo[1..], Without(q, todo[0]))
    ensures Elems(Without(q, todo[0])) + Elems(destroyed + [todo[0]]) == Elems(q) + Elems(destroyed)
  {
    var k := |q| - |todo|;
    assert q[k] == todo[0] && q[k + 1..] == todo[1..];
    MoveToEnd(q, k, destroyed);
    WithoutSuffix(q, todo);
    ElemsMove(q, k, destroyed);
  }

  lemma WorkerKeepsClients(s: State, t: State, w: WorkerId)
    requires ClientsOk(s) && NotesOk(s) && WorkerStep(s, t, w)
    ensures ClientsOk(t)
  {
    if s.workers[w].Handle? && s.workers[w].todo != [] {
      DestroyOne(s.queue, s.workers[w].todo, s.destroyed);
    }
    assert t.accepted == s.accepted && t.requests == s.requests && t.clients == s.clients;
  }

  lemma AppendOne(q: seq<Client>, destroyed: seq<Client>, c: Client)
    requires NoDuplicates(q + destroyed) && c !in q && c !in destroyed
    ensures NoDuplicates(q + [c] + destroyed)
    ensures Elems(q + [c]) == Elems(q) + {c}
  {
    var all, all' := q + destroyed, q + [c] + destroyed;
    assert forall i :: 0 <= i < |q| ==> all'[i] == all[i];
    assert forall i :: |q| < i < |all'| ==> all'[i] == all[i - 1];
    assert c !in all;
  }

  lemma CarryOn(p: seq<RequestPc>, r: nat, pc: RequestPc, m: Client, n: Client, a: set<Client>, b: set<Client>)
    requires r < |p| && CarriedOk(p, m, a) && m <= n && (forall c :: c in a ==> c < m)
    requires Carries(pc) ==> if Carries(p[r]) then pc.c == p[r].c else pc.c == m < n
    requires b == a || (Carries(p[r]) && !Carries(pc) && b == a + {p[r].c})
    requires Carries(pc) ==> b == a
    ensures CarriedOk(p[r := pc], n, b)
  {
  }

  // What a step of a request does to the clients that requests carry.
  lemma CarryShape(s: State, t: State, r: nat)
    requires RequestStep(s, t, r)
    ensures r < |s.requests| == |t.requests| && t.requests == s.requests[r := t.requests[r]]
    ensures s.requests[r] == Idle ==>
      t.requests[r] == WantAdd(s.clients) && t.clients == s.clients + 1 && t.accepted == s.accepted
    ensures s.requests[r].WantAdd? ==>
      t.requests[r] == Append(s.requests[r].c) && t.clients == s.clients && t.accepted == s.accepted
    ensures s.requests[r].Append? ==>
      t.requests[r] == TestRunning && t.clients == s.clients && t.accepted == s.accepted + {s.requests[r].c}
    ensures !Carries(s.requests[r]) && s.requests[r] != Idle ==>
      !Carries(t.requests[r]) && t.clients == s.clients && t.accepted == s.accepted
  {
  }

  lemma RequestKeepsCarried(s: State, t: State, r: nat)
    requires CarriedOk(s.requests, s.clients, s.accepted) && (forall c :: c in s.accepted ==> c < s.clients)
    requires RequestStep(s, t, r)
    ensures CarriedOk(t.requests, t.clients, t.accepted)
  {
    hide CarriedOk, RequestStep;
    CarryShape(s, t, r);
    CarryOn(s.requests, r, t.requests[r], s.clients, t.clients, s.accepted, t.accepted);
  }

  lemma RequestKeepsClients(s: State, t: State, r: nat)
    requires ClientsOk(s) && RequestStep(s, t, r)
    ensures ClientsOk(t)
  {
    RequestKeepsCarried(s, t, r);
    match s.requests[r]
    case Append(c) =>
      assert Carries(s.requests[r]);
      assert c < s.clients && c !in Elems(s.queue) && c !in Elems(s.destroyed);
      hide NoDuplicates, CarriedOk;
      AppendOne(s.queue, s.destroyed, c);
    case _ =>
      hide NoDuplicates, CarriedOk, Elems;
      assert t.queue == s.queue && t.destroyed == s.destroyed && t.accepted == s.accepted && s.clients <= t.clients;
  }

  lemma WorkerKeepsNotes(s: State, t: State, w: WorkerId)
    requires WorkersOk(s) && ClientsOk(s) && NotesOk(s) && WorkerStep(s, t, w)
    ensures NotesOk(t)
  {
    TheWorker(s, t, w);
    forall v | v in t.workers && v != w ensures t.workers[v] == Stopped {
      assert !Live(t, v);
    }
    if s.workers[w].Handle? && s.workers[w].todo != [] {
      var todo := s.workers[w].todo;
      assert s.queue[|s.queue| - |todo[1..]|..] == todo[1..];
      if t.destroyed != s.destroyed {
        DestroyOne(s.queue, todo, s.destroyed);
      }
    }
  }

  lemma RequestKeepsNotes(s: State, t: State, r: nat)
    requires LockOk(s) && NotesOk(s) && RequestStep(s, t, r)
    ensures NotesOk(t)
  {
    forall w | w in t.workers && s.requests[r].Append? ensures !t.workers[w].Handle? {
      assert RequestHolds(s.requests[r]);
    }
  }

  lemma NextKeepsInv(s: State, t: State)
    requires Inv(s) && Next(s, t)
    ensures Inv(t)
  {
    if w :| WorkerStep(s, t, w) {
      WorkerKeepsLock(s, t, w);
      WorkerKeepsWorkers(s, t, w);
      WorkerKeepsService(s, t, w);
      WorkerKeepsClients(s, t, w);
      WorkerKeepsNotes(s, t, w);
    } else {
      var r :| RequestStep(s, t, r);
      RequestKeepsLock(s, t, r);
      RequestKeepsWorkers(s, t, r);
      RequestKeepsService(s, t, r);
      RequestKeepsClients(s, t, r);
      RequestKeepsNotes(s, t, r);
    }
  }

  lemma {:induction false} InvAlways(trace: seq<State>, i: nat)
    requires Behaviour(trace) && i < |trace|
    ensures Inv(trace[i])
  {
    if i == 0 {
      InitInv(trace[0]);
    } else {
      InvAlways(trace, i - 1);
      assert Next(trace[i - 1], trace[i - 1 + 1]);
      NextKeepsInv(trace[i - 1], trace[i]);
    }
  }

  // ---- what holds in every run ----

  lemma AtMostOneWorker(trace: seq<State>, i: nat, v: WorkerId, w: WorkerId)
    requires Behaviour(trace) && i < |trace|
    requires Live(trace[i], v) && Live(trace[i], w)
    ensures v == w == trace[i].tid
  {
    InvAlways(trace, i);
  }

  // No lost client: with the lock free, whoever is queued has run == YES and the one
  // live worker, exactly unless creating that worker failed.
  lemma QueuedMeansServed(trace: seq<State>, i: nat)
    requires Behaviour(trace) && i < |trace|
    requires trace[i].owner == Free && trace[i].queue != []
    ensures trace[i].run && Live(trace[i], trace[i].tid) <==> !trace[i].failed
    ensures trace[i].failed ==> !trace[i].run && forall w :: !Live(trace[i], w)
  {
    InvAlways(trace, i);
    var s := trace[i];
    if s.failed {
      forall w ensures !Live(s, w) {
      }
    }
  }

  // Every client accepted into the queue is there still or has been destroyed once.
  lemma DestroyedOnce(trace: seq<State>, i: nat)
    requires Behaviour(trace) && i < |trace|
    ensures NoDuplicates(trace[i].destroyed)
    ensures forall c :: c in trace[i].accepted <==> (c in trace[i].queue) != (c in trace[i].destroyed)
    ensures forall c :: c in trace[i].queue + trace[i].destroyed ==> c in trace[i].accepted
  {
    InvAlways(trace, i);
    var s := trace[i];
    var all := s.queue + s.destroyed;
    forall a, b | 0 <= a < b < |s.destroyed| ensures s.destroyed[a] != s.destroyed[b] {
      assert all[|s.queue| + a] == s.destroyed[a] && all[|s.queue| + b] == s.destroyed[b];
    }
    forall a, b | 0 <= a < |s.queue| && 0 <= b < |s.destroyed| ensures s.queue[a] != s.destroyed[b] {
      assert all[a] == s.queue[a] && all[|s.queue| + b] == s.destroyed[b];
    }
  }

  // A descriptor set handed to select() never names a client already destroyed.
  lemma SelectsLiveClients(trace: seq<State>, i: nat, w: WorkerId, c: Client)
    requires Behaviour(trace) && i < |trace|
    requires w in trace[i].workers && trace[i].workers[w].Select? && c in trace[i].workers[w].asked
    ensures c in trace[i].queue && c !in trace[i].destroyed
  {
    InvAlways(trace, i);
    DestroyedOnce(trace, i);
  }

  // The join under the lock cannot deadlock: the worker waited for has stopped, or its
  // very next step needs no lock and stops it.
  lemma JoinReturns(trace: seq<State>, i: nat, r: nat)
    requires Behaviour(trace) && i < |trace|
    requires r < |trace[i].requests| && trace[i].requests[r] == Join
    ensures var s := trace[i];
            var t := Move(s, s.tid, Stopped);
            s.tid in s.workers && (s.workers[s.tid] == Stopped || WorkerStep(s, t, s.tid))
    ensures var s := trace[i];
            RequestStep(Move(s, s.tid, Stopped), Go(Move(s, s.tid, Stopped), r, SetRun).(tid := 0), r)
  {
    InvAlways(trace, i);
    var s := trace[i];
    assert Holding(s) == Join;
    if s.workers[s.tid] != Stopped {
      assert Live(s, s.tid);
      assert !WorkerHolds(s.workers[s.tid]);
    }
  }

  // Steps its holder still needs before the lock is free again.
  function StepsToRelease(s: State): nat {
    match s.owner
    case Free => 0
    case ByWorker(w) =>
      if w !in s.workers then 0 else
      (match s.workers[w]
       case Build => 1
       case Handle(_, todo) => |todo| + 1
       case TestEmpty => 2
       case LeaveEmpty => 1
       case _ => 0)
    case ByRequest(r) =>
      if r >= |s.requests| then 0 else
      (match s.requests[r]
       case Append(_) => 7
       case TestRunning => 6
       case Join => if Live(s, s.tid) then 5 else 4
       case SetRun => 3
       case Create => 2
       case Leave => 1
       case _ => 0)
  }

  lemma WorkerTowardsRelease(s: State, t: State, w: WorkerId)
    requires LockOk(s) && WorkersOk(s) && WorkerStep(s, t, w) && s.owner != Free
    ensures StepsToRelease(t) <= StepsToRelease(s)
  {
    TheWorker(s, t, w);
  }

  lemma RequestTowardsRelease(s: State, t: State, r: nat)
    requires LockOk(s) && WorkersOk(s) && RequestStep(s, t, r) && s.owner != Free
    ensures StepsToRelease(t) <= StepsToRelease(s)
  {
    RequestKeepsLock(s, t, r);
  }

  // The steps that release the lock: those of its holder and, while the holder waits in
  // the join, those of the worker it waits for.
  ghost predicate ReleaserStep(s: State, t: State) {
    match s.owner
    case Free => false
    case ByWorker(w) => WorkerStep(s, t, w)
    case ByRequest(r) =>
      RequestStep(s, t, r) || (r < |s.requests| && s.requests[r] == Join && WorkerStep(s, t, s.tid))
  }

  lemma OwnerLowers(s: State, t: State, w: WorkerId)
    requires LockOk(s) && WorkersOk(s) && s.owner == ByWorker(w) && WorkerStep(s, t, w)
    ensures StepsToRelease(t) < StepsToRelease(s)
  {
  }

  lemma HolderLowers(s: State, t: State, r: nat)
    requires LockOk(s) && WorkersOk(s) && s.owner == ByRequest(r) && RequestStep(s, t, r)
    ensures StepsToRelease(t) < StepsToRelease(s)
  {
    HolderStep(s, t, r);
  }

  lemma HolderStep(s: State, t: State, r: nat)
    requires LockOk(s) && s.owner == ByRequest(r) && RequestStep(s, t, r)
    ensures r < |s.requests| && RequestHolds(s.requests[r]) && Holding(s) == s.requests[r]
    ensures t.owner == Free || (t.owner == s.owner && r < |t.requests|)
  {
  }

  lemma JoinedLowers(s: State, t: State, r: nat)
    requires LockOk(s) && WorkersOk(s) && s.owner == ByRequest(r) && s.requests[r] == Join && WorkerStep(s, t, s.tid)
    ensures StepsToRelease(t) < StepsToRelease(s)
  {
    assert Holding(s) == Join;
    assert !WorkerHolds(s.workers[s.tid]);
  }

  // There is always such a step.
  lemma ReleaseStep(s: State) returns (t: State)
    requires Inv(s) && s.owner != Free
    ensures ReleaserStep(s, t)
  {
    t := s;
    match s.owner
    case ByWorker(w) =>
      match s.workers[w] {
        case Build => t := Move(s, w, Select(set c | c in s.queue)).(owner := Free);
        case Handle(ready, todo) =>
          t := if todo == [] then Move(s, w, WantEmpty).(owner := Free) else Move(s, w, Handle(ready, todo[1..]));
        case TestEmpty => t := Move(s, w, LeaveEmpty).(run := s.run && s.queue != []);
        case _ => t := Move(s, w, TestRun).(owner := Free);
      }
    case ByRequest(r) =>
      assert Holding(s) == s.requests[r];
      if s.requests[r] == Join && Live(s, s.tid) {
        t := Move(s, s.tid, Stopped);
        assert !WorkerHolds(s.workers[s.tid]);
      } else {
        match s.requests[r] {
          case Append(c) => t := Go(s, r, TestRunning).(queue := s.queue + [c], accepted := s.accepted + {c});
          case TestRunning => t := Go(s, r, if s.run then Leave else if s.tid > 0 then Join else SetRun);
          case Join => t := Go(s, r, SetRun).(tid := 0);
          case SetRun => t := Go(s, r, Create).(run := true);
          case Create => t := Go(s, r, Leave).(run := false, failed := true);
          case Leave => t := Go(s, r, Idle).(owner := Free);
          case _ => assert false;
        }
      }
  }

  // The lock is always released: no step of any thread puts its release off, every step
  // of the thread it depends on brings it nearer, and that thread can always take one.
  lemma LockIsReleased(trace: seq<State>, i: nat)
    requires Behaviour(trace) && i < |trace| && trace[i].owner != Free
    ensures forall t :: Next(trace[i], t) ==> StepsToRelease(t) <= StepsToRelease(trace[i])
    ensures forall t :: ReleaserStep(trace[i], t) ==>
              Next(trace[i], t) && StepsToRelease(t) < StepsToRelease(trace[i])
    ensures exists t :: ReleaserStep(trace[i], t)
  {
    hide WorkerStep, RequestStep, LockOk, WorkersOk, StepsToRelease, Behaviour;
    InvAlways(trace, i);
    var s := trace[i];
    forall t | Next(s, t) ensures StepsToRelease(t) <= StepsToRelease(s) {
      if w :| WorkerStep(s, t, w) {
        WorkerTowardsRelease(s, t, w);
      } else {
        var r :| RequestStep(s, t, r);
        RequestTowardsRelease(s, t, r);
      }
    }
    forall t | ReleaserStep(s, t) ensures Next(s, t) && StepsToRelease(t) < StepsToRelease(s) {
      match s.owner
      case ByWorker(w) => OwnerLowers(s, t, w);
      case ByRequest(r) =>
        if RequestStep(s, t, r) {
          HolderLowers(s, t, r);
        } else {
          JoinedLowers(s, t, r);
        }
    }
    var t := ReleaseStep(s);
  }

  // ---- a client without a worker ----

  lemma Begin(s: State)
    requires Init(s)
    ensures Behaviour([s])
  {
  }

  lemma Extend(trace: seq<State>, t: State, r: nat) returns (longer: seq<State>)
    requires Behaviour(trace) && RequestStep(trace[|trace| - 1], t, r)
    ensures longer == trace + [t] && Behaviour(longer)
  {
    hide RequestStep, WorkerStep, Init;
    longer := trace + [t];
    assert Next(trace[|trace| - 1], t);
    forall i | 0 <= i < |longer| - 1 ensures Next(longer[i], longer[i + 1]) {
      if i < |trace| - 1 {
        assert longer[i] == trace[i] && longer[i + 1] == trace[i + 1];
      }
    }
  }

  // One request whose pthread_create fails: its client stays queued with the lock free
  // and nobody to serve it.
  lemma QueuedWithoutWorker() returns (trace: seq<State>)
    ensures trace != [] && Behaviour(trace)
    ensures var s := trace[|trace| - 1];
            s.owner == Free && s.queue != [] && s.failed && forall w :: !Live(s, w)
  {
    hide Behaviour;
    var s0 := State(Free, [], false, 0, map[], [Idle], 0, {}, [], false);
    var s1 := Go(s0, 0, WantAdd(0)).(clients := 1);
    var s2 := Go(s1, 0, Append(0)).(owner := ByRequest(0));
    var s3 := Go(s2, 0, TestRunning).(queue := [0], accepted := {0});
    var s4 := Go(s3, 0, SetRun);
    var s5 := Go(s4, 0, Create).(run := true);
    var s6 := Go(s5, 0, Leave).(run := false, failed := true);
    Begin(s0);
    trace := Extend([s0], s1, 0);
    trace := Extend(trace, s2, 0);
    assert s2.queue + [0] == [0] && s2.accepted + {0} == {0};
    trace := Extend(trace, s3, 0);
    trace := Extend(trace, s4, 0);
    trace := Extend(trace, s5, 0);
    trace := Extend(trace, s6, 0);
    trace := Extend(trace, Go(s6, 0, Idle).(owner := Free), 0);
  }
}
