// What the worker of dt_uhttpd_select.c does for the clients in the queue, in every run:
// which of them it waits for, which it visits and destroys, and in what order.
module WorkerService {
  import opened Bytes
  import opened WorkerThread

  // A step moves one worker at most, and only that worker's own step does.
  lemma OwnMove(s: State, t: State, w: WorkerId)
    requires Next(s, t) && w in s.workers
    ensures w in t.workers && (t.workers[w] == s.workers[w] || WorkerStep(s, t, w))
  {
    hide WorkerStep, RequestStep;
    if v :| WorkerStep(s, t, v) {
      WorkerLockShape(s, t, v);
    } else {
      var r :| RequestStep(s, t, r);
      RequestLockShape(s, t, r);
    }
  }

  // ---- how the queue changes ----

  predicate Added(s: State, t: State, c: Client) {
    && c !in s.accepted && t.queue == s.queue + [c]
    && t.accepted == s.accepted + {c} && t.destroyed == s.destroyed
  }

  predicate Removed(s: State, t: State, w: WorkerId, k: nat) {
    && k < |s.queue| && t.queue == s.queue[..k] + s.queue[k + 1..]
    && t.accepted == s.accepted && t.destroyed == s.destroyed + [s.queue[k]]
    && w in s.workers && s.workers[w].Handle? && s.queue[k] in s.workers[w].ready
    && s.workers[w].todo != [] && s.workers[w].todo[0] == s.queue[k]
  }

  predicate Same(s: State, t: State) {
    t.queue == s.queue && t.accepted == s.accepted && t.destroyed == s.destroyed
  }

  lemma WorkerQueue(s: State, t: State, w: WorkerId)
    requires ClientsOk(s) && NotesOk(s) && WorkerStep(s, t, w)
    ensures Same(s, t) || exists k :: Removed(s, t, w, k)
  {
    hide ClientsOk, NotesOk;
    if s.workers[w].Handle? && t.destroyed != s.destroyed {
      var todo := s.workers[w].todo;
      var k := |s.queue| - |todo|;
      WalkIsSuffix(s, w);
      WithoutSuffix(s.queue, todo);
      assert s.queue[k..][0] == todo[0] && s.queue[k + 1..] == todo[1..];
      assert Removed(s, t, w, k);
    }
  }

  lemma WalkIsSuffix(s: State, w: WorkerId)
    requires ClientsOk(s) && NotesOk(s) && w in s.workers && s.workers[w].Handle?
    ensures Suffix(s.workers[w].todo, s.queue) && NoDuplicates(s.queue)
  {
    var all := s.queue + s.destroyed;
    assert forall i :: 0 <= i < |s.queue| ==> all[i] == s.queue[i];
  }

  lemma RequestQueue(s: State, t: State, r: nat)
    requires ClientsOk(s) && RequestStep(s, t, r)
    ensures Same(s, t) || exists c :: Added(s, t, c)
  {
    if s.requests[r].Append? {
      assert Carries(s.requests[r]);
      assert Added(s, t, s.requests[r].c);
    }
  }

  lemma QueueStep(s: State, t: State)
    requires Inv(s) && Next(s, t)
    ensures Same(s, t) || (exists c :: Added(s, t, c)) || exists w, k :: Removed(s, t, w, k)
  {
    hide WorkerStep, RequestStep, ClientsOk, NotesOk, Same, Added, Removed;
    InvParts(s);
    if w :| WorkerStep(s, t, w) {
      WorkerQueue(s, t, w);
    } else {
      var r :| RequestStep(s, t, r);
      RequestQueue(s, t, r);
    }
  }

  lemma InvParts(s: State)
    requires Inv(s)
    ensures ClientsOk(s) && NotesOk(s)
  {
  }

  lemma InRun(trace: seq<State>, i: nat)
    requires Behaviour(trace) && i + 1 < |trace|
    ensures Inv(trace[i]) && Next(trace[i], trace[i + 1])
  {
    InvAlways(trace, i);
  }

  lemma MembersMove(s: State, t: State, c: Client)
    requires Same(s, t) || (exists d :: Added(s, t, d)) || exists w, k :: Removed(s, t, w, k)
    ensures c in s.accepted ==> c in t.accepted
    ensures c in s.destroyed ==> c in t.destroyed
  {
  }

  lemma {:induction false} OnceAccepted(trace: seq<State>, m: nat, i: nat, c: Client)
    requires Behaviour(trace) && m <= i < |trace|
    ensures c in trace[m].accepted ==> c in trace[i].accepted
    ensures c in trace[m].destroyed ==> c in trace[i].destroyed
    decreases i
  {
    hide Inv, Next, Behaviour, Added, Removed, Same;
    if m < i {
      OnceAccepted(trace, m, i - 1, c);
      var k := i - 1;
      InRun(trace, k);
      QueueStep(trace[k], trace[k + 1]);
      MembersMove(trace[k], trace[k + 1], c);
    }
  }

  // ---- what a worker waits for ----

  // The worker built its list at step m and has been waiting since.
  predicate WaitsSince(trace: seq<State>, m: nat, i: nat, w: WorkerId, asked: set<Client>) {
    && m < i < |trace| && w in trace[m].workers && trace[m].workers[w] == Build
    && forall k :: m < k <= i ==> w in trace[k].workers && trace[k].workers[w] == Select(asked)
  }

  // dt_build_select_list puts every queued client into the list, and no other.
  lemma BuildAsksAll(s: State, t: State, w: WorkerId)
    requires Next(s, t) && w in s.workers && s.workers[w] == Build
    requires w in t.workers && t.workers[w].Select?
    ensures forall c :: c in t.workers[w].asked <==> c in s.queue
  {
    OwnMove(s, t, w);
  }

  lemma {:induction false} SelectingSince(trace: seq<State>, i: nat, w: WorkerId) returns (m: nat)
    requires Behaviour(trace) && i < |trace| && w in trace[i].workers && trace[i].workers[w].Select?
    ensures WaitsSince(trace, m, i, w, trace[i].workers[w].asked)
  {
    hide Next, Init;
    NobodyYet(trace[0], w);
    var k := i - 1;
    assert Next(trace[k], trace[k + 1]);
    SelectBefore(trace[k], trace[i], w);
    if trace[k].workers[w] == Build {
      m := k;
    } else {
      m := SelectingSince(trace, k, w);
    }
  }

  lemma SelectStep(s: State, t: State, w: WorkerId)
    requires WorkerStep(s, t, w) && w in t.workers && t.workers[w].Select?
    ensures w in s.workers && s.workers[w] == Build
  {
  }

  lemma SelectBefore(s: State, t: State, w: WorkerId)
    requires Next(s, t) && w in t.workers && t.workers[w].Select?
    ensures w in s.workers && (s.workers[w] == Build || s.workers[w] == t.workers[w])
  {
    hide WorkerStep, RequestStep;
    if v :| WorkerStep(s, t, v) {
      WorkerLockShape(s, t, v);
      if v == w {
        SelectStep(s, t, w);
      }
    } else {
      var r :| RequestStep(s, t, r);
      RequestLockShape(s, t, r);
    }
  }

  // Of the clients now in the queue a waiting worker has asked for exactly those that had
  // been accepted when it built its list.
  lemma AskedIffAccepted(trace: seq<State>, i: nat, w: WorkerId, c: Client) returns (m: nat)
    requires Behaviour(trace) && i < |trace| && w in trace[i].workers && trace[i].workers[w].Select?
    requires c in trace[i].queue
    ensures WaitsSince(trace, m, i, w, trace[i].workers[w].asked)
    ensures c in trace[i].workers[w].asked <==> c in trace[m].accepted
  {
    hide Inv, Next, Behaviour;
    m := SelectingSince(trace, i, w);
    InRun(trace, m);
    BuildAsksAll(trace[m], trace[m + 1], w);
    DestroyedOnce(trace, m);
    DestroyedOnce(trace, i);
    OnceAccepted(trace, m, i, c);
  }

  // ---- the walk of dt_handle_send ----

  // The worker has been inside its walk since step m.
  predicate Walks(trace: seq<State>, m: nat, i: nat, w: WorkerId) {
    && m < i < |trace| && w in trace[m].workers && trace[m].workers[w].WantHandle?
    && forall k :: m < k <= i ==> w in trace[k].workers && trace[k].workers[w].Handle?
  }

  // At step k the walk stands at this client.
  predicate Visits(trace: seq<State>, k: nat, w: WorkerId, c: Client) {
    && k < |trace| && w in trace[k].workers && trace[k].workers[w].Handle?
    && trace[k].workers[w].todo != [] && trace[k].workers[w].todo[0] == c
  }

  ghost predicate Visited(trace: seq<State>, m: nat, i: nat, w: WorkerId, c: Client) {
    exists k: nat :: m < k < i && Visits(trace, k, w, c)
  }

  lemma WalkBegins(s: State, t: State, w: WorkerId)
    requires Next(s, t) && w in s.workers && s.workers[w].WantHandle?
    requires w in t.workers && t.workers[w].Handle?
    ensures t.workers[w].todo == s.queue && t.workers[w].ready == s.workers[w].ready
  {
    OwnMove(s, t, w);
  }

  lemma WalkGoesOn(s: State, t: State, w: WorkerId)
    requires Next(s, t) && w in s.workers && s.workers[w].Handle?
    requires w in t.workers && t.workers[w].Handle?
    ensures t.workers[w].ready == s.workers[w].ready
    ensures t.workers[w].todo == s.workers[w].todo
         || (s.workers[w].todo != [] && t.workers[w].todo == s.workers[w].todo[1..])
  {
    OwnMove(s, t, w);
  }

  // A walk passes every client that was in the queue when it began, in the order of the
  // queue: what it has not visited yet is what it still has before it.
  lemma {:induction false} WalkVisits(trace: seq<State>, m: nat, i: nat, w: WorkerId)
    requires Behaviour(trace) && Walks(trace, m, i, w)
    ensures Suffix(trace[i].workers[w].todo, trace[m].queue)
    ensures forall p :: 0 <= p < |trace[m].queue| - |trace[i].workers[w].todo| ==>
              Visited(trace, m, i, w, trace[m].queue[p])
    decreases i
  {
    hide Next, Visits;
    var j := i - 1;
    assert Next(trace[j], trace[j + 1]);
    var q := trace[m].queue;
    if j == m {
      WalkBegins(trace[j], trace[i], w);
      assert trace[i].workers[w].todo == q;
    } else {
      WalkVisits(trace, m, j, w);
      WalkGoesOn(trace[j], trace[i], w);
      var before, todo := trace[j].workers[w].todo, trace[i].workers[w].todo;
      var p := |q| - |before|;
      if todo != before {
        assert q[p..] == before && q[p + 1..] == before[1..];
        VisitsHead(trace, j, w);
        assert q[p] == before[0];
      }
      forall r | 0 <= r < |q| - |todo| ensures Visited(trace, m, i, w, q[r]) {
        if r < p {
          assert Visited(trace, m, j, w, q[r]);
        } else {
          assert r == p && Visits(trace, j, w, q[r]);
        }
      }
    }
  }

  lemma VisitsHead(trace: seq<State>, k: nat, w: WorkerId)
    requires k < |trace| && w in trace[k].workers && trace[k].workers[w].Handle? && trace[k].workers[w].todo != []
    ensures Visits(trace, k, w, trace[k].workers[w].todo[0])
  {
  }

  // ---- who is destroyed ----

  // The worker has learned that the client is ready and has not finished with it.
  predicate KnowsReady(pc: WorkerPc, c: Client) {
    || (pc.WantHandle? && c in pc.ready)
    || (pc.Handle? && c in pc.ready)
  }

  lemma ReadyStep(s: State, t: State, w: WorkerId, c: Client)
    requires WorkerStep(s, t, w) && w in t.workers && KnowsReady(t.workers[w], c)
    ensures w in s.workers
    ensures KnowsReady(s.workers[w], c) || (s.workers[w].Select? && c in s.workers[w].asked)
  {
    match s.workers[w]
    case Handle(_, todo) =>
    case _ =>
  }

  lemma ReadyBefore(s: State, t: State, w: WorkerId, c: Client)
    requires Next(s, t) && w in t.workers && KnowsReady(t.workers[w], c)
    ensures w in s.workers
    ensures KnowsReady(s.workers[w], c) || (s.workers[w].Select? && c in s.workers[w].asked)
  {
    hide WorkerStep, RequestStep;
    if v :| WorkerStep(s, t, v) {
      WorkerLockShape(s, t, v);
      if v == w {
        ReadyStep(s, t, w, c);
      }
    } else {
      var r :| RequestStep(s, t, r);
      RequestLockShape(s, t, r);
    }
  }

  lemma {:induction false} ReadySince(trace: seq<State>, i: nat, w: WorkerId, c: Client) returns (m: nat)
    requires Behaviour(trace) && i < |trace| && w in trace[i].workers && KnowsReady(trace[i].workers[w], c)
    ensures m < i && w in trace[m].workers && trace[m].workers[w].Select? && c in trace[m].workers[w].asked
  {
    hide KnowsReady, Next;
    NobodyYet(trace[0], w);
    var k := i - 1;
    assert Next(trace[k], trace[k + 1]);
    ReadyBefore(trace[k], trace[i], w, c);
    if trace[k].workers[w].Select? && c in trace[k].workers[w].asked {
      m := k;
    } else {
      m := ReadySince(trace, k, w, c);
    }
  }

  lemma NobodyYet(s: State, w: WorkerId)
    ensures Init(s) ==> w !in s.workers
  {
  }

  // Only a worker destroys a client, at its place in the walk, after it has waited for it
  // and select has reported it ready; and it is the client it stands at.
  lemma DestroyedWasReady(trace: seq<State>, i: nat) returns (w: WorkerId, m: nat)
    requires Behaviour(trace) && i + 1 < |trace| && trace[i + 1].destroyed != trace[i].destroyed
    ensures m < i && w in trace[m].workers && trace[m].workers[w].Select?
    ensures trace[i].queue != [] && |trace[i + 1].destroyed| == |trace[i].destroyed| + 1
    ensures var c := trace[i + 1].destroyed[|trace[i].destroyed|];
            && trace[i + 1].destroyed == trace[i].destroyed + [c]
            && Visits(trace, i, w, c) && c in trace[i].workers[w].ready
            && c in trace[m].workers[w].asked && c in trace[m].queue
  {
    hide Inv, Next, Behaviour;
    InRun(trace, i);
    QueueStep(trace[i], trace[i + 1]);
    var v, k: nat :| Removed(trace[i], trace[i + 1], v, k);
    w := v;
    var c := trace[i].queue[k];
    m := ReadySince(trace, i, w, c);
    SelectsLiveClients(trace, m, w, c);
  }

  // ---- order ----

  predicate Before(q: seq<Client>, c: Client, d: Client) {
    exists p, r :: 0 <= p < r < |q| && q[p] == c && q[r] == d
  }

  lemma RemoveKeepsOrder(q: seq<Client>, k: nat, c: Client, d: Client)
    requires k < |q| && Before(q, c, d) && c != q[k] && d != q[k]
    ensures Before(q[..k] + q[k + 1..], c, d)
  {
    var p, r :| 0 <= p < r < |q| && q[p] == c && q[r] == d;
    var q' := q[..k] + q[k + 1..];
    assert q'[if p < k then p else p - 1] == c && q'[if r < k then r else r - 1] == d;
  }

  lemma AddKeepsOrder(q: seq<Client>, e: Client, c: Client, d: Client)
    ensures Before(q, c, d) ==> Before(q + [e], c, d)
    ensures c in q ==> Before(q + [e], c, e)
  {
    var q' := q + [e];
    if Before(q, c, d) {
      var p, r :| 0 <= p < r < |q| && q[p] == c && q[r] == d;
      assert q'[p] == c && q'[r] == d;
    }
    if c in q {
      var p :| 0 <= p < |q| && q[p] == c;
      assert q'[p] == c && q'[|q|] == e;
    }
  }

  lemma OrderStep(s: State, t: State, c: Client, d: Client)
    requires NoDuplicates(t.queue + t.destroyed)
    requires Same(s, t) || (exists e :: Added(s, t, e)) || exists w, k :: Removed(s, t, w, k)
    requires c in s.queue && c in t.queue && d in t.queue
    requires d in s.queue ==> Before(s.queue, c, d)
    ensures Before(t.queue, c, d)
  {
    hide Before, NoDuplicates;
    if e :| Added(s, t, e) {
      AddKeepsOrder(s.queue, e, c, d);
    } else if !Same(s, t) {
      var w, k: nat :| Removed(s, t, w, k);
      Apart(t.queue, t.destroyed, s.queue[k], |s.destroyed|);
      RemoveKeepsOrder(s.queue, k, c, d);
    }
  }

  lemma Apart(q: seq<Client>, destroyed: seq<Client>, c: Client, b: nat)
    requires NoDuplicates(q + destroyed) && b < |destroyed| && destroyed[b] == c
    ensures c !in q
  {
    var all := q + destroyed;
    forall a | 0 <= a < |q| ensures q[a] != c {
      assert all[a] == q[a] && all[|q| + b] == destroyed[b];
    }
  }

  // First come, first in line: a client that is queued stays ahead of every client that
  // is behind it or has not been accepted yet, as long as both are queued.
  lemma {:induction false} KeepsItsPlace(trace: seq<State>, i: nat, j: nat, c: Client, d: Client)
    requires Behaviour(trace) && i <= j < |trace| && c != d
    requires c in trace[i].queue && (Before(trace[i].queue, c, d) || d !in trace[i].accepted)
    requires c in trace[j].queue && d in trace[j].queue
    ensures Before(trace[j].queue, c, d)
    decreases j
  {
    hide Inv, Next, Behaviour, Before, Same, Added, Removed, NoDuplicates;
    if i < j {
      var k := j - 1;
      InRun(trace, k);
      QueueStep(trace[k], trace[k + 1]);
      StaysQueued(trace, i, k, j, c);
      if d in trace[k].queue {
        KeepsItsPlace(trace, i, k, c, d);
      }
      AllDistinct(trace, j);
      OrderStep(trace[k], trace[j], c, d);
    } else {
      DestroyedOnce(trace, i);
    }
  }

  lemma StaysQueued(trace: seq<State>, i: nat, k: nat, j: nat, c: Client)
    requires Behaviour(trace) && i <= k <= j < |trace| && c in trace[i].queue && c in trace[j].queue
    ensures c in trace[k].queue
  {
    hide Behaviour, NoDuplicates;
    DestroyedOnce(trace, i);
    OnceAccepted(trace, i, k, c);
    DestroyedOnce(trace, k);
    OnceAccepted(trace, k, j, c);
    DestroyedOnce(trace, j);
  }

  lemma AllDistinct(trace: seq<State>, i: nat)
    requires Behaviour(trace) && i < |trace|
    ensures NoDuplicates(trace[i].queue + trace[i].destroyed)
  {
    InvAlways(trace, i);
  }

  // ---- when a worker stops ----

  // A worker that leaves the main loop's lock section has run cleared if and only if the
  // queue is empty.
  ghost predicate Decided(s: State) {
    forall w :: w in s.workers && s.workers[w] == LeaveEmpty ==> (s.run <==> s.queue != [])
  }

  lemma DecidedStep(s: State, t: State)
    requires Inv(s) && Decided(s) && Next(s, t)
    ensures Decided(t)
  {
    hide Inv, RequestStep, WorkerStep;
    forall w | w in t.workers && t.workers[w] == LeaveEmpty ensures t.run <==> t.queue != [] {
      if v :| WorkerStep(s, t, v) {
        DecidedByWorker(s, t, v, w);
      } else {
        var r :| RequestStep(s, t, r);
        DecidedByRequest(s, t, r, w);
      }
    }
  }

  lemma DecidedByWorker(s: State, t: State, v: WorkerId, w: WorkerId)
    requires Inv(s) && Decided(s) && WorkerStep(s, t, v) && w in t.workers && t.workers[w] == LeaveEmpty
    ensures t.run <==> t.queue != []
  {
    TheWorker(s, t, v);
    assert Live(t, w);
  }

  lemma DecidedByRequest(s: State, t: State, r: nat, w: WorkerId)
    requires Inv(s) && Decided(s) && RequestStep(s, t, r) && w in t.workers && t.workers[w] == LeaveEmpty
    ensures t.run <==> t.queue != []
  {
    assert w in s.workers && s.workers[w] == LeaveEmpty;
    assert !RequestHolds(s.requests[r]);
  }

  lemma {:induction false} StopsWhenEmpty(trace: seq<State>, i: nat)
    requires Behaviour(trace) && i < |trace|
    ensures Decided(trace[i])
  {
    hide Decided, Next, Inv;
    if i == 0 {
      DecidedFirst(trace[0]);
    } else {
      StopsWhenEmpty(trace, i - 1);
      InvAlways(trace, i - 1);
      assert Next(trace[i - 1], trace[i - 1 + 1]);
      DecidedStep(trace[i - 1], trace[i]);
    }
  }

  lemma DecidedFirst(s: State)
    requires Init(s)
    ensures Decided(s)
  {
  }

  // ---- a client from start to end ----

  lemma WorkerExtends(trace: seq<State>, t: State, w: WorkerId) returns (longer: seq<State>)
    requires Behaviour(trace) && WorkerStep(trace[|trace| - 1], t, w)
    ensures longer == trace + [t] && Behaviour(longer)
  {
    hide RequestStep, WorkerStep, Init;
    longer := trace + [t];
    assert Next(trace[|trace| - 1], t);
    forall i | 0 <= i < |longer| - 1 ensures Next(longer[i], longer[i + 1]) {
      if i < |trace| - 1 {
        assert longer[i] == trace[i] && longer[i + 1] == trace[i + 1];
      }
    }
  }

  function Accepted(): State {
    State(ByRequest(0), [0], true, 1, map[1 := TestRun], [Leave], 1, {0}, [], false)
  }

  // A request brings a client and creates a worker.
  lemma WorkerIsCreated() returns (trace: seq<State>)
    ensures trace != [] && Behaviour(trace) && trace[|trace| - 1] == Accepted()
  {
    hide Behaviour;
    var s0 := State(Free, [], false, 0, map[], [Idle], 0, {}, [], false);
    var s1 := Go(s0, 0, WantAdd(0)).(clients := 1);
    var s2 := Go(s1, 0, Append(0)).(owner := ByRequest(0));
    var s3 := Go(s2, 0, TestRunning).(queue := [0], accepted := {0});
    var s4 := Go(s3, 0, SetRun);
    var s5 := Go(s4, 0, Create).(run := true);
    Begin(s0);
    trace := Extend([s0], s1, 0);
    trace := Extend(trace, s2, 0);
    assert s2.queue + [0] == [0] && s2.accepted + {0} == {0};
    trace := Extend(trace, s3, 0);
    trace := Extend(trace, s4, 0);
    trace := Extend(trace, s5, 0);
    assert Created(s5, Accepted(), 0, 1);
    trace := Extend(trace, Accepted(), 0);
  }

  // The list a worker builds, given what is in the queue.
  lemma Listed(s: State, w: WorkerId, all: set<Client>) returns (t: State)
    requires w in s.workers && s.workers[w] == Build && forall c :: c in all <==> c in s.queue
    ensures t == Move(s, w, Select(all)).(owner := Free) && WorkerStep(s, t, w)
  {
    var asked := set c | c in s.queue;
    assert asked == all;
    t := Move(s, w, Select(asked)).(owner := Free);
  }

  // select may report any of the clients it was asked for.
  lemma ReportsAny(s: State, w: WorkerId, asked: set<Client>, ready: set<Client>)
    requires w in s.workers && s.workers[w] == Select(asked) && ready <= asked
    ensures WorkerStep(s, Move(s, w, WantHandle(ready)), w)
  {
  }

  function Reported(): State {
    State(Free, [0], true, 1, map[1 := WantHandle({0})], [Idle], 1, {0}, [], false)
  }

  // The worker puts it into its list, and select reports it ready.
  lemma ClientIsReported() returns (trace: seq<State>)
    ensures trace != [] && Behaviour(trace) && trace[|trace| - 1] == Reported()
  {
    hide Behaviour;
    trace := WorkerIsCreated();
    var s0 := Go(Accepted(), 0, Idle).(owner := Free);
    trace := Extend(trace, s0, 0);
    var s1 := Move(s0, 1, WantBuild);
    trace := WorkerExtends(trace, s1, 1);
    var s2 := Move(s1, 1, Build).(owner := ByWorker(1));
    trace := WorkerExtends(trace, s2, 1);
    var s3 := Listed(s2, 1, {0});
    trace := WorkerExtends(trace, s3, 1);
    ReportsAny(s3, 1, {0}, {0});
    assert Reported() == Move(s3, 1, WantHandle({0}));
    trace := WorkerExtends(trace, Reported(), 1);
  }

  function Destroyed(): State {
    State(Free, [], true, 1, map[1 := WantEmpty], [Idle], 1, {0}, [0], false)
  }

  // It is destroyed,
  lemma ClientIsDestroyed() returns (trace: seq<State>)
    ensures trace != [] && Behaviour(trace) && trace[|trace| - 1] == Destroyed()
  {
    hide Behaviour;
    trace := ClientIsReported();
    var s1 := Move(Reported(), 1, Handle({0}, [0])).(owner := ByWorker(1));
    trace := WorkerExtends(trace, s1, 1);
    var s2 := Move(s1, 1, Handle({0}, [])).(queue := [], destroyed := [0]);
    assert Without(s1.queue, 0) == [] && s1.destroyed + [0] == [0] && [0][1..] == [];
    trace := WorkerExtends(trace, s2, 1);
    trace := WorkerExtends(trace, Destroyed(), 1);
  }

  // and the worker, with nothing left to do, stops.
  lemma ClientIsServed() returns (trace: seq<State>)
    ensures trace != [] && Behaviour(trace)
    ensures trace[|trace| - 1] == State(Free, [], false, 1, map[1 := Stopped], [Idle], 1, {0}, [0], false)
  {
    hide Behaviour;
    trace := ClientIsDestroyed();
    var s4 := Move(Destroyed(), 1, TestEmpty).(owner := ByWorker(1));
    trace := WorkerExtends(trace, s4, 1);
    var s5 := Move(s4, 1, LeaveEmpty).(run := false);
    trace := WorkerExtends(trace, s5, 1);
    var s6 := Move(s5, 1, TestRun).(owner := Free);
    trace := WorkerExtends(trace, s6, 1);
    trace := WorkerExtends(trace, Move(s6, 1, Stopped), 1);
  }
}
