/** The timer queue (kernel/lib/timers.c:25-67, kernel/include/timers.h:56-70). */
module Timers {
  const CLOCK: nat := 0x1_0000_0000_0000_0000

  // The linked timers in list order, the deadline field of every timer, linked or not, and
  // the value last given to timer_backend_set.
  datatype Queue = Queue(timers: seq<nat>, when: map<nat, nat>, backend: nat)

  ghost predicate Distinct(s: seq<nat>) {
    forall i, j :: 0 <= i < j < |s| ==> s[i] != s[j]
  }

  ghost predicate Sorted(s: seq<nat>, when: map<nat, nat>) {
    && (forall i :: 0 <= i < |s| ==> s[i] in when)
    && (forall i, j :: 0 <= i < j < |s| ==> when[s[i]] <= when[s[j]])
  }

  function Earliest(s: seq<nat>, when: map<nat, nat>): nat {
    if s == [] || s[0] !in when then 0 else when[s[0]]
  }

  ghost predicate QueueOk(q: Queue) {
    Distinct(q.timers) && Sorted(q.timers, q.when) && q.backend == Earliest(q.timers, q.when)
  }

  // among timers with equal deadlines the one registered first comes first
  ghost predicate FirstCome(s: seq<nat>, when: map<nat, nat>, turn: map<nat, nat>) {
    && (forall i :: 0 <= i < |s| ==> s[i] in turn)
    && (forall i, j :: 0 <= i < j < |s| && s[i] in when && s[j] in when && when[s[i]] == when[s[j]] ==> turn[s[i]] < turn[s[j]])
  }

  // ---------------- timer_register, timer_unregister ----------------

  // where the loop of timer_register stops, from position k on
  function Place(s: seq<nat>, when: map<nat, nat>, w: nat, k: nat): nat
    requires k <= |s|
    decreases |s| - k
  {
    if k < |s| && !(s[k] in when && w < when[s[k]]) then Place(s, when, w, k + 1) else k
  }

  function Enqueue(s: seq<nat>, k: nat, x: nat): seq<nat>
    requires k <= |s|
  {
    s[..k] + [x] + s[k..]
  }

  function Dequeue(s: seq<nat>, x: nat): seq<nat> {
    if s == [] then [] else if s[0] == x then s[1..] else [s[0]] + Dequeue(s[1..], x)
  }

  function Register(q: Queue, x: nat): Queue
    requires x in q.when
  {
    if x in q.timers then q else
      PlaceIn(q.timers, q.when, q.when[x], 0);
      var s := Enqueue(q.timers, Place(q.timers, q.when, q.when[x], 0), x);
      q.(timers := s, backend := Earliest(s, q.when))
  }

  function Unregister(q: Queue, x: nat): Queue {
    if x !in q.timers then q else
      var s := Dequeue(q.timers, x);
      q.(timers := s, backend := Earliest(s, q.when))
  }

  // timer_register_absolute: the deadline is written whether the timer is linked or not
  function RegisterAbsolute(q: Queue, x: nat, w: nat): Queue {
    Register(q.(when := q.when[x := w]), x)
  }

  lemma {:induction false} PlaceIn(s: seq<nat>, when: map<nat, nat>, w: nat, k: nat)
    requires k <= |s|
    ensures k <= Place(s, when, w, k) <= |s|
    ensures forall i :: k <= i < Place(s, when, w, k) ==> !(s[i] in when && w < when[s[i]])
    ensures Place(s, when, w, k) < |s| ==> s[Place(s, when, w, k)] in when && w < when[s[Place(s, when, w, k)]]
    decreases |s| - k
  {
    if k < |s| && !(s[k] in when && w < when[s[k]]) { PlaceIn(s, when, w, k + 1); }
  }

  lemma {:induction false} DequeueIs(s: seq<nat>, x: nat) returns (k: nat)
    requires x in s
    ensures k < |s| && s[k] == x && Dequeue(s, x) == s[..k] + s[k + 1..]
  {
    if s[0] == x {
      k := 0;
    } else {
      k := DequeueIs(s[1..], x);
      assert s[1..][..k] == s[1..k + 1];
      assert s == [s[0]] + s[1..];
      k := k + 1;
    }
  }

  // A new timer goes behind those due no later, also those due at the same time.
  lemma RegisterOk(q: Queue, turn: map<nat, nat>, x: nat, n: nat)
    requires InOrder(q) && FirstCome(q.timers, q.when, turn) && x in q.when
    requires x !in q.timers && forall t :: t in q.timers ==> t in turn && turn[t] < n
    ensures var q' := Register(q, x);
            && QueueOk(q') && FirstCome(q'.timers, q'.when, turn[x := n])
            && multiset(q'.timers) == multiset(q.timers) + multiset{x} && q'.when == q.when
  {
    var s, w := q.timers, q.when[x];
    PlaceIn(s, q.when, w, 0);
    var k := Place(s, q.when, w, 0);
    assert Slot(s, q.when, k, x);
    hide Slot, Place, Enqueue;
    EnqueueOrder(s, q.when, k, x);
    EnqueueTurns(s, q.when, turn, k, x, n);
    EnqueueCount(s, k, x);
  }

  lemma EnqueueCount(s: seq<nat>, k: nat, x: nat)
    requires k <= |s|
    ensures multiset(Enqueue(s, k, x)) == multiset(s) + multiset{x}
  {
    assert s == s[..k] + s[k..];
  }

  // x may go to position k: nothing in front is due later, what follows is
  ghost predicate Slot(s: seq<nat>, when: map<nat, nat>, k: nat, x: nat) {
    && Distinct(s) && Sorted(s, when) && x !in s && x in when && k <= |s|
    && (forall m :: 0 <= m < k ==> when[s[m]] <= when[x])
    && (k < |s| ==> when[x] < when[s[k]])
  }

  lemma EnqueueOrder(s: seq<nat>, when: map<nat, nat>, k: nat, x: nat)
    requires Slot(s, when, k, x)
    ensures Distinct(Enqueue(s, k, x)) && Sorted(Enqueue(s, k, x), when)
  {
    var s' := Enqueue(s, k, x);
    forall i | 0 <= i < |s'| ensures s'[i] in when {}
    forall i, j | 0 <= i < j < |s'| ensures s'[i] != s'[j] && when[s'[i]] <= when[s'[j]] {
      EnqueuedPair(s, when, k, x, i, j);
    }
  }

  lemma EnqueueTurns(s: seq<nat>, when: map<nat, nat>, turn: map<nat, nat>, k: nat, x: nat, n: nat)
    requires Slot(s, when, k, x) && FirstCome(s, when, turn) && forall t :: t in s ==> t in turn && turn[t] < n
    ensures FirstCome(Enqueue(s, k, x), when, turn[x := n])
  {
    var s' := Enqueue(s, k, x);
    var turn' := turn[x := n];
    forall i | 0 <= i < |s'| ensures s'[i] in turn' { assert s'[i] == (if i < k then s[i] else if i == k then x else s[i - 1]); }
    forall i, j | 0 <= i < j < |s'| && s'[i] in when && s'[j] in when && when[s'[i]] == when[s'[j]] ensures turn'[s'[i]] < turn'[s'[j]] {
      TurnPair(s, when, turn, k, x, n, i, j);
    }
  }

  lemma TurnPair(s: seq<nat>, when: map<nat, nat>, turn: map<nat, nat>, k: nat, x: nat, n: nat, i: nat, j: nat)
    requires Slot(s, when, k, x) && FirstCome(s, when, turn) && (forall t :: t in s ==> t in turn && turn[t] < n) && i < j <= |s|
    requires var s' := Enqueue(s, k, x); s'[i] in when && s'[j] in when && when[s'[i]] == when[s'[j]]
    ensures var s' := Enqueue(s, k, x); s'[i] in turn[x := n] && s'[j] in turn[x := n] && turn[x := n][s'[i]] < turn[x := n][s'[j]]
  {
    EnqueuedPair(s, when, k, x, i, j);
    var s' := Enqueue(s, k, x);
    hide Enqueue, Distinct, Sorted;
    if j == k { assert s[i] in s; }
    if i != k && j != k {
      var i', j' := if i < k then i else i - 1, if j < k then j else j - 1;
      assert s[i'] in s && s[j'] in s;
    }
  }

  lemma EnqueuedPair(s: seq<nat>, when: map<nat, nat>, k: nat, x: nat, i: nat, j: nat)
    requires Slot(s, when, k, x) && i < j <= |s|
    ensures var s' := Enqueue(s, k, x); var i', j' := if i < k then i else i - 1, if j < k then j else j - 1;
            && s'[i] != s'[j] && s'[i] in when && s'[j] in when && when[s'[i]] <= when[s'[j]]
            && (i == k ==> s'[i] == x && when[s'[i]] < when[s'[j]]) && (j == k ==> s'[j] == x && s'[i] == s[i])
            && (i != k && j != k ==> 0 <= i' < j' < |s| && s'[i] == s[i'] && s'[j] == s[j'])
  {}

  lemma UnregisterOk(q: Queue, turn: map<nat, nat>, x: nat)
    requires QueueOk(q) && FirstCome(q.timers, q.when, turn)
    ensures var q' := Unregister(q, x);
            && QueueOk(q') && FirstCome(q'.timers, q'.when, turn) && x !in q'.timers
            && (x in q.timers ==> multiset(q'.timers) == multiset(q.timers) - multiset{x}) && q'.when == q.when
            && forall t :: t in q'.timers ==> t in q.timers
  {
    if x in q.timers {
      var s := q.timers;
      var k := DequeueIs(s, x);
      assert s == s[..k] + [s[k]] + s[k + 1..];
      CutOk(s, q.when, turn, k);
    }
  }

  lemma CutOk(s: seq<nat>, when: map<nat, nat>, turn: map<nat, nat>, k: nat)
    requires Distinct(s) && Sorted(s, when) && FirstCome(s, when, turn) && k < |s|
    ensures var s' := s[..k] + s[k + 1..]; Distinct(s') && Sorted(s', when) && FirstCome(s', when, turn) && s[k] !in s'
  {
    var s' := s[..k] + s[k + 1..];
    CutSorted(s, when, k);
    forall i | 0 <= i < |s'| ensures s'[i] == s[if i < k then i else i + 1] && s'[i] in turn && s'[i] != s[k] {}
    forall i, j | 0 <= i < j < |s'| && when[s'[i]] == when[s'[j]] ensures turn[s'[i]] < turn[s'[j]] {
      var i', j' := if i < k then i else i + 1, if j < k then j else j + 1;
      assert s'[i] == s[i'] && s'[j] == s[j'];
    }
  }

  lemma CutSorted(s: seq<nat>, when: map<nat, nat>, k: nat)
    requires Distinct(s) && Sorted(s, when) && k < |s|
    ensures var s' := s[..k] + s[k + 1..]; Distinct(s') && Sorted(s', when)
  {
    var s' := s[..k] + s[k + 1..];
    forall i | 0 <= i < |s'| ensures s'[i] == s[if i < k then i else i + 1] && s'[i] in when {}
    forall i, j | 0 <= i < j < |s'| ensures s'[i] != s'[j] && when[s'[i]] <= when[s'[j]] {
      var i', j' := if i < k then i else i + 1, if j < k then j else j + 1;
      assert s'[i] == s[i'] && s'[j] == s[j'];
    }
  }

  // Writing the deadline of a linked timer keeps the queue in order and the backend right
  // exactly when the new deadline fits between the neighbours', and is the old one for the
  // first timer.
  lemma RewriteIff(q: Queue, x: nat, w: nat, k: nat)
    requires QueueOk(q) && k < |q.timers| && q.timers[k] == x
    ensures var s := q.timers;
            QueueOk(RegisterAbsolute(q, x, w)) <==>
              (k > 0 ==> q.when[s[k - 1]] <= w) && (k + 1 < |s| ==> w <= q.when[s[k + 1]]) && (k == 0 ==> w == q.when[x])
  {
    var s := q.timers;
    var when' := q.when[x := w];
    assert RegisterAbsolute(q, x, w) == q.(when := when');
    forall i | 0 <= i < |s| && i != k ensures when'[s[i]] == q.when[s[i]] {}
    if (k > 0 ==> q.when[s[k - 1]] <= w) && (k + 1 < |s| ==> w <= q.when[s[k + 1]]) {
      forall i, j | 0 <= i < j < |s| ensures when'[s[i]] <= when'[s[j]] {
        if i == k { assert q.when[s[k + 1]] <= q.when[s[j]]; }
        if j == k { assert q.when[s[i]] <= q.when[s[k - 1]]; }
      }
    }
    if Sorted(s, when') {
      if k > 0 { assert when'[s[k - 1]] <= when'[s[k]]; }
      if k + 1 < |s| { assert when'[s[k]] <= when'[s[k + 1]]; }
    }
  }

  // ---------------- the interrupt loop ----------------

  datatype Request = Request(timer: nat, when: nat)

  // one turn of the loop: the clock as read, and what the handler registers if it is called
  datatype Turn = Turn(now: nat, requests: seq<Request>)

  datatype Fired = Fired(timer: nat, when: nat, now: nat)

  datatype Outcome = Outcome(queue: Queue, fired: seq<Fired>, done: bool)

  function RegisterAll(q: Queue, rs: seq<Request>): Queue
    decreases |rs|
  {
    if rs == [] then q else RegisterAll(RegisterAbsolute(q, rs[0].timer, rs[0].when), rs[1..])
  }

  // timer_interrupt_entry_point, as far as the turns given go
  function Interrupt(q: Queue, turns: seq<Turn>): Outcome
    decreases |turns|
  {
    if q.timers == [] then Outcome(q.(backend := 0), [], true)
    else if turns == [] || q.timers[0] !in q.when then Outcome(q, [], false)
    else if turns[0].now < q.when[q.timers[0]] then Outcome(q.(backend := q.when[q.timers[0]]), [], true)
    else
      var x := q.timers[0];
      var rest := Interrupt(RegisterAll(q.(timers := q.timers[1..]), turns[0].requests), turns[1..]);
      rest.(fired := [Fired(x, q.when[x], turns[0].now)] + rest.fired)
  }

  // the handler registers no timer that is linked
  ghost predicate Fresh(q: Queue, rs: seq<Request>)
    decreases |rs|
  {
    rs == [] || (rs[0].timer !in q.timers && Fresh(RegisterAbsolute(q, rs[0].timer, rs[0].when), rs[1..]))
  }

  ghost predicate AllFresh(q: Queue, turns: seq<Turn>)
    decreases |turns|
  {
    q.timers == [] || turns == [] || q.timers[0] !in q.when || turns[0].now < q.when[q.timers[0]] ||
    (var q' := q.(timers := q.timers[1..]);
     Fresh(q', turns[0].requests) && AllFresh(RegisterAll(q', turns[0].requests), turns[1..]))
  }

  function TimersOf(rs: seq<Request>): multiset<nat> {
    if rs == [] then multiset{} else multiset{rs[0].timer} + TimersOf(rs[1..])
  }

  // what the first n handlers register, and what was fired
  function Added(turns: seq<Turn>, n: nat): multiset<nat>
    requires n <= |turns|
  {
    if n == 0 then multiset{} else TimersOf(turns[0].requests) + Added(turns[1..], n - 1)
  }

  function FiredTimers(fs: seq<Fired>): multiset<nat> {
    if fs == [] then multiset{} else multiset{fs[0].timer} + FiredTimers(fs[1..])
  }

  ghost predicate InOrder(q: Queue) {
    Distinct(q.timers) && Sorted(q.timers, q.when)
  }

  lemma AbsoluteOk(q: Queue, x: nat, w: nat)
    requires InOrder(q) && x !in q.timers
    ensures var q' := RegisterAbsolute(q, x, w); QueueOk(q') && multiset(q'.timers) == multiset(q.timers) + multiset{x}
    ensures var q' := RegisterAbsolute(q, x, w); forall t :: t in q'.timers ==> t == x || (t in q.timers && t in q.when && q'.when[t] == q.when[t])
    ensures RegisterAbsolute(q, x, w).when == q.when[x := w]
  {
    var when' := q.when[x := w];
    DeadlineKept(q, x, w);
    PlaceIn(q.timers, when', w, 0);
    var k := Place(q.timers, when', w, 0);
    assert q.timers == q.timers[..k] + q.timers[k..];
    assert Slot(q.timers, when', k, x);
    EnqueueOrder(q.timers, when', k, x);
    hide Distinct, Sorted;
    assert multiset(Enqueue(q.timers, k, x)) == multiset(q.timers) + multiset{x};
    forall t | t in Enqueue(q.timers, k, x) ensures t == x || t in q.timers { assert t in multiset(Enqueue(q.timers, k, x)); }
  }

  lemma DeadlineKept(q: Queue, x: nat, w: nat)
    requires InOrder(q) && x !in q.timers
    ensures Sorted(q.timers, q.when[x := w])
    ensures forall t :: t in q.timers ==> t in q.when && q.when[x := w][t] == q.when[t]
  {
    forall t | t in q.timers ensures t in q.when {
      var i :| 0 <= i < |q.timers| && q.timers[i] == t;
    }
    forall i | 0 <= i < |q.timers| ensures q.when[x := w][q.timers[i]] == q.when[q.timers[i]] { assert q.timers[i] in q.timers; }
  }

  // no deadline in the queue is before lo
  ghost predicate NoneBefore(q: Queue, lo: nat) {
    forall t :: t in q.timers && t in q.when ==> lo <= q.when[t]
  }

  lemma {:induction false} RegisterAllOk(q: Queue, rs: seq<Request>, lo: nat)
    requires InOrder(q) && Fresh(q, rs)
    ensures var q' := RegisterAll(q, rs); InOrder(q') && multiset(q'.timers) == multiset(q.timers) + TimersOf(rs)
    ensures NoneBefore(q, lo) && (forall r :: r in rs ==> lo <= r.when) ==> NoneBefore(RegisterAll(q, rs), lo)
    decreases |rs|
  {
    hide Distinct, Sorted, RegisterAbsolute;
    if rs != [] {
      AbsoluteOk(q, rs[0].timer, rs[0].when);
      assert forall r :: r in rs[1..] ==> r in rs;
      assert rs[0] in rs;
      RegisterAllOk(RegisterAbsolute(q, rs[0].timer, rs[0].when), rs[1..], lo);
    }
  }

  // When the loop ends, the queue is in order, nothing in it is due, and the backend has the
  // earliest deadline, or 0.
  lemma {:induction false} InterruptEnds(q: Queue, turns: seq<Turn>)
    requires InOrder(q) && AllFresh(q, turns)
    ensures var r := Interrupt(q, turns);
            && InOrder(r.queue) && |r.fired| <= |turns| && (!r.done ==> |r.fired| == |turns|)
            && (r.done ==> QueueOk(r.queue) && (r.queue.timers != [] ==> |r.fired| < |turns| && turns[|r.fired|].now < r.queue.backend))
    decreases |turns|
  {
    SortedFirst(q);
    hide Distinct, Sorted, InOrder, RegisterAll, Fresh, NoneBefore, QueueOk;
    if q.timers == [] || turns == [] || turns[0].now < q.when[q.timers[0]] {
      StopOk(q);
    } else {
      InterruptStep(q, turns);
      hide Interrupt;
      Behead(q);
      RegisterAllOk(q.(timers := q.timers[1..]), turns[0].requests, 0);
      InterruptEnds(RegisterAll(q.(timers := q.timers[1..]), turns[0].requests), turns[1..]);
    }
  }

  // No timer fires before its deadline.
  lemma {:induction false} NeverEarly(q: Queue, turns: seq<Turn>)
    requires InOrder(q) && AllFresh(q, turns)
    ensures var fs := Interrupt(q, turns).fired;
            |fs| <= |turns| && forall k :: 0 <= k < |fs| ==> fs[k].when <= fs[k].now == turns[k].now
    decreases |turns|
  {
    hide Distinct, Sorted, InOrder, RegisterAll, Fresh, NoneBefore, Interrupt, AllFresh, TurnsAfter, FiredTurns;
    SortedFirst(q);
    if q.timers != [] && turns != [] && turns[0].now >= q.when[q.timers[0]] {
      InterruptStep(q, turns);
      Behead(q);
      RegisterAllOk(q.(timers := q.timers[1..]), turns[0].requests, 0);
      NeverEarly(RegisterAll(q.(timers := q.timers[1..]), turns[0].requests), turns[1..]);
      EarlyFirst(Interrupt(q, turns).fired, turns);
    } else {
      TurnsStop(q, map[], 0, turns);
    }
  }

  lemma EarlyFirst(fs: seq<Fired>, turns: seq<Turn>)
    requires fs != [] && turns != [] && fs[0].when <= fs[0].now == turns[0].now && |fs[1..]| <= |turns[1..]|
    requires var rest, after := fs[1..], turns[1..]; forall k :: 0 <= k < |rest| ==> rest[k].when <= rest[k].now == after[k].now
    ensures |fs| <= |turns| && forall k :: 0 <= k < |fs| ==> fs[k].when <= fs[k].now == turns[k].now
  {
    forall k | 0 <= k < |fs| ensures fs[k].when <= fs[k].now == turns[k].now {
      if k > 0 { assert fs[k] == fs[1..][k - 1] && turns[k] == turns[1..][k - 1]; }
    }
  }

  // Each registration, old or made by a handler, is fired or still queued, exactly once.
  lemma {:induction false} FiredOnce(q: Queue, turns: seq<Turn>)
    requires InOrder(q) && AllFresh(q, turns)
    ensures var r := Interrupt(q, turns);
            |r.fired| <= |turns| && multiset(q.timers) + Added(turns, |r.fired|) == FiredTimers(r.fired) + multiset(r.queue.timers)
    decreases |turns|
  {
    SortedFirst(q);
    hide Distinct, Sorted, InOrder, RegisterAll, Fresh, NoneBefore, TimersOf, FiredTimers, Added;
    if q.timers == [] || turns == [] || turns[0].now < q.when[q.timers[0]] {
      NothingFired(turns);
      assert multiset(q.timers) + multiset{} == multiset{} + multiset(q.timers);
    } else {
      InterruptStep(q, turns);
      hide Interrupt;
      Behead(q);
      RegisterAllOk(q.(timers := q.timers[1..]), turns[0].requests, 0);
      var q2 := RegisterAll(q.(timers := q.timers[1..]), turns[0].requests);
      FiredOnce(q2, turns[1..]);
      var rest := Interrupt(q2, turns[1..]);
      Recount(q, turns, q2, rest.fired, rest.queue);
    }
  }

  lemma NothingFired(turns: seq<Turn>)
    ensures Added(turns, 0) == multiset{} && FiredTimers([]) == multiset{}
  {}

  // one timer fired
  lemma InterruptStep(q: Queue, turns: seq<Turn>)
    requires q.timers != [] && turns != [] && q.timers[0] in q.when && turns[0].now >= q.when[q.timers[0]]
    ensures var x := q.timers[0]; var q' := q.(timers := q.timers[1..]);
            var rest := Interrupt(RegisterAll(q', turns[0].requests), turns[1..]);
            && Interrupt(q, turns) == rest.(fired := [Fired(x, q.when[x], turns[0].now)] + rest.fired)
    ensures AllFresh(q, turns) ==> Fresh(q.(timers := q.timers[1..]), turns[0].requests)
                                   && AllFresh(RegisterAll(q.(timers := q.timers[1..]), turns[0].requests), turns[1..])
  {}

  lemma {:induction false} Recount(q: Queue, turns: seq<Turn>, q2: Queue, fs: seq<Fired>, last: Queue)
    requires q.timers != [] && turns != [] && |fs| < |turns| && q.timers[0] in q.when
    requires multiset(q.timers) == multiset{q.timers[0]} + multiset(q.timers[1..])
    requires multiset(q2.timers) == multiset(q.timers[1..]) + TimersOf(turns[0].requests)
    requires multiset(q2.timers) + Added(turns[1..], |fs|) == FiredTimers(fs) + multiset(last.timers)
    ensures var f := Fired(q.timers[0], q.when[q.timers[0]], turns[0].now);
            multiset(q.timers) + Added(turns, |fs| + 1) == FiredTimers([f] + fs) + multiset(last.timers)
  {
    var f := Fired(q.timers[0], q.when[q.timers[0]], turns[0].now);
    assert ([f] + fs)[1..] == fs;
    Balance(multiset(q.timers), multiset{q.timers[0]}, multiset(q.timers[1..]), multiset(q2.timers), TimersOf(turns[0].requests),
            Added(turns[1..], |fs|), FiredTimers(fs), multiset(last.timers));
    assert FiredTimers([f] + fs) == multiset{q.timers[0]} + FiredTimers(fs);
    assert Added(turns, |fs| + 1) == TimersOf(turns[0].requests) + Added(turns[1..], |fs|);
  }

  lemma Balance(a: multiset<nat>, x: multiset<nat>, t: multiset<nat>, b: multiset<nat>, r: multiset<nat>,
                d: multiset<nat>, f: multiset<nat>, l: multiset<nat>)
    requires a == x + t && b == t + r && b + d == f + l
    ensures a + (r + d) == (x + f) + l
  {
    forall y: nat ensures (a + (r + d))[y] == ((x + f) + l)[y] {
      assert (b + d)[y] == (f + l)[y];
    }
  }

  lemma OrderOf(q: Queue)
    requires QueueOk(q)
    ensures InOrder(q)
  {}

  lemma SortedFirst(q: Queue)
    requires InOrder(q)
    ensures q.timers != [] ==> q.timers[0] in q.when
  {}

  lemma StopOk(q: Queue)
    requires InOrder(q)
    ensures q.timers == [] ==> QueueOk(q.(backend := 0)) && InOrder(q.(backend := 0))
    ensures q.timers != [] ==> q.timers[0] in q.when && QueueOk(q.(backend := q.when[q.timers[0]])) && InOrder(q.(backend := q.when[q.timers[0]]))
  {}

  lemma Behead(q: Queue)
    requires InOrder(q) && q.timers != []
    ensures InOrder(q.(timers := q.timers[1..])) && multiset(q.timers) == multiset{q.timers[0]} + multiset(q.timers[1..])
    ensures NoneBefore(q, q.when[q.timers[0]])
  {
    assert q.timers == [q.timers[0]] + q.timers[1..];
    forall t | t in q.timers && t in q.when ensures q.when[q.timers[0]] <= q.when[t] {
      var i :| 0 <= i < |q.timers| && q.timers[i] == t;
    }
  }

  // a timer stays linked with its deadline while others are registered
  lemma {:induction false} StaysLinked(q: Queue, rs: seq<Request>, t: nat)
    requires InOrder(q) && Fresh(q, rs) && t in q.timers && t in q.when
    ensures var q' := RegisterAll(q, rs); t in q'.timers && t in q'.when && q'.when[t] == q.when[t]
    decreases |rs|
  {
    hide Distinct, Sorted, RegisterAbsolute;
    if rs != [] {
      var x := rs[0];
      AbsoluteOk(q, x.timer, x.when);
      var q1 := RegisterAbsolute(q, x.timer, x.when);
      assert t in multiset(q1.timers);
      StaysLinked(q1, rs[1..], t);
    }
  }

  // so what a handler asked for is linked when it is done
  lemma {:induction false} Requested(q: Queue, rs: seq<Request>, i: nat)
    requires InOrder(q) && Fresh(q, rs) && i < |rs|
    ensures var q' := RegisterAll(q, rs); rs[i].timer in q'.timers && rs[i].timer in q'.when && q'.when[rs[i].timer] == rs[i].when
    decreases |rs|
  {
    hide Distinct, Sorted, RegisterAbsolute;
    var x := rs[0];
    AbsoluteOk(q, x.timer, x.when);
    var q1 := RegisterAbsolute(q, x.timer, x.when);
    if i == 0 {
      assert x.timer in multiset(q1.timers);
      StaysLinked(q1, rs[1..], x.timer);
    } else {
      Requested(q1, rs[1..], i - 1);
    }
  }

  // no request of the handler is due before w
  ghost predicate NoneSooner(rs: seq<Request>, w: nat) {
    forall i :: 0 <= i < |rs| ==> w <= rs[i].when
  }

  ghost predicate ByDeadline(fs: seq<Fired>) {
    forall j, k :: 0 <= j < k < |fs| ==> fs[j].when <= fs[k].when
  }

  // each handler but the last one called registers nothing due before its own timer was
  ghost predicate NoOvertaking(fs: seq<Fired>, turns: seq<Turn>) {
    forall k {:trigger turns[k]} :: 0 <= k < |turns| && k + 1 < |fs| ==> NoneSooner(turns[k].requests, fs[k].when)
  }

  // Timers fire in the order of their deadlines exactly when no handler registers a deadline
  // before that of its own timer and another timer fires after it.
  lemma {:induction false} FiredInOrderIff(q: Queue, turns: seq<Turn>)
    requires InOrder(q) && AllFresh(q, turns)
    ensures var fs := Interrupt(q, turns).fired; ByDeadline(fs) <==> NoOvertaking(fs, turns)
    decreases |turns|
  {
    SortedFirst(q);
    hide Distinct, Sorted, InOrder, RegisterAll, Fresh;
    if q.timers != [] && turns != [] && turns[0].now >= q.when[q.timers[0]] {
      InterruptStep(q, turns);
      hide Interrupt;
      var q1 := q.(timers := q.timers[1..]);
      Behead(q);
      RegisterAllOk(q1, turns[0].requests, q.when[q.timers[0]]);
      var q2 := RegisterAll(q1, turns[0].requests);
      FiredInOrderIff(q2, turns[1..]);
      NeverEarly(q2, turns[1..]);
      var fs, all := Interrupt(q2, turns[1..]).fired, Interrupt(q, turns).fired;
      NextInOrder(q, turns, q2, fs);
      TailOrder(all, fs, turns);
    }
  }

  // the next timer fired is due no sooner exactly when the handler asked for nothing sooner
  lemma NextInOrder(q: Queue, turns: seq<Turn>, q2: Queue, fs: seq<Fired>)
    requires InOrder(q) && q.timers != [] && turns != [] && q.timers[0] in q.when
    requires Fresh(q.(timers := q.timers[1..]), turns[0].requests) && q2 == RegisterAll(q.(timers := q.timers[1..]), turns[0].requests)
    requires fs == Interrupt(q2, turns[1..]).fired
    ensures fs != [] ==> (q.when[q.timers[0]] <= fs[0].when <==> NoneSooner(turns[0].requests, q.when[q.timers[0]]))
  {
    hide Distinct, Sorted, InOrder, RegisterAll, Fresh, RegisterAbsolute;
    var w, rs, q1 := q.when[q.timers[0]], turns[0].requests, q.(timers := q.timers[1..]);
    Behead(q);
    RegisterAllOk(q1, rs, w);
    if fs != [] {
      Behead(q2);
      assert fs[0].when == q2.when[q2.timers[0]];
      assert q2.timers[0] in q2.timers;
      assert NoneBefore(q1, w);
      if NoneSooner(rs, w) {
        forall r | r in rs ensures w <= r.when { var i :| 0 <= i < |rs| && rs[i] == r; }
        assert NoneBefore(q2, w);
      }
      forall i | 0 <= i < |rs| ensures fs[0].when <= rs[i].when {
        Requested(q1, rs, i);
      }
    }
  }

  lemma TailOrder(all: seq<Fired>, fs: seq<Fired>, turns: seq<Turn>)
    requires all != [] && fs == all[1..] && turns != [] && |fs| <= |turns[1..]|
    requires ByDeadline(fs) <==> NoOvertaking(fs, turns[1..])
    requires fs != [] ==> (all[0].when <= fs[0].when <==> NoneSooner(turns[0].requests, all[0].when))
    ensures ByDeadline(all) <==> NoOvertaking(all, turns)
  {
    hide NoneSooner;
    forall k | 0 <= k < |fs| ensures all[k + 1] == fs[k] {}
    if ByDeadline(all) {
      forall j, k | 0 <= j < k < |fs| ensures fs[j].when <= fs[k].when { assert all[j + 1].when <= all[k + 1].when; }
      if fs != [] { assert all[0].when <= all[1].when; }
      forall k | 0 <= k < |turns| && k + 1 < |all| ensures NoneSooner(turns[k].requests, all[k].when) {
        if k > 0 { assert turns[k] == turns[1..][k - 1]; }
      }
    }
    if NoOvertaking(all, turns) {
      forall k | 0 <= k < |turns[1..]| && k + 1 < |fs| ensures NoneSooner(turns[1..][k].requests, fs[k].when) {
        assert turns[1..][k] == turns[k + 1] && all[k + 1] == fs[k];
      }
      if fs != [] { assert NoneSooner(turns[0].requests, all[0].when); }
      forall j, k | 0 <= j < k < |all| ensures all[j].when <= all[k].when {
        assert all[k] == fs[k - 1] && all[1] == fs[0];
        if j > 0 { assert all[j] == fs[j - 1]; }
      }
    }
  }

  // ---------------- first come, first served, through the loop ----------------

  // the queue in order, and the turns at which its timers were registered, all before n
  ghost predicate Queued(q: Queue, turn: map<nat, nat>, n: nat) {
    InOrder(q) && FirstCome(q.timers, q.when, turn) && forall t :: t in q.timers ==> t in turn && turn[t] < n
  }

  // the turns after a handler's requests
  function TurnAll(turn: map<nat, nat>, rs: seq<Request>, n: nat): map<nat, nat>
    decreases |rs|
  {
    if rs == [] then turn else TurnAll(turn[rs[0].timer := n], rs[1..], n + 1)
  }

  // timers due at w were registered after turn a
  ghost predicate Later(q: Queue, turn: map<nat, nat>, w: nat, a: nat) {
    forall t :: t in q.timers && t in q.when && t in turn && q.when[t] == w ==> a < turn[t]
  }

  lemma AbsoluteQueued(q: Queue, turn: map<nat, nat>, n: nat, x: nat, w: nat)
    requires Queued(q, turn, n) && x !in q.timers
    ensures Queued(RegisterAbsolute(q, x, w), turn[x := n], n + 1)
  {
    var q0, q1 := q.(when := q.when[x := w]), RegisterAbsolute(q, x, w);
    DeadlineKept(q, x, w);
    AbsoluteOk(q, x, w);
    TurnsKept(q.timers, q.when, turn, x, w);
    RegisterOk(q0, turn, x, n);
    hide RegisterAbsolute, Distinct, Sorted, FirstCome;
    forall t | t in q1.timers ensures t in turn[x := n] && turn[x := n][t] < n + 1 { assert t == x || t in q.timers; }
  }

  lemma AbsoluteLater(q: Queue, turn: map<nat, nat>, n: nat, x: nat, w: nat, v: nat, a: nat)
    requires Queued(q, turn, n) && x !in q.timers && a < n && Later(q, turn, v, a)
    ensures Later(RegisterAbsolute(q, x, w), turn[x := n], v, a)
  {
    AbsoluteOk(q, x, w);
    hide RegisterAbsolute, Distinct, Sorted, FirstCome;
  }

  lemma TurnsKept(s: seq<nat>, when: map<nat, nat>, turn: map<nat, nat>, x: nat, w: nat)
    requires FirstCome(s, when, turn) && x !in s && forall t :: t in s ==> t in when
    ensures FirstCome(s, when[x := w], turn)
  {
    forall i | 0 <= i < |s| ensures s[i] in when && when[x := w][s[i]] == when[s[i]] { assert s[i] in s; }
  }

  lemma {:induction false} RegisterAllQueued(q: Queue, turn: map<nat, nat>, n: nat, rs: seq<Request>)
    requires Queued(q, turn, n) && Fresh(q, rs)
    ensures Queued(RegisterAll(q, rs), TurnAll(turn, rs, n), n + |rs|)
    decreases |rs|
  {
    hide Queued, RegisterAbsolute;
    if rs != [] {
      AbsoluteQueued(q, turn, n, rs[0].timer, rs[0].when);
      RegisterAllQueued(RegisterAbsolute(q, rs[0].timer, rs[0].when), turn[rs[0].timer := n], n + 1, rs[1..]);
    }
  }

  lemma {:induction false} RegisterAllLater(q: Queue, turn: map<nat, nat>, n: nat, rs: seq<Request>, w: nat, a: nat)
    requires Queued(q, turn, n) && Fresh(q, rs) && a < n && Later(q, turn, w, a)
    ensures Later(RegisterAll(q, rs), TurnAll(turn, rs, n), w, a)
    decreases |rs|
  {
    hide Queued, Later, RegisterAbsolute;
    if rs != [] {
      AbsoluteQueued(q, turn, n, rs[0].timer, rs[0].when);
      AbsoluteLater(q, turn, n, rs[0].timer, rs[0].when, w, a);
      RegisterAllLater(RegisterAbsolute(q, rs[0].timer, rs[0].when), turn[rs[0].timer := n], n + 1, rs[1..], w, a);
    }
  }

  // the turns at which the timers fired were registered
  function FiredTurns(q: Queue, turn: map<nat, nat>, n: nat, turns: seq<Turn>): seq<nat>
    decreases |turns|
  {
    if q.timers == [] || turns == [] || q.timers[0] !in q.when || turns[0].now < q.when[q.timers[0]] || q.timers[0] !in turn then []
    else
      var rs := turns[0].requests;
      [turn[q.timers[0]]] + FiredTurns(RegisterAll(q.(timers := q.timers[1..]), rs), TurnAll(turn, rs, n), n + |rs|, turns[1..])
  }

  // the turns of the timers after the loop
  function TurnsAfter(q: Queue, turn: map<nat, nat>, n: nat, turns: seq<Turn>): (map<nat, nat>, nat)
    decreases |turns|
  {
    if q.timers == [] || turns == [] || q.timers[0] !in q.when || turns[0].now < q.when[q.timers[0]] then (turn, n)
    else
      var rs := turns[0].requests;
      TurnsAfter(RegisterAll(q.(timers := q.timers[1..]), rs), TurnAll(turn, rs, n), n + |rs|, turns[1..])
  }

  lemma BeheadQueued(q: Queue, turn: map<nat, nat>, n: nat)
    requires Queued(q, turn, n) && q.timers != []
    ensures var x := q.timers[0]; var q1 := q.(timers := q.timers[1..]);
      x in q.when && x in turn && turn[x] < n && Queued(q1, turn, n) && Later(q1, turn, q.when[x], turn[x])
  {
    var x, s := q.timers[0], q.timers[1..];
    assert x in q.timers;
    Behead(q);
    forall i | 0 <= i < |s| ensures s[i] == q.timers[i + 1] && s[i] in q.timers {}
    forall t | t in s && t in q.when && q.when[t] == q.when[x] ensures turn[x] < turn[t] {
      var i :| 0 <= i < |s| && s[i] == t;
      assert q.timers[i + 1] == t;
    }
  }

  lemma BeheadLater(q: Queue, turn: map<nat, nat>, n: nat, w: nat, a: nat)
    requires Queued(q, turn, n) && q.timers != [] && Later(q, turn, w, a)
    ensures q.timers[0] in q.when && q.timers[0] in turn && (q.when[q.timers[0]] == w ==> a < turn[q.timers[0]])
    ensures Later(q.(timers := q.timers[1..]), turn, w, a)
  {
    assert q.timers[0] in q.timers;
    forall i | 0 <= i < |q.timers[1..]| ensures q.timers[1..][i] in q.timers { assert q.timers[1..][i] == q.timers[i + 1]; }
  }

  // no timer fires
  lemma TurnsStop(q: Queue, turn: map<nat, nat>, n: nat, turns: seq<Turn>)
    requires q.timers == [] || turns == [] || (q.timers[0] in q.when && turns[0].now < q.when[q.timers[0]])
    ensures Interrupt(q, turns).fired == [] && FiredTurns(q, turn, n, turns) == [] && TurnsAfter(q, turn, n, turns) == (turn, n)
    ensures exists b :: Interrupt(q, turns).queue == q.(backend := b)
  {
    hide RegisterAll, TurnAll;
    assert q == q.(backend := q.backend);
  }

  // one timer fired
  lemma TurnsStep(q: Queue, turn: map<nat, nat>, n: nat, turns: seq<Turn>)
    requires q.timers != [] && turns != [] && q.timers[0] in q.when && turns[0].now >= q.when[q.timers[0]] && q.timers[0] in turn
    ensures var rs := turns[0].requests;
      var q2, turn2 := RegisterAll(q.(timers := q.timers[1..]), rs), TurnAll(turn, rs, n);
      && FiredTurns(q, turn, n, turns) == [turn[q.timers[0]]] + FiredTurns(q2, turn2, n + |rs|, turns[1..])
      && TurnsAfter(q, turn, n, turns) == TurnsAfter(q2, turn2, n + |rs|, turns[1..])
  {
    hide RegisterAll, TurnAll;
  }

  // Through the whole loop the queue stays in order, equal deadlines by turn.
  lemma {:induction false} InterruptQueued(q: Queue, turn: map<nat, nat>, n: nat, turns: seq<Turn>)
    requires Queued(q, turn, n) && AllFresh(q, turns)
    ensures var r, t := Interrupt(q, turns), TurnsAfter(q, turn, n, turns); Queued(r.queue, t.0, t.1)
    decreases |turns|
  {
    hide Interrupt, FiredTurns, TurnsAfter, TurnAll, AllFresh, Queued, Later, RegisterAll, Fresh, InOrder;
    if q.timers != [] { BeheadQueued(q, turn, n); }
    if q.timers == [] || turns == [] || turns[0].now < q.when[q.timers[0]] {
      TurnsStop(q, turn, n, turns);
      BackendFree(q, turn, n);
    } else {
      InterruptStep(q, turns);
      TurnsStep(q, turn, n, turns);
      var q1, rs := q.(timers := q.timers[1..]), turns[0].requests;
      RegisterAllQueued(q1, turn, n, rs);
      InterruptQueued(RegisterAll(q1, rs), TurnAll(turn, rs, n), n + |rs|, turns[1..]);
    }
  }

  lemma BackendFree(q: Queue, turn: map<nat, nat>, n: nat)
    requires Queued(q, turn, n)
    ensures forall b :: Queued(q.(backend := b), turn, n)
  {}

  // a timer due at w that fires was registered after turn a, if all such timers queued were
  lemma {:induction false} FiredLater(q: Queue, turn: map<nat, nat>, n: nat, turns: seq<Turn>, w: nat, a: nat)
    requires Queued(q, turn, n) && AllFresh(q, turns) && Later(q, turn, w, a) && a < n
    ensures var fs, ns := Interrupt(q, turns).fired, FiredTurns(q, turn, n, turns);
      |ns| == |fs| && forall k :: 0 <= k < |fs| && fs[k].when == w ==> a < ns[k]
    decreases |turns|
  {
    hide Interrupt, FiredTurns, TurnsAfter, TurnAll, AllFresh, Queued, Later, RegisterAll, Fresh, InOrder;
    if q.timers != [] {
      BeheadQueued(q, turn, n);
      BeheadLater(q, turn, n, w, a);
    }
    if q.timers != [] && turns != [] && turns[0].now >= q.when[q.timers[0]] {
      InterruptStep(q, turns);
      TurnsStep(q, turn, n, turns);
      var q1, rs := q.(timers := q.timers[1..]), turns[0].requests;
      RegisterAllQueued(q1, turn, n, rs);
      RegisterAllLater(q1, turn, n, rs, w, a);
      FiredLater(RegisterAll(q1, rs), TurnAll(turn, rs, n), n + |rs|, turns[1..], w, a);
      LaterFirst(Interrupt(q, turns).fired, FiredTurns(q, turn, n, turns), w, a);
    } else {
      TurnsStop(q, turn, n, turns);
    }
  }

  lemma LaterFirst(all: seq<Fired>, nums: seq<nat>, w: nat, a: nat)
    requires all != [] && |nums| == |all| && (all[0].when == w ==> a < nums[0])
    requires var fs, ns := all[1..], nums[1..]; forall k :: 0 <= k < |fs| && fs[k].when == w ==> a < ns[k]
    ensures forall k :: 0 <= k < |all| && all[k].when == w ==> a < nums[k]
  {
    forall k | 0 <= k < |all| && all[k].when == w ensures a < nums[k] {
      if k > 0 { assert all[k] == all[1..][k - 1] && nums[k] == nums[1..][k - 1]; }
    }
  }

  lemma EqualFirst(all: seq<Fired>, nums: seq<nat>)
    requires all != [] && |nums| == |all|
    requires var fs, ns := all[1..], nums[1..];
      (forall k :: 0 <= k < |fs| && fs[k].when == all[0].when ==> nums[0] < ns[k]) && forall j, k :: 0 <= j < k < |fs| && fs[j].when == fs[k].when ==> ns[j] < ns[k]
    ensures forall j, k :: 0 <= j < k < |all| && all[j].when == all[k].when ==> nums[j] < nums[k]
  {
    var fs, ns := all[1..], nums[1..];
    forall j, k | 0 <= j < k < |all| && all[j].when == all[k].when ensures nums[j] < nums[k] {
      assert all[k] == fs[k - 1] && nums[k] == ns[k - 1];
      if j > 0 { assert all[j] == fs[j - 1] && nums[j] == ns[j - 1]; }
    }
  }

  // Of timers with the same deadline the one registered first fires first, whether it was
  // registered before the loop or by a handler.
  lemma {:induction false} FiredFirstCome(q: Queue, turn: map<nat, nat>, n: nat, turns: seq<Turn>)
    requires Queued(q, turn, n) && AllFresh(q, turns)
    ensures var fs, ns := Interrupt(q, turns).fired, FiredTurns(q, turn, n, turns);
      |ns| == |fs| && forall j, k :: 0 <= j < k < |fs| && fs[j].when == fs[k].when ==> ns[j] < ns[k]
    decreases |turns|
  {
    hide Interrupt, FiredTurns, TurnsAfter, TurnAll, AllFresh, Queued, Later, RegisterAll, Fresh, InOrder;
    if q.timers != [] { BeheadQueued(q, turn, n); }
    if q.timers != [] && turns != [] && turns[0].now >= q.when[q.timers[0]] {
      InterruptStep(q, turns);
      TurnsStep(q, turn, n, turns);
      var x, q1, rs := q.timers[0], q.(timers := q.timers[1..]), turns[0].requests;
      RegisterAllQueued(q1, turn, n, rs);
      RegisterAllLater(q1, turn, n, rs, q.when[x], turn[x]);
      var q2, turn2 := RegisterAll(q1, rs), TurnAll(turn, rs, n);
      FiredLater(q2, turn2, n + |rs|, turns[1..], q.when[x], turn[x]);
      FiredFirstCome(q2, turn2, n + |rs|, turns[1..]);
      EqualFirst(Interrupt(q, turns).fired, FiredTurns(q, turn, n, turns));
    } else {
      TurnsStop(q, turn, n, turns);
    }
  }

  lemma StaysQueued(q: Queue, turn: map<nat, nat>, x: nat, n: nat)
    requires Queued(q, turn, n) && QueueOk(q) && x in q.when && x !in q.timers
    ensures QueueOk(Register(q, x)) && Queued(Register(q, x), turn[x := n], n + 1)
  {
    RegisterOk(q, turn, x, n);
    var q' := Register(q, x);
    OrderOf(q');
    forall t | t in q'.timers ensures t in turn[x := n] && turn[x := n][t] < n + 1 {
      assert t in multiset(q'.timers);
      assert t == x || t in q.timers;
    }
  }

  lemma OrderOfQueued(q: Queue, turn: map<nat, nat>, n: nat)
    requires Queued(q, turn, n)
    ensures InOrder(q)
  {}

  // where the loop stops
  lemma LoopStop(q: Queue, turn: map<nat, nat>, n: nat, turns: seq<Turn>)
    ensures q.timers == [] ==> Interrupt(q, turns) == Outcome(q.(backend := 0), [], true)
    ensures q.timers != [] && (turns == [] || q.timers[0] !in q.when) ==> Interrupt(q, turns) == Outcome(q, [], false)
    ensures q.timers != [] && turns != [] && q.timers[0] in q.when && turns[0].now < q.when[q.timers[0]] ==>
              Interrupt(q, turns) == Outcome(q.(backend := q.when[q.timers[0]]), [], true)
    ensures q.timers == [] || turns == [] || q.timers[0] !in q.when || turns[0].now < q.when[q.timers[0]] ==> TurnsAfter(q, turn, n, turns) == (turn, n)
  {
    hide RegisterAll, TurnAll;
  }

  // one turn of the loop on a queue in order
  lemma QueuedStep(q: Queue, turn: map<nat, nat>, n: nat, turns: seq<Turn>)
    requires Queued(q, turn, n) && AllFresh(q, turns)
    requires q.timers != [] && turns != [] && q.timers[0] in q.when && turns[0].now >= q.when[q.timers[0]]
    ensures var q1, rs := q.(timers := q.timers[1..]), turns[0].requests;
      && Fresh(q1, rs) && AllFresh(RegisterAll(q1, rs), turns[1..])
      && Queued(RegisterAll(q1, rs), TurnAll(turn, rs, n), n + |rs|)
      && TurnsAfter(q, turn, n, turns) == TurnsAfter(RegisterAll(q1, rs), TurnAll(turn, rs, n), n + |rs|, turns[1..])
  {
    hide Queued, RegisterAll, TurnAll;
    BeheadQueued(q, turn, n);
    InterruptStep(q, turns);
    TurnsStep(q, turn, n, turns);
    RegisterAllQueued(q.(timers := q.timers[1..]), turn, n, turns[0].requests);
  }

  // ---------------- the queue as the kernel keeps it ----------------

  class TimerQueue {
    var timers: seq<nat>
    var when: map<nat, nat>
    var backend: nat
    // when each linked timer was registered
    ghost var turn: map<nat, nat>
    ghost var next: nat

    ghost function State(): Queue
      reads this
    {
      Queue(timers, when, backend)
    }

    // in order, equal deadlines first come first
    ghost predicate Ordered()
      reads this
    {
      Queued(State(), turn, next)
    }

    // and the backend programmed
    ghost predicate Valid()
      reads this
    {
      QueueOk(State()) && Ordered()
    }

    constructor ()
      ensures Valid() && timers == []
    {
      timers, when, backend, turn, next := [], map[], 0, map[], 0;
    }

    // timer_register
    method RegisterTimer(x: nat)
      requires x in when
      modifies this
      ensures State() == Register(old(State()), x)
      ensures turn == (if x in old(timers) then old(turn) else old(turn)[x := old(next)])
      ensures next == (if x in old(timers) then old(next) else old(next) + 1)
      ensures old(Valid()) ==> Valid()
    {
      if x in timers {
        return;
      }
      PlaceIn(timers, when, when[x], 0);
      if Valid() { StaysQueued(State(), turn, x, next); }
      hide QueueOk, Queued;
      var k := 0;
      while k < |timers|
        invariant k <= |timers| && Place(timers, when, when[x], k) == Place(timers, when, when[x], 0)
      {
        if timers[k] in when && when[x] < when[timers[k]] {
          break;
        }
        k := k + 1;
      }
      timers := Enqueue(timers, k, x);
      backend := Earliest(timers, when);
      turn := turn[x := next];
      next := next + 1;
    }

    // timer_register_absolute
    method RegisterTimerAbsolute(x: nat, w: nat)
      modifies this
      ensures State() == RegisterAbsolute(old(State()), x, w)
      ensures turn == (if x in old(timers) then old(turn) else old(turn)[x := old(next)])
      ensures next == (if x in old(timers) then old(next) else old(next) + 1)
      ensures old(Ordered()) && x !in old(timers) ==> Valid()
    {
      if Ordered() && x !in timers {
        AbsoluteQueued(State(), turn, next, x, w);
        OrderOfQueued(State(), turn, next);
        AbsoluteOk(State(), x, w);
      }
      hide QueueOk, Queued;
      when := when[x := w];
      RegisterTimer(x);
    }

    // timer_unregister
    method UnregisterTimer(x: nat)
      modifies this
      ensures State() == Unregister(old(State()), x)
      ensures old(Valid()) ==> Valid() && x !in timers
    {
      if Valid() { UnregisterOk(State(), turn, x); }
      hide QueueOk, FirstCome;
      if x in timers {
        timers := Dequeue(timers, x);
        backend := Earliest(timers, when);
      }
    }

    // what a handler registers
    method CallHandler(rs: seq<Request>)
      modifies this
      ensures State() == RegisterAll(old(State()), rs)
      ensures old(Fresh(State(), rs)) ==> turn == TurnAll(old(turn), rs, old(next)) && next == old(next) + |rs|
    {
      hide RegisterAbsolute, Register;
      ghost var q, turn0, next0 := State(), turn, next;
      var i := 0;
      while i < |rs|
        invariant i <= |rs| && RegisterAll(State(), rs[i..]) == RegisterAll(q, rs)
        invariant Fresh(q, rs) ==> Fresh(State(), rs[i..]) && TurnAll(turn, rs[i..], next) == TurnAll(turn0, rs, next0) && next == next0 + i
      {
        RegisterTimerAbsolute(rs[i].timer, rs[i].when);
        assert rs[i..][1..] == rs[i + 1..];
        i := i + 1;
      }
    }

    // the first timer is unlinked and its handler called
    method FireFirst(t: Turn) returns (f: Fired)
      requires timers != [] && timers[0] in when
      modifies this
      ensures f == Fired(old(timers[0]), old(when[timers[0]]), t.now)
      ensures State() == RegisterAll(old(State().(timers := timers[1..])), t.requests)
      ensures old(Fresh(State().(timers := timers[1..]), t.requests)) ==>
                turn == TurnAll(old(turn), t.requests, old(next)) && next == old(next) + |t.requests|
    {
      hide RegisterAll, TurnAll, Fresh;
      f := Fired(timers[0], when[timers[0]], t.now);
      timers := timers[1..];
      CallHandler(t.requests);
    }

    // timer_interrupt_entry_point, as far as the turns given go
    method InterruptEntryPoint(turns: seq<Turn>) returns (fired: seq<Fired>, done: bool)
      modifies this
      ensures Outcome(State(), fired, done) == Interrupt(old(State()), turns)
      ensures old(Ordered() && AllFresh(State(), turns)) ==> Ordered() && (done ==> Valid())
      ensures old(Ordered() && AllFresh(State(), turns)) ==> (turn, next) == TurnsAfter(old(State()), old(turn), old(next), turns)
    {
      hide Interrupt, TurnsAfter, AllFresh, Queued, QueueOk, InOrder;
      if Ordered() && AllFresh(State(), turns) {
        InterruptQueued(State(), turn, next, turns);
        OrderOfQueued(State(), turn, next);
        InterruptEnds(State(), turns);
      }
      fired, done := FireDue(turns);
    }

    // the loop
    method FireDue(turns: seq<Turn>) returns (fired: seq<Fired>, done: bool)
      modifies this
      ensures Outcome(State(), fired, done) == Interrupt(old(State()), turns)
      ensures old(Ordered() && AllFresh(State(), turns)) ==> (turn, next) == TurnsAfter(old(State()), old(turn), old(next), turns)
    {
      hide Interrupt, TurnsAfter, RegisterAll, TurnAll, AllFresh, Fresh, Queued;
      ghost var ok := Ordered() && AllFresh(State(), turns);
      ghost var q0, t0 := Interrupt(State(), turns), TurnsAfter(State(), turn, next, turns);
      fired, done := [], true;
      var n := 0;
      ghost var left := turns;
      assert [] + q0.fired == q0.fired;
      while timers != []
        invariant n <= |turns| && done && left == turns[n..]
        invariant q0 == Interrupt(State(), left).(fired := fired + Interrupt(State(), left).fired)
        invariant ok ==> Queued(State(), turn, next) && AllFresh(State(), left) && TurnsAfter(State(), turn, next, left) == t0
        decreases |turns| - n
      {
        LoopStop(State(), turn, next, left);
        if n == |turns| || timers[0] !in when {
          done := false;
          return;
        }
        if turns[n].now < when[timers[0]] {
          backend := when[timers[0]];
          return;
        }
        InterruptStep(State(), left);
        if ok { QueuedStep(State(), turn, next, left); }
        var f := FireFirst(turns[n]);
        left := left[1..];
        fired := fired + [f];
        n := n + 1;
      }
      LoopStop(State(), turn, next, left);
      backend := 0;
    }
  }
}
