/** The order in which waiting tasks are served, when sleepers are due, and what makes the kernel
    panic (kernel/lib/mutex.c:26-58, kernel/lib/scheduler.c:47-153). */
module Waiting {
  import opened Timers
  import opened Scheduler

  // ---------------- who waits for a mutex is served in turn ----------------

  // the tasks stand in the order of their turns, all below n
  ghost predicate ByTurn(s: seq<Task>, turn: map<Task, nat>, n: nat) {
    && (forall i :: 0 <= i < |s| ==> s[i] in turn && turn[s[i]] < n)
    && (forall i, j :: 0 <= i < j < |s| ==> turn[s[i]] < turn[s[j]])
  }

  // every mutex's waiters do
  ghost predicate InTurn(k: Kernel, turn: map<Task, nat>, n: nat) {
    forall m :: m in k.mutexes ==> ByTurn(k.mutexes[m].waiters, turn, n)
  }

  // the turns at which tasks began to wait, and the next turn, after a step from k to k'
  function TurnsBlocked(k: Kernel, k': Kernel, turn: map<Task, nat>, n: nat): (map<Task, nat>, nat) {
    if k.current in k'.point && k'.point[k.current].Blocked? then (turn[k.current := n], n + 1) else (turn, n)
  }

  function TurnsOfRun(k: Kernel, steps: seq<Step>, recheck: bool, turn: map<Task, nat>, n: nat): (map<Task, nat>, nat)
    requires Legal(k, steps, recheck)
    decreases |steps|
  {
    if steps == [] then (turn, n)
    else
      var k' := Next(k, steps[0], recheck);
      var t := TurnsBlocked(k, k', turn, n);
      TurnsOfRun(k', steps[1..], recheck, t.0, t.1)
  }

  lemma TurnDropped(s: seq<Task>, t: Task, turn: map<Task, nat>, n: nat)
    requires ByTurn(s, turn, n)
    ensures ByTurn(Without(s, t), turn, n)
  {
    hide ByTurn;
    if t in s {
      var i := DequeueIs(s, t);
      TurnCut(s, i, turn, n);
    } else {
      Absent(s, t);
    }
  }

  lemma TurnCut(s: seq<Task>, i: nat, turn: map<Task, nat>, n: nat)
    requires ByTurn(s, turn, n) && i < |s|
    ensures ByTurn(s[..i] + s[i + 1..], turn, n)
  {
    var r := s[..i] + s[i + 1..];
    forall j | 0 <= j < |r| ensures r[j] == s[if j < i then j else j + 1] {}
  }

  lemma TurnAdded(s: seq<Task>, t: Task, turn: map<Task, nat>, n: nat)
    requires ByTurn(s, turn, n) && t !in s
    ensures ByTurn(s, turn[t := n], n + 1) && ByTurn(s + [t], turn[t := n], n + 1)
  {}

  lemma ResumeInTurn(k: Kernel, turn: map<Task, nat>, n: nat)
    requires InTurn(k, turn, n)
    ensures InTurn(Resume(k), turn, n)
    ensures Resume(k).point.Keys == k.point.Keys
    ensures forall x :: x in k.point && x != k.current ==> Resume(k).point[x] == k.point[x]
    ensures forall x :: x in k.point && k.point[x] == Running ==> Resume(k).point[x] == Running
  {
    hide ByTurn, Without;
    if k.current in k.point && k.point[k.current].Blocked? && k.point[k.current].mutex in k.mutexes {
      TurnDropped(k.mutexes[k.point[k.current].mutex].waiters, k.current, turn, n);
    }
  }

  lemma {:induction false} SwitchInTurn(k: Kernel, recheck: bool, turn: map<Task, nat>, n: nat)
    requires InTurn(k, turn, n)
    ensures InTurn(Switch(k, recheck), turn, n)
    ensures var k' := Switch(k, recheck); k'.point.Keys == k.point.Keys && forall x :: x in k.point ==>
              (x !in k.run ==> k'.point[x] == k.point[x]) && (k.point[x] == Running ==> k'.point[x] == Running)
    decreases |k.run|
  {
    hide Resume, InTurn;
    if k.run != [] {
      if recheck && Overtaken(k) {
        var k1 := k.(run := k.run[1..], count := k.count - 1);
        SameInTurn(k, k1, turn, n);
        SwitchInTurn(k1, recheck, turn, n);
      } else {
        var k1 := k.(current := k.run[0]);
        SameInTurn(k, k1, turn, n);
        ResumeInTurn(k1, turn, n);
      }
    }
  }

  lemma SameInTurn(k: Kernel, k': Kernel, turn: map<Task, nat>, n: nat)
    requires InTurn(k, turn, n) && k'.mutexes.Keys == k.mutexes.Keys
    requires forall m :: m in k.mutexes ==> k'.mutexes[m].waiters == k.mutexes[m].waiters
    ensures InTurn(k', turn, n)
  {}

  // the running task waits for no mutex
  lemma RunsNotWaits(k: Kernel, m: nat)
    requires Inv(k) && m in k.mutexes
    ensures k.current !in k.mutexes[m].waiters && k.current in k.point && k.point[k.current] == Running && k.current in k.run
  {
    assert WaitersOf(k, m);
  }

  lemma UnlockWaiters(k: Kernel, m: nat)
    requires m in k.mutexes && m in k.held
    ensures Unlock(k, m).point == k.point && Unlock(k, m).mutexes.Keys == k.mutexes.Keys && Unlock(k, m).current == k.current
    ensures forall j :: j in k.mutexes ==> Unlock(k, m).mutexes[j].waiters == k.mutexes[j].waiters
  {}

  // the state a task that begins to wait for m switches from
  lemma BlockedWaiters(k: Kernel, m: nat, k1: Kernel, turn: map<Task, nat>, n: nat)
    requires Inv(k) && InTurn(k, turn, n) && m in k.mutexes && k1.mutexes.Keys == k.mutexes.Keys
    requires forall j :: j in k.mutexes ==> k1.mutexes[j].waiters == if j == m then k.mutexes[j].waiters + [k.current] else k.mutexes[j].waiters
    ensures InTurn(k1, turn[k.current := n], n + 1)
  {
    hide ByTurn, Inv;
    forall j | j in k1.mutexes ensures ByTurn(k1.mutexes[j].waiters, turn[k.current := n], n + 1) {
      RunsNotWaits(k, j);
      TurnAdded(k.mutexes[j].waiters, k.current, turn, n);
    }
  }

  lemma BlockInTurn(k: Kernel, m: nat, recheck: bool, turn: map<Task, nat>, n: nat)
    requires Inv(k) && InTurn(k, turn, n) && Enabled(k, LockMutex(m)) && Blocks(k, m)
    ensures var k' := Next(k, LockMutex(m), recheck);
            InTurn(k', turn[k.current := n], n + 1) && k.current in k'.point && k'.point[k.current].Blocked?
  {
    var k1 := AtSwitch(k, LockMutex(m));
    LockSpot(k, m);
    hide InTurn, Inv, Switch, Without, AtSwitch, Next;
    NextIsSwitch(k, LockMutex(m), recheck);
    BlockedWaiters(k, m, k1, turn, n);
    SwitchInTurn(k1, recheck, turn[k.current := n], n + 1);
  }

  lemma LockSpot(k: Kernel, m: nat)
    requires Inv(k) && Enabled(k, LockMutex(m)) && Blocks(k, m)
    ensures var k1 := AtSwitch(k, LockMutex(m));
            && k1.mutexes.Keys == k.mutexes.Keys && k.current in k1.point && k1.point[k.current] == Blocked(m) && k.current !in k1.run
            && forall j :: j in k.mutexes ==> k1.mutexes[j].waiters == if j == m then k.mutexes[j].waiters + [k.current] else k.mutexes[j].waiters
  {
    assert Distinct(k.run);
    hide Inv, Without, Distinct;
    WithoutIs(k.run, k.current);
  }

  // the steps that switch to no other task leave the waiters alone
  lemma CalmWaiters(k: Kernel, s: Step, recheck: bool)
    requires Enabled(k, s) && !IsSwitch(k, s) && k.current in k.point && k.point[k.current] == Running
    ensures var k' := Next(k, s, recheck);
            && k'.mutexes.Keys == k.mutexes.Keys && (forall m :: m in k.mutexes ==> k'.mutexes[m].waiters == k.mutexes[m].waiters)
            && k.current in k'.point && k'.point[k.current] == Running
  {
    hide Unregister, Switch;
    match s
    case UnlockMutex(m) => UnlockWaiters(k, m);
    case _ =>
  }

  // the steps that switch without waiting for a mutex do so from a state with the same waiters
  lemma PlainStep(k: Kernel, s: Step, recheck: bool)
    requires Inv(k) && Enabled(k, s) && IsSwitch(k, s) && !s.LockMutex?
    ensures var k1 := AtSwitch(k, s); Next(k, s, recheck) == Switch(k1, recheck) && k1.mutexes == k.mutexes && k1.point == k.point
  {
    hide Inv, Between, Wake, Interrupt, Switch, Without, RegisterAbsolute;
    NextIsSwitch(k, s, recheck);
    if s.Idle? {
      var r := Interrupt(k.timers, s.turns);
      WakeKeeps(k.(timers := r.queue), r.fired);
    }
  }

  lemma StepInTurn(k: Kernel, s: Step, recheck: bool, turn: map<Task, nat>, n: nat)
    requires Inv(k) && Enabled(k, s) && InTurn(k, turn, n)
    ensures var k' := Next(k, s, recheck); var t := TurnsBlocked(k, k', turn, n); InTurn(k', t.0, t.1)
  {
    InvIs(k);
    hide Inv, Between, InTurn, Switch, Next, AtSwitch;
    if !IsSwitch(k, s) {
      CalmWaiters(k, s, recheck);
      SameInTurn(k, Next(k, s, recheck), turn, n);
    } else if s.LockMutex? {
      BlockInTurn(k, s.mutex, recheck, turn, n);
    } else {
      PlainStep(k, s, recheck);
      PlainSwitch(k, AtSwitch(k, s), recheck, turn, n);
    }
  }

  // a switch of a task that does not begin to wait
  lemma PlainSwitch(k: Kernel, k1: Kernel, recheck: bool, turn: map<Task, nat>, n: nat)
    requires InTurn(k, turn, n) && k1.mutexes == k.mutexes && k1.point == k.point
    requires k.current in k.point && k.point[k.current] == Running
    ensures InTurn(Switch(k1, recheck), turn, n)
    ensures k.current in Switch(k1, recheck).point && Switch(k1, recheck).point[k.current] == Running
  {
    hide InTurn, Switch;
    SameInTurn(k, k1, turn, n);
    SwitchInTurn(k1, recheck, turn, n);
  }

  // On every run, each mutex's waiters stand in the order in which they began to wait.
  lemma {:induction false} RunsInTurn(k: Kernel, steps: seq<Step>, recheck: bool, turn: map<Task, nat>, n: nat)
    requires Inv(k) && Legal(k, steps, recheck) && InTurn(k, turn, n)
    ensures var t := TurnsOfRun(k, steps, recheck, turn, n); InTurn(Exec(k, steps, recheck), t.0, t.1)
    decreases |steps|
  {
    hide Inv, InTurn, Next, Enabled, TurnsBlocked;
    if steps != [] {
      StepOk(k, steps[0], recheck);
      StepInTurn(k, steps[0], recheck, turn, n);
      var t := TurnsBlocked(k, Next(k, steps[0], recheck), turn, n);
      RunsInTurn(Next(k, steps[0], recheck), steps[1..], recheck, t.0, t.1);
    }
  }

  // An unlock that frees a mutex others wait for puts on the run queue the task that has waited
  // longest, and no other.
  lemma WakesLongest(k: Kernel, m: nat, turn: map<Task, nat>, n: nat) returns (w: Task)
    requires Inv(k) && Enabled(k, UnlockMutex(m)) && InTurn(k, turn, n) && k.mutexes[m].waiters != []
    requires var k' := Next(k, UnlockMutex(m), false); !k'.panicked && k.mutexes[m].locker != Free && k'.mutexes[m].locker == Free
    ensures w in k.mutexes[m].waiters && forall t :: t in k.mutexes[m].waiters ==> t in turn && w in turn && turn[w] <= turn[t]
    ensures var k' := Next(k, UnlockMutex(m), false);
            k'.mutexes[m].waiters == k.mutexes[m].waiters && forall t :: t in k'.run <==> t in k.run || t == w
  {
    var s := k.mutexes[m].waiters;
    assert ByTurn(s, turn, n);
    w := s[0];
    forall t | t in s ensures t in turn && w in turn && turn[w] <= turn[t] {
      var i :| 0 <= i < |s| && s[i] == t;
    }
  }

  // ---------------- sleepers ----------------

  // A task that goes to sleep is off the run queue, its timer set to just its deadline, and no
  // other deadline changes.
  lemma SleepDue(k: Kernel, w: nat, recheck: bool)
    requires Inv(k) && Enabled(k, Sleep(w))
    ensures var k' := Next(k, Sleep(w), recheck); var t := k.current;
            && t in k'.timers.timers && t in k'.timers.when && k'.timers.when[t] == w
            && t !in k'.run && k'.current != t
            && (forall x :: x in k.timers.timers ==> x in k'.timers.timers && x in k'.timers.when && x in k.timers.when && k'.timers.when[x] == k.timers.when[x])
  {
    var t := k.current;
    NextTimers(k, Sleep(w), recheck);
    StepOk(k, Sleep(w), recheck);
    assert t in k.run && SleepOk(k);
    AbsoluteOk(k.timers, t, w);
    var k' := Next(k, Sleep(w), recheck);
    hide Next, RegisterAbsolute, QueueOk;
    LinkedToo(k.timers.timers, k'.timers.timers, t);
    assert SleepOk(k');
    OrderOf(k.timers);
    forall x | x in k.timers.timers ensures x in k.timers.when { LinkedWhen(k.timers, x); }
    assert k'.current == k'.run[0];
  }

  lemma LinkedWhen(q: Queue, x: nat)
    requires QueueOk(q) && x in q.timers
    ensures x in q.when
  {
    var i :| 0 <= i < |q.timers| && q.timers[i] == x;
  }

  // ---------------- the tasks an interrupt wakes ----------------

  lemma {:induction false} WakeRunIs(k: Kernel, fired: seq<Fired>)
    requires forall i :: 0 <= i < |fired| ==> fired[i].timer !in k.run
    requires forall i, j :: 0 <= i < j < |fired| ==> fired[i].timer != fired[j].timer
    ensures var r := Wake(k, fired).run;
            && |r| == |k.run| + |fired| && k.run <= r
            && forall i :: 0 <= i < |fired| ==> r[|k.run| + i] == fired[i].timer
    decreases |fired|
  {
    if fired != [] {
      var k1 := ScheduleTask(k, fired[0].timer);
      WakeRunIs(k1, fired[1..]);
      var r := Wake(k, fired).run;
      forall i | 0 <= i < |fired| ensures r[|k.run| + i] == fired[i].timer {
        if i > 0 { assert r[|k1.run| + (i - 1)] == fired[1..][i - 1].timer; }
      }
    }
  }

  lemma {:induction false} FiredTwice(fired: seq<Fired>, i: nat, j: nat)
    requires i < j < |fired|
    ensures fired[i].timer == fired[j].timer ==> FiredTimers(fired)[fired[i].timer] >= 2
    decreases |fired|
  {
    if i > 0 {
      FiredTwice(fired[1..], i - 1, j - 1);
    } else {
      assert fired[1..][j - 1] == fired[j];
      assert Pending(fired[1..], fired[j].timer);
      FiredCounts(fired[1..], fired[j].timer);
    }
  }

  // no timer fires twice in one interrupt
  lemma FiredApart(q: Queue, turns: seq<Turn>)
    requires QueueOk(q) && NoRequests(turns)
    ensures var fs := Interrupt(q, turns).fired; forall i, j :: 0 <= i < j < |fs| ==> fs[i].timer != fs[j].timer
  {
    var r := Interrupt(q, turns);
    OrderOf(q);
    NoneFresh(q, turns, |r.fired|);
    FiredOnce(q, turns);
    assert multiset(q.timers) + multiset{} == multiset(q.timers);
    forall i: nat, j: nat | i < j < |r.fired| ensures r.fired[i].timer != r.fired[j].timer {
      FiredTwice(r.fired, i, j);
      OnlyOnce(q.timers, r.fired[i].timer);
      assert FiredTimers(r.fired)[r.fired[i].timer] <= multiset(q.timers)[r.fired[i].timer] <= 1;
    }
  }

  // After an interrupt the run queue holds the tasks of the timers that fired, in the order
  // fired, and idle behind them.
  lemma WokenInOrder(k: Kernel, turns: seq<Turn>)
    requires Inv(k) && Enabled(k, Idle(turns))
    ensures var fs, r := Interrupt(k.timers, turns).fired, Next(k, Idle(turns), false).run;
            |r| == |fs| + 1 && r[|fs|] == IDLE && forall i :: 0 <= i < |fs| ==> r[i] == fs[i].timer
  {
    HaltsAlone(k, turns);
    FiredApart(k.timers, turns);
    FiredOff(k.timers, turns);
    var o := Interrupt(k.timers, turns);
    var fs := o.fired;
    assert k.current == IDLE;
    forall i | 0 <= i < |fs| ensures fs[i].timer !in k.run {
      assert Pending(fs, fs[i].timer);
      assert fs[i].timer in k.timers.timers;
    }
    var k1 := k.(timers := o.queue);
    HaltBetween(k, turns);
    hide Inv, Interrupt, Switch;
    WakeRunIs(k1, fs);
    var k2 := Wake(k1, fs);
    NextIsSwitch(k, Idle(turns), false);
    SwitchOk(AtSwitch(k, Idle(turns)), false);
    RotateOk(k2);
  }

  // ---------------- panics ----------------

  // While mutual exclusion holds, the kernel panics exactly when a task unlocks a mutex it has
  // not locked, or locks one for the 2^32nd time without unlocking it.
  lemma PanicsIff(k: Kernel, s: Step)
    requires Inv(k) && Exclusive(k) && Enabled(k, s) && !Overtakes(k, s)
    ensures Next(k, s, false).panicked <==> match s
      case UnlockMutex(m) => k.held[m][k.current] == 0
      case LockMutex(m) => !Blocks(k, m) && k.held[m][k.current] == 0xFFFF_FFFF
      case _ => false
  {
    hide Inv, Between, Exclusive, Switch, AtSwitch;
    if IsSwitch(k, s) {
      NextIsSwitch(k, s, false);
      AtSwitchExclusive(k, s);
      SwitchCalm(AtSwitch(k, s));
    } else {
      match s
      case LockMutex(m) => LockPanics(k, m);
      case UnlockMutex(m) => UnlockPanics(k, m);
      case _ =>
    }
  }

  lemma LockPanics(k: Kernel, m: nat)
    requires Exclusive(k) && !k.panicked && m in k.mutexes && m in k.held && !Blocks(k, m)
    ensures Lock(k, m, false).panicked <==> k.held[m][k.current] == 0xFFFF_FFFF
  {
    assert Owned(k.mutexes[m], k.held[m]);
  }

  lemma UnlockPanics(k: Kernel, m: nat)
    requires Exclusive(k) && !k.panicked && m in k.mutexes && m in k.held
    ensures Unlock(k, m).panicked <==> k.held[m][k.current] == 0
  {
    assert Owned(k.mutexes[m], k.held[m]);
  }

  lemma SwitchCalm(k: Kernel)
    requires Between(k) && Exclusive(k) && !k.panicked && !Overtaken(k)
    ensures !Switch(k, false).panicked
  {
    Nonempty(k);
    var t := k.run[0];
    assert t in k.run && t in k.point;
    if k.point[t].Blocked? {
      assert WaitOk(k);
      var m := k.point[t].mutex;
      assert Owned(k.mutexes[m], k.held[m]);
    }
  }
}
