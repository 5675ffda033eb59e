/** Tasks, the run queue, sleeping and mutexes (kernel/lib/scheduler.c:47-153,
    kernel/lib/mutex.c:26-58) as one transition system. Interrupts are enabled only inside
    `idle`, so a step is what the current task does up to, and with, the next switch. */
module Scheduler {
  import opened Timers

  type Task = nat

  const IDLE: Task := 0
  const NESTING_LIMIT: nat := 0x1_0000_0000

  datatype Locker = Free | By(task: Task)

  datatype Mutex = Mutex(locker: Locker, nesting: nat, waiters: seq<Task>)

  // where a task goes on when it is switched to: after schedule() in ordinary code, or after
  // unschedule() in mutex_lock
  datatype Point = Running | Blocked(mutex: nat)

  // `held` has each mutex's completed mutex_lock calls that were not undone yet.
  datatype Kernel = Kernel(
    run: seq<Task>, count: int, current: Task,
    timers: Queue,
    mutexes: map<nat, Mutex>,
    point: map<Task, Point>,
    held: map<nat, multiset<Task>>,
    panicked: bool)

  // list_remove, on the run queue or a list of waiters
  function Without(s: seq<Task>, t: Task): seq<Task> {
    Dequeue(s, t)
  }

  function ScheduleTask(k: Kernel, t: Task): Kernel {
    if t in k.run then k else k.(run := k.run + [t], count := k.count + 1)
  }

  // self->locker = current_task; ++self->nesting
  function Take(k: Kernel, m: nat): Kernel
    requires m in k.mutexes && m in k.held
  {
    var mu := k.mutexes[m];
    var n := (mu.nesting + 1) % NESTING_LIMIT;
    k.(mutexes := k.mutexes[m := mu.(locker := By(k.current), nesting := n)],
       held := k.held[m := k.held[m] + multiset{k.current}],
       panicked := k.panicked || n == 0)
  }

  // what a task does when it is switched to: the end of mutex_lock, if it was waiting
  function Resume(k: Kernel): Kernel {
    if k.current in k.point && k.point[k.current].Blocked? && k.point[k.current].mutex in k.mutexes && k.point[k.current].mutex in k.held then
      var m := k.point[k.current].mutex;
      var mu := k.mutexes[m];
      Take(k.(mutexes := k.mutexes[m := mu.(waiters := Without(mu.waiters, k.current))],
              point := k.point[k.current := Running]), m)
    else k
  }

  // would resume a mutex_lock whose mutex was taken again meanwhile
  predicate Overtaken(k: Kernel) {
    k.run != [] && k.run[0] in k.point && k.point[k.run[0]].Blocked? &&
    k.point[k.run[0]].mutex in k.mutexes && k.mutexes[k.point[k.run[0]].mutex].locker != Free
  }

  // schedule(): next_task, and on with that task. With `recheck`, mutex_lock would look at the
  // locker again in a loop; the source does not.
  function Switch(k: Kernel, recheck: bool): Kernel
    decreases |k.run|
  {
    if k.run == [] then k
    else if recheck && Overtaken(k) then Switch(k.(run := k.run[1..], count := k.count - 1), recheck)
    else Resume(k.(current := k.run[0]))
  }

  function GiveupCpu(k: Kernel, recheck: bool): Kernel {
    Switch(k.(run := Without(k.run, k.current) + [k.current]), recheck)
  }

  function Unschedule(k: Kernel, recheck: bool): Kernel {
    Switch(k.(run := Without(k.run, k.current), count := k.count - 1), recheck)
  }

  // sleep_tsc, until the deadline w
  function SleepUntil(k: Kernel, w: nat, recheck: bool): Kernel {
    Unschedule(k.(timers := RegisterAbsolute(k.timers, k.current, w)), recheck)
  }

  function CancelSleep(k: Kernel, t: Task): Kernel {
    ScheduleTask(k.(timers := Unregister(k.timers, t)), t)
  }

  function StartTask(k: Kernel, t: Task): Kernel {
    ScheduleTask(k.(point := k.point[t := Running]), t)
  }

  function Lock(k: Kernel, m: nat, recheck: bool): Kernel
    requires m in k.mutexes && m in k.held
  {
    var mu := k.mutexes[m];
    if mu.locker != Free && mu.locker != By(k.current) then
      Unschedule(k.(mutexes := k.mutexes[m := mu.(waiters := mu.waiters + [k.current])],
                    point := k.point[k.current := Blocked(m)]), recheck)
    else Take(k, m)
  }

  // one lock less, and the mutex free after the last
  function Release(k: Kernel, m: nat): Kernel
    requires m in k.mutexes && m in k.held && k.mutexes[m].nesting > 0
  {
    var mu := k.mutexes[m];
    k.(mutexes := k.mutexes[m := Mutex(if mu.nesting == 1 then Free else mu.locker, mu.nesting - 1, mu.waiters)],
       held := k.held[m := k.held[m] - multiset{k.current}])
  }

  function Unlock(k: Kernel, m: nat): Kernel
    requires m in k.mutexes && m in k.held
  {
    var mu := k.mutexes[m];
    if mu.locker != By(k.current) || mu.nesting == 0 then k.(panicked := true)
    else if mu.nesting > 1 || mu.waiters == [] then Release(k, m)
    else ScheduleTask(Release(k, m), mu.waiters[0])
  }

  // the timer callbacks, in the order fired
  function Wake(k: Kernel, fired: seq<Fired>): Kernel
    decreases |fired|
  {
    if fired == [] then k else Wake(ScheduleTask(k, fired[0].timer), fired[1..])
  }

  // one round of idle: with no other task to run it waits for the timer interrupt first
  function Halt(k: Kernel, turns: seq<Turn>, recheck: bool): Kernel {
    var r := Interrupt(k.timers, turns);
    GiveupCpu(Wake(k.(timers := r.queue), r.fired), recheck)
  }

  // ---------------- steps and runs ----------------

  datatype Step = Yield | Sleep(when: nat) | Cancel(task: Task) | Start(task: Task)
                | LockMutex(mutex: nat) | UnlockMutex(mutex: nat) | Idle(turns: seq<Turn>)

  predicate NoRequests(turns: seq<Turn>) {
    forall i :: 0 <= i < |turns| ==> turns[i].requests == []
  }

  // what may happen next: idle only yields or waits for an interrupt, the others do the rest
  predicate Enabled(k: Kernel, s: Step) {
    !k.panicked && match s
      case Yield => true
      case Sleep(_) => k.current != IDLE
      case Cancel(t) => t in k.point
      case Start(t) => t !in k.point
      case LockMutex(m) => k.current != IDLE && m in k.mutexes && m in k.held
      case UnlockMutex(m) => k.current != IDLE && m in k.mutexes && m in k.held
      case Idle(turns) => k.current == IDLE && k.count <= 1 && NoRequests(turns) && Interrupt(k.timers, turns).done
  }

  function Next(k: Kernel, s: Step, recheck: bool): Kernel
    requires Enabled(k, s)
  {
    match s
    case Yield => GiveupCpu(k, recheck)
    case Sleep(w) => SleepUntil(k, w, recheck)
    case Cancel(t) => CancelSleep(k, t)
    case Start(t) => StartTask(k, t)
    case LockMutex(m) => Lock(k, m, recheck)
    case UnlockMutex(m) => Unlock(k, m)
    case Idle(turns) => Halt(k, turns, recheck)
  }

  predicate Legal(k: Kernel, steps: seq<Step>, recheck: bool)
    decreases |steps|
  {
    steps == [] || (Enabled(k, steps[0]) && Legal(Next(k, steps[0], recheck), steps[1..], recheck))
  }

  function Exec(k: Kernel, steps: seq<Step>, recheck: bool): Kernel
    requires Legal(k, steps, recheck)
    decreases |steps|
  {
    if steps == [] then k else Exec(Next(k, steps[0], recheck), steps[1..], recheck)
  }

  // ---------------- the invariant ----------------

  ghost predicate RunOk(k: Kernel) {
    && Distinct(k.run) && k.count == |k.run| && IDLE in k.run
    && (forall t :: t in k.run ==> t in k.point)
  }

  // sleeping tasks are off the run queue, in ordinary code
  ghost predicate SleepOk(k: Kernel) {
    && QueueOk(k.timers)
    && (forall t :: t in k.timers.timers ==> t in k.point && t !in k.run && t != IDLE && k.point[t] == Running)
  }

  ghost predicate WaitersOf(k: Kernel, m: nat)
    requires m in k.mutexes
  {
    && Distinct(k.mutexes[m].waiters)
    && (forall t :: t in k.mutexes[m].waiters <==> t in k.point && k.point[t] == Blocked(m))
    && (k.mutexes[m].locker.By? ==> k.mutexes[m].locker.task !in k.mutexes[m].waiters)
  }

  ghost predicate WaitOk(k: Kernel) {
    && k.mutexes.Keys == k.held.Keys
    && (forall m :: m in k.mutexes ==> WaitersOf(k, m))
    && (forall t :: t in k.point && k.point[t].Blocked? ==> k.point[t].mutex in k.mutexes)
    && IDLE in k.point && k.point[IDLE] == Running
  }

  // No task is stranded: it runs or will, sleeps, or waits for a mutex; and the first waiter of
  // a free mutex is on the run queue.
  ghost predicate AwakeOk(k: Kernel) {
    && (forall t :: t in k.point ==> t in k.run || t in k.timers.timers || k.point[t].Blocked?)
    && (forall m :: m in k.mutexes && k.mutexes[m].locker == Free && k.mutexes[m].waiters != [] ==> k.mutexes[m].waiters[0] in k.run)
  }

  ghost predicate Between(k: Kernel) {
    RunOk(k) && SleepOk(k) && WaitOk(k) && AwakeOk(k)
  }

  ghost predicate Inv(k: Kernel) {
    Between(k) && k.current == k.run[0] && k.point[k.current] == Running
  }

  // ---------------- its parts, kept by the operations ----------------

  lemma WithoutIs(s: seq<Task>, t: Task)
    requires Distinct(s)
    ensures Distinct(Without(s, t)) && forall x :: x in Without(s, t) <==> x in s && x != t
    ensures |Without(s, t)| == if t in s then |s| - 1 else |s|
    ensures s != [] && s[0] == t ==> Without(s, t) == s[1..]
  {
    if t in s {
      var i := DequeueIs(s, t);
      var r := Without(s, t);
      assert s == s[..i] + [t] + s[i + 1..];
      forall x | x in s && x != t ensures x in r {
        var j :| 0 <= j < |s| && s[j] == x;
        assert r[if j < i then j else j - 1] == x;
      }
    } else {
      Absent(s, t);
    }
  }

  lemma {:induction false} Absent(s: seq<Task>, t: Task)
    requires t !in s
    ensures Without(s, t) == s
  {
    if s != [] { Absent(s[1..], t); }
  }

  lemma TakeOk(k: Kernel, m: nat)
    requires Between(k) && m in k.mutexes && m in k.held && k.current in k.point && k.point[k.current] == Running
    ensures Between(Take(k, m)) && Take(k, m).run == k.run && Take(k, m).current == k.current && Take(k, m).point == k.point
  {
    var k' := Take(k, m);
    forall j | j in k'.mutexes ensures WaitersOf(k', j) { assert WaitersOf(k, j); }
  }

  lemma ResumeOk(k: Kernel)
    requires Between(k) && k.run != [] && k.current == k.run[0]
    ensures Inv(Resume(k)) && Resume(k).run == k.run && Resume(k).current == k.current
  {
    assert k.current in k.run;
    if k.point[k.current].Blocked? {
      hide QueueOk, Distinct, WaitersOf;
      var k' := Resume(k);
      ResumeShape(k);
      ResumeWait(k, k');
      hide Resume, WaitOk;
      ResumeRest(k, k', k.point[k.current].mutex);
    }
  }

  lemma ResumeRest(k: Kernel, k': Kernel, m: nat)
    requires RunOk(k) && SleepOk(k) && AwakeOk(k) && k.current in k.run && m in k.mutexes
    requires k'.run == k.run && k'.count == k.count && k'.timers == k.timers && k'.point == k.point[k.current := Running]
    requires k'.mutexes.Keys == k.mutexes.Keys && k'.mutexes[m].locker != Free
    requires forall j :: j in k.mutexes && j != m ==> k'.mutexes[j] == k.mutexes[j]
    ensures RunOk(k') && SleepOk(k') && AwakeOk(k')
  {
    hide QueueOk, Distinct;
  }

  // what a waiter's resumption does
  lemma ResumeShape(k: Kernel)
    requires WaitOk(k) && k.current in k.point && k.point[k.current].Blocked?
    ensures var k' := Resume(k); var m := k.point[k.current].mutex;
            && k'.run == k.run && k'.count == k.count && k'.current == k.current && k'.timers == k.timers
            && k'.point == k.point[k.current := Running] && k'.held.Keys == k.held.Keys && k'.mutexes.Keys == k.mutexes.Keys
            && m in k.mutexes && k'.mutexes[m].waiters == Without(k.mutexes[m].waiters, k.current) && k'.mutexes[m].locker == By(k.current)
            && forall j :: j in k.mutexes && j != m ==> k'.mutexes[j] == k.mutexes[j]
  {}

  lemma ResumeWait(k: Kernel, k': Kernel)
    requires WaitOk(k) && k.current in k.point && k.point[k.current].Blocked?
    requires var m := k.point[k.current].mutex;
             && k'.point == k.point[k.current := Running] && k'.held.Keys == k.held.Keys && k'.mutexes.Keys == k.mutexes.Keys
             && k'.mutexes[m].waiters == Without(k.mutexes[m].waiters, k.current) && k'.mutexes[m].locker == By(k.current)
             && forall j :: j in k.mutexes && j != m ==> k'.mutexes[j] == k.mutexes[j]
    ensures WaitOk(k')
  {
    var m := k.point[k.current].mutex;
    assert WaitersOf(k, m);
    WithoutIs(k.mutexes[m].waiters, k.current);
    hide Distinct, Without;
    forall j | j in k'.mutexes && j != m ensures WaitersOf(k', j) { assert WaitersOf(k, j); }
    assert WaitersOf(k', m);
  }

  lemma DropOvertaken(k: Kernel)
    requires Between(k) && Overtaken(k)
    ensures Between(k.(run := k.run[1..], count := k.count - 1))
  {
    hide QueueOk, WaitersOf;
    var k' := k.(run := k.run[1..], count := k.count - 1);
    var t := k.run[0];
    SameWait(k, k');
    forall m | m in k.mutexes && k.mutexes[m].locker == Free && k.mutexes[m].waiters != [] ensures k.mutexes[m].waiters[0] != t { FirstWaiter(k, m); }
    assert t != IDLE;
    hide WaitOk;
    Headless(k.run);
    assert RunOk(k') && SleepOk(k');
    assert AwakeOk(k');
  }

  lemma Headless(s: seq<Task>)
    requires Distinct(s) && s != []
    ensures Distinct(s[1..]) && forall x :: x in s <==> x == s[0] || x in s[1..]
    ensures s[0] !in s[1..]
  {
    assert s == [s[0]] + s[1..];
  }

  lemma SameWait(k: Kernel, k': Kernel)
    requires WaitOk(k) && k'.point == k.point && k'.mutexes == k.mutexes && k'.held == k.held
    ensures WaitOk(k')
  {
    forall m | m in k'.mutexes ensures WaitersOf(k', m) { assert WaitersOf(k, m); }
  }

  // the first waiters are blocked tasks
  lemma FirstWaiter(k: Kernel, m: nat)
    requires WaitOk(k) && m in k.mutexes && k.mutexes[m].waiters != []
    ensures var t := k.mutexes[m].waiters[0]; t in k.point && k.point[t] == Blocked(m)
  {
    assert WaitersOf(k, m) && k.mutexes[m].waiters[0] in k.mutexes[m].waiters;
  }

  lemma {:induction false} SwitchOk(k: Kernel, recheck: bool)
    requires Between(k)
    ensures Inv(Switch(k, recheck)) && (!recheck ==> Switch(k, recheck).run == k.run && Switch(k, recheck).current == k.run[0])
    decreases |k.run|
  {
    hide RunOk, SleepOk, WaitOk, AwakeOk, Resume;
    assert k.run != [] by { Nonempty(k); }
    if recheck && Overtaken(k) {
      DropOvertaken(k);
      SwitchOk(k.(run := k.run[1..], count := k.count - 1), recheck);
    } else {
      var k1 := k.(current := k.run[0]);
      assert Between(k1) by { CurrentFree(k, k.run[0]); }
      ResumeOk(k1);
    }
  }

  lemma Nonempty(k: Kernel)
    requires RunOk(k)
    ensures k.run != []
  {}

  // the parts do not depend on who runs
  lemma CurrentFree(k: Kernel, t: Task)
    requires Between(k)
    ensures Between(k.(current := t))
  {
    var k' := k.(current := t);
    forall m | m in k'.mutexes ensures WaitersOf(k', m) { assert WaitersOf(k, m); }
  }

  lemma GiveupOk(k: Kernel, recheck: bool)
    requires Between(k) && k.run != [] && k.current == k.run[0]
    ensures Inv(GiveupCpu(k, recheck)) && (!recheck ==> GiveupCpu(k, recheck).run == k.run[1..] + [k.run[0]])
  {
    var k' := k.(run := Without(k.run, k.current) + [k.current]);
    WithoutIs(k.run, k.current);
    SameRun(k, k'.run);
    SwitchOk(k', recheck);
  }

  lemma SameRun(k: Kernel, run: seq<Task>)
    requires Between(k) && Distinct(run) && |run| == |k.run| && forall t :: t in run <==> t in k.run
    ensures Between(k.(run := run))
  {
    var k' := k.(run := run);
    forall m | m in k'.mutexes ensures WaitersOf(k', m) { assert WaitersOf(k, m); }
  }

  lemma WaitKept(k: Kernel, k': Kernel)
    requires WaitOk(k) && k'.point == k.point && k'.mutexes.Keys == k.mutexes.Keys == k'.held.Keys
    requires forall m :: m in k.mutexes ==> k'.mutexes[m].waiters == k.mutexes[m].waiters
    requires forall m :: m in k.mutexes ==> k'.mutexes[m].locker == Free || k'.mutexes[m].locker == k.mutexes[m].locker
    ensures WaitOk(k')
  {
    forall m | m in k'.mutexes ensures WaitersOf(k', m) { assert WaitersOf(k, m); }
  }

  // the running task leaves the run queue to sleep
  lemma SleepBetween(k: Kernel, w: nat)
    requires Inv(k) && k.current != IDLE
    ensures Between(k.(timers := RegisterAbsolute(k.timers, k.current, w), run := Without(k.run, k.current), count := k.count - 1))
  {
    var t := k.current;
    assert t in k.run;
    WithoutIs(k.run, t);
    AbsoluteOk(k.timers, t, w);
    var q := RegisterAbsolute(k.timers, t, w);
    var k' := k.(timers := q, run := Without(k.run, t), count := k.count - 1);
    hide QueueOk, RegisterAbsolute, Distinct, Without, WaitersOf;
    SameWait(k, k');
    LinkedToo(k.timers.timers, q.timers, t);
    forall m | m in k.mutexes && k.mutexes[m].waiters != [] ensures k.mutexes[m].waiters[0] != t { FirstWaiter(k, m); }
    hide WaitOk;
    SleepRest(k, k');
  }

  lemma SleepRest(k: Kernel, k': Kernel)
    requires RunOk(k) && SleepOk(k) && AwakeOk(k) && k.current in k.run && k.current != IDLE && k.current in k.point && k.point[k.current] == Running
    requires forall x :: x in k'.run <==> x in k.run && x != k.current
    requires Distinct(k'.run) && k'.count == |k'.run| && QueueOk(k'.timers)
    requires forall x :: x in k'.timers.timers <==> x in k.timers.timers || x == k.current
    requires k'.point == k.point && k'.mutexes == k.mutexes
    requires forall j :: j in k.mutexes && k.mutexes[j].waiters != [] ==> k.mutexes[j].waiters[0] != k.current
    ensures RunOk(k') && SleepOk(k') && AwakeOk(k')
  {
    hide QueueOk, Distinct;
  }

  lemma LinkedToo(s: seq<Task>, s': seq<Task>, t: Task)
    requires multiset(s') == multiset(s) + multiset{t}
    ensures forall x :: x in s' <==> x in s || x == t
  {
    forall x ensures x in s' <==> x in s || x == t { assert x in s' <==> x in multiset(s'); }
  }

  // the running task leaves the run queue to wait for a mutex
  lemma LockBetween(k: Kernel, m: nat)
    requires Inv(k) && k.current != IDLE && m in k.mutexes && k.mutexes[m].locker != Free && k.mutexes[m].locker != By(k.current)
    ensures var mu := k.mutexes[m];
            Between(k.(mutexes := k.mutexes[m := mu.(waiters := mu.waiters + [k.current])], point := k.point[k.current := Blocked(m)],
                       run := Without(k.run, k.current), count := k.count - 1))
  {
    var t, mu := k.current, k.mutexes[m];
    assert t in k.run;
    WithoutIs(k.run, t);
    var k' := k.(mutexes := k.mutexes[m := mu.(waiters := mu.waiters + [t])], point := k.point[t := Blocked(m)],
                 run := Without(k.run, t), count := k.count - 1);
    hide QueueOk, Without;
    LockWaiters(k, k', m);
    forall j | j in k.mutexes && k.mutexes[j].waiters != [] ensures k.mutexes[j].waiters[0] != t { FirstWaiter(k, j); }
    hide WaitersOf, Distinct, WaitOk;
    LockRest(k, k', m);
  }

  lemma LockRest(k: Kernel, k': Kernel, m: nat)
    requires RunOk(k) && SleepOk(k) && AwakeOk(k) && k.current in k.run && k.current != IDLE && m in k.mutexes && k.mutexes[m].locker != Free
    requires forall x :: x in k'.run <==> x in k.run && x != k.current
    requires Distinct(k'.run) && k'.count == |k'.run| && k'.timers == k.timers
    requires k'.point == k.point[k.current := Blocked(m)] && k'.mutexes.Keys == k.mutexes.Keys && k'.mutexes[m].locker != Free
    requires forall j :: j in k.mutexes && j != m ==> k'.mutexes[j] == k.mutexes[j]
    requires forall j :: j in k.mutexes && k.mutexes[j].waiters != [] ==> k.mutexes[j].waiters[0] != k.current
    ensures RunOk(k') && SleepOk(k') && AwakeOk(k')
  {}

  lemma LockWaiters(k: Kernel, k': Kernel, m: nat)
    requires WaitOk(k) && m in k.mutexes && k.current in k.point && k.point[k.current] == Running && k.current != IDLE
    requires k.mutexes[m].locker != By(k.current)
    requires k'.mutexes == k.mutexes[m := k.mutexes[m].(waiters := k.mutexes[m].waiters + [k.current])]
    requires k'.point == k.point[k.current := Blocked(m)] && k'.held == k.held
    ensures WaitOk(k')
  {
    forall j | j in k'.mutexes ensures WaitersOf(k', j) {
      assert WaitersOf(k, j);
      assert k.current !in k.mutexes[j].waiters;
    }
  }

  // t joins the run queue
  lemma Appended(k: Kernel, k': Kernel, t: Task)
    requires RunOk(k) && SleepOk(k) && t in k'.point && t !in k.run && t !in k'.timers.timers
    requires k'.run == k.run + [t] && k'.count == k.count + 1 && QueueOk(k'.timers)
    requires forall x :: x in k'.timers.timers ==> x in k.timers.timers
    requires forall x :: x in k.point ==> x in k'.point && k'.point[x] == k.point[x]
    ensures RunOk(k') && SleepOk(k') && k.run != [] && k'.run[0] == k.run[0] && forall x :: x in k'.run <==> x in k.run || x == t
  {
    hide QueueOk;
    assert k'.run[|k.run|] == t;
    assert forall x :: x in k'.run <==> x in k.run || x == t;
  }

  // nothing changes but mutexes, and the run queue may have got longer
  lemma AwakeMore(k: Kernel, k': Kernel)
    requires AwakeOk(k) && k'.mutexes.Keys == k.mutexes.Keys
    requires forall x :: x in k.run ==> x in k'.run
    requires forall x :: x in k'.point ==> if x in k.point then k'.point[x] == k.point[x] else x in k'.run
    requires forall x :: x in k.timers.timers ==> x in k'.timers.timers || x in k'.run
    requires forall j :: j in k.mutexes ==> k'.mutexes[j].waiters == k.mutexes[j].waiters
    requires forall j :: j in k.mutexes && k'.mutexes[j].locker == Free && k'.mutexes[j].waiters != [] ==>
               k.mutexes[j].locker == Free || k'.mutexes[j].waiters[0] in k'.run
    ensures AwakeOk(k')
  {}

  // schedule_task touches the run queue only
  lemma ScheduleFrame(k: Kernel, t: Task)
    ensures var k' := ScheduleTask(k, t);
            && k' == k.(run := k'.run, count := k'.count) && t in k'.run
            && (if t in k.run then k'.run == k.run && k'.count == k.count else k'.run == k.run + [t] && k'.count == k.count + 1)
  {
    if t !in k.run { assert (k.run + [t])[|k.run|] == t; }
  }

  // what Unlock leaves alone, and whom it wakes
  lemma UnlockShape(k: Kernel, m: nat)
    requires m in k.mutexes && m in k.held
    ensures var k' := Unlock(k, m); var ws := k.mutexes[m].waiters;
            && k'.current == k.current && k'.timers == k.timers && k'.point == k.point
            && k'.mutexes.Keys == k.mutexes.Keys && k'.held.Keys == k.held.Keys
            && (forall j :: j in k.mutexes ==> k'.mutexes[j].waiters == k.mutexes[j].waiters)
            && (forall j :: j in k.mutexes ==> k'.mutexes[j].locker == Free || k'.mutexes[j].locker == k.mutexes[j].locker)
            && (forall j :: j in k.mutexes && k'.mutexes[j].locker == Free && k.mutexes[j].locker != Free ==> j == m && (ws != [] ==> ws[0] in k'.run))
            && (if k'.run == k.run then k'.count == k.count else
                ws != [] && ws[0] !in k.run && k'.run == k.run + [ws[0]] && k'.count == k.count + 1)
  {
    hide ScheduleTask;
    var mu := k.mutexes[m];
    if mu.locker == By(k.current) && mu.nesting == 1 && mu.waiters != [] {
      ScheduleFrame(Release(k, m), mu.waiters[0]);
      assert |k.run + [mu.waiters[0]]| != |k.run|;
    }
  }

  lemma UnlockOk(k: Kernel, m: nat)
    requires Inv(k) && m in k.mutexes && m in k.held
    ensures Inv(Unlock(k, m)) && Unlock(k, m).current == k.current && k.run <= Unlock(k, m).run
  {
    hide Unlock, QueueOk, Distinct, WaitersOf;
    var mu := k.mutexes[m];
    var k' := Unlock(k, m);
    UnlockShape(k, m);
    if mu.waiters != [] { FirstWaiter(k, m); }
    WaitKept(k, k');
    if k'.run != k.run {
      Appended(k, k', mu.waiters[0]);
    } else {
      assert RunOk(k') && SleepOk(k');
    }
    hide RunOk, SleepOk, WaitOk;
    AwakeMore(k, k');
  }

  lemma CancelOk(k: Kernel, t: Task)
    requires Inv(k) && t in k.point
    ensures Inv(CancelSleep(k, t)) && CancelSleep(k, t).current == k.current && k.run <= CancelSleep(k, t).run
  {
    UnlinkOk(k.timers, t);
    var k' := CancelSleep(k, t);
    hide QueueOk, Unregister, Distinct, WaitersOf;
    WaitKept(k, k');
    if t !in k.run {
      Appended(k, k', t);
    } else {
      assert RunOk(k') && SleepOk(k');
    }
    hide RunOk, SleepOk, WaitOk;
    AwakeMore(k, k');
  }

  lemma UnlinkOk(q: Queue, t: Task)
    requires QueueOk(q)
    ensures QueueOk(Unregister(q, t)) && forall x :: x in Unregister(q, t).timers <==> x in q.timers && x != t
  {
    WithoutIs(q.timers, t);
    if t in q.timers {
      var i := DequeueIs(q.timers, t);
      CutSorted(q.timers, q.when, i);
    }
  }

  lemma StartOk(k: Kernel, t: Task)
    requires Inv(k) && t !in k.point
    ensures Inv(StartTask(k, t)) && StartTask(k, t).current == k.current && k.run <= StartTask(k, t).run
  {
    var k' := StartTask(k, t);
    hide QueueOk, Distinct;
    Appended(k, k', t);
    forall j | j in k'.mutexes ensures WaitersOf(k', j) { assert WaitersOf(k, j); }
    assert WaitOk(k');
    hide RunOk, SleepOk, WaitOk, WaitersOf;
    AwakeMore(k, k');
  }

  // ---------------- the timer interrupt ----------------

  ghost predicate Pending(fired: seq<Fired>, t: Task) {
    exists i :: 0 <= i < |fired| && fired[i].timer == t
  }

  // as AwakeOk, but for tasks whose timers fired and whose callbacks are still to run
  ghost predicate AwakeBut(k: Kernel, fired: seq<Fired>) {
    && (forall t :: t in k.point ==> t in k.run || t in k.timers.timers || k.point[t].Blocked? || Pending(fired, t))
    && (forall m :: m in k.mutexes && k.mutexes[m].locker == Free && k.mutexes[m].waiters != [] ==> k.mutexes[m].waiters[0] in k.run)
  }

  lemma {:induction false} WakeOk(k: Kernel, fired: seq<Fired>)
    requires RunOk(k) && SleepOk(k) && WaitOk(k) && AwakeBut(k, fired)
    requires forall t :: Pending(fired, t) ==> t in k.point && t !in k.timers.timers
    ensures Between(Wake(k, fired)) && k.run <= Wake(k, fired).run && Wake(k, fired).current == k.current && k.run != []
    decreases |fired|
  {
    hide QueueOk, Distinct, WaitersOf;
    if fired == [] {
      assert AwakeOk(k);
    } else {
      var t := fired[0].timer;
      var k' := ScheduleTask(k, t);
      assert Pending(fired, t);
      forall x ensures Pending(fired, x) <==> x == t || Pending(fired[1..], x) { PendingTail(fired, x); }
      if t !in k.run { Appended(k, k', t); }
      WaitKept(k, k');
      assert AwakeBut(k', fired[1..]);
      hide RunOk, SleepOk, WaitOk, AwakeBut;
      WakeOk(k', fired[1..]);
    }
  }

  lemma PendingTail(fired: seq<Fired>, x: Task)
    requires fired != []
    ensures Pending(fired, x) <==> x == fired[0].timer || Pending(fired[1..], x)
  {
    if Pending(fired, x) {
      var i :| 0 <= i < |fired| && fired[i].timer == x;
      if i > 0 { assert fired[1..][i - 1] == fired[i]; }
    }
    if Pending(fired[1..], x) {
      var i :| 0 <= i < |fired[1..]| && fired[1..][i].timer == x;
      assert fired[i + 1].timer == x;
    }
  }

  lemma {:induction false} NoneFresh(q: Queue, turns: seq<Turn>, n: nat)
    requires NoRequests(turns)
    ensures AllFresh(q, turns) && (n <= |turns| ==> Added(turns, n) == multiset{})
    decreases |turns|, n
  {
    if turns != [] {
      assert NoRequests(turns[1..]);
      assert turns[0].requests == [];
      var q' := q.(timers := if q.timers == [] then [] else q.timers[1..]);
      NoneFresh(RegisterAll(q', []), turns[1..], if n == 0 then 0 else n - 1);
    }
  }

  lemma {:induction false} FiredCounts(fired: seq<Fired>, t: Task)
    ensures t in FiredTimers(fired) <==> Pending(fired, t)
    decreases |fired|
  {
    if fired != [] {
      FiredCounts(fired[1..], t);
      PendingTail(fired, t);
    }
  }

  // a fired timer was queued, and is not queued any more
  lemma FiredOff(q: Queue, turns: seq<Turn>)
    requires QueueOk(q) && NoRequests(turns)
    ensures var r := Interrupt(q, turns);
            && (r.done ==> QueueOk(r.queue))
            && forall t :: t in q.timers <==> Pending(r.fired, t) || t in r.queue.timers
    ensures var r := Interrupt(q, turns); forall t :: Pending(r.fired, t) ==> t !in r.queue.timers
  {
    var r := Interrupt(q, turns);
    NoneFresh(q, turns, |r.fired|);
    InterruptEnds(q, turns);
    FiredOnce(q, turns);
    assert multiset(q.timers) == FiredTimers(r.fired) + multiset(r.queue.timers) by {
      assert multiset(q.timers) + multiset{} == multiset(q.timers);
    }
    forall t ensures (t in q.timers <==> Pending(r.fired, t) || t in r.queue.timers) && (Pending(r.fired, t) ==> t !in r.queue.timers) {
      FiredCounts(r.fired, t);
      OnlyOnce(q.timers, t);
      assert multiset(q.timers)[t] == FiredTimers(r.fired)[t] + multiset(r.queue.timers)[t];
      assert t in r.queue.timers <==> t in multiset(r.queue.timers);
      assert t in q.timers <==> t in multiset(q.timers);
    }
  }

  lemma OnlyOnce(s: seq<nat>, t: nat)
    requires Distinct(s)
    ensures multiset(s)[t] <= 1
  {
    if t in s {
      var i :| 0 <= i < |s| && s[i] == t;
      assert s == s[..i] + [t] + s[i + 1..];
      assert t !in s[..i] && t !in s[i + 1..];
      assert multiset(s) == multiset(s[..i]) + multiset{t} + multiset(s[i + 1..]);
    }
  }

  lemma HaltBetween(k: Kernel, turns: seq<Turn>)
    requires Inv(k) && NoRequests(turns) && Interrupt(k.timers, turns).done
    ensures var r := Interrupt(k.timers, turns); var k' := Wake(k.(timers := r.queue), r.fired);
            Between(k') && k.run <= k'.run && k'.current == k.current
  {
    hide QueueOk, Distinct, WaitersOf;
    FiredOff(k.timers, turns);
    var r := Interrupt(k.timers, turns);
    var k1 := k.(timers := r.queue);
    hide Interrupt, NoRequests;
    WaitKept(k, k1);
    assert RunOk(k1) && SleepOk(k1);
    forall t | Pending(r.fired, t) ensures t in k.point { assert t in k.timers.timers; }
    assert AwakeBut(k1, r.fired);
    WakeOk(k1, r.fired);
  }

  // ---------------- every step, every run ----------------

  lemma StepOk(k: Kernel, s: Step, recheck: bool)
    requires Inv(k) && Enabled(k, s)
    ensures Inv(Next(k, s, recheck))
  {
    hide Inv, Between, Wake, Interrupt;
    InvIs(k);
    match s
    case Yield => GiveupOk(k, recheck);
    case Sleep(w) => SleepBetween(k, w); SwitchOk(k.(timers := RegisterAbsolute(k.timers, k.current, w), run := Without(k.run, k.current), count := k.count - 1), recheck);
    case Cancel(t) => CancelOk(k, t);
    case Start(t) => StartOk(k, t);
    case LockMutex(m) => LockOk(k, m, recheck);
    case UnlockMutex(m) => UnlockOk(k, m);
    case Idle(turns) =>
      HaltBetween(k, turns);
      var r := Interrupt(k.timers, turns);
      var k' := Wake(k.(timers := r.queue), r.fired);
      GiveupOk(k', recheck);
  }

  lemma InvIs(k: Kernel)
    requires Inv(k)
    ensures Between(k) && k.run != [] && k.current == k.run[0] && k.current in k.point && k.point[k.current] == Running
  {
    assert k.current in k.run;
  }

  lemma LockOk(k: Kernel, m: nat, recheck: bool)
    requires Inv(k) && k.current != IDLE && m in k.mutexes && m in k.held
    ensures Inv(Lock(k, m, recheck))
  {
    InvIs(k);
    hide RunOk, SleepOk, WaitOk, AwakeOk, Switch;
    var mu := k.mutexes[m];
    if mu.locker != Free && mu.locker != By(k.current) {
      LockBetween(k, m);
      SwitchOk(k.(mutexes := k.mutexes[m := mu.(waiters := mu.waiters + [k.current])], point := k.point[k.current := Blocked(m)],
                  run := Without(k.run, k.current), count := k.count - 1), recheck);
    } else {
      TakeOk(k, m);
    }
  }

  // Over every run no task is stranded, the head of the run queue runs, and idle is queued.
  lemma {:induction false} RunsOk(k: Kernel, steps: seq<Step>, recheck: bool)
    requires Inv(k) && Legal(k, steps, recheck)
    ensures Inv(Exec(k, steps, recheck))
    decreases |steps|
  {
    if steps != [] {
      StepOk(k, steps[0], recheck);
      RunsOk(Next(k, steps[0], recheck), steps[1..], recheck);
    }
  }

  // the running task does not sleep
  lemma Awake(k: Kernel)
    requires Inv(k)
    ensures k.current in k.run && k.current !in k.timers.timers
  {}

  // a mutex set up by mutex_init
  lemma NewMutex(k: Kernel, m: nat)
    requires m !in k.mutexes && m !in k.held
    ensures var k' := k.(mutexes := k.mutexes[m := Mutex(Free, 0, [])], held := k.held[m := multiset{}]);
      (Inv(k) ==> Inv(k')) && (Exclusive(k) ==> Exclusive(k'))
  {
    hide QueueOk, Distinct;
    var k' := k.(mutexes := k.mutexes[m := Mutex(Free, 0, [])], held := k.held[m := multiset{}]);
    assert Distinct([]) by { NoneDistinct(); }
    if Inv(k) {
      forall x | x in k'.mutexes ensures WaitersOf(k', x) {
        if x != m { assert WaitersOf(k, x); }
      }
    }
  }

  lemma NoneDistinct()
    ensures Distinct([])
  {}

  // ---------------- first come, first served, over every run ----------------

  // the turns at which the linked timers were registered, and the next turn, after a step
  function TurnsNext(k: Kernel, s: Step, turn: map<nat, nat>, n: nat): (map<nat, nat>, nat) {
    match s
    case Sleep(_) => (turn[k.current := n], n + 1)
    case Idle(turns) => TurnsAfter(k.timers, turn, n, turns)
    case _ => (turn, n)
  }

  function TurnsExec(k: Kernel, steps: seq<Step>, recheck: bool, turn: map<nat, nat>, n: nat): (map<nat, nat>, nat)
    requires Legal(k, steps, recheck)
    decreases |steps|
  {
    if steps == [] then (turn, n)
    else
      var t := TurnsNext(k, steps[0], turn, n);
      TurnsExec(Next(k, steps[0], recheck), steps[1..], recheck, t.0, t.1)
  }

  lemma {:induction false} SwitchTimers(k: Kernel, recheck: bool)
    ensures Switch(k, recheck).timers == k.timers
    decreases |k.run|
  {
    if k.run != [] && recheck && Overtaken(k) { SwitchTimers(k.(run := k.run[1..], count := k.count - 1), recheck); }
  }

  lemma {:induction false} WakeTimers(k: Kernel, fired: seq<Fired>)
    ensures Wake(k, fired).timers == k.timers
    decreases |fired|
  {
    if fired != [] { WakeTimers(ScheduleTask(k, fired[0].timer), fired[1..]); }
  }

  // the timers after a step
  lemma NextTimers(k: Kernel, s: Step, recheck: bool)
    requires Enabled(k, s)
    ensures Next(k, s, recheck).timers == match s
      case Sleep(w) => RegisterAbsolute(k.timers, k.current, w)
      case Cancel(t) => Unregister(k.timers, t)
      case Idle(turns) => Interrupt(k.timers, turns).queue
      case _ => k.timers
  {
    hide Switch, Wake, Interrupt, RegisterAbsolute, Unregister, Without;
    match s
    case Yield => SwitchTimers(k.(run := Without(k.run, k.current) + [k.current]), recheck);
    case Sleep(w) =>
      var k1 := k.(timers := RegisterAbsolute(k.timers, k.current, w));
      SwitchTimers(k1.(run := Without(k1.run, k1.current), count := k1.count - 1), recheck);
    case LockMutex(m) =>
      var mu := k.mutexes[m];
      var k1 := k.(mutexes := k.mutexes[m := mu.(waiters := mu.waiters + [k.current])], point := k.point[k.current := Blocked(m)]);
      SwitchTimers(k1.(run := Without(k1.run, k1.current), count := k1.count - 1), recheck);
    case Idle(turns) =>
      var r := Interrupt(k.timers, turns);
      var k1 := Wake(k.(timers := r.queue), r.fired);
      WakeTimers(k.(timers := r.queue), r.fired);
      SwitchTimers(k1.(run := Without(k1.run, k1.current) + [k1.current]), recheck);
    case _ =>
  }

  lemma StepFirstCome(k: Kernel, s: Step, recheck: bool, turn: map<nat, nat>, n: nat)
    requires Inv(k) && Enabled(k, s) && Queued(k.timers, turn, n)
    ensures var t := TurnsNext(k, s, turn, n); Queued(Next(k, s, recheck).timers, t.0, t.1)
  {
    NextTimers(k, s, recheck);
    assert k.current in k.run && SleepOk(k);
    hide Next, Interrupt, RegisterAbsolute, Unregister, TurnsAfter, Queued;
    match s
    case Sleep(w) => AbsoluteQueued(k.timers, turn, n, k.current, w);
    case Cancel(t) => CancelQueued(k.timers, turn, n, t);
    case Idle(turns) =>
      NoneFresh(k.timers, turns, 0);
      InterruptQueued(k.timers, turn, n, turns);
    case _ =>
  }

  lemma CancelQueued(q: Queue, turn: map<nat, nat>, n: nat, t: Task)
    requires QueueOk(q) && Queued(q, turn, n)
    ensures Queued(Unregister(q, t), turn, n)
  {
    UnregisterOk(q, turn, t);
    OrderOf(Unregister(q, t));
  }

  // Over every run, sleepers with the same deadline are queued in the order they went to sleep.
  lemma {:induction false} RunsFirstCome(k: Kernel, steps: seq<Step>, recheck: bool, turn: map<nat, nat>, n: nat)
    requires Inv(k) && Legal(k, steps, recheck) && Queued(k.timers, turn, n)
    ensures var t := TurnsExec(k, steps, recheck, turn, n); Queued(Exec(k, steps, recheck).timers, t.0, t.1)
    decreases |steps|
  {
    hide Inv, Queued, Next, Enabled, TurnsNext;
    if steps != [] {
      StepOk(k, steps[0], recheck);
      StepFirstCome(k, steps[0], recheck, turn, n);
      var t := TurnsNext(k, steps[0], turn, n);
      RunsFirstCome(Next(k, steps[0], recheck), steps[1..], recheck, t.0, t.1);
    }
  }

  // idle waits for an interrupt only when every other task sleeps or waits for a taken mutex
  lemma HaltsAlone(k: Kernel, turns: seq<Turn>)
    requires Inv(k) && Enabled(k, Idle(turns))
    ensures k.run == [IDLE]
    ensures forall t :: t in k.point && t != IDLE ==>
              t in k.timers.timers || (k.point[t].Blocked? && k.point[t].mutex in k.mutexes && k.mutexes[k.point[t].mutex].locker != Free)
  {
    hide QueueOk;
    assert |k.run| == 1 && IDLE in k.run;
    assert k.run == [IDLE];
    forall t | t in k.point && t != IDLE && t !in k.timers.timers
      ensures k.point[t].Blocked? && k.point[t].mutex in k.mutexes && k.mutexes[k.point[t].mutex].locker != Free
    {
      var m := k.point[t].mutex;
      assert WaitersOf(k, m);
      if k.mutexes[m].locker == Free { FirstWaiter(k, m); }
    }
  }

  // ---------------- switches, and fairness ----------------

  predicate Blocks(k: Kernel, m: nat) {
    m in k.mutexes && k.mutexes[m].locker != Free && k.mutexes[m].locker != By(k.current)
  }

  // the steps that end with a switch
  predicate IsSwitch(k: Kernel, s: Step) {
    match s
    case Yield => true
    case Sleep(_) => true
    case LockMutex(m) => Blocks(k, m)
    case Idle(_) => true
    case _ => false
  }

  // the state such a step calls schedule() in
  function AtSwitch(k: Kernel, s: Step): Kernel
    requires Enabled(k, s) && IsSwitch(k, s)
  {
    match s
    case Yield => k.(run := Without(k.run, k.current) + [k.current])
    case Sleep(w) => k.(timers := RegisterAbsolute(k.timers, k.current, w), run := Without(k.run, k.current), count := k.count - 1)
    case LockMutex(m) =>
      var mu := k.mutexes[m];
      k.(mutexes := k.mutexes[m := mu.(waiters := mu.waiters + [k.current])], point := k.point[k.current := Blocked(m)],
         run := Without(k.run, k.current), count := k.count - 1)
    case Idle(turns) =>
      var r := Interrupt(k.timers, turns);
      var k' := Wake(k.(timers := r.queue), r.fired);
      k'.(run := Without(k'.run, k'.current) + [k'.current])
  }

  lemma NextIsSwitch(k: Kernel, s: Step, recheck: bool)
    requires Inv(k) && Enabled(k, s) && IsSwitch(k, s)
    ensures Next(k, s, recheck) == Switch(AtSwitch(k, s), recheck) && Between(AtSwitch(k, s))
  {
    hide Inv, Between, Wake, Interrupt, Switch;
    InvIs(k);
    match s
    case Yield =>
      RotateOk(k);
    case Sleep(w) => SleepBetween(k, w);
    case LockMutex(m) => LockBetween(k, m);
    case Idle(turns) =>
      HaltBetween(k, turns);
      var r := Interrupt(k.timers, turns);
      RotateOk(Wake(k.(timers := r.queue), r.fired));
  }

  lemma RotateOk(k: Kernel)
    requires Between(k) && k.run != [] && k.current == k.run[0]
    ensures Between(k.(run := Without(k.run, k.current) + [k.current]))
    ensures Without(k.run, k.current) + [k.current] == k.run[1..] + [k.run[0]]
  {
    WithoutIs(k.run, k.current);
    SameRun(k, Without(k.run, k.current) + [k.current]);
  }

  // a task on the run queue moves up by one at each switch, and stays at the other steps
  lemma MovesUp(k: Kernel, s: Step, p: nat)
    requires Inv(k) && Enabled(k, s) && 0 < p < |k.run|
    ensures var q := if IsSwitch(k, s) then p - 1 else p; var k' := Next(k, s, false);
            Inv(k') && q < |k'.run| && k'.run[q] == k.run[p]
  {
    hide Between, Wake, Interrupt, Switch, Without;
    StepOk(k, s, false);
    InvIs(k);
    if IsSwitch(k, s) {
      NextIsSwitch(k, s, false);
      SwitchOk(AtSwitch(k, s), false);
      AtSwitchRun(k, s, p);
    } else {
      match s
      case Cancel(t) => CancelOk(k, t);
      case Start(t) => StartOk(k, t);
      case LockMutex(m) =>
      case UnlockMutex(m) => UnlockOk(k, m);
    }
  }

  lemma AtSwitchRun(k: Kernel, s: Step, p: nat)
    requires Inv(k) && Enabled(k, s) && IsSwitch(k, s) && 0 < p < |k.run|
    ensures p - 1 < |AtSwitch(k, s).run| && AtSwitch(k, s).run[p - 1] == k.run[p]
  {
    hide Wake, Interrupt, QueueOk;
    WithoutIs(k.run, k.current);
  }

  function SwitchCount(k: Kernel, steps: seq<Step>): nat
    requires Legal(k, steps, false)
    decreases |steps|
  {
    if steps == [] then 0 else (if IsSwitch(k, steps[0]) then 1 else 0) + SwitchCount(Next(k, steps[0], false), steps[1..])
  }

  // t runs at some point of the run
  predicate GetsCpu(k: Kernel, steps: seq<Step>, t: Task)
    requires Legal(k, steps, false)
    decreases |steps|
  {
    k.current == t || (steps != [] && GetsCpu(Next(k, steps[0], false), steps[1..], t))
  }

  // A task at position p of the run queue runs within p switches.
  lemma {:induction false} Fair(k: Kernel, steps: seq<Step>, p: nat)
    requires Inv(k) && Legal(k, steps, false) && p < |k.run| && SwitchCount(k, steps) >= p
    ensures GetsCpu(k, steps, k.run[p])
    decreases |steps|
  {
    hide Next, Enabled, IsSwitch, Between;
    if p > 0 && steps != [] {
      LegalStep(k, steps);
      MovesUp(k, steps[0], p);
      Fair(Next(k, steps[0], false), steps[1..], if IsSwitch(k, steps[0]) then p - 1 else p);
    }
  }

  lemma LegalStep(k: Kernel, steps: seq<Step>)
    requires Legal(k, steps, false) && steps != []
    ensures Enabled(k, steps[0]) && Legal(Next(k, steps[0], false), steps[1..], false)
  {}

  // ---------------- mutual exclusion ----------------

  // only the locker is between lock and unlock, and nesting counts its outstanding locks
  ghost predicate Owned(mu: Mutex, held: multiset<Task>) {
    mu.nesting < NESTING_LIMIT && match mu.locker
    case Free => mu.nesting == 0 && held == multiset{}
    case By(t) => mu.nesting > 0 && held == multiset{}[t := mu.nesting]
  }

  ghost predicate Exclusive(k: Kernel) {
    k.mutexes.Keys == k.held.Keys && forall m :: m in k.mutexes ==> Owned(k.mutexes[m], k.held[m])
  }

  lemma TakeOwned(k: Kernel, m: nat)
    requires m in k.mutexes && m in k.held && Owned(k.mutexes[m], k.held[m]) && !Take(k, m).panicked
    ensures var k' := Take(k, m);
            Owned(k'.mutexes[m], k'.held[m]) <==> k.mutexes[m].locker == Free || k.mutexes[m].locker == By(k.current)
  {
    var mu, h := k.mutexes[m], k.held[m];
    var h' := h + multiset{k.current};
    assert (mu.nesting + 1) % NESTING_LIMIT != 0;
    match mu.locker
    case Free => assert h' == multiset{}[k.current := 1];
    case By(t) =>
      if t == k.current {
        assert h' == multiset{}[t := mu.nesting + 1];
      } else {
        assert h'[t] == mu.nesting;
      }
  }

  // A step keeps mutual exclusion exactly when it does not switch to a task whose mutex was
  // taken again while it waited.
  lemma StepExclusive(k: Kernel, s: Step)
    requires Inv(k) && Exclusive(k) && Enabled(k, s) && !Next(k, s, false).panicked
    ensures Exclusive(Next(k, s, false)) <==> !(IsSwitch(k, s) && Overtaken(AtSwitch(k, s)))
  {
    hide Inv, Between, Wake, Interrupt, Switch, Owned;
    if IsSwitch(k, s) {
      NextIsSwitch(k, s, false);
      SwitchExclusive(AtSwitch(k, s), false) by { AtSwitchExclusive(k, s); }
    } else {
      match s
      case Cancel(t) =>
      case Start(t) =>
      case LockMutex(m) => TakeOwned(k, m);
      case UnlockMutex(m) => UnlockExclusive(k, m);
    }
  }

  lemma AtSwitchExclusive(k: Kernel, s: Step)
    requires Exclusive(k) && Enabled(k, s) && IsSwitch(k, s)
    ensures Exclusive(AtSwitch(k, s)) && AtSwitch(k, s).panicked == k.panicked
  {
    hide Interrupt, Without;
    if s.Idle? {
      var r := Interrupt(k.timers, s.turns);
      WakeKeeps(k.(timers := r.queue), r.fired);
    }
  }

  lemma {:induction false} WakeKeeps(k: Kernel, fired: seq<Fired>)
    ensures Wake(k, fired).mutexes == k.mutexes && Wake(k, fired).held == k.held && Wake(k, fired).panicked == k.panicked
    ensures Wake(k, fired).point == k.point
    decreases |fired|
  {
    if fired != [] { WakeKeeps(ScheduleTask(k, fired[0].timer), fired[1..]); }
  }

  lemma UnlockExclusive(k: Kernel, m: nat)
    requires Exclusive(k) && m in k.mutexes && m in k.held
    ensures Exclusive(Unlock(k, m))
  {
    var k' := Unlock(k, m);
    assert Owned(k.mutexes[m], k.held[m]);
    UnlockHeld(k, m);
    hide Unlock;
    if k'.mutexes[m].nesting < k.mutexes[m].nesting { OneLess(k.current, k.mutexes[m].nesting); }
    forall j | j in k'.mutexes ensures Owned(k'.mutexes[j], k'.held[j]) { assert j != m ==> Owned(k.mutexes[j], k.held[j]); }
  }

  lemma ReleaseIs(k: Kernel, m: nat)
    requires m in k.mutexes && m in k.held && k.mutexes[m].nesting > 0
    ensures var k' := Release(k, m); var mu := k.mutexes[m];
            && k'.mutexes.Keys == k.mutexes.Keys && k'.held.Keys == k.held.Keys
            && (forall j :: j in k.mutexes && j != m ==> k'.mutexes[j] == k.mutexes[j])
            && (forall j :: j in k.held && j != m ==> k'.held[j] == k.held[j])
            && k'.held[m] == k.held[m] - multiset{k.current}
            && k'.mutexes[m] == Mutex(if mu.nesting == 1 then Free else mu.locker, mu.nesting - 1, mu.waiters)
  {}

  lemma UnlockHeld(k: Kernel, m: nat)
    requires m in k.mutexes && m in k.held
    ensures var k' := Unlock(k, m); var mu := k.mutexes[m];
            && k'.mutexes.Keys == k.mutexes.Keys && k'.held.Keys == k.held.Keys
            && (forall j :: j in k.mutexes && j != m ==> k'.mutexes[j] == k.mutexes[j])
            && (forall j :: j in k.held && j != m ==> k'.held[j] == k.held[j])
            && (if mu.locker != By(k.current) || mu.nesting == 0 then k'.mutexes[m] == mu && k'.held[m] == k.held[m] else
                  && k'.mutexes[m].nesting == mu.nesting - 1 && k'.held[m] == k.held[m] - multiset{k.current}
                  && k'.mutexes[m].locker == if mu.nesting == 1 then Free else mu.locker)
  {
    hide ScheduleTask, Release;
    var mu := k.mutexes[m];
    if mu.locker == By(k.current) && mu.nesting > 0 {
      ReleaseIs(k, m);
      if mu.waiters != [] { ScheduleFrame(Release(k, m), mu.waiters[0]); }
    }
  }

  lemma OneLess(t: Task, n: nat)
    requires n > 0
    ensures multiset{}[t := n] - multiset{t} == multiset{}[t := n - 1] && multiset{}[t := 0] == multiset{}
  {}

  lemma {:induction false} SwitchExclusive(k: Kernel, recheck: bool)
    requires Between(k) && Exclusive(k) && !Switch(k, recheck).panicked
    ensures if recheck then Exclusive(Switch(k, recheck)) else (Exclusive(Switch(k, recheck)) <==> !Overtaken(k))
    decreases |k.run|
  {
    hide RunOk, SleepOk, WaitOk, AwakeOk, Resume, Exclusive;
    assert k.run != [] by { Nonempty(k); }
    if recheck && Overtaken(k) {
      DropOvertaken(k);
      assert Exclusive(k.(run := k.run[1..], count := k.count - 1)) by { SameMutexes(k, k.(run := k.run[1..], count := k.count - 1)); }
      SwitchExclusive(k.(run := k.run[1..], count := k.count - 1), recheck);
    } else {
      ResumeExclusive(k);
    }
  }

  lemma SameMutexes(k: Kernel, k': Kernel)
    requires Exclusive(k) && k'.mutexes == k.mutexes && k'.held == k.held
    ensures Exclusive(k')
  {}

  lemma ResumeExclusive(k: Kernel)
    requires Between(k) && Exclusive(k) && k.run != []
    requires !Resume(k.(current := k.run[0])).panicked
    ensures Exclusive(Resume(k.(current := k.run[0]))) <==> !Overtaken(k)
  {
    hide SleepOk, AwakeOk, Distinct, Without, Owned, Exclusive;
    var t := k.run[0];
    assert t in k.run;
    var k1 := k.(current := t);
    assert Exclusive(k1) by { SameMutexes(k, k1); }
    if k.point[t].Blocked? {
      var m := k.point[t].mutex;
      assert WaitersOf(k, m);
      assert k.mutexes.Keys == k.held.Keys;
      hide WaitersOf;
      BlockedTake(k1, m);
    }
  }

  lemma BlockedTake(k: Kernel, m: nat)
    requires Exclusive(k) && k.current in k.point && k.point[k.current] == Blocked(m) && m in k.mutexes && m in k.held
    requires k.mutexes[m].locker != By(k.current) && !Resume(k).panicked
    ensures Exclusive(Resume(k)) <==> k.mutexes[m].locker == Free
  {
    hide Without, Owned;
    var mu := k.mutexes[m];
    var k2 := k.(mutexes := k.mutexes[m := mu.(waiters := Without(mu.waiters, k.current))], point := k.point[k.current := Running]);
    OwnedSame(mu, k2.mutexes[m], k.held[m]);
    TakeOwned(k2, m);
    var k' := Take(k2, m);
    assert k' == Resume(k);
    forall j | j in k'.mutexes && j != m ensures Owned(k'.mutexes[j], k'.held[j]) { assert Owned(k.mutexes[j], k.held[j]); }
  }

  lemma OwnedSame(a: Mutex, b: Mutex, held: multiset<Task>)
    requires a.locker == b.locker && a.nesting == b.nesting
    ensures Owned(a, held) == Owned(b, held)
  {}

  // a waiter whose mutex was taken again is switched to
  predicate Overtakes(k: Kernel, s: Step) {
    Enabled(k, s) && IsSwitch(k, s) && Overtaken(AtSwitch(k, s))
  }

  predicate NeverOvertakes(k: Kernel, steps: seq<Step>)
    requires Legal(k, steps, false)
    decreases |steps|
  {
    steps == [] || (!Overtakes(k, steps[0]) && NeverOvertakes(Next(k, steps[0], false), steps[1..]))
  }

  ghost predicate AlwaysExclusive(k: Kernel, steps: seq<Step>, recheck: bool)
    requires Legal(k, steps, recheck)
    decreases |steps|
  {
    Exclusive(k) && (steps == [] || AlwaysExclusive(Next(k, steps[0], recheck), steps[1..], recheck))
  }

  // Mutual exclusion holds all along a run that does not panic exactly when no waiter is
  // resumed with its mutex taken.
  lemma {:induction false} ExclusionIff(k: Kernel, steps: seq<Step>)
    requires Inv(k) && Exclusive(k) && Legal(k, steps, false) && !Exec(k, steps, false).panicked
    ensures AlwaysExclusive(k, steps, false) <==> NeverOvertakes(k, steps)
    decreases |steps|
  {
    hide Next, Enabled, IsSwitch, Between, Exclusive, Overtakes, Inv;
    if steps != [] {
      LegalStep(k, steps);
      var k' := Next(k, steps[0], false);
      StepOk(k, steps[0], false);
      NoPanicYet(k', steps[1..], false);
      OneStep(k, steps[0]);
      if Exclusive(k') { ExclusionIff(k', steps[1..]); } else { NotExclusive(k', steps[1..]); }
    }
  }

  lemma NotExclusive(k: Kernel, steps: seq<Step>)
    requires Legal(k, steps, false) && !Exclusive(k)
    ensures !AlwaysExclusive(k, steps, false)
  {}

  lemma OneStep(k: Kernel, s: Step)
    requires Inv(k) && Exclusive(k) && Enabled(k, s) && !Next(k, s, false).panicked
    ensures Exclusive(Next(k, s, false)) <==> !Overtakes(k, s)
  {
    hide Next, Inv, Exclusive, Overtaken;
    StepExclusive(k, s);
  }

  lemma NoPanicYet(k: Kernel, steps: seq<Step>, recheck: bool)
    requires Legal(k, steps, recheck) && !Exec(k, steps, recheck).panicked
    ensures !k.panicked
  {}

  // With the locker looked at again in a loop, mutual exclusion would hold along every run.
  lemma {:induction false} RecheckedExclusion(k: Kernel, steps: seq<Step>)
    requires Inv(k) && Exclusive(k) && Legal(k, steps, true) && !Exec(k, steps, true).panicked
    ensures AlwaysExclusive(k, steps, true)
    decreases |steps|
  {
    hide Next, Enabled, IsSwitch, Between, Exclusive, Inv;
    if steps != [] {
      assert Enabled(k, steps[0]) && Legal(Next(k, steps[0], true), steps[1..], true);
      var k' := Next(k, steps[0], true);
      StepOk(k, steps[0], true);
      NoPanicYet(k', steps[1..], true);
      StepRechecked(k, steps[0]);
      RecheckedExclusion(k', steps[1..]);
    }
  }

  lemma StepRechecked(k: Kernel, s: Step)
    requires Inv(k) && Exclusive(k) && Enabled(k, s) && !Next(k, s, true).panicked
    ensures Exclusive(Next(k, s, true))
  {
    hide Inv, Between, Wake, Interrupt, Switch, Owned;
    if IsSwitch(k, s) {
      NextIsSwitch(k, s, true);
      SwitchExclusive(AtSwitch(k, s), true) by { AtSwitchExclusive(k, s); }
    } else {
      match s
      case Cancel(t) =>
      case Start(t) =>
      case LockMutex(m) => TakeOwned(k, m);
      case UnlockMutex(m) => UnlockExclusive(k, m);
    }
  }

  // ---------------- a sufficient condition ----------------

  // a locked mutex has no waiter on the run queue, a free one only the first
  ghost predicate Orderly(k: Kernel) {
    forall m, i :: m in k.mutexes && 0 <= i < |k.mutexes[m].waiters| && k.mutexes[m].waiters[i] in k.run ==>
      k.mutexes[m].locker == Free && i == 0
  }

  // nobody takes a free mutex that others wait for, or wakes a task that waits for one
  predicate Patient(k: Kernel, s: Step) {
    match s
    case LockMutex(m) => m in k.mutexes && (k.mutexes[m].locker == Free ==> k.mutexes[m].waiters == [])
    case Cancel(t) => t in k.point && k.point[t] == Running
    case _ => true
  }

  // an orderly state switches to no overtaken waiter
  lemma OrderlyClean(k: Kernel)
    requires WaitOk(k) && Orderly(k)
    ensures !Overtaken(k)
  {
    if k.run != [] && k.run[0] in k.point && k.point[k.run[0]].Blocked? {
      var t := k.run[0];
      var m := k.point[t].mutex;
      assert WaitersOf(k, m);
      var i :| 0 <= i < |k.mutexes[m].waiters| && k.mutexes[m].waiters[i] == t;
      assert t in k.run;
    }
  }

  // only tasks in ordinary code join the run queue
  lemma OrderlyRun(k: Kernel, k': Kernel)
    requires Orderly(k) && WaitOk(k) && k'.mutexes == k.mutexes
    requires forall x :: x in k'.run ==> x in k.run || x !in k.point || k.point[x] == Running
    ensures Orderly(k')
  {
    forall m, i | m in k.mutexes && 0 <= i < |k.mutexes[m].waiters| && k.mutexes[m].waiters[i] in k'.run
      ensures k.mutexes[m].locker == Free && i == 0
    {
      assert WaitersOf(k, m) && k.mutexes[m].waiters[i] in k.mutexes[m].waiters;
    }
  }

  lemma OrderlyResume(k: Kernel)
    requires Orderly(k) && Between(k) && k.run != [] && k.current == k.run[0]
    ensures Orderly(Resume(k))
  {
    assert k.current in k.run;
    if k.point[k.current].Blocked? {
      var m := k.point[k.current].mutex;
      var ws := k.mutexes[m].waiters;
      assert WaitersOf(k, m);
      var i :| 0 <= i < |ws| && ws[i] == k.current;
      assert i == 0;
      ResumeShape(k);
      WithoutIs(ws, k.current);
      var k' := Resume(k);
      hide Resume, Without, RunOk, SleepOk, WaitOk, AwakeOk, Distinct;
      forall j, n | j in k'.mutexes && 0 <= n < |k'.mutexes[j].waiters| && k'.mutexes[j].waiters[n] in k'.run
        ensures k'.mutexes[j].locker == Free && n == 0
      {}
    }
  }

  lemma OrderlyUnlock(k: Kernel, m: nat)
    requires Orderly(k) && Inv(k) && m in k.mutexes && m in k.held
    ensures Orderly(Unlock(k, m))
  {
    var k' := Unlock(k, m);
    UnlockShape(k, m);
    var ws := k.mutexes[m].waiters;
    assert WaitersOf(k, m);
    hide Unlock, RunOk, SleepOk, AwakeOk;
    forall j, n | j in k'.mutexes && 0 <= n < |k'.mutexes[j].waiters| && k'.mutexes[j].waiters[n] in k'.run
      ensures k'.mutexes[j].locker == Free && n == 0
    {
      OrderlyUnlockAt(k, m, j, n);
    }
  }

  lemma OrderlyUnlockAt(k: Kernel, m: nat, j: nat, n: nat)
    requires Orderly(k) && WaitOk(k) && m in k.mutexes && m in k.held
    requires var k' := Unlock(k, m); j in k'.mutexes && n < |k'.mutexes[j].waiters| && k'.mutexes[j].waiters[n] in k'.run
    ensures Unlock(k, m).mutexes[j].locker == Free && n == 0
  {
    UnlockHeld(k, m);
    UnlockShape(k, m);
    var k' := Unlock(k, m);
    var ws := k.mutexes[m].waiters;
    var x := k.mutexes[j].waiters[n];
    assert WaitersOf(k, m) && WaitersOf(k, j) && x in k.mutexes[j].waiters;
    if x !in k.run {
      assert x == ws[0] && ws[0] in ws;
      UnlockFrees(k, m);
    }
  }

  // a task is woken only when the mutex is freed
  lemma UnlockFrees(k: Kernel, m: nat)
    requires m in k.mutexes && m in k.held && Unlock(k, m).run != k.run
    ensures Unlock(k, m).mutexes[m].locker == Free
  {
    hide ScheduleTask;
    var mu := k.mutexes[m];
    if mu.nesting == 1 && mu.waiters != [] { ScheduleFrame(Release(k, m), mu.waiters[0]); }
  }

  lemma OrderlyAtSwitch(k: Kernel, s: Step)
    requires Orderly(k) && Inv(k) && Enabled(k, s) && IsSwitch(k, s)
    ensures Orderly(AtSwitch(k, s))
  {
    InvIs(k);
    WithoutIs(k.run, k.current);
    hide Interrupt, Without, Inv, QueueOk, Distinct;
    match s
    case Yield => OrderlyRun(k, AtSwitch(k, s));
    case Sleep(w) => OrderlyRun(k, AtSwitch(k, s));
    case LockMutex(m) => OrderlyLock(k, m, AtSwitch(k, s));
    case Idle(turns) => OrderlyHalt(k, turns);
  }

  lemma OrderlyLock(k: Kernel, m: nat, k': Kernel)
    requires Orderly(k) && m in k.mutexes && k.mutexes[m].locker != Free
    requires k'.mutexes == k.mutexes[m := k.mutexes[m].(waiters := k.mutexes[m].waiters + [k.current])]
    requires forall x :: x in k'.run ==> x in k.run && x != k.current
    ensures Orderly(k')
  {}

  // the timers fired belong to sleeping tasks
  lemma OrderlyHalt(k: Kernel, turns: seq<Turn>)
    requires Orderly(k) && Inv(k) && Enabled(k, Idle(turns))
    ensures Orderly(AtSwitch(k, Idle(turns)))
  {
    hide QueueOk, Distinct, WaitersOf;
    var r := Interrupt(k.timers, turns);
    FiredOff(k.timers, turns);
    HaltBetween(k, turns);
    var k1 := Wake(k.(timers := r.queue), r.fired);
    WakeKeeps(k.(timers := r.queue), r.fired);
    WakeRun(k.(timers := r.queue), r.fired);
    WithoutIs(k1.run, k1.current);
    forall t | Pending(r.fired, t) ensures t in k.point && k.point[t] == Running { assert t in k.timers.timers; }
    hide Interrupt, Wake;
    OrderlyRun(k, AtSwitch(k, Idle(turns)));
  }

  lemma {:induction false} WakeRun(k: Kernel, fired: seq<Fired>)
    ensures forall x :: x in Wake(k, fired).run ==> x in k.run || Pending(fired, x)
    decreases |fired|
  {
    if fired != [] {
      WakeRun(ScheduleTask(k, fired[0].timer), fired[1..]);
      forall x ensures Pending(fired, x) <==> x == fired[0].timer || Pending(fired[1..], x) { PendingTail(fired, x); }
    }
  }

  lemma OrderlyStep(k: Kernel, s: Step)
    requires Orderly(k) && Inv(k) && Enabled(k, s) && Patient(k, s)
    ensures Orderly(Next(k, s, false)) && !Overtakes(k, s)
  {
    hide Interrupt, Wake, Without, QueueOk, Distinct, WaitersOf, RunOk, SleepOk, WaitOk, AwakeOk;
    if IsSwitch(k, s) {
      NextIsSwitch(k, s, false);
      OrderlyAtSwitch(k, s);
      var k1 := AtSwitch(k, s);
      OrderlyClean(k1);
      assert k1.run != [] by { Nonempty(k1); }
      CurrentFree(k1, k1.run[0]);
      OrderlyResume(k1.(current := k1.run[0]));
    } else {
      match s
      case Cancel(t) => OrderlyRun(k, CancelSleep(k, t));
      case Start(t) => OrderlyRun(k, StartTask(k, t));
      case LockMutex(m) => OrderlyTake(k, m);
      case UnlockMutex(m) => OrderlyUnlock(k, m);
    }
  }

  lemma OrderlyTake(k: Kernel, m: nat)
    requires Orderly(k) && m in k.mutexes && m in k.held && (k.mutexes[m].locker == Free ==> k.mutexes[m].waiters == [])
    ensures Orderly(Take(k, m))
  {}

  predicate AllPatient(k: Kernel, steps: seq<Step>)
    requires Legal(k, steps, false)
    decreases |steps|
  {
    steps == [] || (Patient(k, steps[0]) && AllPatient(Next(k, steps[0], false), steps[1..]))
  }

  // Mutual exclusion holds along every run on which nobody takes a free mutex that a woken
  // waiter is about to take, or cancels the wait of a waiter.
  lemma {:induction false} PatientExclusion(k: Kernel, steps: seq<Step>)
    requires Inv(k) && Exclusive(k) && Orderly(k) && Legal(k, steps, false) && AllPatient(k, steps)
    requires !Exec(k, steps, false).panicked
    ensures AlwaysExclusive(k, steps, false)
    decreases |steps|
  {
    hide Next, Enabled, IsSwitch, Between, Exclusive, Overtakes, Inv, Orderly, Patient;
    if steps != [] {
      LegalStep(k, steps);
      var k' := Next(k, steps[0], false);
      StepOk(k, steps[0], false);
      NoPanicYet(k', steps[1..], false);
      OrderlyStep(k, steps[0]);
      OneStep(k, steps[0]);
      PatientExclusion(k', steps[1..]);
    }
  }

  // ---------------- a run on which a woken waiter barges in ----------------

  // Tasks 1 and 2 besides idle, and one mutex.
  function Bare(run: seq<Task>, mu: Mutex, two: Point, held: multiset<Task>): Kernel {
    Kernel(run, |run|, if run == [] then IDLE else run[0], Queue([], map[], 0), map[0 := mu],
           map[0 := Running, 1 := Running, 2 := two], map[0 := held], false)
  }

  function BargingSteps(): seq<Step> {
    [LockMutex(0), Yield, LockMutex(0), Yield, UnlockMutex(0), LockMutex(0), Yield, Yield]
  }

  // 1 locks, 2 waits; 1 unlocks, which wakes 2, but locks again before yielding. 2 then makes
  // itself the locker while 1 still holds the mutex.
  lemma BargingRun()
    ensures var k := Bare([1, 2, 0], Mutex(Free, 0, []), Running, multiset{});
            && Inv(k) && Exclusive(k) && Legal(k, BargingSteps(), false)
            && Exec(k, BargingSteps(), false) == Bare([2, 1, 0], Mutex(By(2), 2, []), Running, multiset{1, 2})
            && !Exclusive(Exec(k, BargingSteps(), false))
  {
    hide Next, Bare, Enabled, Inv, Exclusive, Legal, Exec;
    var s := BargingSteps();
    BargingStart();
    BargeTake([1, 2, 0], [], Running);
    BargeYields();
    BargeWait();
    BargingEnd();
    var k4 := Bare([1, 0], Mutex(By(1), 1, [2]), Blocked(0), multiset{1});
    var k3 := Bare([0, 1], Mutex(By(1), 1, [2]), Blocked(0), multiset{1});
    var k2 := Bare([2, 0, 1], Mutex(By(1), 1, []), Running, multiset{1});
    var k1 := Bare([1, 2, 0], Mutex(By(1), 1, []), Running, multiset{1});
    ExecAt(k3, s, 3, k4);
    ExecAt(k2, s, 2, k3);
    ExecAt(k1, s, 1, k2);
    ExecAt(Bare([1, 2, 0], Mutex(Free, 0, []), Running, multiset{}), s, 0, k1);
    assert s[0..] == s;
  }

  lemma BargingEnd()
    ensures var k := Bare([1, 0], Mutex(By(1), 1, [2]), Blocked(0), multiset{1}); var s := BargingSteps()[4..];
            Legal(k, s, false) && Exec(k, s, false) == Bare([2, 1, 0], Mutex(By(2), 2, []), Running, multiset{1, 2})
  {
    hide Next, Bare, Enabled, Legal, Exec;
    var s := BargingSteps();
    BargeUnlock();
    BargeTake([1, 0, 2], [2], Blocked(0));
    BargeYields();
    BargeIn();
    var k8 := Bare([2, 1, 0], Mutex(By(2), 2, []), Running, multiset{1, 2});
    var k7 := Bare([0, 2, 1], Mutex(By(1), 1, [2]), Blocked(0), multiset{1});
    var k6 := Bare([1, 0, 2], Mutex(By(1), 1, [2]), Blocked(0), multiset{1});
    var k5 := Bare([1, 0, 2], Mutex(Free, 0, [2]), Blocked(0), multiset{});
    assert s[8..] == [];
    NoSteps(k8);
    ExecAt(k7, s, 7, k8);
    ExecAt(k6, s, 6, k7);
    ExecAt(k5, s, 5, k6);
    ExecAt(Bare([1, 0], Mutex(By(1), 1, [2]), Blocked(0), multiset{1}), s, 4, k5);
  }

  lemma NoSteps(k: Kernel)
    ensures Legal(k, [], false) && Exec(k, [], false) == k
  {}

  lemma BargeYields()
    ensures var k := Bare([1, 2, 0], Mutex(By(1), 1, []), Running, multiset{1});
            Enabled(k, Yield) && Next(k, Yield, false) == Bare([2, 0, 1], Mutex(By(1), 1, []), Running, multiset{1})
    ensures var k := Bare([0, 1], Mutex(By(1), 1, [2]), Blocked(0), multiset{1});
            Enabled(k, Yield) && Next(k, Yield, false) == Bare([1, 0], Mutex(By(1), 1, [2]), Blocked(0), multiset{1})
    ensures var k := Bare([1, 0, 2], Mutex(By(1), 1, [2]), Blocked(0), multiset{1});
            Enabled(k, Yield) && Next(k, Yield, false) == Bare([0, 2, 1], Mutex(By(1), 1, [2]), Blocked(0), multiset{1})
  {
    hide Next, Enabled, Bare;
    BargeYield(1, [2, 0], Mutex(By(1), 1, []), Running, multiset{1});
    BargeYield(0, [1], Mutex(By(1), 1, [2]), Blocked(0), multiset{1});
    BargeYield(1, [0, 2], Mutex(By(1), 1, [2]), Blocked(0), multiset{1});
    var s1: seq<Task>, s20: seq<Task>, s0: seq<Task>, s02: seq<Task> := [1], [2, 0], [0], [0, 2];
    assert s1 + s20 == [1, 2, 0] && s20 + s1 == [2, 0, 1];
    assert s0 + s1 == [0, 1] && s1 + s0 == [1, 0];
    assert s1 + s02 == [1, 0, 2] && s02 + s1 == [0, 2, 1];
  }

  lemma ExecAt(k: Kernel, s: seq<Step>, i: nat, k': Kernel)
    requires i < |s| && Enabled(k, s[i]) && Next(k, s[i], false) == k' && Legal(k', s[i + 1..], false)
    ensures Legal(k, s[i..], false) && Exec(k, s[i..], false) == Exec(k', s[i + 1..], false)
  {
    hide Next, Enabled;
    assert s[i..][1..] == s[i + 1..];
  }

  lemma BargingStart()
    ensures var k := Bare([1, 2, 0], Mutex(Free, 0, []), Running, multiset{}); Inv(k) && Exclusive(k)
    ensures !Exclusive(Bare([2, 1, 0], Mutex(By(2), 2, []), Running, multiset{1, 2}))
  {
    var k := Bare([1, 2, 0], Mutex(Free, 0, []), Running, multiset{});
    assert WaitersOf(k, 0);
    assert RunOk(k) && SleepOk(k) && WaitOk(k);
    NotOwned();
  }

  lemma NotOwned()
    ensures !Exclusive(Bare([2, 1, 0], Mutex(By(2), 2, []), Running, multiset{1, 2}))
  {
    assert multiset{1, 2}[1] == 1;
    assert multiset{}[2 := 2][1] == 0;
    var k := Bare([2, 1, 0], Mutex(By(2), 2, []), Running, multiset{1, 2});
    assert !Owned(k.mutexes[0], k.held[0]);
  }

  lemma BargeTake(run: seq<Task>, ws: seq<Task>, two: Point)
    requires run != [] && run[0] == 1
    ensures var k := Bare(run, Mutex(Free, 0, ws), two, multiset{});
            Enabled(k, LockMutex(0)) && Next(k, LockMutex(0), false) == Bare(run, Mutex(By(1), 1, ws), two, multiset{1})
  {
    var k := Bare(run, Mutex(Free, 0, ws), two, multiset{});
    assert multiset{} + multiset{1} == multiset{1};
    assert Take(k, 0).mutexes == map[0 := Mutex(By(1), 1, ws)];
    assert Take(k, 0).held == map[0 := multiset{1}];
  }

  lemma BargeYield(t: Task, rest: seq<Task>, mu: Mutex, two: Point, held: multiset<Task>)
    requires rest != [] && rest[0] in {0, 1, 2} && (rest[0] == 2 ==> two == Running)
    ensures var k := Bare([t] + rest, mu, two, held);
            Enabled(k, Yield) && Next(k, Yield, false) == Bare(rest + [t], mu, two, held)
  {
    var k := Bare([t] + rest, mu, two, held);
    assert Without([t] + rest, t) == rest;
  }

  lemma BargeWait()
    ensures var k := Bare([2, 0, 1], Mutex(By(1), 1, []), Running, multiset{1});
            Enabled(k, LockMutex(0)) && Next(k, LockMutex(0), false) == Bare([0, 1], Mutex(By(1), 1, [2]), Blocked(0), multiset{1})
  {
    var k := Bare([2, 0, 1], Mutex(By(1), 1, []), Running, multiset{1});
    assert Without([2, 0, 1], 2) == [0, 1];
    var mu := k.mutexes[0];
    assert mu.waiters + [k.current] == [2];
    var k1 := k.(mutexes := k.mutexes[0 := mu.(waiters := mu.waiters + [k.current])], point := k.point[k.current := Blocked(0)]);
    assert k1.mutexes == map[0 := Mutex(By(1), 1, [2])];
    assert k1.point == map[0 := Running, 1 := Running, 2 := Blocked(0)];
  }

  lemma BargeUnlock()
    ensures var k := Bare([1, 0], Mutex(By(1), 1, [2]), Blocked(0), multiset{1});
            Enabled(k, UnlockMutex(0)) && Next(k, UnlockMutex(0), false) == Bare([1, 0, 2], Mutex(Free, 0, [2]), Blocked(0), multiset{})
  {
    var k := Bare([1, 0], Mutex(By(1), 1, [2]), Blocked(0), multiset{1});
    assert multiset{1} - multiset{1} == multiset{};
    assert Release(k, 0).mutexes == map[0 := Mutex(Free, 0, [2])];
    assert Release(k, 0).held == map[0 := multiset{}];
    assert [1, 0] + [2] == [1, 0, 2];
  }

  lemma BargeIn()
    ensures var k := Bare([0, 2, 1], Mutex(By(1), 1, [2]), Blocked(0), multiset{1});
            Enabled(k, Yield) && Next(k, Yield, false) == Bare([2, 1, 0], Mutex(By(2), 2, []), Running, multiset{1, 2})
  {
    var k := Bare([0, 2, 1], Mutex(By(1), 1, [2]), Blocked(0), multiset{1});
    assert Without([0, 2, 1], 0) + [0] == [2, 1, 0];
    var k1 := k.(run := [2, 1, 0], current := 2);
    assert Without([2], 2) == [];
    var k2 := k1.(mutexes := k1.mutexes[0 := Mutex(By(1), 1, [])], point := k1.point[2 := Running]);
    assert k2.point == map[0 := Running, 1 := Running, 2 := Running];
    assert multiset{1} + multiset{2} == multiset{1, 2};
    assert Take(k2, 0).mutexes == map[0 := Mutex(By(2), 2, [])];
    assert Take(k2, 0).held == map[0 := multiset{1, 2}];
    assert Resume(k1) == Take(k2, 0);
  }
}
