/** The scheduler's and the mutexes' own code, on the fields it updates: each method does what
    the transition system of module Scheduler says. */
module Tasks {
  import opened Timers
  import S = Scheduler

  class TaskSystem {
    var runQueue: seq<S.Task>
    var tasksInRunQueue: int
    var currentTask: S.Task
    const timers: TimerQueue
    var mutexes: map<nat, S.Mutex>
    var points: map<S.Task, S.Point>     // where each task goes on
    var panicked: bool
    // completed locks that were not undone
    ghost var held: map<nat, multiset<S.Task>>

    ghost function State(): S.Kernel
      reads this, timers
    {
      S.Kernel(runQueue, tasksInRunQueue, currentTask, timers.State(), mutexes, points, held, panicked)
    }

    // start_kernel_task(idle): the scheduler before it starts
    constructor ()
      ensures S.Inv(State()) && S.Exclusive(State()) && S.Orderly(State()) && timers.Valid() && fresh(timers)
    {
      timers := new TimerQueue();
      runQueue, tasksInRunQueue, currentTask := [S.IDLE], 1, S.IDLE;
      mutexes, held, panicked := map[], map[], false;
      points := map[S.IDLE := S.Running];
      new;
      assert S.RunOk(State());
    }

    // mutex_init
    method AddMutex(m: nat)
      requires m !in mutexes && m !in held
      modifies this`mutexes, this`held
      ensures mutexes == old(mutexes)[m := S.Mutex(S.Free, 0, [])] && held == old(held)[m := multiset{}]
      ensures old(S.Inv(State())) ==> S.Inv(State())
      ensures old(S.Exclusive(State())) ==> S.Exclusive(State())
    {
      ghost var k := State();
      mutexes := mutexes[m := S.Mutex(S.Free, 0, [])];
      held := held[m := multiset{}];
      S.NewMutex(k, m);
    }

    method ScheduleTask(t: S.Task)
      modifies this`runQueue, this`tasksInRunQueue
      ensures State() == S.ScheduleTask(old(State()), t)
    {
      if t !in runQueue {
        runQueue := runQueue + [t];
        tasksInRunQueue := tasksInRunQueue + 1;
      }
    }

    method UnscheduleTask(t: S.Task)
      modifies this`runQueue, this`tasksInRunQueue
      ensures runQueue == S.Without(old(runQueue), t)
      ensures tasksInRunQueue == old(tasksInRunQueue) - if t in old(runQueue) then 1 else 0
      ensures old(S.RunOk(State())) && t != S.IDLE ==> S.RunOk(State()) && t !in runQueue
    {
      if S.RunOk(State()) { S.WithoutIs(runQueue, t); }
      if t in runQueue {
        runQueue := S.Without(runQueue, t);
        tasksInRunQueue := tasksInRunQueue - 1;
      } else {
        S.Absent(runQueue, t);
      }
    }

    // start_kernel_task
    method StartTask(t: S.Task)
      modifies this`runQueue, this`tasksInRunQueue, this`points
      ensures State() == S.StartTask(old(State()), t)
    {
      points := points[t := S.Running];
      ScheduleTask(t);
    }

    // the lines that make the current task the locker
    method Take(m: nat)
      requires m in mutexes && m in held
      modifies this`mutexes, this`held, this`panicked
      ensures State() == S.Take(old(State()), m)
    {
      var mu := mutexes[m];
      var nesting := (mu.nesting + 1) % S.NESTING_LIMIT;
      mutexes := mutexes[m := mu.(locker := S.By(currentTask), nesting := nesting)];
      held := held[m := held[m] + multiset{currentTask}];
      if nesting == 0 {
        panicked := true;
      }
    }

    // schedule: next_task, and what the task switched to does first
    method Schedule()
      requires runQueue != []
      requires runQueue[0] in points && points[runQueue[0]].Blocked? ==> points[runQueue[0]].mutex in mutexes && points[runQueue[0]].mutex in held
      modifies this`currentTask, this`mutexes, this`points, this`held, this`panicked
      ensures State() == S.Switch(old(State()), false)
    {
      currentTask := runQueue[0];
      if currentTask in points && points[currentTask].Blocked? {
        var m := points[currentTask].mutex;
        mutexes := mutexes[m := mutexes[m].(waiters := S.Without(mutexes[m].waiters, currentTask))];
        points := points[currentTask := S.Running];
        Take(m);
      }
    }

    method GiveupCpu()
      requires S.Inv(State())
      modifies this`runQueue, this`currentTask, this`mutexes, this`points, this`held, this`panicked
      ensures State() == S.GiveupCpu(old(State()), false)
    {
      S.RotateOk(State());
      runQueue := S.Without(runQueue, currentTask);
      runQueue := runQueue + [currentTask];
      HeadPoint();
      Schedule();
    }

    lemma HeadPoint()
      requires S.Between(State())
      ensures runQueue != []
      ensures runQueue[0] in points && points[runQueue[0]].Blocked? ==> points[runQueue[0]].mutex in mutexes && points[runQueue[0]].mutex in held
    {
      assert mutexes.Keys == held.Keys;
    }

    method Unschedule()
      requires S.Between(State().(run := S.Without(runQueue, currentTask), count := tasksInRunQueue - 1))
      modifies this`runQueue, this`tasksInRunQueue, this`currentTask, this`mutexes, this`points, this`held, this`panicked
      ensures State() == S.Unschedule(old(State()), false)
    {
      hide S.RunOk, S.SleepOk, S.WaitOk, S.AwakeOk, S.Without, S.Resume, QueueOk;
      runQueue := S.Without(runQueue, currentTask);
      tasksInRunQueue := tasksInRunQueue - 1;
      HeadPoint();
      Schedule();
    }

    // sleep_tsc, once the scheduler has started
    method SleepTsc(now: nat, tsc: nat)
      requires S.Inv(State()) && currentTask != S.IDLE
      modifies this, timers
      ensures State() == S.SleepUntil(old(State()), (now + tsc) % CLOCK, false)
      ensures old(timers.Ordered()) ==> timers.Valid()
    {
      hide S.Inv, S.Between, S.Without, S.Switch, QueueOk, Queued, RegisterAbsolute;
      S.Awake(State());
      var w := (now + tsc) % CLOCK;
      S.SleepBetween(State(), w);
      timers.RegisterTimerAbsolute(currentTask, w);
      Unschedule();
    }

    // sleep_tsc before the scheduler runs: the clock is read until the deadline has come, as far
    // as the readings given go
    method SleepEarly(start: nat, tsc: nat, clock: seq<nat>) returns (n: nat, done: bool)
      ensures n <= |clock| && forall i :: 0 <= i < n ==> clock[i] < (start + tsc) % CLOCK
      ensures if done then n < |clock| && clock[n] >= (start + tsc) % CLOCK else n == |clock|
    {
      var dest := (start + tsc) % CLOCK;
      n := 0;
      while n < |clock| && clock[n] < dest
        invariant n <= |clock| && forall i :: 0 <= i < n ==> clock[i] < dest
      {
        n := n + 1;
      }
      done := n < |clock|;
    }

    method CancelSleep(t: S.Task)
      modifies this, timers
      ensures State() == S.CancelSleep(old(State()), t)
      ensures old(timers.Valid()) ==> timers.Valid()
    {
      timers.UnregisterTimer(t);
      ScheduleTask(t);
    }

    // mutex_lock, up to the switch when the mutex is taken
    method MutexLock(m: nat)
      requires S.Inv(State()) && currentTask != S.IDLE && m in mutexes && m in held
      modifies this
      ensures State() == S.Lock(old(State()), m, false)
    {
      hide S.RunOk, S.SleepOk, S.WaitOk, S.AwakeOk, S.Without, S.Switch, QueueOk;
      var mu := mutexes[m];
      if mu.locker != S.Free {
        if mu.locker == S.By(currentTask) {
          Take(m);
          return;
        }
        S.LockBetween(State(), m);
        mutexes := mutexes[m := mu.(waiters := mu.waiters + [currentTask])];
        points := points[currentTask := S.Blocked(m)];
        Unschedule();
        return;
      }
      Take(m);
    }

    method MutexUnlock(m: nat)
      requires m in mutexes && m in held
      modifies this
      ensures State() == S.Unlock(old(State()), m)
    {
      var mu := mutexes[m];
      if mu.locker != S.By(currentTask) || mu.nesting == 0 {
        panicked := true;
        return;
      }
      held := held[m := held[m] - multiset{currentTask}];
      mutexes := mutexes[m := mu.(nesting := mu.nesting - 1)];
      if mutexes[m].nesting == 0 {
        mutexes := mutexes[m := mutexes[m].(locker := S.Free)];
        if mutexes[m].waiters != [] {
          ScheduleTask(mutexes[m].waiters[0]);
        }
      }
    }

    // what the timer interrupt does while idle waits for it: the fired timers' callbacks run
    method TimerInterrupt(turns: seq<Turn>) returns (done: bool)
      modifies this`runQueue, this`tasksInRunQueue, timers
      ensures var r := Interrupt(old(State()).timers, turns);
              done == r.done && State() == S.Wake(old(State()).(timers := r.queue), r.fired)
      ensures old(timers.Ordered()) && S.NoRequests(turns) ==> timers.Ordered() && (done ==> timers.Valid())
    {
      if S.NoRequests(turns) { S.NoneFresh(timers.State(), turns, 0); }
      hide S.ScheduleTask;
      var fired;
      fired, done := timers.InterruptEntryPoint(turns);
      var i := 0;
      assert fired[0..] == fired;
      while i < |fired|
        invariant i <= |fired|
        invariant S.Wake(State(), fired[i..]) == S.Wake(old(State()).(timers := Interrupt(old(State()).timers, turns).queue), fired)
        modifies this`runQueue, this`tasksInRunQueue
      {
        assert fired[i..][1..] == fired[i + 1..];
        ScheduleTask(fired[i].timer);
        i := i + 1;
      }
    }

    // the rest of a round of idle, from the return of its giveup_cpu to the next one
    method IdleRound(turns: seq<Turn>)
      requires S.Inv(State()) && currentTask == S.IDLE && (tasksInRunQueue <= 1 ==> S.Enabled(State(), S.Idle(turns)))
      modifies this, timers
      ensures State() == if old(tasksInRunQueue) <= 1 then S.Halt(old(State()), turns, false) else S.GiveupCpu(old(State()), false)
      ensures old(timers.Valid()) ==> timers.Valid()
    {
      hide S.RunOk, S.SleepOk, S.WaitOk, S.AwakeOk, S.Without, S.Switch, QueueOk, Interrupt, S.Wake;
      S.InvIs(State());
      if tasksInRunQueue <= 1 {
        S.HaltBetween(State(), turns);
        WakePoints(State().(timers := Interrupt(State().timers, turns).queue), Interrupt(State().timers, turns).fired);
        var done := TimerInterrupt(turns);
      }
      GiveupCpu();
    }

    lemma WakePoints(k: S.Kernel, fired: seq<Fired>)
      ensures S.Wake(k, fired).point == k.point
    {
      S.WakeKeeps(k, fired);
    }
  }
}
