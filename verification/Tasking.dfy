/** Tasks and their protocol: scheduling, exit and wait, semaphores. Switches happen only where the scheduler is called. */
module Tasking {
  import opened Wrappers

  datatype State = RUNNING | SLEEPING | WAITING | STOPPED | ENDED

  /** Where a task goes on when it is next picked. */
  datatype Point = Free | InWaitpid(target: nat) | InSemaphoreWait | InRemove

  datatype Task = Task(pid: nat, state: State, sleep: nat, sem: nat, waiting: int, endStatus: int, at: Point)

  // ---------- The selection loop of the scheduler ----------

  /** The scheduler's condition for leaving its loop at a task. */
  predicate Runnable(t: Task, tick: nat, sems: map<nat, int>) {
    && !(t.state == SLEEPING && t.sleep > tick)
    && !(t.state == WAITING && (t.sem !in sems || sems[t.sem] == 0))
    && !(t.state == ENDED && t.waiting != 0)
  }

  /** `next_node->next? next_node->next : get_task_list( )` */
  function Succ(n: nat, i: nat): nat {
    if i + 1 < n then i + 1 else 0
  }

  /** How often the loop steps to get from one position to another, at least once. */
  function Distance(n: nat, from: nat, to: nat): nat
    requires from < n && to < n
  {
    if to > from then to - from else to + n - from
  }

  /** The first runnable task after cur, going round the list. */
  ghost predicate Picks(tasks: seq<Task>, cur: nat, tick: nat, sems: map<nat, int>, next: nat) {
    && cur < |tasks| && next < |tasks| && Runnable(tasks[next], tick, sems)
    && forall i | 0 <= i < |tasks| && Distance(|tasks|, cur, i) < Distance(|tasks|, cur, next) :: !Runnable(tasks[i], tick, sems)
  }

  /** The loop, from a position that is a given number of steps past cur. */
  function Select(tasks: seq<Task>, cur: nat, tick: nat, sems: map<nat, int>, i: nat, ghost good: nat): (next: nat)
    requires cur < |tasks| && i < |tasks| && good < |tasks| && Runnable(tasks[good], tick, sems)
    requires i == cur || Distance(|tasks|, cur, i) < Distance(|tasks|, cur, good)
    requires forall j | 0 <= j < |tasks| && i != cur && Distance(|tasks|, cur, j) <= Distance(|tasks|, cur, i) :: !Runnable(tasks[j], tick, sems)
    ensures Picks(tasks, cur, tick, sems, next)
    decreases if i == cur then |tasks| + 1 else |tasks| - Distance(|tasks|, cur, i)
  {
    var next := Succ(|tasks|, i);
    if Runnable(tasks[next], tick, sems) then next else Select(tasks, cur, tick, sems, next, good)
  }

  // ---------- The kernel's tasking state ----------

  /** A status handed back by waitpid. */
  datatype Return = Return(waiter: nat, target: nat, status: int)

  datatype Kernel = Kernel(
    tasks: seq<Task>,               // the scheduler's list
    cur: nat,                       // the position of current_task
    pidcount: nat,
    tick: nat,
    sems: map<nat, int>,            // each semaphore's value, by address
    allowed: map<nat, int>,         // what each was initialised with
    holders: map<nat, seq<nat>>,    // history: who entered and has not left
    exits: map<nat, int>,           // history: the status each ended task left
    handed: seq<Return>)            // history: what waitpid handed back

  /** What the current task does between two calls of the scheduler, one operation at a time. */
  datatype Action =
    | Spawn                          // create_thread, create_process: add_task
    | Yield                          // rrschedule_call
    | Sleep(useconds: nat)           // usleep
    | InitSemaphore(sem: nat, nallowed: int)
    | Enter(sem: nat)                // enter_semaphore
    | Leave(sem: nat)                // leave_semaphore
    | Waitpid(id: nat)               // waitpid, up to its loop
    | Check                          // one test of waitpid's loop
    | Resume                         // enter_semaphore after semaphore_wait
    | ExitProcess(status: int)       // exit_process
    | ExitThread                     // exit_thread
    | Remove                         // remove_task_by_pid after it let the waiters run
    | Tick(later: nat)               // the timer advances

  /** get_task_node_by_pid */
  function Find(tasks: seq<Task>, pid: nat): (r: Option<nat>)
    ensures r.Some? ==> r.value < |tasks| && tasks[r.value].pid == pid
    ensures r.None? ==> forall i | 0 <= i < |tasks| :: tasks[i].pid != pid
  {
    if tasks == [] then None
    else if tasks[0].pid == pid then Some(0)
    else match Find(tasks[1..], pid)
      case None => None
      case Some(i) => Some(i + 1)
  }

  function Without<T>(s: seq<T>, i: nat): seq<T>
    requires i < |s|
  {
    s[..i] + s[i + 1..]
  }

  predicate IsIdle(t: Task) {
    t.pid == 1
  }

  /** Which operations the current task can be about to do. */
  predicate Enabled(k: Kernel, a: Action) {
    && k.cur < |k.tasks|
    && var t := k.tasks[k.cur];
    match a
    case Tick(later) => later >= k.tick
    case Yield => t.at == Free
    case Spawn => t.at == Free && !IsIdle(t)
    case Sleep(_) => t.at == Free && !IsIdle(t)
    case InitSemaphore(s, n) => t.at == Free && !IsIdle(t) && s !in k.sems && n >= 0
    case Enter(s) => t.at == Free && !IsIdle(t) && s in k.sems
    case Leave(s) => t.at == Free && !IsIdle(t) && s in k.sems && s in k.holders && t.pid in k.holders[s]
    case Waitpid(_) => t.at == Free && !IsIdle(t)
    case ExitProcess(_) => t.at == Free && !IsIdle(t)
    case ExitThread => t.at == Free && !IsIdle(t)
    case Check => t.at.InWaitpid? && Find(k.tasks, t.at.target).Some?
    case Resume => t.at == InSemaphoreWait && t.sem in k.sems && t.sem in k.holders
    case Remove => t.at == InRemove && k.cur > 0
  }

  /** Whether the operation ends by calling the scheduler. */
  predicate Switches(k: Kernel, a: Action)
    requires Enabled(k, a)
  {
    var t := k.tasks[k.cur];
    match a
    case Yield => true
    case Sleep(_) => true
    case Enter(s) => k.sems[s] == 0
    case Check => k.tasks[Find(k.tasks, t.at.target).value].state != ENDED
    case ExitProcess(_) => true
    case ExitThread => true
    case Remove => true
    case _ => false
  }

  function Holding(holders: map<nat, seq<nat>>, s: nat): seq<nat> {
    if s in holders then holders[s] else []
  }

  /** Drops one occurrence. */
  function Drop(pids: seq<nat>, pid: nat): seq<nat> {
    if pids == [] then [] else if pids[0] == pid then pids[1..] else [pids[0]] + Drop(pids[1..], pid)
  }

  /** remove_task_by_pid from list_remove_node on; the cursor stays before the removed task's successor. */
  function Removed(k: Kernel): Kernel
    requires 0 < k.cur < |k.tasks|
  {
    k.(tasks := Without(k.tasks, k.cur), cur := k.cur - 1)
  }

  /** remove_task_by_pid: an ended task first lets its waiters run. */
  function Ended(k: Kernel, status: int): Kernel
    requires k.cur < |k.tasks|
  {
    var t := k.tasks[k.cur];
    var ended := k.(
      tasks := k.tasks[k.cur := t.(state := ENDED, endStatus := status, at := InRemove)],
      exits := k.exits[t.pid := status]);
    if t.pid == 0 || k.cur == 0 then k else if t.waiting != 0 then ended else Removed(ended)
  }

  /** The tick until which usleep sleeps; the product is one of 32 bits. */
  function WakeTick(tick: nat, useconds: nat): nat {
    tick + useconds * 100 % 0x1_0000_0000 / 1000
  }

  /** A tenth of its argument in ticks, exactly while the product does not overflow. */
  lemma SleepsATenth(tick: nat, useconds: nat)
    requires useconds < 0x1_0000_0000
    ensures WakeTick(tick, useconds) == tick + useconds / 10 <==> useconds * 100 < 0x1_0000_0000
  {
  }

  /** The operation up to its call of the scheduler, or all of it. */
  function Prep(k: Kernel, a: Action): Kernel
    requires Enabled(k, a)
  {
    var t := k.tasks[k.cur];
    match a
    case Tick(later) => k.(tick := later)
    case Yield => k
    case Spawn =>
      k.(tasks := k.tasks + [Task(k.pidcount + 1, RUNNING, 0, 0, 0, 0, Free)], pidcount := k.pidcount + 1)
    case Sleep(useconds) => k.(tasks := k.tasks[k.cur := t.(state := SLEEPING, sleep := WakeTick(k.tick, useconds))])
    case InitSemaphore(s, n) =>
      k.(sems := k.sems[s := n], allowed := k.allowed[s := n], holders := k.holders[s := []])
    case Enter(s) =>
      if k.sems[s] != 0 then
        k.(sems := k.sems[s := k.sems[s] - 1], holders := k.holders[s := Holding(k.holders, s) + [t.pid]])
      else
        k.(tasks := k.tasks[k.cur := t.(state := WAITING, sem := s, at := InSemaphoreWait)])
    case Leave(s) =>
      k.(sems := k.sems[s := k.sems[s] + 1], holders := k.holders[s := Drop(k.holders[s], t.pid)])
    case Waitpid(id) =>
      (match Find(k.tasks, id)
       case None => k
       case Some(i) =>
         var counted := k.tasks[i := k.tasks[i].(waiting := k.tasks[i].waiting + 1)];
         k.(tasks := counted[k.cur := counted[k.cur].(at := InWaitpid(id))]))
    case Check =>
      var i := Find(k.tasks, t.at.target).value;
      var target := k.tasks[i];
      if target.state != ENDED then k else
        var counted := k.tasks[i := target.(waiting := target.waiting - 1)];
        k.(tasks := counted[k.cur := counted[k.cur].(at := Free)],
           handed := k.handed + [Return(t.pid, t.at.target, target.endStatus)])
    case Resume =>
      k.(sems := k.sems[t.sem := k.sems[t.sem] - 1],
         holders := k.holders[t.sem := k.holders[t.sem] + [t.pid]],
         tasks := k.tasks[k.cur := t.(at := Free)])
    case ExitProcess(status) => Ended(k, status)
    case ExitThread => Ended(k, t.endStatus)
    case Remove => Removed(k)
  }

  /** rrschedule_call: the next runnable task becomes the current one. */
  ghost predicate CanSchedule(k: Kernel) {
    k.cur < |k.tasks| && exists i :: 0 <= i < |k.tasks| && Runnable(k.tasks[i], k.tick, k.sems)
  }

  ghost function Schedule(k: Kernel): Kernel
    requires CanSchedule(k)
  {
    var good :| 0 <= good < |k.tasks| && Runnable(k.tasks[good], k.tick, k.sems);
    var next := Select(k.tasks, k.cur, k.tick, k.sems, k.cur, good);
    k.(cur := next, tasks := k.tasks[next := k.tasks[next].(state := RUNNING)])
  }

  /** There is one task to pick, so any loop that picks the first runnable one does what Schedule says. */
  lemma PicksOnce(k: Kernel, next: nat)
    requires CanSchedule(k) && Picks(k.tasks, k.cur, k.tick, k.sems, next)
    ensures Schedule(k) == k.(cur := next, tasks := k.tasks[next := k.tasks[next].(state := RUNNING)])
  {
    var other := Schedule(k).cur;
    assert Picks(k.tasks, k.cur, k.tick, k.sems, other);
    DistanceApart(|k.tasks|, k.cur, other, next);
  }

  lemma DistanceApart(n: nat, from: nat, a: nat, b: nat)
    requires from < n && a < n && b < n
    ensures Distance(n, from, a) == Distance(n, from, b) <==> a == b
  {
  }

  // ---------- What every step keeps ----------

  /** How many tasks are inside waitpid for the given process. */
  ghost function Waiters(tasks: seq<Task>, pid: nat): nat {
    if tasks == [] then 0
    else (if tasks[0].at == InWaitpid(pid) then 1 else 0) + Waiters(tasks[1..], pid)
  }

  ghost predicate HasPid(tasks: seq<Task>, pid: nat) {
    exists i :: 0 <= i < |tasks| && tasks[i].pid == pid
  }

  ghost predicate Listed(k: Kernel) {
    && |k.tasks| >= 2 && k.tasks[0].pid == 0 && k.tasks[1].pid == 1
    && (forall i, j | 0 <= i < j < |k.tasks| :: k.tasks[i].pid != k.tasks[j].pid)
    && (forall i | 0 <= i < |k.tasks| :: k.tasks[i].pid <= k.pidcount)
    && (forall pid | pid in k.exits :: 1 < pid <= k.pidcount)
    && k.tasks[1].state == RUNNING && k.tasks[1].at == Free
  }

  /** `waiting` counts the tasks inside waitpid, and whom they wait for is still in the list. */
  ghost predicate Counted(tasks: seq<Task>) {
    && (forall i | 0 <= i < |tasks| :: tasks[i].waiting == Waiters(tasks, tasks[i].pid))
    && (forall i | 0 <= i < |tasks| && tasks[i].at.InWaitpid? :: HasPid(tasks, tasks[i].at.target))
  }

  /** A task's state says where it is; an ended one has left its status. */
  ghost predicate Placed(k: Kernel, t: Task) {
    && (t.at == InRemove ==> t.pid in k.exits && k.exits[t.pid] == t.endStatus)
    && (t.at != InRemove ==> t.pid !in k.exits && t.endStatus == 0)
    && (t.state == ENDED ==> t.at == InRemove)
    && (t.at == InSemaphoreWait ==> t.sem in k.sems)
  }

  /** A task that is not running: what it waits for is in its state. */
  ghost predicate Suspended(t: Task) {
    && (t.at == InRemove ==> t.state == ENDED)
    && (t.at == InSemaphoreWait <==> t.state == WAITING)
  }

  /** The running task: what it waited for has come. */
  ghost predicate Running(k: Kernel, t: Task) {
    && t.state == RUNNING
    && (t.at == InRemove ==> t.waiting == 0)
    && (t.at == InSemaphoreWait ==> t.sem in k.sems && k.sems[t.sem] > 0)
  }

  /** Each semaphore's value and holders add up to what it was initialised with. */
  ghost predicate Balanced(k: Kernel) {
    && k.allowed.Keys == k.sems.Keys == k.holders.Keys
    && forall s | s in k.sems :: k.sems[s] >= 0 && k.sems[s] + |k.holders[s]| == k.allowed[s]
  }

  /** waitpid hands back the status that its target left. */
  ghost predicate Truthful(k: Kernel) {
    forall r | r in k.handed :: r.target in k.exits && k.exits[r.target] == r.status
  }

  ghost predicate Common(k: Kernel) {
    && Listed(k) && Counted(k.tasks) && Balanced(k) && Truthful(k)
    && forall i | 0 <= i < |k.tasks| :: Placed(k, k.tasks[i])
  }

  /** The invariant while a task runs. */
  ghost predicate Inv(k: Kernel) {
    && Common(k) && k.cur < |k.tasks|
    && forall i | 0 <= i < |k.tasks| :: if i == k.cur then Running(k, k.tasks[i]) else Suspended(k.tasks[i])
  }

  /** The invariant when the scheduler is called. */
  ghost predicate AtSchedule(k: Kernel) {
    && Common(k) && k.cur < |k.tasks|
    && forall i | 0 <= i < |k.tasks| :: Suspended(k.tasks[i])
  }

  /** The idle task is always there to be picked, so the scheduler's loop ends. */
  lemma SchedulerEnds(k: Kernel)
    requires AtSchedule(k)
    ensures CanSchedule(k)
  {
    assert Runnable(k.tasks[1], k.tick, k.sems);
  }

  // ---------- Counting waiters ----------

  lemma {:induction false} WaitersConcat(a: seq<Task>, b: seq<Task>, pid: nat)
    ensures Waiters(a + b, pid) == Waiters(a, pid) + Waiters(b, pid)
  {
    if a == [] {
      assert a + b == b;
    } else {
      assert (a + b)[1..] == a[1..] + b;
      WaitersConcat(a[1..], b, pid);
    }
  }

  lemma WaitersAt(tasks: seq<Task>, i: nat, pid: nat)
    requires i < |tasks|
    ensures Waiters(tasks, pid) == Waiters(Without(tasks, i), pid) + if tasks[i].at == InWaitpid(pid) then 1 else 0
  {
    assert tasks == tasks[..i] + ([tasks[i]] + tasks[i + 1..]);
    WaitersConcat(tasks[..i], [tasks[i]] + tasks[i + 1..], pid);
    WaitersConcat([tasks[i]], tasks[i + 1..], pid);
    WaitersConcat(tasks[..i], tasks[i + 1..], pid);
    assert Waiters([tasks[i]], pid) == if tasks[i].at == InWaitpid(pid) then 1 else 0;
  }

  /** Replacing one task changes the count by that task alone. */
  lemma WaitersUpdate(tasks: seq<Task>, i: nat, t: Task, pid: nat)
    requires i < |tasks|
    ensures Waiters(tasks[i := t], pid) + (if tasks[i].at == InWaitpid(pid) then 1 else 0)
      == Waiters(tasks, pid) + if t.at == InWaitpid(pid) then 1 else 0
  {
    WaitersAt(tasks, i, pid);
    WaitersAt(tasks[i := t], i, pid);
    assert Without(tasks[i := t], i) == Without(tasks, i);
  }

  lemma {:induction false} NoWaiters(tasks: seq<Task>, pid: nat, i: nat)
    requires i < |tasks| && Waiters(tasks, pid) == 0
    ensures tasks[i].at != InWaitpid(pid)
  {
    WaitersAt(tasks, i, pid);
  }

  // ---------- The steps ----------

  ghost predicate Next(k: Kernel, a: Action, after: Kernel)
    requires Enabled(k, a)
  {
    if Switches(k, a) then AtSchedule(after) else Inv(after)
  }

  /** A task changes but for its pid, its count of waiters and whom it waits for. */
  lemma CountedUpdate(tasks: seq<Task>, i: nat, t: Task)
    requires Counted(tasks) && i < |tasks|
    requires t.pid == tasks[i].pid && t.waiting == tasks[i].waiting
    requires t.at.InWaitpid? ==> t.at == tasks[i].at
    requires tasks[i].at.InWaitpid? ==> t.at == tasks[i].at
    ensures Counted(tasks[i := t])
  {
    var after := tasks[i := t];
    forall j | 0 <= j < |after|
      ensures after[j].waiting == Waiters(after, after[j].pid)
    {
      WaitersUpdate(tasks, i, t, after[j].pid);
    }
    forall j | 0 <= j < |after| && after[j].at.InWaitpid?
      ensures HasPid(after, after[j].at.target)
    {
      assert tasks[j].at == after[j].at;
      var p :| 0 <= p < |tasks| && tasks[p].pid == after[j].at.target;
      assert after[p].pid == after[j].at.target;
    }
  }

  lemma CountedAppend(tasks: seq<Task>, t: Task)
    requires Counted(tasks) && !HasPid(tasks, t.pid) && t.waiting == 0 && !t.at.InWaitpid?
    ensures Counted(tasks + [t])
  {
    var after := tasks + [t];
    forall j | 0 <= j < |after|
      ensures after[j].waiting == Waiters(after, after[j].pid)
    {
      WaitersConcat(tasks, [t], after[j].pid);
      if j == |tasks| {
        NobodyWaits(tasks, t.pid);
      }
    }
    forall j | 0 <= j < |after| && after[j].at.InWaitpid?
      ensures HasPid(after, after[j].at.target)
    {
      var p :| 0 <= p < |tasks| && tasks[p].pid == tasks[j].at.target;
      assert after[p].pid == after[j].at.target;
    }
  }

  lemma SpawnKeeps(k: Kernel)
    requires Inv(k) && Enabled(k, Spawn)
    ensures Inv(Prep(k, Spawn))
  {
    hide Counted;
    CountedAppend(k.tasks, Task(k.pidcount + 1, RUNNING, 0, 0, 0, 0, Free));
  }

  /** Nobody waits for a process that is not in the list. */
  lemma NobodyWaits(tasks: seq<Task>, pid: nat)
    requires Counted(tasks) && !HasPid(tasks, pid)
    ensures Waiters(tasks, pid) == 0
  {
    NobodyIn(tasks, pid);
  }

  lemma {:induction false} NobodyIn(tasks: seq<Task>, pid: nat)
    requires forall i | 0 <= i < |tasks| :: tasks[i].at != InWaitpid(pid)
    ensures Waiters(tasks, pid) == 0
  {
    if tasks != [] {
      NobodyIn(tasks[1..], pid);
    }
  }

  lemma SleepKeeps(k: Kernel, useconds: nat)
    requires Inv(k) && Enabled(k, Sleep(useconds))
    ensures AtSchedule(Prep(k, Sleep(useconds)))
  {
    hide WakeTick;
    CountedUpdate(k.tasks, k.cur, k.tasks[k.cur].(state := SLEEPING, sleep := WakeTick(k.tick, useconds)));
  }

  lemma EnterKeeps(k: Kernel, s: nat)
    requires Inv(k) && Enabled(k, Enter(s))
    ensures Next(k, Enter(s), Prep(k, Enter(s)))
  {
    hide Counted;
    if k.sems[s] == 0 {
      CountedUpdate(k.tasks, k.cur, k.tasks[k.cur].(state := WAITING, sem := s, at := InSemaphoreWait));
    }
  }

  lemma {:induction false} DropOne(pids: seq<nat>, pid: nat)
    requires pid in pids
    ensures |Drop(pids, pid)| == |pids| - 1
  {
    if pids[0] != pid {
      DropOne(pids[1..], pid);
    }
  }

  lemma LeaveKeeps(k: Kernel, s: nat)
    requires Inv(k) && Enabled(k, Leave(s))
    ensures Inv(Prep(k, Leave(s)))
  {
    DropOne(k.holders[s], k.tasks[k.cur].pid);
  }

  lemma ResumeKeeps(k: Kernel)
    requires Inv(k) && Enabled(k, Resume)
    ensures Inv(Prep(k, Resume))
  {
    hide Counted, Truthful;
    SameHistory(k, Prep(k, Resume));
    CountedUpdate(k.tasks, k.cur, k.tasks[k.cur].(at := Free));
  }

  /** A count goes up or down together with the one task that enters or leaves waitpid. */
  lemma CountedShift(tasks: seq<Task>, i: nat, more: int, j: nat, at: Point, id: nat)
    requires Counted(tasks) && i < |tasks| && j < |tasks| && tasks[i].pid == id
    requires forall p, q | 0 <= p < q < |tasks| :: tasks[p].pid != tasks[q].pid
    requires (more == 1 && at == InWaitpid(id) && !tasks[j].at.InWaitpid?) || (more == -1 && tasks[j].at == InWaitpid(id) && !at.InWaitpid?)
    ensures var counted := tasks[i := tasks[i].(waiting := tasks[i].waiting + more)];
      Counted(counted[j := counted[j].(at := at)])
  {
    var counted := tasks[i := tasks[i].(waiting := tasks[i].waiting + more)];
    var after := counted[j := counted[j].(at := at)];
    forall p | 0 <= p < |after|
      ensures after[p].waiting == Waiters(after, after[p].pid)
    {
      WaitersUpdate(tasks, i, counted[i], after[p].pid);
      WaitersUpdate(counted, j, after[j], after[p].pid);
    }
    SamePids(tasks, after);
  }

  /** The running task enters waitpid, and nothing else moves but the counts of waiters. */
  lemma ParkedKeeps(k: Kernel, tasks: seq<Task>)
    requires Inv(k) && Counted(tasks) && |tasks| == |k.tasks| && k.cur != 1
    requires k.tasks[k.cur].at == Free && tasks[k.cur].at.InWaitpid?
    requires forall i | 0 <= i < |tasks| ::
      tasks[i] == k.tasks[i].(waiting := tasks[i].waiting, at := if i == k.cur then tasks[i].at else k.tasks[i].at)
    ensures Inv(k.(tasks := tasks))
  {
    hide Counted;
  }

  /** Entering waitpid: one more is counted where one more waits. */
  lemma WaitpidKeeps(k: Kernel, id: nat)
    requires Inv(k) && Enabled(k, Waitpid(id))
    ensures Inv(Prep(k, Waitpid(id)))
  {
    hide Counted, Truthful, Balanced, Placed, Suspended;
    var found := Find(k.tasks, id);
    if found.Some? {
      CountedShift(k.tasks, found.value, 1, k.cur, InWaitpid(id), id);
      ParkedKeeps(k, Prep(k, Waitpid(id)).tasks);
    }
  }

  lemma SamePids(before: seq<Task>, after: seq<Task>)
    requires |before| == |after| && forall i | 0 <= i < |before| :: after[i].pid == before[i].pid
    ensures forall pid :: HasPid(before, pid) ==> HasPid(after, pid)
    ensures forall i | 0 <= i < |before| :: HasPid(after, before[i].pid)
  {
    forall pid | HasPid(before, pid)
      ensures HasPid(after, pid)
    {
      var i :| 0 <= i < |before| && before[i].pid == pid;
      assert after[i].pid == pid;
    }
    forall i | 0 <= i < |before|
      ensures HasPid(after, before[i].pid)
    {
      assert after[i].pid == before[i].pid;
    }
  }

  lemma CheckTruthful(k: Kernel)
    requires Inv(k) && Enabled(k, Check)
    ensures Truthful(Prep(k, Check))
  {
    hide Counted, Waiters, Balanced;
    var i := Find(k.tasks, k.tasks[k.cur].at.target).value;
    assert Placed(k, k.tasks[i]);
  }

  /** Leaving waitpid: one fewer is counted where one fewer waits, and the status is the target's. */
  lemma CheckKeeps(k: Kernel)
    requires Inv(k) && Enabled(k, Check)
    ensures Next(k, Check, Prep(k, Check))
  {
    hide Counted, Truthful;
    CheckTruthful(k);
    var id := k.tasks[k.cur].at.target;
    var i := Find(k.tasks, id).value;
    if k.tasks[i].state == ENDED {
      assert i != k.cur;
      CountedShift(k.tasks, i, -1, k.cur, Free, id);
    }
  }

  /** A removed task has no waiter left. */
  lemma RemovedKeeps(k: Kernel)
    requires Common(k) && 1 < k.cur < |k.tasks| && k.tasks[k.cur].at == InRemove && k.tasks[k.cur].waiting == 0
    requires forall i | 0 <= i < |k.tasks| && i != k.cur :: Suspended(k.tasks[i])
    ensures AtSchedule(Removed(k))
  {
    hide Counted, Placed;
    CountedWithout(k.tasks, k.cur);
    var after := Without(k.tasks, k.cur);
    forall j | 0 <= j < |after|
      ensures after[j] == k.tasks[if j < k.cur then j else j + 1] && Suspended(after[j]) && Placed(Removed(k), after[j])
    {
      PlacedAnywhere(k, Removed(k), after[j]);
    }
  }

  lemma PlacedAnywhere(k: Kernel, after: Kernel, t: Task)
    requires Placed(k, t) && after.exits == k.exits && after.sems == k.sems
    ensures Placed(after, t)
  {
  }

  /** Leaving out a task that nobody waits for and that waits for nobody. */
  lemma CountedWithout(tasks: seq<Task>, i: nat)
    requires Counted(tasks) && i < |tasks| && tasks[i].waiting == 0 && !tasks[i].at.InWaitpid?
    requires forall p, q | 0 <= p < q < |tasks| :: tasks[p].pid != tasks[q].pid
    ensures Counted(Without(tasks, i))
  {
    var after := Without(tasks, i);
    forall j | 0 <= j < |after|
      ensures after[j].waiting == Waiters(after, after[j].pid)
    {
      WaitersAt(tasks, i, after[j].pid);
    }
    forall j | 0 <= j < |after| && after[j].at.InWaitpid?
      ensures HasPid(after, after[j].at.target)
    {
      NoWaiters(tasks, tasks[i].pid, if j < i then j else j + 1);
      var p :| 0 <= p < |tasks| && tasks[p].pid == after[j].at.target;
      assert after[if p < i then p else p - 1].pid == after[j].at.target;
    }
  }

  /** The current task is marked as ended and leaves its status. */
  lemma MarkedEnded(k: Kernel, status: int)
    requires Inv(k) && k.tasks[k.cur].at == Free && k.tasks[k.cur].pid > 1 && k.cur > 1
    ensures var t := k.tasks[k.cur];
      Common(k.(tasks := k.tasks[k.cur := t.(state := ENDED, endStatus := status, at := InRemove)], exits := k.exits[t.pid := status]))
  {
    hide Counted;
    var t := k.tasks[k.cur];
    CountedUpdate(k.tasks, k.cur, t.(state := ENDED, endStatus := status, at := InRemove));
    forall r | r in k.handed
      ensures r.target != t.pid
    {
      assert Placed(k, t);
    }
  }

  lemma EndedKeeps(k: Kernel, status: int)
    requires Inv(k) && k.tasks[k.cur].at == Free && !IsIdle(k.tasks[k.cur])
    ensures AtSchedule(Ended(k, status))
  {
    hide Counted, Truthful, Balanced;
    var t := k.tasks[k.cur];
    if t.pid != 0 && k.cur != 0 {
      MarkedEnded(k, status);
      var after := k.(
        tasks := k.tasks[k.cur := t.(state := ENDED, endStatus := status, at := InRemove)],
        exits := k.exits[t.pid := status]);
      if t.waiting == 0 {
        RemovedKeeps(after);
      }
    }
  }

  lemma ExitKeeps(k: Kernel, a: Action)
    requires Inv(k) && Enabled(k, a) && (a.ExitProcess? || a.ExitThread?)
    ensures AtSchedule(Prep(k, a))
  {
    hide Common, Ended;
    EndedKeeps(k, if a.ExitProcess? then a.status else k.tasks[k.cur].endStatus);
  }

  lemma OthersKeep(k: Kernel, a: Action)
    requires Inv(k) && Enabled(k, a) && (a.Tick? || a.Yield? || a.InitSemaphore?)
    ensures Next(k, a, Prep(k, a))
  {
    hide Counted, Truthful, Listed;
    SameHistory(k, Prep(k, a));
    if !a.Yield? {
      SameList(k, Prep(k, a));
    }
  }

  lemma SameHistory(k: Kernel, after: Kernel)
    requires Truthful(k) && after.handed == k.handed && after.exits == k.exits
    ensures Truthful(after)
  {
  }

  lemma SameList(k: Kernel, after: Kernel)
    requires Listed(k) && after.tasks == k.tasks && after.pidcount == k.pidcount && after.exits == k.exits
    ensures Listed(after)
  {
  }

  lemma RemoveKeeps(k: Kernel)
    requires Inv(k) && Enabled(k, Remove)
    ensures AtSchedule(Prep(k, Remove))
  {
    RemovedKeeps(k);
  }

  /** Every operation keeps the invariant, up to where it calls the scheduler. */
  lemma PrepKeeps(k: Kernel, a: Action)
    requires Inv(k) && Enabled(k, a)
    ensures Next(k, a, Prep(k, a))
  {
    hide Common, Prep;
    match a
    case Tick(_) => OthersKeep(k, a);
    case Yield => OthersKeep(k, a);
    case InitSemaphore(_, _) => OthersKeep(k, a);
    case Spawn => SpawnKeeps(k);
    case Sleep(useconds) => SleepKeeps(k, useconds);
    case Enter(s) => EnterKeeps(k, s);
    case Leave(s) => LeaveKeeps(k, s);
    case Waitpid(id) => WaitpidKeeps(k, id);
    case Check => CheckKeeps(k);
    case Resume => ResumeKeeps(k);
    case ExitProcess(_) => ExitKeeps(k, a);
    case ExitThread => ExitKeeps(k, a);
    case Remove => RemoveKeeps(k);
  }

  /** The scheduler picks a task whose reason to wait is gone. */
  lemma ScheduleKeeps(k: Kernel)
    requires AtSchedule(k) && CanSchedule(k)
    ensures Inv(Schedule(k))
    ensures Picks(k.tasks, k.cur, k.tick, k.sems, Schedule(k).cur)
  {
    var next := Schedule(k).cur;
    CountedUpdate(k.tasks, next, k.tasks[next].(state := RUNNING));
  }

  // ---------- Whole runs ----------

  /** One operation of the current task, with the switch that ends it. */
  ghost function Do(k: Kernel, a: Action): (after: Kernel)
    requires Inv(k) && Enabled(k, a)
    ensures Inv(after)
  {
    PrepKeeps(k, a);
    var prep := Prep(k, a);
    if Switches(k, a) then
      SchedulerEnds(prep);
      ScheduleKeeps(prep);
      Schedule(prep)
    else
      prep
  }

  ghost predicate Possible(k: Kernel, run: seq<Action>)
    requires Inv(k)
    decreases |run|
  {
    run == [] || (Enabled(k, run[0]) && Possible(Do(k, run[0]), run[1..]))
  }

  ghost function After(k: Kernel, run: seq<Action>): (after: Kernel)
    requires Inv(k) && Possible(k, run)
    ensures Inv(after)
    decreases |run|
  {
    if run == [] then k else After(Do(k, run[0]), run[1..])
  }

  /** init_tasking: the root task runs, and the idle task has been created. */
  function Boot(tick: nat): Kernel {
    Kernel([Task(0, RUNNING, 0, 0, 0, 0, Free), Task(1, RUNNING, 0, 0, 0, 0, Free)],
      0, 1, tick, map[], map[], map[], map[], [])
  }

  lemma BootInv(tick: nat)
    ensures Inv(Boot(tick))
  {
    var tasks := Boot(tick).tasks;
    forall i | 0 <= i < 2
      ensures Waiters(tasks, tasks[i].pid) == 0
    {
      NobodyIn(tasks, tasks[i].pid);
    }
  }

  /** In every reachable state a semaphore for one is held by at most one. */
  lemma MutualExclusion(tick: nat, run: seq<Action>, s: nat)
    requires Inv(Boot(tick)) && Possible(Boot(tick), run)
    requires s in After(Boot(tick), run).sems
    ensures var k := After(Boot(tick), run);
      && 0 <= k.sems[s] <= k.allowed[s] && |k.holders[s]| == k.allowed[s] - k.sems[s]
      && (k.allowed[s] == 1 ==> |k.holders[s]| <= 1)
  {
  }

  /** A step never changes what an ended task has left, nor what was handed back. */
  lemma HistoryGrows(k: Kernel, a: Action)
    requires Inv(k) && Enabled(k, a)
    ensures forall pid | pid in k.exits :: pid in Do(k, a).exits && Do(k, a).exits[pid] == k.exits[pid]
    ensures k.handed <= Do(k, a).handed
  {
    hide Common, Prep;
    PrepHistory(k, a);
  }

  lemma PrepHistory(k: Kernel, a: Action)
    requires Inv(k) && Enabled(k, a)
    ensures forall pid | pid in k.exits :: pid in Prep(k, a).exits && Prep(k, a).exits[pid] == k.exits[pid]
    ensures k.handed <= Prep(k, a).handed
  {
    hide Waiters, Counted, Balanced, Truthful, Running, Suspended;
    assert Placed(k, k.tasks[k.cur]);
  }

  // ---------- What each operation does ----------

  /** enter_semaphore takes a unit for the task, or leaves it waiting there. */
  lemma EnterTakes(k: Kernel, s: nat)
    requires Inv(k) && Enabled(k, Enter(s))
    ensures var t, after := k.tasks[k.cur], Do(k, Enter(s));
      if k.sems[s] > 0 then
        && after.sems == k.sems[s := k.sems[s] - 1] && after.tasks == k.tasks && after.cur == k.cur
        && s in after.holders && multiset(after.holders[s]) == multiset(k.holders[s]) + multiset{t.pid}
      else
        after.sems == k.sems && after.holders == k.holders && t.(state := WAITING, sem := s, at := InSemaphoreWait) in after.tasks
  {
    hide Counted, Truthful, Placed, Listed;
    if k.sems[s] == 0 {
      SwitchedTo(k, Enter(s), k.cur);
    }
  }

  /** leave_semaphore gives one back. */
  lemma LeaveGives(k: Kernel, s: nat)
    requires Inv(k) && Enabled(k, Leave(s))
    ensures var t, after := k.tasks[k.cur], Do(k, Leave(s));
      && after.sems == k.sems[s := k.sems[s] + 1] && after.tasks == k.tasks && after.cur == k.cur
      && s in after.holders && multiset(k.holders[s]) == multiset(after.holders[s]) + multiset{t.pid}
  {
    hide Counted, Truthful, Placed, Listed;
    DropBag(k.holders[s], k.tasks[k.cur].pid);
  }

  lemma {:induction false} DropBag(pids: seq<nat>, pid: nat)
    requires pid in pids
    ensures multiset(pids) == multiset(Drop(pids, pid)) + multiset{pid}
  {
    assert pids == [pids[0]] + pids[1..];
    if pids[0] != pid {
      DropBag(pids[1..], pid);
    }
  }

  /** A task that waited takes its unit when it goes on. */
  lemma ResumeTakes(k: Kernel)
    requires Inv(k) && Enabled(k, Resume)
    ensures var t, after := k.tasks[k.cur], Do(k, Resume);
      && after.sems == k.sems[t.sem := k.sems[t.sem] - 1] && after.tasks == k.tasks[k.cur := t.(at := Free)] && after.cur == k.cur
      && t.sem in after.holders && multiset(after.holders[t.sem]) == multiset(k.holders[t.sem]) + multiset{t.pid}
  {
    hide Counted, Truthful, Placed, Listed;
  }

  lemma InitIs(k: Kernel, s: nat, n: int)
    requires Inv(k) && Enabled(k, InitSemaphore(s, n))
    ensures var after := Do(k, InitSemaphore(s, n));
      after.sems == k.sems[s := n] && s in after.holders && after.holders[s] == [] && after.tasks == k.tasks && after.cur == k.cur
  {
    hide Common;
  }

  /** waitpid on a listed process goes inside and counts there; on any other it does nothing. */
  lemma WaitpidGoesIn(k: Kernel, id: nat)
    requires Inv(k) && Enabled(k, Waitpid(id))
    ensures var after := Do(k, Waitpid(id));
      && after.cur == k.cur && |after.tasks| == |k.tasks|
      && (!HasPid(k.tasks, id) ==> after == k)
      && (HasPid(k.tasks, id) ==> after.tasks[k.cur].at == InWaitpid(id) && Waiters(after.tasks, id) == Waiters(k.tasks, id) + 1)
  {
    hide Common, Running, Suspended, Waiters, Do, Prep;
    WithoutSwitch(k, Waitpid(id));
    WaitpidIs(k, id);
    var found := Find(k.tasks, id);
    if found.Some? {
      assert k.tasks[found.value].pid == id;
      var counted := k.tasks[found.value := k.tasks[found.value].(waiting := k.tasks[found.value].waiting + 1)];
      WaitersUpdate(k.tasks, found.value, counted[found.value], id);
      WaitersUpdate(counted, k.cur, counted[k.cur].(at := InWaitpid(id)), id);
    }
  }

  lemma WithoutSwitch(k: Kernel, a: Action)
    requires Inv(k) && Enabled(k, a)
    ensures !Switches(k, a) ==> Do(k, a) == Prep(k, a)
  {
    hide Common, Prep;
  }

  lemma WaitpidIs(k: Kernel, id: nat)
    requires Enabled(k, Waitpid(id))
    ensures Find(k.tasks, id).Some? <==> HasPid(k.tasks, id)
    ensures Find(k.tasks, id).None? ==> Prep(k, Waitpid(id)) == k
    ensures Find(k.tasks, id).Some? ==>
      var i := Find(k.tasks, id).value;
      var counted := k.tasks[i := k.tasks[i].(waiting := k.tasks[i].waiting + 1)];
      Prep(k, Waitpid(id)) == k.(tasks := counted[k.cur := counted[k.cur].(at := InWaitpid(id))])
  {
  }

  /** waitpid's loop ends as soon as its target has ended, with the status that it left, and goes on until then. */
  lemma CheckReturns(k: Kernel)
    requires Inv(k) && Enabled(k, Check)
    ensures var t, after := k.tasks[k.cur], Do(k, Check);
      if t.at.target in k.exits then
        && after.handed == k.handed + [Return(t.pid, t.at.target, k.exits[t.at.target])]
        && after.cur == k.cur < |after.tasks| && after.tasks[k.cur].pid == t.pid && after.tasks[k.cur].at == Free
      else
        after.handed == k.handed && t in after.tasks
  {
    hide Counted, Truthful, Balanced;
    var t := k.tasks[k.cur];
    var i := Find(k.tasks, t.at.target).value;
    assert Placed(k, k.tasks[i]) && Placed(k, t);
    EndedOrNot(k, i);
    if t.at.target !in k.exits {
      SwitchedTo(k, Check, k.cur);
    }
  }

  /** Whether a task has ended, where another one is running. */
  lemma EndedOrNot(k: Kernel, i: nat)
    requires Inv(k) && i < |k.tasks| && k.tasks[k.cur].at.InWaitpid?
    ensures k.tasks[i].state == ENDED <==> k.tasks[i].pid in k.exits
  {
    hide Counted, Truthful, Balanced, Listed;
    assert Placed(k, k.tasks[i]);
  }

  /** A new task has a pid that nobody has or had, and is ready. */
  lemma SpawnAdds(k: Kernel)
    requires Inv(k) && Enabled(k, Spawn)
    ensures var after := Do(k, Spawn);
      && after.cur == k.cur && |after.tasks| == |k.tasks| + 1 && after.tasks[..|k.tasks|] == k.tasks
      && var t := after.tasks[|k.tasks|];
        && !HasPid(k.tasks, t.pid) && t.pid !in k.exits && t.at == Free && Runnable(t, k.tick, k.sems)
  {
    hide Counted, Truthful, Balanced, Placed;
  }

  /** An ending task leaves its status, and the list if nobody waits for it. The root task goes on. */
  lemma ExitEnds(k: Kernel, a: Action)
    requires Inv(k) && Enabled(k, a) && (a.ExitProcess? || a.ExitThread?)
    ensures var t, after := k.tasks[k.cur], Do(k, a);
      var status := if a.ExitProcess? then a.status else 0;
      if t.pid == 0 then after.exits == k.exits && t in after.tasks
      else
        && t.pid in after.exits && after.exits[t.pid] == status
        && if Waiters(k.tasks, t.pid) == 0 then !HasPid(after.tasks, t.pid)
           else t.(state := ENDED, endStatus := status, at := InRemove) in after.tasks
  {
    hide Truthful, Balanced, Do, Prep, Waiters, Suspended;
    var t := k.tasks[k.cur];
    var status := if a.ExitProcess? then a.status else 0;
    assert Placed(k, t);
    EndedIs(k, a, status);
    SwitchedPids(k, a);
    if t.pid == 0 || t.waiting != 0 {
      SwitchedTo(k, a, k.cur);
    }
  }

  lemma EndedIs(k: Kernel, a: Action, status: int)
    requires Inv(k) && Enabled(k, a) && (a == ExitProcess(status) || (a == ExitThread && status == 0))
    ensures var t, prep := k.tasks[k.cur], Prep(k, a);
      if t.pid == 0 then prep == k
      else
        && prep.exits == k.exits[t.pid := status]
        && if t.waiting == 0 then
            |prep.tasks| == |k.tasks| - 1 && forall i | 0 <= i < |prep.tasks| :: prep.tasks[i] == k.tasks[if i < k.cur then i else i + 1]
          else prep.tasks == k.tasks[k.cur := t.(state := ENDED, endStatus := status, at := InRemove)]
  {
    hide Truthful, Balanced, Counted, Suspended;
    assert Placed(k, k.tasks[k.cur]);
  }

  /** The rest of an ended task's removal takes it out of the list. */
  lemma RemoveTakesOut(k: Kernel)
    requires Inv(k) && Enabled(k, Remove)
    ensures !HasPid(Do(k, Remove).tasks, k.tasks[k.cur].pid) && Do(k, Remove).exits == k.exits
  {
    hide Counted, Truthful, Balanced, Placed;
    SwitchedPids(k, Remove);
  }

  lemma TickIs(k: Kernel, later: nat)
    requires Inv(k) && Enabled(k, Tick(later))
    ensures Do(k, Tick(later)) == k.(tick := later)
  {
  }

  /** The operations that call the scheduler, and when. */
  lemma SwitchesWhere(k: Kernel, a: Action)
    requires Inv(k) && Enabled(k, a)
    ensures Switches(k, a) <==>
      || a.Yield? || a.Sleep? || a.ExitProcess? || a.ExitThread? || a.Remove?
      || (a.Enter? && k.sems[a.sem] == 0)
      || (a.Check? && k.tasks[k.cur].at.target !in k.exits)
  {
    hide Counted, Truthful, Balanced;
    if a.Check? {
      EndedOrNot(k, Find(k.tasks, k.tasks[k.cur].at.target).value);
    }
  }

  /** A switch goes to the first task that can be picked. */
  lemma SwitchPicks(k: Kernel, a: Action)
    requires Inv(k) && Enabled(k, a) && Switches(k, a)
    ensures var prep := Prep(k, a); Picks(prep.tasks, prep.cur, k.tick, prep.sems, Do(k, a).cur)
    ensures a == Yield ==> Prep(k, a) == k
  {
    hide Common, Prep;
    PrepKeeps(k, a);
    SchedulerEnds(Prep(k, a));
    ScheduleKeeps(Prep(k, a));
    SameTick(k, a);
    YieldIs(k);
  }

  lemma YieldIs(k: Kernel)
    requires k.cur < |k.tasks|
    ensures Enabled(k, Yield) ==> Prep(k, Yield) == k
  {
  }

  /** After a switch a task is as the operation left it, but that the one picked is running. */
  lemma SwitchedTo(k: Kernel, a: Action, i: nat)
    requires Inv(k) && Enabled(k, a) && Switches(k, a) && i < |Prep(k, a).tasks|
    ensures var prep, after := Prep(k, a), Do(k, a);
      && |after.tasks| == |prep.tasks| && after == prep.(cur := after.cur, tasks := after.tasks)
      && (if i == after.cur then Runnable(prep.tasks[i], k.tick, prep.sems) && after.tasks[i] == prep.tasks[i].(state := RUNNING)
          else after.tasks[i] == prep.tasks[i])
  {
    hide Common, Prep;
    PrepKeeps(k, a);
    SchedulerEnds(Prep(k, a));
    SameTick(k, a);
  }

  lemma SameTick(k: Kernel, a: Action)
    requires Enabled(k, a)
    ensures a.Tick? || Prep(k, a).tick == k.tick
  {
  }

  lemma SwitchedPids(k: Kernel, a: Action)
    requires Inv(k) && Enabled(k, a)
    ensures |Do(k, a).tasks| == |Prep(k, a).tasks|
    ensures forall i | 0 <= i < |Prep(k, a).tasks| :: Do(k, a).tasks[i].pid == Prep(k, a).tasks[i].pid
    ensures Do(k, a).exits == Prep(k, a).exits && Do(k, a).sems == Prep(k, a).sems
    ensures Do(k, a).allowed == Prep(k, a).allowed && Do(k, a).holders == Prep(k, a).holders
    ensures Do(k, a).handed == Prep(k, a).handed
  {
    hide Common, Prep;
  }

  /** Every other task is left as it is, but for its count of waiters and that it may be the one picked. */
  lemma OthersUntouched(k: Kernel, a: Action, i: nat) returns (j: nat)
    requires Inv(k) && Enabled(k, a) && i < |k.tasks| && i != k.cur
    ensures var after := Do(k, a);
      && j < |after.tasks| && after.tasks[j].(waiting := 0, state := RUNNING) == k.tasks[i].(waiting := 0, state := RUNNING)
      && (after.tasks[j].state == k.tasks[i].state || (j == after.cur && Runnable(k.tasks[i].(waiting := after.tasks[j].waiting), k.tick, after.sems)))
  {
    hide Common, Prep, Do;
    j := OtherIn(k, a, i);
    WithoutSwitch(k, a);
    if Switches(k, a) {
      SwitchedTo(k, a, j);
    }
  }

  lemma OtherIn(k: Kernel, a: Action, i: nat) returns (j: nat)
    requires Enabled(k, a) && i < |k.tasks| && i != k.cur
    ensures j < |Prep(k, a).tasks| && Prep(k, a).tasks[j].(waiting := 0) == k.tasks[i].(waiting := 0)
    ensures a.Tick? || Prep(k, a).tick == k.tick
  {
    j := if |Prep(k, a).tasks| >= |k.tasks| || i < k.cur then i else i - 1;
  }

  /** Every task can go on when it is running. */
  lemma NeverStuck(k: Kernel)
    requires Inv(k)
    ensures match k.tasks[k.cur].at
      case Free => Enabled(k, Yield) && (k.tasks[k.cur].pid != 1 ==>
        && Enabled(k, Spawn) && Enabled(k, ExitThread) && (forall status :: Enabled(k, ExitProcess(status)))
        && forall n: nat :: Enabled(k, Sleep(n)) && Enabled(k, Waitpid(n)) && (n in k.sems ==> Enabled(k, Enter(n))))
      case InWaitpid(_) => Enabled(k, Check)
      case InSemaphoreWait => Enabled(k, Resume)
      case InRemove => Enabled(k, Remove)
  {
    hide Truthful, Waiters;
    var t := k.tasks[k.cur];
    assert Placed(k, t) && Placed(k, k.tasks[0]);
  }

  /** When a task can be picked: a sleeper from its tick on, one at a semaphore while there are units, an ended one once
      nobody waits for it, and any other always. */
  lemma ReadyWhen(k: Kernel, i: nat)
    requires AtSchedule(k) && i < |k.tasks|
    ensures var t := k.tasks[i];
      Runnable(t, k.tick, k.sems) <==>
        if t.at == InSemaphoreWait then k.sems[t.sem] > 0
        else if t.at == InRemove then Waiters(k.tasks, t.pid) == 0
        else t.state == SLEEPING ==> t.sleep <= k.tick
  {
    hide Truthful, Waiters, Listed;
    assert Placed(k, k.tasks[i]);
  }

  /** The list is gone through forwards and round its end. */
  lemma NextInOrder(k: Kernel)
    requires AtSchedule(k) && CanSchedule(k)
    ensures var next := Schedule(k).cur;
      && next < |k.tasks| && Runnable(k.tasks[next], k.tick, k.sems)
      && forall i | 0 <= i < |k.tasks| && (if next > k.cur then k.cur < i < next else k.cur < i || i < next) ::
        !Runnable(k.tasks[i], k.tick, k.sems)
  {
    hide Common, Runnable;
  }

  // ---------- Statuses ----------

  /** The task with this pid ends by the operation, with this status: its own for exit_process, zero for exit_thread. */
  ghost predicate Leaves(k: Kernel, a: Action, pid: nat, status: int) {
    && k.cur < |k.tasks| && k.tasks[k.cur].pid == pid
    && (a == ExitProcess(status) || (a == ExitThread && status == 0))
  }

  ghost predicate LeftBy(k: Kernel, run: seq<Action>, pid: nat, status: int)
    requires Inv(k) && Possible(k, run)
    decreases |run|
  {
    run != [] && (Leaves(k, run[0], pid, status) || LeftBy(Do(k, run[0]), run[1..], pid, status))
  }

  /** Statuses are left by exits and by nothing else. */
  lemma ExitsOnly(k: Kernel, a: Action)
    requires Inv(k) && Enabled(k, a)
    ensures forall pid, status | pid != 0 && Leaves(k, a, pid, status) ::
      pid !in k.exits && pid in Do(k, a).exits && Do(k, a).exits[pid] == status
    ensures forall pid | pid in Do(k, a).exits && pid !in k.exits :: Leaves(k, a, pid, Do(k, a).exits[pid])
  {
    hide Waiters, Counted, Balanced, Truthful, Running, Suspended, Do, Prep;
    SwitchedPids(k, a);
    assert Placed(k, k.tasks[k.cur]);
    if a.ExitProcess? || a.ExitThread? {
      EndedIs(k, a, if a.ExitProcess? then a.status else 0);
    } else {
      SameExits(k, a);
    }
  }

  lemma SameExits(k: Kernel, a: Action)
    requires Enabled(k, a)
    ensures a.ExitProcess? || a.ExitThread? || Prep(k, a).exits == k.exits
  {
  }

  /** Over every run, what a task leaves is what it ended with. */
  lemma {:induction false} ExitsTold(k: Kernel, run: seq<Action>, pid: nat, status: int)
    requires Inv(k) && Possible(k, run) && pid != 0 && pid !in k.exits
    ensures LeftBy(k, run, pid, status) <==> pid in After(k, run).exits && After(k, run).exits[pid] == status
    decreases |run|
  {
    hide Common, Leaves;
    if run != [] {
      ExitsOnly(k, run[0]);
      var next := Do(k, run[0]);
      if pid in next.exits {
        ExitsStay(next, run[1..], pid);
        NoneLeave(next, run[1..], pid, status);
        OneStatus(k, run[0], pid, status);
      } else {
        ExitsTold(next, run[1..], pid, status);
      }
    }
  }

  lemma OneStatus(k: Kernel, a: Action, pid: nat, status: int)
    requires Inv(k) && Enabled(k, a) && pid !in k.exits && pid in Do(k, a).exits
    ensures Leaves(k, a, pid, status) <==> Do(k, a).exits[pid] == status
  {
    hide Common;
    ExitsOnly(k, a);
  }

  lemma {:induction false} ExitsStay(k: Kernel, run: seq<Action>, pid: nat)
    requires Inv(k) && Possible(k, run) && pid in k.exits
    ensures pid in After(k, run).exits && After(k, run).exits[pid] == k.exits[pid]
    decreases |run|
  {
    hide Common;
    if run != [] {
      HistoryGrows(k, run[0]);
      ExitsStay(Do(k, run[0]), run[1..], pid);
    }
  }

  /** A task ends once. */
  lemma {:induction false} NoneLeave(k: Kernel, run: seq<Action>, pid: nat, status: int)
    requires Inv(k) && Possible(k, run) && pid in k.exits
    ensures !LeftBy(k, run, pid, status)
    decreases |run|
  {
    hide Common, Leaves;
    if run != [] {
      assert !Leaves(k, run[0], pid, status) by { NotAgain(k, run[0], pid, status); }
      HistoryGrows(k, run[0]);
      NoneLeave(Do(k, run[0]), run[1..], pid, status);
    }
  }

  lemma NotAgain(k: Kernel, a: Action, pid: nat, status: int)
    requires Inv(k) && Enabled(k, a) && pid in k.exits
    ensures !Leaves(k, a, pid, status)
  {
    hide Counted, Truthful, Balanced;
    assert Placed(k, k.tasks[k.cur]);
  }

  /** Whatever waitpid has handed back along a run is the status that its target ended with. */
  lemma WaitersGetTheStatus(tick: nat, run: seq<Action>, r: Return, status: int)
    requires Inv(Boot(tick)) && Possible(Boot(tick), run) && r in After(Boot(tick), run).handed
    ensures LeftBy(Boot(tick), run, r.target, status) <==> status == r.status
  {
    assert Listed(After(Boot(tick), run));
    ExitsTold(Boot(tick), run, r.target, status);
  }

  // ---------- Units of a semaphore ----------

  /** The operation takes a unit of the semaphore for the current task. */
  ghost predicate Gets(k: Kernel, a: Action, s: nat) {
    (a == Enter(s) && s in k.sems && k.sems[s] > 0) || (a.Resume? && k.cur < |k.tasks| && k.tasks[k.cur].sem == s)
  }

  ghost function Gained(k: Kernel, a: Action, s: nat): int {
    if Gets(k, a, s) then 1 else if a == Leave(s) then -1 else 0
  }

  /** How many more have entered than left along a run. */
  ghost function Inside(k: Kernel, run: seq<Action>, s: nat): int
    requires Inv(k) && Possible(k, run)
    decreases |run|
  {
    if run == [] then 0 else Gained(k, run[0], s) + Inside(Do(k, run[0]), run[1..], s)
  }

  /** The same of one task. */
  ghost function InsideBy(k: Kernel, run: seq<Action>, s: nat, pid: nat): int
    requires Inv(k) && Possible(k, run)
    decreases |run|
  {
    if run == [] then 0
    else (if k.tasks[k.cur].pid == pid then Gained(k, run[0], s) else 0) + InsideBy(Do(k, run[0]), run[1..], s, pid)
  }

  lemma OneUnit(k: Kernel, a: Action, s: nat)
    requires Inv(k) && Enabled(k, a) && s in k.sems
    ensures var after := Do(k, a); s in after.sems && after.sems[s] == k.sems[s] - Gained(k, a, s)
  {
    hide Counted, Truthful, Placed, Listed, Prep, Do, Gained;
    SwitchedPids(k, a);
    PrepUnit(k, a, s);
  }

  lemma PrepUnit(k: Kernel, a: Action, s: nat)
    requires Enabled(k, a) && s in k.sems && k.sems[s] >= 0
    ensures s in Prep(k, a).sems && Prep(k, a).sems[s] == k.sems[s] - Gained(k, a, s)
  {
  }

  lemma PrepHolders(k: Kernel, a: Action, s: nat)
    requires Enabled(k, a) && Balanced(k) && s in k.holders
    ensures s in Prep(k, a).holders && (Gained(k, a, s) == 0 ==> Prep(k, a).holders[s] == k.holders[s])
  {
  }

  /** Over every run, a semaphore's value is what it was less those that are inside. */
  lemma {:induction false} UnitsAddUp(k: Kernel, run: seq<Action>, s: nat)
    requires Inv(k) && Possible(k, run) && s in k.sems
    ensures s in After(k, run).sems && After(k, run).sems[s] == k.sems[s] - Inside(k, run, s)
    decreases |run|
  {
    hide Common, Gained;
    if run != [] {
      OneUnit(k, run[0], s);
      UnitsAddUp(Do(k, run[0]), run[1..], s);
    }
  }

  lemma OneHolder(k: Kernel, a: Action, s: nat, pid: nat)
    requires Inv(k) && Enabled(k, a) && s in k.holders
    ensures var after := Do(k, a);
      && s in after.holders
      && multiset(after.holders[s])[pid] == multiset(k.holders[s])[pid] + if k.tasks[k.cur].pid == pid then Gained(k, a, s) else 0
  {
    hide Common, Prep, Do;
    SameHolders(k, a, s);
    match a
    case Enter(q) => EnterTakes(k, q);
    case Leave(q) => LeaveGives(k, q);
    case Resume => ResumeTakes(k);
    case _ =>
  }

  lemma SameHolders(k: Kernel, a: Action, s: nat)
    requires Inv(k) && Enabled(k, a) && s in k.holders
    ensures s in Do(k, a).holders
    ensures Gained(k, a, s) == 0 ==> Do(k, a).holders[s] == k.holders[s]
  {
    hide Counted, Truthful, Placed, Listed, Prep, Do, Gained;
    SwitchedPids(k, a);
    PrepHolders(k, a, s);
  }

  /** And who is inside is who entered and has not left. */
  lemma {:induction false} HoldersTold(k: Kernel, run: seq<Action>, s: nat, pid: nat)
    requires Inv(k) && Possible(k, run) && s in k.holders
    ensures s in After(k, run).holders
    ensures multiset(After(k, run).holders[s])[pid] == multiset(k.holders[s])[pid] + InsideBy(k, run, s, pid)
    decreases |run|
  {
    hide Common, Gained;
    if run != [] {
      OneHolder(k, run[0], s, pid);
      HoldersTold(Do(k, run[0]), run[1..], s, pid);
    }
  }

  /** From its initialisation on, never more are inside a semaphore than it was initialised with, and never fewer than none. */
  lemma AtMostAllowed(k: Kernel, s: nat, n: int, run: seq<Action>)
    requires Inv(k) && Enabled(k, InitSemaphore(s, n)) && Possible(Do(k, InitSemaphore(s, n)), run)
    ensures 0 <= Inside(Do(k, InitSemaphore(s, n)), run, s) <= n
  {
    hide Listed, Counted, Truthful;
    var start := Do(k, InitSemaphore(s, n));
    InitIs(k, s, n);
    UnitsAddUp(start, run, s);
    HoldersCount(start, run, s);
  }

  lemma OneMoreHolder(k: Kernel, a: Action, s: nat)
    requires Inv(k) && Enabled(k, a) && s in k.holders
    ensures s in Do(k, a).holders && |Do(k, a).holders[s]| == |k.holders[s]| + Gained(k, a, s)
  {
    hide Common, Prep, Do;
    SameHolders(k, a, s);
    assert |multiset(k.holders[s])| == |k.holders[s]| && |multiset(Do(k, a).holders[s])| == |Do(k, a).holders[s]|;
    match a
    case Enter(q) => EnterTakes(k, q);
    case Leave(q) => LeaveGives(k, q);
    case Resume => ResumeTakes(k);
    case _ =>
  }

  lemma {:induction false} HoldersCount(k: Kernel, run: seq<Action>, s: nat)
    requires Inv(k) && Possible(k, run) && s in k.holders
    ensures s in After(k, run).holders && |After(k, run).holders[s]| == |k.holders[s]| + Inside(k, run, s)
    decreases |run|
  {
    hide Common, Gained;
    if run != [] {
      OneMoreHolder(k, run[0], s);
      HoldersCount(Do(k, run[0]), run[1..], s);
    }
  }

  /** Only the current task is ever removed, and only when nobody is inside waitpid for it. */
  lemma NotFreedWhileAwaited(k: Kernel, a: Action, pid: nat)
    requires Inv(k) && Enabled(k, a)
    requires HasPid(k.tasks, pid) && !HasPid(Do(k, a).tasks, pid)
    ensures pid == k.tasks[k.cur].pid && Waiters(k.tasks, pid) == 0 && (a.Remove? || a.ExitProcess? || a.ExitThread?)
    ensures pid in Do(k, a).exits
  {
    hide Common, Waiters;
    var after := Do(k, a);
    var i :| 0 <= i < |k.tasks| && k.tasks[i].pid == pid;
    assert |Prep(k, a).tasks| == |after.tasks|;
    assert forall j | 0 <= j < |after.tasks| :: after.tasks[j].pid == Prep(k, a).tasks[j].pid;
    StaysListed(k, a, i);
  }

  /** A task that an operation does not remove is in the list afterwards. */
  lemma StaysListed(k: Kernel, a: Action, i: nat)
    requires Inv(k) && Enabled(k, a) && i < |k.tasks|
    ensures HasPid(Prep(k, a).tasks, k.tasks[i].pid) || (
      && i == k.cur && (a.Remove? || a.ExitProcess? || a.ExitThread?)
      && Waiters(k.tasks, k.tasks[i].pid) == 0 && k.tasks[i].pid in Prep(k, a).exits)
  {
    hide Balanced, Truthful, Suspended;
    PrepShape(k, a);
    var after := Prep(k, a).tasks;
    if |after| >= |k.tasks| {
      assert after[i].pid == k.tasks[i].pid;
    } else if i != k.cur {
      assert after[if i < k.cur then i else i - 1].pid == k.tasks[i].pid;
    } else {
      assert Placed(k, k.tasks[i]);
    }
  }

  // ---------- Sleeping ----------

  /** A task that is not running sleeps until the given tick. */
  ghost predicate AsleepAt(k: Kernel, i: nat, pid: nat, until: nat) {
    i < |k.tasks| && i != k.cur && k.tasks[i].pid == pid && k.tasks[i].state == SLEEPING && k.tasks[i].sleep == until
  }

  ghost predicate Asleep(k: Kernel, pid: nat, until: nat) {
    exists i: nat :: AsleepAt(k, i, pid, until)
  }

  lemma StaysAsleep(k: Kernel, i: nat, pid: nat, until: nat)
    requires CanSchedule(k) && until > k.tick
    requires i < |k.tasks| && k.tasks[i].pid == pid && k.tasks[i].state == SLEEPING && k.tasks[i].sleep == until
    ensures Asleep(Schedule(k), pid, until)
  {
    assert AsleepAt(Schedule(k), i, pid, until);
  }

  lemma SleepBegins(k: Kernel, useconds: nat)
    requires Inv(k) && Enabled(k, Sleep(useconds)) && WakeTick(k.tick, useconds) > k.tick
    ensures Asleep(Do(k, Sleep(useconds)), k.tasks[k.cur].pid, WakeTick(k.tick, useconds))
  {
    hide Common, WakeTick;
    PrepKeeps(k, Sleep(useconds));
    SchedulerEnds(Prep(k, Sleep(useconds)));
    StaysAsleep(Prep(k, Sleep(useconds)), k.cur, k.tasks[k.cur].pid, WakeTick(k.tick, useconds));
  }

  /** Where a task other than the current one is after an operation, before any switch. */
  lemma OtherStays(k: Kernel, a: Action, i: nat) returns (j: nat)
    requires Enabled(k, a) && i < |k.tasks| && i != k.cur
    ensures var prep := Prep(k, a);
      && j < |prep.tasks| && (prep.cur == k.cur ==> j != prep.cur)
      && prep.tasks[j].pid == k.tasks[i].pid && prep.tasks[j].state == k.tasks[i].state && prep.tasks[j].sleep == k.tasks[i].sleep
  {
    j := if |Prep(k, a).tasks| >= |k.tasks| || i < k.cur then i else i - 1;
  }

  lemma SleepStep(k: Kernel, a: Action, pid: nat, until: nat)
    requires Inv(k) && Enabled(k, a) && Asleep(k, pid, until) && Do(k, a).tick < until
    ensures Asleep(Do(k, a), pid, until)
  {
    hide Common, Prep;
    var i: nat :| AsleepAt(k, i, pid, until);
    var j := OtherStays(k, a, i);
    PrepKeeps(k, a);
    PrepShape(k, a);
    if Switches(k, a) {
      SchedulerEnds(Prep(k, a));
      StaysAsleep(Prep(k, a), j, pid, until);
    } else {
      NoSwitchSameCursor(k, a);
      assert AsleepAt(Do(k, a), j, pid, until);
    }
  }

  lemma NoSwitchSameCursor(k: Kernel, a: Action)
    requires Enabled(k, a) && !Switches(k, a)
    ensures Prep(k, a).cur == k.cur
  {
  }

  lemma PrepTick(k: Kernel, a: Action)
    requires Enabled(k, a)
    ensures k.tick <= Prep(k, a).tick
  {
  }

  lemma {:induction false} TickGrows(k: Kernel, run: seq<Action>)
    requires Inv(k) && Possible(k, run)
    ensures k.tick <= After(k, run).tick
    decreases |run|
  {
    hide Common, Prep;
    if run != [] {
      PrepTick(k, run[0]);
      TickGrows(Do(k, run[0]), run[1..]);
    }
  }

  /** A sleeping task is not run before its time, whatever the others do. */
  lemma {:induction false} SleepsItsTime(k: Kernel, run: seq<Action>, pid: nat, until: nat)
    requires Inv(k) && Possible(k, run) && Asleep(k, pid, until) && After(k, run).tick < until
    ensures Asleep(After(k, run), pid, until)
    decreases |run|
  {
    hide Common, Asleep;
    if run != [] {
      TickGrows(Do(k, run[0]), run[1..]);
      SleepStep(k, run[0], pid, until);
      SleepsItsTime(Do(k, run[0]), run[1..], pid, until);
    }
  }

  // ---------- Bounded waiting ----------

  ghost function Pos(tasks: seq<Task>, pid: nat): (i: nat)
    requires HasPid(tasks, pid)
    ensures i < |tasks| && tasks[i].pid == pid
  {
    var i :| 0 <= i < |tasks| && tasks[i].pid == pid;
    i
  }

  ghost predicate DistinctPids(tasks: seq<Task>) {
    forall i, j | 0 <= i < j < |tasks| :: tasks[i].pid != tasks[j].pid
  }

  /** How many steps round the list lie between the current position and a task. */
  ghost function Ahead(k: Kernel, pid: nat): nat
    requires k.cur < |k.tasks| && HasPid(k.tasks, pid)
  {
    Distance(|k.tasks|, k.cur, Pos(k.tasks, pid))
  }

  lemma AheadAt(k: Kernel, i: nat)
    requires k.cur < |k.tasks| && i < |k.tasks| && DistinctPids(k.tasks)
    ensures HasPid(k.tasks, k.tasks[i].pid)
    ensures Ahead(k, k.tasks[i].pid) == Distance(|k.tasks|, k.cur, i)
  {
  }

  /** The task with this pid could be picked now. */
  ghost predicate Ready(k: Kernel, pid: nat) {
    HasPid(k.tasks, pid) && Runnable(k.tasks[Pos(k.tasks, pid)], k.tick, k.sems)
  }

  /** Picking another task brings a ready one closer. */
  lemma PickCloser(k: Kernel, pid: nat)
    requires AtSchedule(k) && CanSchedule(k) && Ready(k, pid)
    requires var after := Schedule(k); after.tasks[after.cur].pid != pid
    ensures HasPid(Schedule(k).tasks, pid) && Ahead(Schedule(k), pid) < Ahead(k, pid)
  {
    var i, after := Pos(k.tasks, pid), Schedule(k);
    ScheduleKeeps(k);
    assert after.tasks[i].pid == pid;
    AheadAt(after, i);
    AheadAt(k, i);
    assert Distance(|k.tasks|, k.cur, after.cur) <= Distance(|k.tasks|, k.cur, i);
  }

  /** What an operation does to the list: nothing but to a task's fields, a task more at the end, or the current one gone. */
  lemma PrepShape(k: Kernel, a: Action)
    requires Enabled(k, a)
    ensures var prep := Prep(k, a); var n := |k.tasks|;
      || (prep.cur == k.cur && |prep.tasks| == n && forall i | 0 <= i < n :: prep.tasks[i].pid == k.tasks[i].pid)
      || (a.Spawn? && prep.cur == k.cur && |prep.tasks| == n + 1 && forall i | 0 <= i < n :: prep.tasks[i].pid == k.tasks[i].pid)
      || (prep.cur == k.cur - 1 && |prep.tasks| == n - 1
          && forall i | 0 <= i < n - 1 :: prep.tasks[i].pid == k.tasks[if i < k.cur then i else i + 1].pid)
  {
  }

  /** An operation leaves the distance to a waiting task as it is, but for a new task put between. */
  lemma PrepDistance(k: Kernel, a: Action, pid: nat)
    requires Inv(k) && Enabled(k, a) && HasPid(k.tasks, pid) && k.tasks[k.cur].pid != pid
    ensures var prep := Prep(k, a);
      && prep.cur < |prep.tasks| && HasPid(prep.tasks, pid) && DistinctPids(prep.tasks)
      && Ahead(prep, pid) <= Ahead(k, pid) + if a.Spawn? then 1 else 0
  {
    hide Waiters, Counted, Balanced, Truthful, Prep, Ahead, Placed, Running, Suspended;
    PrepKeeps(k, a);
    PrepShape(k, a);
    var i, prep := Pos(k.tasks, pid), Prep(k, a);
    AheadAt(k, i);
    var p := if |prep.tasks| >= |k.tasks| || i < k.cur then i else i - 1;
    assert prep.tasks[p].pid == pid;
    AheadAt(prep, p);
  }

  /** The task is never current along the run, and ready whenever the scheduler is called. */
  ghost predicate PassedOver(k: Kernel, run: seq<Action>, pid: nat)
    requires Inv(k) && Possible(k, run)
    decreases |run|
  {
    && k.tasks[k.cur].pid != pid
    && (run != [] ==>
      && (Switches(k, run[0]) ==> Ready(Prep(k, run[0]), pid))
      && PassedOver(Do(k, run[0]), run[1..], pid))
  }

  ghost function SwitchCount(k: Kernel, run: seq<Action>): nat
    requires Inv(k) && Possible(k, run)
    decreases |run|
  {
    if run == [] then 0 else (if Switches(k, run[0]) then 1 else 0) + SwitchCount(Do(k, run[0]), run[1..])
  }

  function SpawnCount(run: seq<Action>): nat {
    if run == [] then 0 else (if run[0].Spawn? then 1 else 0) + SpawnCount(run[1..])
  }

  /** A ready task is passed over fewer times than it has tasks ahead of it, plus one for each task created meanwhile. */
  lemma {:induction false} BoundedWaiting(k: Kernel, run: seq<Action>, pid: nat)
    requires Inv(k) && Possible(k, run) && HasPid(k.tasks, pid) && PassedOver(k, run, pid)
    ensures SwitchCount(k, run) < Ahead(k, pid) + SpawnCount(run)
    decreases |run|
  {
    hide Common, Waiters;
    if run != [] {
      var a, next := run[0], Do(k, run[0]);
      PrepDistance(k, a, pid);
      PrepKeeps(k, a);
      if Switches(k, a) {
        SchedulerEnds(Prep(k, a));
        PickCloser(Prep(k, a), pid);
      }
      BoundedWaiting(next, run[1..], pid);
    }
  }

  /** Nobody is ever further ahead than the whole list. */
  lemma AheadBound(k: Kernel, pid: nat)
    requires k.cur < |k.tasks| && HasPid(k.tasks, pid)
    ensures 1 <= Ahead(k, pid) <= |k.tasks|
  {
  }
}
