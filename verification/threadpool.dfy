/**
 The thread pool of the write test, as interleaved atomic steps of its worker
 threads, the callers of execute and the destructor. Everything but the stop
 flag is guarded by the mutex; the destructor stores the flag without it.
 */
module ThreadPools {
  import opened Base

  type Task = nat

  /** Where a worker is in its endless loop. */
  datatype Worker =
    | AtLock               // at the top of the loop
    | Testing              // holds the mutex, about to evaluate the wait predicate
    | Blocking             // holds the mutex, the predicate was false
    | Asleep               // inside wait, the mutex released, not notified
    | Awoken               // notified or woken spuriously, about to lock again
    | Admitted             // holds the mutex, the predicate was true
    | Running(task: Task)
    | Exited

  /** Who holds the mutex; a caller of execute holds it from its lock to its return. */
  datatype Holder =
    | Nobody
    | Member(i: nat)
    | Submitting(task: Task)
    | Pushed               // the task is queued, nobody is notified yet
    | Notified

  datatype Pool = Pool(
    stop: bool,
    joining: bool,         // the destructor has called notify_all
    tasks: seq<Task>,
    workers: seq<Worker>,
    holder: Holder,
    submitted: seq<Task>,  // history: in the order of emplace
    started: seq<Task>,    // history: in the order of pop
    finished: seq<Task>
  )

  datatype Step =
    | Lock(i: nat)
    | Test(i: nat)
    | Block(i: nat)
    | Spurious(i: nat)
    | Decide(i: nat)
    | Finish(i: nat)
    | Submit(task: Task)
    | Push
    | NotifyOne(i: nat)
    | NotifyNobody
    | Unlock
    | Stop
    | NotifyAll

  predicate SomebodySleeps(p: Pool) {
    exists i :: 0 <= i < |p.workers| && p.workers[i] == Asleep
  }

  predicate Enabled(p: Pool, step: Step) {
    match step
    case Lock(i) => i < |p.workers| && (p.workers[i] == AtLock || p.workers[i] == Awoken) && p.holder == Nobody
    case Test(i) => i < |p.workers| && p.workers[i] == Testing
    case Block(i) => i < |p.workers| && p.workers[i] == Blocking
    case Spurious(i) => i < |p.workers| && p.workers[i] == Asleep
    case Decide(i) => i < |p.workers| && p.workers[i] == Admitted && (p.stop || p.tasks != [])
    case Finish(i) => i < |p.workers| && p.workers[i].Running?
    case Submit(_) => p.holder == Nobody && !p.stop
    case Push => p.holder.Submitting?
    case NotifyOne(i) => p.holder == Pushed && i < |p.workers| && p.workers[i] == Asleep
    case NotifyNobody => p.holder == Pushed && !SomebodySleeps(p)
    case Unlock => p.holder == Notified
    case Stop => !p.stop
    case NotifyAll => p.stop && !p.joining
  }

  function Next(p: Pool, step: Step): Pool
    requires Enabled(p, step)
  {
    match step
    case Lock(i) => p.(workers := p.workers[i := Testing], holder := Member(i))
    case Test(i) => p.(workers := p.workers[i := if p.stop || p.tasks != [] then Admitted else Blocking])
    case Block(i) => p.(workers := p.workers[i := Asleep], holder := Nobody)
    case Spurious(i) => p.(workers := p.workers[i := Awoken])
    case Decide(i) =>
      if p.stop && p.tasks == [] then p.(workers := p.workers[i := Exited], holder := Nobody)
      else p.(workers := p.workers[i := Running(p.tasks[0])], holder := Nobody,
              tasks := p.tasks[1..], started := p.started + [p.tasks[0]])
    case Finish(i) => p.(workers := p.workers[i := AtLock], finished := p.finished + [p.workers[i].task])
    case Submit(task) => p.(holder := Submitting(task))
    case Push =>
      p.(holder := Pushed, tasks := p.tasks + [p.holder.task], submitted := p.submitted + [p.holder.task])
    case NotifyOne(i) => p.(workers := p.workers[i := Awoken], holder := Notified)
    case NotifyNobody => p.(holder := Notified)
    case Unlock => p.(holder := Nobody)
    case Stop => p.(stop := true)
    case NotifyAll => p.(workers := WakeAll(p.workers), joining := true)
  }

  function Wake(w: Worker): Worker {
    if w == Asleep then Awoken else w
  }

  function WakeAll(ws: seq<Worker>): seq<Worker> {
    seq(|ws|, i requires 0 <= i < |ws| => Wake(ws[i]))
  }

  function NewPool(size: nat): Pool {
    Pool(false, false, [], Fill(size, AtLock), Nobody, [], [], [])
  }

  // ----------------------------------------------------------- counting

  /** Awake and on the way to evaluating the predicate, or past it. */
  predicate Heading(w: Worker) {
    w == AtLock || w == Testing || w == Awoken || w == Admitted
  }

  function CountHeading(ws: seq<Worker>): nat {
    if ws == [] then 0 else (if Heading(ws[0]) then 1 else 0) + CountHeading(ws[1..])
  }

  function TaskOf(w: Worker): multiset<Task> {
    if w.Running? then multiset{w.task} else multiset{}
  }

  function RunningTasks(ws: seq<Worker>): multiset<Task> {
    if ws == [] then multiset{} else TaskOf(ws[0]) + RunningTasks(ws[1..])
  }

  lemma {:induction false} UpdateHeading(ws: seq<Worker>, i: nat, w: Worker)
    requires i < |ws|
    ensures CountHeading(ws[i := w]) + (if Heading(ws[i]) then 1 else 0) ==
            CountHeading(ws) + (if Heading(w) then 1 else 0)
  {
    if i == 0 {
      assert ws[0 := w][1..] == ws[1..];
    } else {
      UpdateHeading(ws[1..], i - 1, w);
      assert ws[i := w][1..] == ws[1..][i - 1 := w];
    }
  }

  lemma SameHead(head: multiset<Task>, a: multiset<Task>, b: multiset<Task>, c: multiset<Task>, d: multiset<Task>)
    requires a + b == c + d
    ensures (head + a) + b == (head + c) + d
  {
    calc {
      (head + a) + b;
      head + (a + b);
      head + (c + d);
      (head + c) + d;
    }
  }

  lemma {:induction false} UpdateTasks(ws: seq<Worker>, i: nat, w: Worker)
    requires i < |ws|
    ensures RunningTasks(ws[i := w]) + TaskOf(ws[i]) == RunningTasks(ws) + TaskOf(w)
    ensures TaskOf(ws[i]) == TaskOf(w) ==> RunningTasks(ws[i := w]) == RunningTasks(ws)
  {
    hide TaskOf;
    if i == 0 {
      assert ws[0 := w][1..] == ws[1..];
    } else {
      UpdateTasks(ws[1..], i - 1, w);
      assert ws[i := w][1..] == ws[1..][i - 1 := w];
      assert RunningTasks(ws) == TaskOf(ws[0]) + RunningTasks(ws[1..]);
      assert RunningTasks(ws[i := w]) == TaskOf(ws[0]) + RunningTasks(ws[1..][i - 1 := w]);
      SameHead(TaskOf(ws[0]), RunningTasks(ws[1..][i - 1 := w]), TaskOf(ws[i]), RunningTasks(ws[1..]), TaskOf(w));
    }
  }

  lemma {:induction false} WakeCounts(ws: seq<Worker>)
    ensures CountHeading(WakeAll(ws)) >= CountHeading(ws)
    ensures RunningTasks(WakeAll(ws)) == RunningTasks(ws)
  {
    if ws != [] {
      WakeCounts(ws[1..]);
      var woken := WakeAll(ws);
      assert woken[1..] == WakeAll(ws[1..]) && woken[0] == Wake(ws[0]);
      assert TaskOf(woken[0]) == TaskOf(ws[0]);
      assert RunningTasks(woken) == TaskOf(woken[0]) + RunningTasks(woken[1..]);
    }
  }

  lemma {:induction false} HeadingCounted(ws: seq<Worker>, i: nat)
    requires i < |ws| && Heading(ws[i])
    ensures CountHeading(ws) >= 1
  {
    if i > 0 {
      HeadingCounted(ws[1..], i - 1);
    }
  }

  lemma {:induction false} NoneHeading(ws: seq<Worker>)
    requires forall i :: 0 <= i < |ws| ==> !Heading(ws[i])
    ensures CountHeading(ws) == 0
  {
    if ws != [] {
      NoneHeading(ws[1..]);
    }
  }

  lemma {:induction false} NoneRunning(ws: seq<Worker>)
    requires forall i :: 0 <= i < |ws| ==> !ws[i].Running?
    ensures RunningTasks(ws) == multiset{}
  {
    if ws != [] {
      NoneRunning(ws[1..]);
    }
  }

  // ---------------------------------------------------------- invariants

  predicate Holds(w: Worker) {
    w == Testing || w == Blocking || w == Admitted
  }

  ghost predicate MutexInvariant(p: Pool) {
    && (forall i :: 0 <= i < |p.workers| ==> (Holds(p.workers[i]) <==> p.holder == Member(i)))
    && (p.holder.Member? ==> p.holder.i < |p.workers|)
  }

  /** What the holder of the mutex has seen is still so, except that stop may have been set. */
  ghost predicate SeenInvariant(p: Pool) {
    && (forall i :: 0 <= i < |p.workers| && p.workers[i] == Blocking ==> p.tasks == [])
    && (forall i :: 0 <= i < |p.workers| && p.workers[i] == Admitted ==> p.stop || p.tasks != [])
    && (forall i :: 0 <= i < |p.workers| && p.workers[i] == Exited ==>
          p.stop && p.tasks == [] && (p.holder == Nobody || p.holder.Member?))
  }

  /** If somebody sleeps, every queued task has a worker on its way, or a notification about to be sent. */
  ghost predicate NoLostWakeup(p: Pool) {
    SomebodySleeps(p) ==> |p.tasks| <= CountHeading(p.workers) + (if p.holder == Pushed then 1 else 0)
  }

  /** Started tasks followed by queued tasks are the submissions; what is started is running or finished. */
  ghost predicate Conserved(p: Pool) {
    InOrder(p) && Accounted(p)
  }

  ghost predicate InOrder(p: Pool) {
    p.started + p.tasks == p.submitted
  }

  ghost predicate Accounted(p: Pool) {
    multiset(p.finished) + RunningTasks(p.workers) == multiset(p.started)
  }

  ghost predicate Invariant(p: Pool) {
    MutexInvariant(p) && SeenInvariant(p) && NoLostWakeup(p) && Conserved(p)
  }

  lemma NewPoolHolds(size: nat)
    ensures Invariant(NewPool(size))
  {
    NoneRunning(NewPool(size).workers);
  }

  lemma MutexKept(p: Pool, step: Step)
    requires MutexInvariant(p) && Enabled(p, step)
    ensures MutexInvariant(Next(p, step))
  {
  }

  lemma SeenKept(p: Pool, step: Step)
    requires MutexInvariant(p) && SeenInvariant(p) && Enabled(p, step)
    ensures SeenInvariant(Next(p, step))
  {
  }

  lemma WakeupKept(p: Pool, step: Step)
    requires MutexInvariant(p) && SeenInvariant(p) && NoLostWakeup(p) && Enabled(p, step)
    ensures NoLostWakeup(Next(p, step))
  {
    var q := Next(p, step);
    if SomebodySleeps(q) {
      match step
      case NotifyAll => WakeCounts(p.workers);
      case Lock(i) => UpdateHeading(p.workers, i, q.workers[i]);
      case Test(i) => UpdateHeading(p.workers, i, q.workers[i]);
      case Block(i) => assert q.tasks == [];
      case Spurious(i) => UpdateHeading(p.workers, i, q.workers[i]);
      case Decide(i) => UpdateHeading(p.workers, i, q.workers[i]);
      case Finish(i) => UpdateHeading(p.workers, i, q.workers[i]);
      case NotifyOne(i) => UpdateHeading(p.workers, i, q.workers[i]);
      case _ =>
    }
    if SomebodySleeps(q) && !SomebodySleeps(p) {
      var i :| 0 <= i < |q.workers| && q.workers[i] == Asleep;
      assert p.workers[i] != Asleep;
    }
  }

  lemma TakeTask(ws: seq<Worker>, i: nat, x: Task)
    requires i < |ws| && !ws[i].Running?
    ensures RunningTasks(ws[i := Running(x)]) == RunningTasks(ws) + multiset{x}
  {
    UpdateTasks(ws, i, Running(x));
    var after := RunningTasks(ws[i := Running(x)]);
    assert after + multiset{} == after;
  }

  lemma DropTask(ws: seq<Worker>, i: nat, x: Task)
    requires i < |ws| && ws[i] == Running(x)
    ensures RunningTasks(ws) == RunningTasks(ws[i := AtLock]) + multiset{x}
  {
    TakeTask(ws[i := AtLock], i, x);
    assert ws[i := AtLock][i := Running(x)] == ws;
  }

  lemma Snoc(a: seq<Task>, x: Task)
    ensures multiset(a + [x]) == multiset(a) + multiset{x}
  {
  }

  lemma Regroup(a: multiset<Task>, b: multiset<Task>, x: multiset<Task>)
    ensures a + (b + x) == (a + b) + x && (a + x) + b == a + (b + x)
  {
  }

  lemma OrderKept(p: Pool, step: Step)
    requires InOrder(p) && Enabled(p, step)
    ensures InOrder(Next(p, step))
  {
    match step
    case Decide(_) =>
      if p.tasks != [] {
        assert p.started + p.tasks == p.started + [p.tasks[0]] + p.tasks[1..];
      }
    case Push => assert p.started + (p.tasks + [p.holder.task]) == p.submitted + [p.holder.task];
    case _ =>
  }

  lemma DecideAccounted(p: Pool, i: nat)
    requires Accounted(p) && Enabled(p, Decide(i))
    ensures Accounted(Next(p, Decide(i)))
  {
    if p.stop && p.tasks == [] {
      UpdateTasks(p.workers, i, Exited);
    } else {
      var x := p.tasks[0];
      TakeTask(p.workers, i, x);
      Snoc(p.started, x);
      Regroup(multiset(p.finished), RunningTasks(p.workers), multiset{x});
    }
  }

  lemma FinishAccounted(p: Pool, i: nat)
    requires Accounted(p) && Enabled(p, Finish(i))
    ensures Accounted(Next(p, Finish(i)))
  {
    var x := p.workers[i].task;
    DropTask(p.workers, i, x);
    Snoc(p.finished, x);
    Regroup(multiset(p.finished), RunningTasks(p.workers[i := AtLock]), multiset{x});
  }

  /** A worker that moves without taking or finishing a task. */
  lemma MoveKeepsTasks(ws: seq<Worker>, i: nat, w: Worker)
    requires i < |ws| && !ws[i].Running? && !w.Running?
    ensures RunningTasks(ws[i := w]) == RunningTasks(ws)
  {
    UpdateTasks(ws, i, w);
  }

  lemma AccountedKept(p: Pool, step: Step)
    requires Accounted(p) && Enabled(p, step)
    ensures Accounted(Next(p, step))
  {
    match step
    case NotifyAll => WakeCounts(p.workers);
    case Lock(i) => MoveKeepsTasks(p.workers, i, Testing);
    case Test(i) => MoveKeepsTasks(p.workers, i, if p.stop || p.tasks != [] then Admitted else Blocking);
    case Block(i) => MoveKeepsTasks(p.workers, i, Asleep);
    case Spurious(i) => MoveKeepsTasks(p.workers, i, Awoken);
    case Decide(i) => DecideAccounted(p, i);
    case Finish(i) => FinishAccounted(p, i);
    case NotifyOne(i) => MoveKeepsTasks(p.workers, i, Awoken);
    case _ =>
  }

  // --------------------------------------------------------- whole runs

  ghost predicate Possible(p: Pool, steps: seq<Step>)
    decreases |steps|
  {
    steps == [] || (Enabled(p, steps[0]) && Possible(Next(p, steps[0]), steps[1..]))
  }

  ghost function After(p: Pool, steps: seq<Step>): Pool
    requires Possible(p, steps)
    decreases |steps|
  {
    if steps == [] then p else After(Next(p, steps[0]), steps[1..])
  }

  lemma StepFirst(p: Pool, step: Step, rest: seq<Step>, steps: seq<Step>)
    requires steps == [step] + rest
    requires Enabled(p, step) && Possible(Next(p, step), rest)
    ensures Possible(p, steps) && After(p, steps) == After(Next(p, step), rest)
  {
    hide Enabled, Next;
    assert steps[1..] == rest;
  }

  lemma StepLast(p: Pool, step: Step)
    requires Enabled(p, step)
    ensures Possible(p, [step]) && After(p, [step]) == Next(p, step)
  {
    hide Enabled, Next;
    assert [step][1..] == [];
  }

  lemma {:induction false} RunKeeps(p: Pool, steps: seq<Step>)
    requires Invariant(p) && Possible(p, steps)
    ensures Invariant(After(p, steps)) && |After(p, steps).workers| == |p.workers|
    decreases |steps|
  {
    if steps != [] {
      MutexKept(p, steps[0]);
      SeenKept(p, steps[0]);
      WakeupKept(p, steps[0]);
      OrderKept(p, steps[0]);
      AccountedKept(p, steps[0]);
      RunKeeps(Next(p, steps[0]), steps[1..]);
    }
  }

  /** If no worker is on its way or running, no task is queued. */
  lemma NobodyComing(p: Pool)
    requires Invariant(p) && p.workers != [] && p.holder != Pushed
    requires forall i :: 0 <= i < |p.workers| ==> !Heading(p.workers[i]) && !p.workers[i].Running?
    ensures p.tasks == []
  {
    NoneHeading(p.workers);
    match p.workers[0]
    case Asleep => assert SomebodySleeps(p);
    case _ =>
  }

  /** With at least one worker, whatever the schedule: while a task is queued, somebody is on the way to it. */
  lemma SomebodyComes(size: nat, steps: seq<Step>)
    requires size >= 1 && Possible(NewPool(size), steps)
    ensures var p := After(NewPool(size), steps);
            p.tasks != [] && p.holder != Pushed ==>
              exists i :: 0 <= i < |p.workers| && (Heading(p.workers[i]) || p.workers[i].Running?)
  {
    NewPoolHolds(size);
    RunKeeps(NewPool(size), steps);
    var p := After(NewPool(size), steps);
    if p.holder != Pushed && forall i :: 0 <= i < |p.workers| ==> !Heading(p.workers[i]) && !p.workers[i].Running? {
      NobodyComing(p);
    }
  }

  /** In every reachable state the sleeping workers leave no task behind. */
  lemma NoWakeupIsLost(size: nat, steps: seq<Step>)
    requires Possible(NewPool(size), steps)
    ensures var p := After(NewPool(size), steps);
            SomebodySleeps(p) && p.holder != Pushed ==> |p.tasks| <= CountHeading(p.workers)
  {
    NewPoolHolds(size);
    RunKeeps(NewPool(size), steps);
  }

  /** A worker past its wait always finds stop set or a task to take: front() is never called on an empty queue. */
  lemma FrontIsThere(size: nat, steps: seq<Step>, i: nat)
    requires Possible(NewPool(size), steps)
    requires var p := After(NewPool(size), steps); i < |p.workers| && p.workers[i] == Admitted
    ensures Enabled(After(NewPool(size), steps), Decide(i))
  {
    NewPoolHolds(size);
    RunKeeps(NewPool(size), steps);
  }

  /** Tasks start in the order of submission, each submission at most once. */
  lemma StartedInOrder(size: nat, steps: seq<Step>)
    requires Possible(NewPool(size), steps)
    ensures var p := After(NewPool(size), steps);
            && p.started <= p.submitted && p.submitted[|p.started|..] == p.tasks
            && multiset(p.finished) <= multiset(p.started)
  {
    NewPoolHolds(size);
    RunKeeps(NewPool(size), steps);
    var p := After(NewPool(size), steps);
    assert p.submitted[..|p.started|] == p.started;
  }

  /** When all joins have returned, every submitted task has run exactly once. */
  lemma AllRunWhenJoined(size: nat, steps: seq<Step>)
    requires size >= 1 && Possible(NewPool(size), steps)
    requires var p := After(NewPool(size), steps); forall i :: 0 <= i < |p.workers| ==> p.workers[i] == Exited
    ensures var p := After(NewPool(size), steps);
            p.tasks == [] && p.started == p.submitted && multiset(p.finished) == multiset(p.submitted)
  {
    NewPoolHolds(size);
    RunKeeps(NewPool(size), steps);
    var p := After(NewPool(size), steps);
    assert p.workers[0] == Exited;
    NoneRunning(p.workers);
    assert p.started + [] == p.started;
  }

  // ---------------------------------------- the unguarded stop flag

  /** No worker is inside wait, or committed to it. */
  ghost predicate NobodyWaits(p: Pool) {
    forall i :: 0 <= i < |p.workers| ==> p.workers[i] != Asleep && p.workers[i] != Blocking
  }

  /** If nobody had already found the predicate false when notify_all ran, nobody ever sleeps again. */
  lemma {:induction false} NeverSleepAgain(p: Pool, steps: seq<Step>)
    requires p.stop && NobodyWaits(p) && Possible(p, steps)
    ensures NobodyWaits(After(p, steps))
    decreases |steps|
  {
    if steps != [] {
      NeverSleepAgain(Next(p, steps[0]), steps[1..]);
    }
  }

  /** notify_all reaches every sleeper; it misses exactly the workers between their test and their sleep. */
  lemma NotifyAllMissesIff(p: Pool)
    requires Enabled(p, NotifyAll)
    ensures NobodyWaits(Next(p, NotifyAll)) <==> forall i :: 0 <= i < |p.workers| ==> p.workers[i] != Blocking
  {
    var q := Next(p, NotifyAll);
    forall i | 0 <= i < |p.workers|
      ensures q.workers[i] != Asleep && (q.workers[i] == Blocking <==> p.workers[i] == Blocking)
    {
      assert q.workers[i] == Wake(p.workers[i]);
    }
  }

  /** A worker asleep after notify_all, with no execute under way, is moved by nothing but a spurious wakeup. */
  lemma OnlySpuriousWakes(p: Pool, i: nat, step: Step)
    requires MutexInvariant(p) && Enabled(p, step)
    requires p.stop && p.joining && (p.holder == Nobody || p.holder.Member?)
    requires i < |p.workers| && p.workers[i] == Asleep && step != Spurious(i)
    ensures var q := Next(p, step);
            q.workers[i] == Asleep && q.stop && q.joining && (q.holder == Nobody || q.holder.Member?)
  {
  }

  /**
   The destructor can wait for ever: one worker tests the predicate, stop is set
   and everybody is notified, and only then does the worker go to sleep.
   */
  lemma JoinCanHang()
    ensures var steps := [Lock(0), Test(0), Stop, NotifyAll, Block(0)];
            && Possible(NewPool(1), steps)
            && var p := After(NewPool(1), steps);
               && p.stop && p.joining && p.workers == [Asleep] && p.holder == Nobody
               && forall step :: Enabled(p, step) ==> step == Spurious(0)
  {
    hide Possible, After;
    var p0 := NewPool(1);
    var p1 := Next(p0, Lock(0));
    var p2 := Next(p1, Test(0));
    var p3 := Next(p2, Stop);
    var p4 := Next(p3, NotifyAll);
    assert p4.workers[0] == Wake(p3.workers[0]) == Blocking;
    var p5 := Next(p4, Block(0));
    assert p5.workers == [Asleep];
    StepLast(p4, Block(0));
    StepFirst(p3, NotifyAll, [Block(0)], [NotifyAll, Block(0)]);
    StepFirst(p2, Stop, [NotifyAll, Block(0)], [Stop, NotifyAll, Block(0)]);
    StepFirst(p1, Test(0), [Stop, NotifyAll, Block(0)], [Test(0), Stop, NotifyAll, Block(0)]);
    StepFirst(p0, Lock(0), [Test(0), Stop, NotifyAll, Block(0)], [Lock(0), Test(0), Stop, NotifyAll, Block(0)]);
  }

  // ------------------------------------------ whether join returns

  /** How many steps a worker can still be away from its exit or its next task. */
  function Weight(w: Worker): nat {
    match w
    case Running(_) => 4
    case AtLock => 3
    case Awoken => 3
    case Testing => 2
    case Admitted => 1
    case Blocking => 1
    case Asleep => 0
    case Exited => 0
  }

  function WeightOfAll(ws: seq<Worker>): nat {
    if ws == [] then 0 else Weight(ws[0]) + WeightOfAll(ws[1..])
  }

  function HolderWeight(h: Holder): nat {
    match h
    case Submitting(_) => 10
    case Pushed => 5
    case Notified => 1
    case _ => 0
  }

  function Measure(p: Pool): nat {
    WeightOfAll(p.workers) + 4 * |p.tasks| + HolderWeight(p.holder)
  }

  lemma {:induction false} UpdateWeight(ws: seq<Worker>, i: nat, w: Worker)
    requires i < |ws|
    ensures WeightOfAll(ws[i := w]) + Weight(ws[i]) == WeightOfAll(ws) + Weight(w)
  {
    hide Weight;
    if i == 0 {
      assert ws[0 := w][1..] == ws[1..];
    } else {
      UpdateWeight(ws[1..], i - 1, w);
      assert ws[i := w][1..] == ws[1..][i - 1 := w];
    }
  }

  /** The destructor is past its notify_all. */
  predicate Winding(p: Pool) {
    p.stop && p.joining
  }

  /** From then on every step but a spurious wakeup brings the pool closer to its end. */
  lemma StepDescends(p: Pool, step: Step)
    requires Winding(p) && Enabled(p, step) && !step.Spurious?
    ensures Winding(Next(p, step)) && Measure(Next(p, step)) < Measure(p)
  {
    var q := Next(p, step);
    match step
    case Lock(i) => UpdateWeight(p.workers, i, Testing);
    case Test(i) => UpdateWeight(p.workers, i, Admitted);
    case Block(i) => UpdateWeight(p.workers, i, Asleep);
    case Decide(i) => UpdateWeight(p.workers, i, q.workers[i]);
    case Finish(i) => UpdateWeight(p.workers, i, AtLock);
    case NotifyOne(i) => UpdateWeight(p.workers, i, Awoken);
    case _ =>
  }

  /** Nothing can happen any more, spurious wakeups aside. */
  ghost predicate Ended(p: Pool) {
    forall step :: Enabled(p, step) ==> step.Spurious?
  }

  ghost predicate AllExited(p: Pool) {
    forall i :: 0 <= i < |p.workers| ==> p.workers[i] == Exited
  }

  predicate NoneSpurious(steps: seq<Step>) {
    forall k :: 0 <= k < |steps| ==> !steps[k].Spurious?
  }

  /** While some worker has neither gone nor gone to sleep, or a caller is inside execute, somebody can move. */
  lemma SomebodyMoves(p: Pool) returns (step: Step)
    requires MutexInvariant(p) && Winding(p)
    requires !(p.holder == Nobody || p.holder.Member?) ||
             exists i :: 0 <= i < |p.workers| && p.workers[i] != Exited && p.workers[i] != Asleep
    ensures Enabled(p, step) && !step.Spurious?
  {
    match p.holder
    case Submitting(_) => step := Push;
    case Notified => step := Unlock;
    case Pushed =>
      step := NotifyNobody;
      if SomebodySleeps(p) {
        var i :| 0 <= i < |p.workers| && p.workers[i] == Asleep;
        step := NotifyOne(i);
      }
    case Member(j) =>
      assert Holds(p.workers[j]);
      step := if p.workers[j] == Testing then Test(j) else if p.workers[j] == Blocking then Block(j) else Decide(j);
    case Nobody =>
      var i: nat :| i < |p.workers| && p.workers[i] != Exited && p.workers[i] != Asleep;
      assert !Holds(p.workers[i]);
      step := if p.workers[i].Running? then Finish(i) else Lock(i);
  }

  /** The pool has ended exactly when every worker has gone or sleeps, and nobody is inside execute. */
  lemma EndedIff(p: Pool)
    requires MutexInvariant(p) && Winding(p)
    ensures Ended(p) <==>
            && (p.holder == Nobody || p.holder.Member?)
            && forall i :: 0 <= i < |p.workers| ==> p.workers[i] == Exited || p.workers[i] == Asleep
  {
    if Ended(p) {
      if !(p.holder == Nobody || p.holder.Member?) ||
         exists i :: 0 <= i < |p.workers| && p.workers[i] != Exited && p.workers[i] != Asleep
      {
        var step := SomebodyMoves(p);
      }
    }
  }

  /** Runs without spurious wakeups are no longer than the measure. */
  lemma {:induction false} RunsAreBounded(p: Pool, steps: seq<Step>)
    requires Winding(p) && Possible(p, steps) && NoneSpurious(steps)
    ensures |steps| <= Measure(p)
    decreases |steps|
  {
    hide Enabled, Next, Measure;
    if steps != [] {
      StepDescends(p, steps[0]);
      RunsAreBounded(Next(p, steps[0]), steps[1..]);
    }
  }

  /** What a run after notify_all keeps while one worker sleeps and no execute is under way. */
  lemma SleeperStays(p: Pool, i: nat, step: Step)
    requires MutexInvariant(p) && Winding(p) && (p.holder == Nobody || p.holder.Member?)
    requires i < |p.workers| && p.workers[i] == Asleep && Enabled(p, step) && !step.Spurious?
    ensures var q := Next(p, step);
            && MutexInvariant(q) && (q.holder == Nobody || q.holder.Member?)
            && |q.workers| == |p.workers| && q.workers[i] == Asleep
  {
    MutexKept(p, step);
    OnlySpuriousWakes(p, i, step);
  }

  /** The other workers can always be brought to their end; the sleeper sleeps on. */
  lemma {:induction false} SleeperIsLeft(p: Pool, i: nat) returns (steps: seq<Step>)
    requires MutexInvariant(p) && Winding(p) && (p.holder == Nobody || p.holder.Member?)
    requires i < |p.workers| && p.workers[i] == Asleep
    ensures Possible(p, steps) && NoneSpurious(steps)
    ensures var q := After(p, steps); Ended(q) && i < |q.workers| && q.workers[i] == Asleep
    decreases Measure(p)
  {
    hide Enabled, Next, Measure, MutexInvariant;
    if Ended(p) {
      steps := [];
    } else {
      EndedIff(p);
      var step := SomebodyMoves(p);
      SleeperStays(p, i, step);
      StepDescends(p, step);
      var rest := SleeperIsLeft(Next(p, step), i);
      steps := [step] + rest;
      StepFirst(p, step, rest, steps);
    }
  }

  /** Every run that goes on as long as it can ends with all workers gone, so that every join returns. */
  ghost predicate JoinReturns(p: Pool) {
    forall steps :: Possible(p, steps) && NoneSpurious(steps) && Ended(After(p, steps)) ==> AllExited(After(p, steps))
  }

  lemma {:induction false} RunStaysWound(p: Pool, steps: seq<Step>)
    requires MutexInvariant(p) && Winding(p) && Possible(p, steps)
    ensures MutexInvariant(After(p, steps)) && Winding(After(p, steps))
    decreases |steps|
  {
    hide MutexInvariant;
    if steps != [] {
      MutexKept(p, steps[0]);
      RunStaysWound(Next(p, steps[0]), steps[1..]);
    }
  }

  /**
   Exactly when the destructor is safe: when notify_all runs, no worker may be
   between a test that failed and its sleep. Then all runs are finite and end
   with every worker gone; otherwise there is one that leaves a worker asleep.
   */
  lemma JoinReturnsIff(p: Pool)
    requires Invariant(p) && Enabled(p, NotifyAll)
    ensures JoinReturns(Next(p, NotifyAll)) <==> forall i :: 0 <= i < |p.workers| ==> p.workers[i] != Blocking
    ensures forall steps :: Possible(Next(p, NotifyAll), steps) && NoneSpurious(steps) ==>
              |steps| <= Measure(Next(p, NotifyAll))
  {
    var q := Next(p, NotifyAll);
    MutexKept(p, NotifyAll);
    NotifyAllMissesIff(p);
    forall steps | Possible(q, steps) && NoneSpurious(steps)
      ensures |steps| <= Measure(q)
    {
      RunsAreBounded(q, steps);
    }
    if NobodyWaits(q) {
      forall steps | Possible(q, steps) && NoneSpurious(steps) && Ended(After(q, steps))
        ensures AllExited(After(q, steps))
      {
        NeverSleepAgain(q, steps);
        RunStaysWound(q, steps);
        EndedIff(After(q, steps));
      }
    } else {
      var i: nat :| i < |p.workers| && p.workers[i] == Blocking;
      SleeperFound(p, q, i);
    }
  }

  lemma SleeperFound(p: Pool, q: Pool, i: nat)
    requires MutexInvariant(p) && Enabled(p, NotifyAll) && q == Next(p, NotifyAll)
    requires i < |p.workers| && p.workers[i] == Blocking
    ensures !JoinReturns(q)
  {
    MutexKept(p, NotifyAll);
    assert q.workers[i] == Wake(p.workers[i]) == Blocking;
    var r := Next(q, Block(i));
    MutexKept(q, Block(i));
    var rest := SleeperIsLeft(r, i);
    var steps := [Block(i)] + rest;
    StepFirst(q, Block(i), rest, steps);
    assert !AllExited(After(q, steps));
  }

  // ------------------------------------------------- the class itself

  /** The next atomic step of a worker, if it can move by itself. */
  function WorkerStep(p: Pool, i: nat): Option<Step>
    requires i < |p.workers|
  {
    match p.workers[i]
    case AtLock => if p.holder == Nobody then Some(Lock(i)) else None
    case Awoken => if p.holder == Nobody then Some(Lock(i)) else None
    case Testing => Some(Test(i))
    case Blocking => Some(Block(i))
    case Asleep => None
    case Admitted => Some(Decide(i))
    case Running(_) => Some(Finish(i))
    case Exited => None
  }

  /** What lock, emplace, notify_one and unlock do in a row. */
  lemma ExecuteSteps(p: Pool, task: Task, woken: nat)
    requires p.holder == Nobody && !p.stop
    requires SomebodySleeps(p) ==> woken < |p.workers| && p.workers[woken] == Asleep
    ensures var notify := if SomebodySleeps(p) then NotifyOne(woken) else NotifyNobody;
            var steps := [Submit(task), Push, notify, Unlock];
            && Possible(p, steps)
            && After(p, steps) ==
               p.(tasks := p.tasks + [task], submitted := p.submitted + [task],
                  workers := if SomebodySleeps(p) then p.workers[woken := Awoken] else p.workers)
  {
    hide Possible, After;
    var notify := if SomebodySleeps(p) then NotifyOne(woken) else NotifyNobody;
    var p1 := Next(p, Submit(task));
    var p2 := Next(p1, Push);
    assert SomebodySleeps(p2) == SomebodySleeps(p);
    var p3 := Next(p2, notify);
    StepLast(p3, Unlock);
    StepFirst(p2, notify, [Unlock], [notify, Unlock]);
    StepFirst(p1, Push, [notify, Unlock], [Push, notify, Unlock]);
    StepFirst(p, Submit(task), [Push, notify, Unlock], [Submit(task), Push, notify, Unlock]);
  }

  class ThreadPool {
    var stop: bool
    var joining: bool
    var tasks: seq<Task>
    var threads: seq<Worker>
    var holder: Holder
    ghost var submitted: seq<Task>
    ghost var started: seq<Task>
    ghost var finished: seq<Task>

    ghost function State(): Pool
      reads this
    {
      Pool(stop, joining, tasks, threads, holder, submitted, started, finished)
    }

    constructor (size: nat)
      ensures State() == NewPool(size)
    {
      stop, joining, tasks, threads, holder := false, false, [], Fill(size, AtLock), Nobody;
      submitted, started, finished := [], [], [];
    }

    /** One pass of a worker's loop, a step at a time. */
    method Work(i: nat)
      requires i < |threads| && SeenInvariant(State())
      modifies this
      ensures var step := WorkerStep(old(State()), i);
              if step.None? then State() == old(State())
              else Enabled(old(State()), step.value) && State() == Next(old(State()), step.value)
    {
      match threads[i]
      case AtLock =>
        if holder == Nobody {
          threads, holder := threads[i := Testing], Member(i);
        }
      case Awoken =>
        if holder == Nobody {
          threads, holder := threads[i := Testing], Member(i);
        }
      case Testing =>
        threads := threads[i := if stop || tasks != [] then Admitted else Blocking];
      case Blocking =>
        threads, holder := threads[i := Asleep], Nobody;
      case Asleep =>
      case Admitted =>
        if stop && tasks == [] {
          threads := threads[i := Exited];
        } else {
          var task := tasks[0];
          tasks := tasks[1..];
          started := started + [task];
          threads := threads[i := Running(task)];
        }
        holder := Nobody;
      case Running(task) =>
        finished := finished + [task];
        threads := threads[i := AtLock];
      case Exited =>
    }

    /** execute with no other thread running in between: the task is queued behind all others, one sleeper is woken. */
    method Execute(task: Task, woken: nat)
      requires holder == Nobody && !stop
      requires SomebodySleeps(State()) ==> woken < |threads| && threads[woken] == Asleep
      modifies this
      ensures var notify := if SomebodySleeps(old(State())) then NotifyOne(woken) else NotifyNobody;
              var steps := [Submit(task), Push, notify, Unlock];
              Possible(old(State()), steps) && State() == After(old(State()), steps)
      ensures tasks == old(tasks) + [task]
    {
      ExecuteSteps(State(), task, woken);
      hide Possible, After, Next, Enabled;
      var somebody := exists i :: 0 <= i < |threads| && threads[i] == Asleep;
      holder := Submitting(task);
      tasks, holder := tasks + [task], Pushed;
      submitted := submitted + [task];
      if somebody {
        threads := threads[woken := Awoken];
      }
      holder := Notified;
      holder := Nobody;
    }

    /** The destructor's store to the flag and its notify_all; other threads may move in between. */
    method SetStop()
      requires !stop
      modifies this
      ensures State() == Next(old(State()), Stop)
    {
      stop := true;
    }

    method WakeEverybody()
      requires stop && !joining
      modifies this
      ensures State() == Next(old(State()), NotifyAll)
    {
      var woken := [];
      for k := 0 to |threads|
        invariant woken == WakeAll(threads[..k])
      {
        woken := woken + [Wake(threads[k])];
      }
      assert threads[..|threads|] == threads;
      threads, joining := woken, true;
    }
  }
}
