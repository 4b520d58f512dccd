/** Every task that is submitted to the pool gets run, whatever the schedule and whatever becomes of the destructor. */
module Progress {
  import opened Base
  import opened ThreadPools

  /** A step of the threads already at work: nothing new from outside, no wakeup without a reason. */
  predicate Working(step: Step) {
    !step.Spurious? && !step.Submit? && !step.Stop? && !step.NotifyAll?
  }

  predicate AllWorking(steps: seq<Step>) {
    forall k :: 0 <= k < |steps| ==> Working(steps[k])
  }

  /** Left to themselves, the threads have nothing more to do. */
  ghost predicate Quiet(p: Pool) {
    forall step :: Working(step) ==> !Enabled(p, step)
  }

  /** Stopping or not, each step of work uses something up. */
  lemma WorkDescends(p: Pool, step: Step)
    requires Enabled(p, step) && Working(step)
    ensures Measure(Next(p, step)) < Measure(p)
  {
    var q := Next(p, step);
    match step
    case Lock(i) => UpdateWeight(p.workers, i, Testing);
    case Test(i) => UpdateWeight(p.workers, i, q.workers[i]);
    case Block(i) => UpdateWeight(p.workers, i, Asleep);
    case Decide(i) => UpdateWeight(p.workers, i, q.workers[i]);
    case Finish(i) => UpdateWeight(p.workers, i, AtLock);
    case NotifyOne(i) => UpdateWeight(p.workers, i, Awoken);
    case _ =>
  }

  lemma {:induction false} WorkIsBounded(p: Pool, steps: seq<Step>)
    requires Possible(p, steps) && AllWorking(steps)
    ensures |steps| <= Measure(p)
    decreases |steps|
  {
    hide Enabled, Next, Measure, Working;
    if steps != [] {
      WorkDescends(p, steps[0]);
      WorkIsBounded(Next(p, steps[0]), steps[1..]);
    }
  }

  /** Work can always be carried on until there is none. */
  lemma {:induction false} WorkOut(p: Pool) returns (steps: seq<Step>)
    ensures Possible(p, steps) && AllWorking(steps) && Quiet(After(p, steps))
    decreases Measure(p)
  {
    hide Enabled, Next, Measure, Working;
    if Quiet(p) {
      steps := [];
    } else {
      var step :| Working(step) && Enabled(p, step);
      WorkDescends(p, step);
      var rest := WorkOut(Next(p, step));
      steps := [step] + rest;
      StepFirst(p, step, rest, steps);
    }
  }

  /** Nobody holds the mutex of a quiet pool, and its workers sleep or have gone. */
  lemma QuietIsAsleep(p: Pool)
    requires MutexInvariant(p) && SeenInvariant(p) && Quiet(p)
    ensures p.holder == Nobody
    ensures forall i :: 0 <= i < |p.workers| ==> p.workers[i] == Asleep || p.workers[i] == Exited
  {
    if p.holder != Nobody {
      HolderMoves(p);
    }
    forall i: nat | i < |p.workers|
      ensures p.workers[i] == Asleep || p.workers[i] == Exited
    {
      assert !Enabled(p, Lock(i)) && !Enabled(p, Finish(i)) && !Holds(p.workers[i]);
    }
  }

  lemma HolderMoves(p: Pool)
    requires MutexInvariant(p) && SeenInvariant(p) && p.holder != Nobody
    ensures exists step :: Working(step) && Enabled(p, step)
  {
    var step: Step;
    match p.holder {
      case Submitting(_) => step := Push;
      case Notified => step := Unlock;
      case Pushed =>
        step := NotifyNobody;
        if SomebodySleeps(p) {
          var i: nat :| i < |p.workers| && p.workers[i] == Asleep;
          step := NotifyOne(i);
        }
      case Member(j) =>
        assert Holds(p.workers[j]);
        step := if p.workers[j] == Testing then Test(j) else if p.workers[j] == Blocking then Block(j) else Decide(j);
    }
    assert Working(step) && Enabled(p, step);
  }

  /** A quiet pool with at least one worker has run everything, each task once and in the order of submission. */
  lemma QuietIsDone(p: Pool)
    requires Invariant(p) && p.workers != [] && Quiet(p)
    ensures p.tasks == [] && p.started == p.submitted && multiset(p.finished) == multiset(p.submitted)
  {
    QuietIsAsleep(p);
    NoneRunning(p.workers);
    NobodyComing(p);
    assert p.started + [] == p.started;
  }

  /**
   Progress. After any schedule, the threads at work come to rest after a
   bounded number of steps, however they are scheduled; they can; and wherever
   they come to rest, every task submitted has run exactly once. It takes one
   worker, and it holds with stop set and for a destructor that hangs.
   */
  lemma EveryTaskRuns(size: nat, steps: seq<Step>)
    requires size >= 1 && Possible(NewPool(size), steps)
    ensures var p := After(NewPool(size), steps);
            && (forall more :: Possible(p, more) && AllWorking(more) ==>
                  |more| <= Measure(p)
                  && (Quiet(After(p, more)) ==>
                        && p.submitted <= After(p, more).submitted
                        && multiset(After(p, more).finished) == multiset(After(p, more).submitted)))
            && exists more :: Possible(p, more) && AllWorking(more) && Quiet(After(p, more))
  {
    hide Invariant, Enabled, Next, Measure, Quiet, AllWorking;
    NewPoolHolds(size);
    RunKeeps(NewPool(size), steps);
    var p := After(NewPool(size), steps);
    forall more | Possible(p, more) && AllWorking(more)
      ensures |more| <= Measure(p)
      ensures Quiet(After(p, more)) ==>
                && p.submitted <= After(p, more).submitted
                && multiset(After(p, more).finished) == multiset(After(p, more).submitted)
    {
      WorkIsBounded(p, more);
      RunKeeps(p, more);
      SubmissionsStay(p, more);
      if Quiet(After(p, more)) {
        QuietIsDone(After(p, more));
      }
    }
    var more := WorkOut(p);
  }

  lemma {:induction false} SubmissionsStay(p: Pool, steps: seq<Step>)
    requires Possible(p, steps)
    ensures p.submitted <= After(p, steps).submitted
    decreases |steps|
  {
    if steps != [] {
      SubmissionsStay(Next(p, steps[0]), steps[1..]);
    }
  }
}
