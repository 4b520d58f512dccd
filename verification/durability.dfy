/** What every step of the replicated servers keeps, and what follows for whole runs. */
module Durability {
  import opened Paths
  import opened Kernel
  import opened Handlers
  import opened Agreement
  import opened Replication

  // ---------------------------------------------------------- small facts

  lemma RestartSame(a: FileStore, b: FileStore, nextFd: int)
    requires Agree(a, b, false)
    ensures SameServer(Restarted(a, nextFd), Restarted(b, nextFd))
  {
    assert forall x :: x in NamesOnly(a).refs <==> x.Name? && x in a.refs;
    assert forall x :: x in NamesOnly(b).refs <==> x.Name? && x in b.refs;
    assert forall x: Ref | x.Name? :: Counts(false, x);
  }

  lemma OpenKeepsTreeIff(s: SingleServer, req: Request, limit: nat)
    requires req.Open?
    ensures Agree(s.store, Serve(s, req, Original, limit).0.store, false) <==> !Wipes(s, req)
  {
    hide IsOpValid, Follow, ModeOf;
    var t := Serve(s, req, Original, limit).0.store;
    if Wipes(s, req) {
      var p := Follow(s.store, Translate(req.path)).value;
      assert Counts(false, Name(p)) && Node(t, p).data == [] && Node(t, p) != Node(s.store, p);
    } else {
      assert t.inodes == s.store.inodes;
    }
  }

  /** Of the requests that are not forwarded, only an open that wipes a file touches names or inodes. */
  lemma QueryKeepsTreeIff(s: SingleServer, req: Request, limit: nat)
    requires !Forwarded(req)
    ensures Agree(s.store, Serve(s, req, Original, limit).0.store, false) <==> !Wipes(s, req)
  {
    hide OpenFile, LstatPath, IsOpValid, Follow;
    if req.Open? {
      OpenKeepsTreeIff(s, req, limit);
    }
  }

  lemma NamesBothAgree(a: FileStore, b: FileStore)
    requires Agree(a, b, false)
    ensures Agree(NamesOnly(a), NamesOnly(b), false)
  {
    RestartSame(a, b, 0);
  }

  /** Of two agreeing trees, a third agrees with both or with neither. */
  lemma AgreesWithEither(t: FileStore, a: FileStore, b: FileStore)
    requires Agree(a, b, false)
    ensures Agree(t, a, false) <==> Agree(t, b, false)
  {
    hide Agree;
    AgreeSymmetric(a, b, false);
    if Agree(t, a, false) {
      AgreeTransitive(t, a, b, false);
    } else if Agree(t, b, false) {
      AgreeTransitive(t, b, a, false);
    }
  }

  /** The mirror image of the lemma above. */
  lemma EitherAgreesWith(a: FileStore, b: FileStore, t: FileStore)
    requires Agree(a, b, false)
    ensures Agree(a, t, false) <==> Agree(b, t, false)
  {
    hide Agree;
    AgreeSymmetric(a, b, false);
    if Agree(a, t, false) {
      AgreeTransitive(b, a, t, false);
    } else if Agree(b, t, false) {
      AgreeTransitive(a, b, t, false);
    }
  }

  /** A request that is not forwarded takes the two trees apart exactly when it is an open that wipes a file. */
  lemma OpenDivergesIff(c: Cluster, limit: nat)
    requires c.phase.Ready? && !Forwarded(c.phase.req) && Agree(c.primary.store, c.secondary.store, false)
    ensures var c' := Next(c, Execute(limit));
            Agree(c'.primary.store, c'.secondary.store, false) <==> !Wipes(c.primary, c.phase.req)
  {
    hide Agree, Serve, Wipes;
    var t := Next(c, Execute(limit)).primary.store;
    QueryKeepsTreeIff(c.primary, c.phase.req, limit);
    AgreesWithEither(t, c.primary.store, c.secondary.store);
    if Agree(t, c.primary.store, false) {
      AgreeSymmetric(t, c.primary.store, false);
    } else if Agree(c.primary.store, t, false) {
      AgreeSymmetric(c.primary.store, t, false);
    }
  }

  // ------------------------------------------- the two servers in pace

  lemma DeliverPaired(c: Cluster, limit: nat)
    requires Paired(c) && Enabled(c, Deliver(limit))
    ensures Paired(Next(c, Deliver(limit)))
  {
    hide Agree, Serve, Coincides;
    var req := c.phase.req;
    ExecuteCopyStore(c.secondary, req, limit);
    if HarmlessRepeat(c.secondary.store, req) {
      RepeatIsStable(c.secondary.store, req, limit);
    }
    if c.clean {
      CopyAgreesIff(c.primary, c.secondary.store, req, limit, limit);
    }
  }

  lemma DuplicatePaired(c: Cluster, limit: nat)
    requires Paired(c) && Enabled(c, Duplicate(limit))
    ensures Paired(Next(c, Duplicate(limit)))
  {
    hide Agree, Serve;
    ExecuteCopyStore(c.secondary, c.late.value, limit);
  }

  lemma ExecutePaired(c: Cluster, limit: nat)
    requires Paired(c) && Enabled(c, Execute(limit))
    ensures Paired(Next(c, Execute(limit)))
  {
    hide Agree, Serve, Wipes, Alike;
    var req := c.phase.req;
    if Next(c, Execute(limit)).clean {
      var now := Serve(c.primary, req, Original, limit).0.store;
      if c.phase.Copied? {
        var was := Serve(c.primary, req, Original, c.phase.limit).0.store;
        AlikeIff(c.primary, req, limit, c.phase.limit);
        AgreeTransitive(now, was, c.secondary.store, false);
      } else {
        QueryKeepsTreeIff(c.primary, req, limit);
        EitherAgreesWith(c.primary.store, now, c.secondary.store);
      }
    }
  }

  lemma CrashSecondaryPaired(c: Cluster)
    requires Paired(c) && Enabled(c, CrashSecondary)
    ensures Paired(Next(c, CrashSecondary))
  {
    hide Agree, Serve, NamesOnly;
    NamesOnlyAgree(c.secondary.store);
    if c.primaryUp && c.clean {
      var held := if c.phase.Copied? then Serve(c.primary, c.phase.req, Original, c.phase.limit).0 else c.primary;
      AgreeTransitive(held.store, c.secondary.store, NamesOnly(c.secondary.store), false);
    }
  }

  lemma RestoreSecondaryPaired(c: Cluster, t: FileStore)
    requires Paired(c) && Enabled(c, RestoreSecondary(t))
    ensures Paired(Next(c, RestoreSecondary(t)))
  {
    hide Agree, Serve, NamesOnly;
    NamesOnlyAgree(t);
    AgreeTransitive(c.primary.store, t, NamesOnly(t), false);
  }

  lemma RestorePrimaryPaired(c: Cluster, t: FileStore)
    requires Paired(c) && Enabled(c, RestorePrimary(t))
    ensures Paired(Next(c, RestorePrimary(t)))
  {
    hide Agree, Serve, NamesOnly;
    NamesBothAgree(c.secondary.store, t);
    AgreeSymmetric(NamesOnly(c.secondary.store), NamesOnly(t), false);
  }

  lemma StepPaired(c: Cluster, step: Step)
    requires Paired(c) && Enabled(c, step)
    ensures Paired(Next(c, step))
  {
    hide Agree, Serve;
    match step
    case Deliver(limit) => DeliverPaired(c, limit);
    case Duplicate(limit) => DuplicatePaired(c, limit);
    case Execute(limit) => ExecutePaired(c, limit);
    case CrashSecondary => CrashSecondaryPaired(c);
    case RestoreSecondary(t) => RestoreSecondaryPaired(c, t);
    case RestorePrimary(t) => RestorePrimaryPaired(c, t);
    case _ =>
  }

  // ------------------------------------------- what clients have seen

  lemma ExecuteRefines(init: SingleServer, c: Cluster, limit: nat)
    requires Invariant(init, c) && c.intact && Enabled(c, Execute(limit))
    ensures Refines(init, Next(c, Execute(limit)))
  {
    hide Agree, Serve, Replay, Faithful;
    var c' := Next(c, Execute(limit));
    ReplayAppend(init, c.log, c'.log[|c.log|]);
    ServeSame(c.primary, Replay(init, c.log), c.phase.req, limit);
  }

  /** A survivor that agrees with the clients' server looks like it once its descriptors are gone. */
  lemma SurvivorLooksLike(mine: SingleServer, now: SingleServer, survivor: SingleServer)
    requires SameServer(mine, now) && Agree(mine.store, survivor.store, false) && NoHandles(survivor)
    ensures SameServer(survivor, Restarted(now.store, survivor.nextFd))
  {
    hide Agree, Restarted;
    AgreeOnNames(mine.store, now.store);
    EitherAgreesWith(mine.store, now.store, survivor.store);
    AgreeSymmetric(now.store, survivor.store, false);
    WithoutHandles(survivor, now.store, survivor.nextFd);
  }

  /** The survivor of a pair in pace looks like the server of the history, an executed copy included. */
  lemma CrashPrimaryRefines(init: SingleServer, c: Cluster)
    requires Invariant(init, c) && c.intact && c.clean && Enabled(c, CrashPrimary)
    ensures Refines(init, Next(c, CrashPrimary))
  {
    hide Agree, Serve, Replay, Faithful, SameServer, Restarted;
    var now, switched := Replay(init, c.log), Switched(c.secondary.nextFd);
    if c.phase.Copied? {
      var req, limit := c.phase.req, c.phase.limit;
      var done := Served(req, limit, Serve(c.primary, req, Original, limit).1, false);
      ServeSame(c.primary, now, req, limit);
      ReplayAppend(init, c.log, done);
      ReplayAppend(init, c.log + [done], switched);
      assert LogAtCrash(c) == c.log + [done] + [switched];
      SurvivorLooksLike(Serve(c.primary, req, Original, limit).0, Serve(now, req, Original, limit).0, c.secondary);
    } else {
      ReplayAppend(init, c.log, switched);
      assert LogAtCrash(c) == c.log + [switched];
      SurvivorLooksLike(c.primary, now, c.secondary);
    }
  }

  lemma CrashSecondaryRefines(init: SingleServer, c: Cluster)
    requires Invariant(init, c) && c.intact && Enabled(c, CrashSecondary)
    ensures Refines(init, Next(c, CrashSecondary))
  {
    hide Agree, Serve, Replay, Faithful, Paired;
    var now := Replay(init, c.log);
    ReplayAppend(init, c.log, Switched(c.secondary.nextFd));
    if !c.primaryUp {
      AgreeOnNames(c.secondary.store, now.store);
      RestartSame(c.secondary.store, now.store, c.secondary.nextFd);
    }
  }

  lemma ServeDegradedRefines(init: SingleServer, c: Cluster, req: Request, limit: nat, acknowledged: bool)
    requires Invariant(init, c) && c.intact && Enabled(c, ServeDegraded(req, limit, acknowledged))
    ensures Refines(init, Next(c, ServeDegraded(req, limit, acknowledged)))
  {
    hide Agree, Serve, Replay, Faithful, Paired;
    var c' := Next(c, ServeDegraded(req, limit, acknowledged));
    ReplayAppend(init, c.log, c'.log[|c.log|]);
    ServeSame(c.secondary, Replay(init, c.log), req, limit);
  }

  lemma RestorePrimaryRefines(init: SingleServer, c: Cluster, t: FileStore)
    requires Invariant(init, c) && c.intact && Enabled(c, RestorePrimary(t))
    ensures Refines(init, Next(c, RestorePrimary(t)))
  {
    hide Agree, Serve, Replay, Faithful, Paired;
    var now, n := Replay(init, c.log), c.primary.nextFd;
    ReplayAppend(init, c.log, Switched(n));
    AgreeSymmetric(c.secondary.store, t, false);
    AgreeOnNames(c.secondary.store, now.store);
    AgreeTransitive(t, c.secondary.store, now.store, false);
    RestartSame(t, now.store, n);
  }

  /** A duplicate that reaches the survivor and is harmless changes nothing. */
  lemma DuplicateRefines(init: SingleServer, c: Cluster, limit: nat)
    requires Invariant(init, c) && c.intact && Enabled(c, Duplicate(limit)) && (c.primaryUp || c.harmless)
    ensures Refines(init, Next(c, Duplicate(limit)))
  {
    hide Agree, Serve, Replay, Faithful;
    ExecuteCopyStore(c.secondary, c.late.value, limit);
  }

  /** The steps that leave the history and the clients' server alone. */
  lemma QuietStepRefines(init: SingleServer, c: Cluster, step: Step)
    requires Paired(c) && Refines(init, c) && Enabled(c, step)
    requires step.Arrive? || step.ForwardFails? || step.Deliver? || step.RestartSecondary? || step.RestoreSecondary?
             || (step.TearSecondary? && c.primaryUp)
    ensures Refines(init, Next(c, step))
  {
    hide Agree, Serve, Replay, Faithful, SameServer, InPace;
  }

  lemma StepRefines(init: SingleServer, c: Cluster, step: Step)
    requires Invariant(init, c) && Enabled(c, step) && Next(c, step).intact
    ensures c.intact && Refines(init, Next(c, step))
  {
    hide Agree, Serve, Replay, Faithful, Refines, Paired;
    match step
    case Execute(limit) => ExecuteRefines(init, c, limit);
    case Answer => AnswerRefines(init, c);
    case CrashPrimary => CrashPrimaryRefines(init, c);
    case CrashSecondary => CrashSecondaryRefines(init, c);
    case Duplicate(limit) => DuplicateRefines(init, c, limit);
    case ServeDegraded(req, limit, acknowledged) => ServeDegradedRefines(init, c, req, limit, acknowledged);
    case RestorePrimary(t) => RestorePrimaryRefines(init, c, t);
    case _ => QuietStepRefines(init, c, step);
  }

  lemma AnswerRefines(init: SingleServer, c: Cluster)
    requires Refines(init, c) && Enabled(c, Answer)
    ensures Refines(init, Next(c, Answer))
  {
    hide Agree, Serve, Replay, Faithful, SameServer;
    ReplayAcknowledge(init, c.log);
  }

  /** The invariant is kept by every step, whatever fails. */
  lemma StepKeeps(init: SingleServer, c: Cluster, step: Step)
    requires Invariant(init, c) && Enabled(c, step)
    ensures Invariant(init, Next(c, step))
  {
    hide Refines, Paired, Next, Enabled;
    StepPaired(c, step);
    AnswerStaysReady(c, step);
    if Next(c, step).intact {
      StepRefines(init, c, step);
    }
  }

  lemma AnswerStaysReady(c: Cluster, step: Step)
    requires Paired(c) && (c.phase.Executed? ==> Enabled(c, Answer)) && Enabled(c, step)
    ensures var c' := Next(c, step); c'.phase.Executed? ==> Enabled(c', Answer)
  {
    hide Agree, Serve, ExecuteCopy, HarmlessRepeat, Coincides, Alike, Wipes, Restarted, InPace, Stable;
  }

  // --------------------------------------------------------- whole runs

  ghost predicate Possible(c: Cluster, steps: seq<Step>)
    decreases |steps|
  {
    steps == [] || (Enabled(c, steps[0]) && Possible(Next(c, steps[0]), steps[1..]))
  }

  ghost function After(c: Cluster, steps: seq<Step>): Cluster
    requires Possible(c, steps)
    decreases |steps|
  {
    if steps == [] then c else After(Next(c, steps[0]), steps[1..])
  }

  lemma {:induction false} RunKeeps(init: SingleServer, c: Cluster, steps: seq<Step>)
    requires Invariant(init, c) && Possible(c, steps)
    ensures Invariant(init, After(c, steps))
    decreases |steps|
  {
    if steps != [] {
      StepKeeps(init, c, steps[0]);
      RunKeeps(init, Next(c, steps[0]), steps[1..]);
    }
  }

  lemma {:induction false} RunPaired(c: Cluster, steps: seq<Step>)
    requires Paired(c) && Possible(c, steps)
    ensures Paired(After(c, steps))
    decreases |steps|
  {
    hide Enabled, Next, Paired;
    if steps != [] {
      StepPaired(c, steps[0]);
      RunPaired(Next(c, steps[0]), steps[1..]);
    }
  }

  /**
   While the secondary has missed nothing since the last restoration, its tree
   is the primary's, or ahead of it by exactly the one mutation the primary is
   about to execute.
   */
  lemma SecondaryKeepsPace(init: SingleServer, c: Cluster, steps: seq<Step>)
    requires Initial(init, c) && Possible(c, steps)
    ensures var d := After(c, steps);
            d.primaryUp && d.clean ==>
              if d.phase.Copied? then
                Agree(Serve(d.primary, d.phase.req, Original, d.phase.limit).0.store, d.secondary.store, false)
              else
                Agree(d.primary.store, d.secondary.store, false)
  {
    hide Agree, Serve;
    InitialHolds(init, c);
    RunPaired(c, steps);
  }

  /** An entry of the history survives; at most it becomes acknowledged. */
  ghost predicate Keeps(early: seq<Event>, later: seq<Event>) {
    && |early| <= |later|
    && forall i :: 0 <= i < |early| ==>
         later[i] == early[i] || (early[i].Served? && later[i] == early[i].(acknowledged := true))
  }

  lemma StepKeepsHistory(c: Cluster, step: Step)
    requires Enabled(c, step)
    ensures Keeps(c.log, Next(c, step).log)
  {
    hide Serve, ExecuteCopy, HarmlessRepeat, Coincides, Agree;
  }

  lemma {:induction false} HistoryKept(c: Cluster, steps: seq<Step>)
    requires Possible(c, steps)
    ensures Keeps(c.log, After(c, steps).log)
    decreases |steps|
  {
    hide Next, Enabled;
    if steps != [] {
      StepKeepsHistory(c, steps[0]);
      HistoryKept(Next(c, steps[0]), steps[1..]);
    }
  }

  /** The guarantee: the clients' server is one server that executed the log in order and gave the logged replies. */
  ghost predicate LooksLikeOne(init: SingleServer, log: seq<Event>, c: Cluster) {
    Faithful(init, log) && SameServer(if c.primaryUp then c.primary else c.secondary, Replay(init, log))
  }

  /**
   Durability and refinement. Split any run in two. In the state the whole run
   ends in, the server that clients use is indistinguishable from one server
   that executed the logged requests in order and gave the logged replies; and
   the log still holds every request answered in the first part, whichever
   machine crashed in the second. Excluded are the runs that lost intact:
   clients were switched to a secondary that had missed something, or the
   survivor executed a harmful duplicate or was torn by a crash.
   */
  lemma NothingAcknowledgedIsLost(init: SingleServer, c: Cluster, first: seq<Step>, second: seq<Step>)
    requires Invariant(init, c) && Possible(c, first) && Possible(After(c, first), second)
    ensures var d, e := After(c, first), After(After(c, first), second);
            Keeps(d.log, e.log) && (e.intact ==> LooksLikeOne(init, e.log, e))
  {
    hide Agree, Serve, Faithful, Replay, Paired, Keeps;
    RunKeeps(init, c, first);
    RunKeeps(init, After(c, first), second);
    HistoryKept(After(c, first), second);
  }

  // --------------------------------------- starting anew after a restoration

  /** The same machines with a new history: nothing served yet, nothing gone wrong. */
  function Anew(c: Cluster): Cluster {
    c.(intact := true, log := [])
  }

  /** e runs like d, its history being what came after old. */
  ghost predicate Continues(before: seq<Event>, d: Cluster, e: Cluster) {
    && d == e.(intact := d.intact, log := before + e.log)
    && (!e.phase.Idle? ==> e.primaryUp)
    && (e.phase.Executed? ==> Enabled(e, Answer))
  }

  lemma AppendContinues(before: seq<Event>, log: seq<Event>, e: Event)
    ensures (before + log) + [e] == before + (log + [e])
  {
  }

  lemma AnswerContinues(before: seq<Event>, d: Cluster, e: Cluster)
    requires Continues(before, d, e) && Enabled(d, Answer)
    ensures Enabled(e, Answer) && Continues(before, Next(d, Answer), Next(e, Answer))
  {
    var k := |e.log| - 1;
    var last := e.log[k].(acknowledged := true);
    assert (before + e.log)[|before| + k := last] == before + e.log[k := last];
  }

  lemma CrashContinues(before: seq<Event>, d: Cluster, e: Cluster)
    requires Continues(before, d, e) && Enabled(d, CrashPrimary)
    ensures Enabled(e, CrashPrimary) && Continues(before, Next(d, CrashPrimary), Next(e, CrashPrimary))
  {
    hide Serve;
    assert LogAtCrash(d) == before + LogAtCrash(e);
  }

  lemma StepContinues(before: seq<Event>, d: Cluster, e: Cluster, step: Step)
    requires Continues(before, d, e) && Enabled(d, step)
    ensures Enabled(e, step) && Continues(before, Next(d, step), Next(e, step))
  {
    hide Serve, Agree, HarmlessRepeat, Coincides, Alike, Wipes, ExecuteCopy, Restarted, LogAtCrash;
    match step
    case Answer => AnswerContinues(before, d, e);
    case CrashPrimary => CrashContinues(before, d, e);
    case Execute(limit) =>
      var reply := Serve(e.primary, e.phase.req, Original, limit).1;
      AppendContinues(before, e.log, Served(e.phase.req, limit, reply, false));
    case ServeDegraded(req, limit, acknowledged) =>
      AppendContinues(before, e.log, Served(req, limit, Serve(e.secondary, req, Original, limit).1, acknowledged));
    case CrashSecondary => AppendContinues(before, e.log, Switched(e.secondary.nextFd));
    case RestorePrimary(_) => AppendContinues(before, e.log, Switched(e.primary.nextFd));
    case _ =>
  }

  lemma {:induction false} RunContinues(before: seq<Event>, d: Cluster, e: Cluster, steps: seq<Step>)
    requires Continues(before, d, e) && Possible(d, steps)
    ensures Possible(e, steps) && Continues(before, After(d, steps), After(e, steps))
    decreases |steps|
  {
    hide Continues, Enabled, Next;
    if steps != [] {
      StepContinues(before, d, e, steps[0]);
      RunContinues(before, Next(d, steps[0]), Next(e, steps[0]), steps[1..]);
    }
  }

  /** A pair in pace and at rest is as good as a new one, whatever happened before. */
  lemma AnewHolds(c: Cluster)
    requires Paired(c) && c.primaryUp && c.phase.Idle?
    ensures Invariant(c.primary, Anew(c)) && Continues(c.log, c, Anew(c))
  {
    hide Serve, Stable;
    assert c.log + [] == c.log;
  }

  /**
   Durability anew: from any moment of any run at which the primary is up and
   idle, above all after a cold restoration, everything served later is as on
   one server that starts from the primary's state at that moment, and nothing
   answered later is lost.
   */
  lemma DurableAnew(init: SingleServer, c: Cluster, before: seq<Step>, first: seq<Step>, second: seq<Step>)
    requires Initial(init, c) && Possible(c, before)
    requires var d := After(c, before);
             d.primaryUp && d.phase.Idle? && Possible(d, first) && Possible(After(d, first), second)
    ensures var d := After(c, before);
            var e1, e2 := After(d, first), After(After(d, first), second);
            && Possible(Anew(d), first) && Possible(After(Anew(d), first), second)
            && var f1, f2 := After(Anew(d), first), After(After(Anew(d), first), second);
               && e1.log == d.log + f1.log && e2.log == d.log + f2.log && Keeps(f1.log, f2.log)
               && (f2.intact ==> LooksLikeOne(d.primary, f2.log, e2))
  {
    hide Agree, Serve, Faithful, Replay, Paired, Keeps, SameServer, Enabled;
    InitialHolds(init, c);
    RunPaired(c, before);
    var d := After(c, before);
    AnewHolds(d);
    RunContinues(d.log, d, Anew(d), first);
    RunContinues(d.log, After(d, first), After(Anew(d), first), second);
    NothingAcknowledgedIsLost(d.primary, Anew(d), first, second);
  }

  /** As long as the primary stays up, nothing the secondary does or fails to do can be seen by a client. */
  lemma {:induction false} PrimaryAloneIsIntact(c: Cluster, steps: seq<Step>)
    requires Possible(c, steps) && c.primaryUp && c.intact
    requires forall i :: 0 <= i < |steps| ==> !steps[i].CrashPrimary?
    ensures After(c, steps).primaryUp && After(c, steps).intact
    decreases |steps|
  {
    if steps != [] {
      PrimaryAloneIsIntact(Next(c, steps[0]), steps[1..]);
    }
  }

  /**
   Why the hypothesis is needed: a mutation whose forward failed is executed and
   answered by the primary alone, and a crash right after the answer leaves a
   secondary that has its effect only if there was none.
   */
  lemma MissedForwardIsLost(c: Cluster, req: Request, limit: nat)
    requires c.primaryUp && c.phase.Idle? && Forwarded(req)
    ensures var steps := [Arrive(req), ForwardFails, Execute(limit), Answer, CrashPrimary];
            && Possible(c, steps)
            && var d := After(c, steps);
               && |d.log| > |c.log|
               && d.log[|c.log|] == Served(req, limit, Serve(c.primary, req, Original, limit).1, true)
               && d.secondary == c.secondary && !d.primaryUp && !d.intact
               && (Agree(c.primary.store, c.secondary.store, false) ==>
                     (Agree(Serve(c.primary, req, Original, limit).0.store, d.secondary.store, false) <==>
                      Agree(Serve(c.primary, req, Original, limit).0.store, c.primary.store, false)))
  {
    hide Serve, Possible, After, Agree;
    var c1 := Next(c, Arrive(req));
    var c2 := Next(c1, ForwardFails);
    var c3 := Next(c2, Execute(limit));
    var c4 := Next(c3, Answer);
    StepLast(c4, CrashPrimary);
    StepFirst(c3, Answer, [CrashPrimary], [Answer, CrashPrimary]);
    StepFirst(c2, Execute(limit), [Answer, CrashPrimary], [Execute(limit), Answer, CrashPrimary]);
    StepFirst(c1, ForwardFails, [Execute(limit), Answer, CrashPrimary],
              [ForwardFails, Execute(limit), Answer, CrashPrimary]);
    StepFirst(c, Arrive(req), [ForwardFails, Execute(limit), Answer, CrashPrimary],
              [Arrive(req), ForwardFails, Execute(limit), Answer, CrashPrimary]);
    if Agree(c.primary.store, c.secondary.store, false) {
      AgreesWithEither(Serve(c.primary, req, Original, limit).0.store, c.primary.store, c.secondary.store);
    }
  }

  lemma StepLast(c: Cluster, step: Step)
    requires Enabled(c, step)
    ensures Possible(c, [step]) && After(c, [step]) == Next(c, step)
  {
    hide Enabled, Next;
    assert [step][1..] == [];
  }

  lemma StepFirst(c: Cluster, step: Step, rest: seq<Step>, steps: seq<Step>)
    requires steps == [step] + rest
    requires Enabled(c, step) && Possible(Next(c, step), rest)
    ensures Possible(c, steps) && After(c, steps) == After(Next(c, step), rest)
  {
    hide Enabled, Next;
    assert steps[1..] == rest;
  }
}
