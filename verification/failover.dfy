/**
 Runs in which the network and the machines do their part: every forward is
 delivered, perhaps more than once, and then the primary crashes. The survivor
 has everything, and goes on from there.
 */
module Failover {
  import opened Base
  import opened Paths
  import opened Kernel
  import opened Handlers
  import opened Agreement
  import opened CopiedWrites
  import opened Duplicates
  import opened Renames
  import opened Replication
  import opened Durability
  import opened Locks
  import opened Servers

  /** One request with what becomes of it: how much a write takes, and how often its copy arrives again. */
  datatype Job = Job(req: Request, limit: nat, again: nat)

  function Repeats(limit: nat, n: nat): seq<Step> {
    if n == 0 then [] else [Duplicate(limit)] + Repeats(limit, n - 1)
  }

  /** Arrival, delivery of the copy if the request is forwarded, duplicates of it, execution, answer. */
  function Round(j: Job): seq<Step> {
    [Arrive(j.req)] + (if Forwarded(j.req) then [Deliver(j.limit)] + Repeats(j.limit, j.again) else [])
    + [Execute(j.limit), Answer]
  }

  function Rounds(jobs: seq<Job>): seq<Step> {
    if jobs == [] then [] else Round(jobs[0]) + Rounds(jobs[1..])
  }

  /** One server that executes the requests in order. */
  function Served1(s: SingleServer, j: Job): SingleServer {
    Serve(s, j.req, Original, j.limit).0
  }

  function ServedAll(s: SingleServer, jobs: seq<Job>): SingleServer
    decreases |jobs|
  {
    if jobs == [] then s else ServedAll(Served1(s, jobs[0]), jobs[1..])
  }

  /** Its answers, as a history in which every one of them was given. */
  function Answers(s: SingleServer, jobs: seq<Job>): seq<Event>
    decreases |jobs|
  {
    if jobs == [] then []
    else
      [Served(jobs[0].req, jobs[0].limit, Serve(s, jobs[0].req, Original, jobs[0].limit).1, true)]
      + Answers(Served1(s, jobs[0]), jobs[1..])
  }

  /**
   What a request must not be: a write whose copy does something else than its
   original, an open that wipes a file, or a rename or write whose duplicate
   does harm, if there is a duplicate. All of it can be checked beforehand.
   */
  predicate Smooth(s: SingleServer, t: FileStore, j: Job) {
    && !Wipes(s, j.req)
    && (Forwarded(j.req) ==> Coincides(s, j.req, j.limit, j.limit))
    && (Forwarded(j.req) && j.again > 0 ==> HarmlessRepeat(t, j.req))
  }

  /** The state between two requests of a pair that is well. */
  ghost predicate Well(c: Cluster) {
    Paired(c) && c.primaryUp && c.secondaryUp && c.phase.Idle? && c.clean && c.intact
  }

  // ------------------------------------------------------ joining runs

  lemma {:induction false} Joined(c: Cluster, first: seq<Step>, second: seq<Step>)
    requires Possible(c, first) && Possible(After(c, first), second)
    ensures Possible(c, first + second) && After(c, first + second) == After(After(c, first), second)
    decreases |first|
  {
    hide Enabled, Next;
    if first == [] {
      assert first + second == second;
    } else {
      Joined(Next(c, first[0]), first[1..], second);
      assert (first + second)[1..] == first[1..] + second;
    }
  }

  lemma {:induction false} RepeatsKeep(c: Cluster, limit: nat, n: nat)
    requires c.late.Some? && Forwarded(c.late.value) && c.secondaryUp && c.primaryUp
    requires n > 0 ==> c.harmless && Stable(c.secondary.store, c.late.value)
    ensures Possible(c, Repeats(limit, n)) && After(c, Repeats(limit, n)) == c
    decreases n
  {
    hide Serve, Stable;
    if n > 0 {
      ExecuteCopyStore(c.secondary, c.late.value, limit);
      assert CopyStore(c.secondary.store, c.late.value, limit) == c.secondary.store by { StableIs(c, limit); }
      assert Next(c, Duplicate(limit)) == c;
      RepeatsKeep(c, limit, n - 1);
      Durability.StepFirst(c, Duplicate(limit), Repeats(limit, n - 1), Repeats(limit, n));
    }
  }

  lemma StableIs(c: Cluster, limit: nat)
    requires c.late.Some? && Forwarded(c.late.value) && Stable(c.secondary.store, c.late.value)
    ensures CopyStore(c.secondary.store, c.late.value, limit) == c.secondary.store
  {
  }

  /** Arrival and delivery, the copy executed and its duplicates without effect. */
  lemma CopyArrives(c: Cluster, j: Job)
    requires Well(c) && Forwarded(j.req) && Smooth(c.primary, c.secondary.store, j)
    ensures var steps := [Arrive(j.req), Deliver(j.limit)] + Repeats(j.limit, j.again);
            && Possible(c, steps)
            && var d := After(c, steps);
               && Paired(d) && d.phase == Copied(j.req, j.limit) && d.clean && d.intact
               && d.primary == c.primary && d.secondaryUp && d.primaryUp && d.log == c.log
               && d.secondary == ExecuteCopy(c.secondary, j.req, j.limit)
  {
    hide Agree, Serve, Coincides, Wipes, HarmlessRepeat, ExecuteCopy, Stable, Paired, InPace;
    var c1 := Next(c, Arrive(j.req));
    var c2 := Next(c1, Deliver(j.limit));
    StepPaired(c, Arrive(j.req));
    StepPaired(c1, Deliver(j.limit));
    if j.again > 0 {
      assert Stable(c2.secondary.store, j.req) by {
        RepeatIsStable(c.secondary.store, j.req, j.limit);
        ExecuteCopyStore(c.secondary, j.req, j.limit);
      }
    }
    RepeatsKeep(c2, j.limit, j.again);
    StepLast(c1, Deliver(j.limit));
    Durability.StepFirst(c, Arrive(j.req), [Deliver(j.limit)], [Arrive(j.req), Deliver(j.limit)]);
    Joined(c, [Arrive(j.req), Deliver(j.limit)], Repeats(j.limit, j.again));
  }

  /** Execution and answer, from the moment the primary is to execute. */
  lemma AnswerFollows(d: Cluster, j: Job)
    requires Paired(d) && d.primaryUp && d.clean && (d.phase == Copied(j.req, j.limit) || d.phase == Ready(j.req))
    requires !Wipes(d.primary, j.req)
    ensures Possible(d, [Execute(j.limit), Answer])
    ensures var e := After(d, [Execute(j.limit), Answer]);
            && Paired(e) && e.phase.Idle? && e.clean && e.intact == d.intact && e.primaryUp == d.primaryUp
            && e.secondaryUp == d.secondaryUp && e.secondary == d.secondary
            && e.primary == Served1(d.primary, j) && e.log == d.log + Answers(d.primary, [j])
  {
    hide Agree, Serve, Wipes, Paired, InPace, OriginalEffect;
    var d1 := Next(d, Execute(j.limit));
    StepPaired(d, Execute(j.limit));
    StepPaired(d1, Answer);
    StepLast(d1, Answer);
    Durability.StepFirst(d, Execute(j.limit), [Answer], [Execute(j.limit), Answer]);
    var reply := Serve(d.primary, j.req, Original, j.limit).1;
    assert d1.log[|d.log| := Served(j.req, j.limit, reply, true)] == d.log + [Served(j.req, j.limit, reply, true)];
  }

  /** One request of a pair that is well: it is possible, and the pair is well afterwards, one answer later. */
  lemma RoundKeepsWell(c: Cluster, j: Job)
    requires Well(c) && Smooth(c.primary, c.secondary.store, j)
    ensures Possible(c, Round(j))
    ensures var d := After(c, Round(j));
            && Well(d) && d.primary == Served1(c.primary, j) && d.log == c.log + Answers(c.primary, [j])
            && d.secondary == if Forwarded(j.req) then ExecuteCopy(c.secondary, j.req, j.limit) else c.secondary
  {
    hide Agree, Serve, Coincides, Wipes, HarmlessRepeat, ExecuteCopy, Paired, Possible, After;
    if Forwarded(j.req) {
      var first := [Arrive(j.req), Deliver(j.limit)] + Repeats(j.limit, j.again);
      CopyArrives(c, j);
      AnswerFollows(After(c, first), j);
      Joined(c, first, [Execute(j.limit), Answer]);
      assert Round(j) == first + [Execute(j.limit), Answer];
    } else {
      var d := Next(c, Arrive(j.req));
      StepPaired(c, Arrive(j.req));
      StepLast(c, Arrive(j.req));
      AnswerFollows(d, j);
      Joined(c, [Arrive(j.req)], [Execute(j.limit), Answer]);
      assert Round(j) == [Arrive(j.req)] + [Execute(j.limit), Answer];
    }
  }

  // --------------------------------------------------- runs of any length

  /** The secondary's tree after the copies of the requests. */
  function Copied1(s: SingleServer, j: Job): SingleServer {
    if Forwarded(j.req) then ExecuteCopy(s, j.req, j.limit) else s
  }

  /** Every request is smooth in the state it finds. */
  predicate AllSmooth(s: SingleServer, u: SingleServer, jobs: seq<Job>)
    decreases |jobs|
  {
    jobs == [] || (Smooth(s, u.store, jobs[0]) && AllSmooth(Served1(s, jobs[0]), Copied1(u, jobs[0]), jobs[1..]))
  }

  lemma FirstIsSmooth(s: SingleServer, u: SingleServer, jobs: seq<Job>)
    requires AllSmooth(s, u, jobs) && jobs != []
    ensures Smooth(s, u.store, jobs[0]) && AllSmooth(Served1(s, jobs[0]), Copied1(u, jobs[0]), jobs[1..])
  {
    hide Smooth, Serve, ExecuteCopy;
  }

  lemma {:induction false} RoundsKeepWell(c: Cluster, jobs: seq<Job>)
    requires Well(c) && AllSmooth(c.primary, c.secondary, jobs)
    ensures Possible(c, Rounds(jobs))
    ensures var d := After(c, Rounds(jobs));
            Well(d) && d.primary == ServedAll(c.primary, jobs) && d.log == c.log + Answers(c.primary, jobs)
    decreases |jobs|
  {
    hide Well, Smooth, AllSmooth, Round, Served1, ExecuteCopy, Enabled, Next, Serve, Forwarded;
    if jobs == [] {
      assert c.log + [] == c.log;
    } else {
      FirstIsSmooth(c.primary, c.secondary, jobs);
      RoundKeepsWell(c, jobs[0]);
      var d := After(c, Round(jobs[0]));
      RoundsKeepWell(d, jobs[1..]);
      Joined(c, Round(jobs[0]), Rounds(jobs[1..]));
      AnswersSplit(c.primary, jobs);
      assert c.log + Answers(c.primary, [jobs[0]]) + Answers(d.primary, jobs[1..]) ==
             c.log + (Answers(c.primary, [jobs[0]]) + Answers(d.primary, jobs[1..]));
    }
  }

  lemma AnswersSplit(s: SingleServer, jobs: seq<Job>)
    requires jobs != []
    ensures Answers(s, jobs) == Answers(s, [jobs[0]]) + Answers(Served1(s, jobs[0]), jobs[1..])
  {
    hide Serve;
    assert [jobs[0]][1..] == [];
    assert Answers(Served1(s, jobs[0]), []) == [];
  }

  function DegradedSteps(jobs: seq<Job>): seq<Step> {
    if jobs == [] then [] else [ServeDegraded(jobs[0].req, jobs[0].limit, true)] + DegradedSteps(jobs[1..])
  }

  /** Clients of the survivor are served as by any server, and answered. */
  lemma {:induction false} SurvivorServes(c: Cluster, jobs: seq<Job>)
    requires !c.primaryUp && c.secondaryUp
    ensures Possible(c, DegradedSteps(jobs))
    ensures var d := After(c, DegradedSteps(jobs));
            && d.secondary == ServedAll(c.secondary, jobs) && d.log == c.log + Answers(c.secondary, jobs)
            && !d.primaryUp && d.secondaryUp && d.intact == c.intact
    decreases |jobs|
  {
    hide Serve;
    if jobs == [] {
      assert c.log + [] == c.log;
    } else {
      var step := ServeDegraded(jobs[0].req, jobs[0].limit, true);
      var d := Next(c, step);
      SurvivorServes(d, jobs[1..]);
      Durability.StepFirst(c, step, DegradedSteps(jobs[1..]), DegradedSteps(jobs));
      AnswersSplit(c.secondary, jobs);
      assert [jobs[0]][1..] == [];
      assert d.log == c.log + Answers(c.secondary, [jobs[0]]);
    }
  }

  /**
   The whole story. From two equal servers, any smooth requests are served and
   answered by the primary, each delivered to the secondary; then the primary
   crashes; then any requests are served and answered by the survivor. The run
   is possible, nothing is out of order, the survivor holds the tree of one
   server that executed the first requests, and it answers the later ones as
   that server would without its open descriptors.
   */
  lemma FailoverKeepsEverything(init: SingleServer, c: Cluster, jobs: seq<Job>, later: seq<Job>)
    requires Initial(init, c) && c.secondaryUp && AllSmooth(c.primary, c.secondary, jobs)
    ensures Possible(c, Rounds(jobs) + [CrashPrimary])
    ensures var d := After(c, Rounds(jobs) + [CrashPrimary]);
            && d.intact && d.log == Answers(c.primary, jobs) + [Switched(d.secondary.nextFd)]
            && Agree(ServedAll(c.primary, jobs).store, d.secondary.store, false)
            && SameServer(d.secondary, Restarted(ServedAll(c.primary, jobs).store, d.secondary.nextFd))
            && Possible(d, DegradedSteps(later))
            && var e := After(d, DegradedSteps(later));
               && e.intact && e.log == d.log + Answers(d.secondary, later)
               && var one := Restarted(ServedAll(c.primary, jobs).store, d.secondary.nextFd);
                  SameServer(e.secondary, ServedAll(one, later)) && Answers(d.secondary, later) == Answers(one, later)
  {
    hide Agree, SameServer, AllSmooth, Restarted, Serve, ServedAll, Answers, Paired, Rounds, DegradedSteps;
    InitialHolds(init, c);
    assert Well(c);
    RoundsKeepWell(c, jobs);
    var r := After(c, Rounds(jobs));
    assert c.log + Answers(c.primary, jobs) == Answers(c.primary, jobs);
    StepLast(r, CrashPrimary);
    Joined(c, Rounds(jobs), [CrashPrimary]);
    var d := Next(r, CrashPrimary);
    assert LogAtCrash(r) == r.log + [Switched(r.secondary.nextFd)];
    SurvivorIs(r);
    SurvivorServes(d, later);
    ServedAllSame(d.secondary, Restarted(r.primary.store, d.secondary.nextFd), later);
  }

  lemma SurvivorIs(r: Cluster)
    requires Well(r)
    ensures Agree(r.primary.store, r.secondary.store, false)
    ensures SameServer(r.secondary, Restarted(r.primary.store, r.secondary.nextFd))
  {
    hide Agree, Restarted, Stable;
    AgreeSymmetric(r.primary.store, r.secondary.store, false);
    WithoutHandles(r.secondary, r.primary.store, r.secondary.nextFd);
  }

  lemma {:induction false} ServedAllSame(a: SingleServer, b: SingleServer, jobs: seq<Job>)
    requires SameServer(a, b)
    ensures SameServer(ServedAll(a, jobs), ServedAll(b, jobs)) && Answers(a, jobs) == Answers(b, jobs)
    decreases |jobs|
  {
    hide SameServer, Serve;
    if jobs != [] {
      ServeSame(a, b, jobs[0].req, jobs[0].limit);
      ServedAllSame(Served1(a, jobs[0]), Served1(b, jobs[0]), jobs[1..]);
    }
  }

  /** In particular one path mutation, of any kind: answered by the primary, which crashes, and on the survivor. */
  lemma OneMutationSurvives(init: SingleServer, c: Cluster, ip: string, op: PathOp)
    requires Initial(init, c) && c.secondaryUp
    ensures var steps := [Arrive(Mutate(ip, op)), Deliver(0), Execute(0), Answer, CrashPrimary];
            && Possible(c, steps)
            && var d := After(c, steps);
               d.intact && Agree(Apply(init.store, ip, op).0, d.secondary.store, false)
  {
    var req := Mutate(ip, op);
    var job := Job(req, 0, 0);
    OneIsSmooth(c, ip, op);
    assert Rounds([job]) == [Arrive(req), Deliver(0), Execute(0), Answer] by { RoundsOfOne(job); }
    assert [Arrive(req), Deliver(0), Execute(0), Answer] + [CrashPrimary] ==
           [Arrive(req), Deliver(0), Execute(0), Answer, CrashPrimary];
    FailoverKeepsEverything(init, c, [job], []);
    hide Agree, Apply, Possible, After;
    assert ServedAll(c.primary, [job]).store == Apply(c.primary.store, ip, op).0 by { assert [job][1..] == []; }
    ApplyAgree(c.primary.store, init.store, true, ip, op);
    AgreeOnNames(Apply(c.primary.store, ip, op).0, Apply(init.store, ip, op).0);
    EitherAgreesWith(Apply(c.primary.store, ip, op).0, Apply(init.store, ip, op).0,
                     After(c, [Arrive(req), Deliver(0), Execute(0), Answer, CrashPrimary]).secondary.store);
  }

  lemma OneIsSmooth(c: Cluster, ip: string, op: PathOp)
    ensures AllSmooth(c.primary, c.secondary, [Job(Mutate(ip, op), 0, 0)])
  {
    hide Serve, ExecuteCopy;
    var jobs := [Job(Mutate(ip, op), 0, 0)];
    assert jobs[1..] == [];
    assert AllSmooth(Served1(c.primary, jobs[0]), Copied1(c.secondary, jobs[0]), []);
  }

  lemma RoundsOfOne(job: Job)
    requires Forwarded(job.req) && job.again == 0
    ensures Rounds([job]) == [Arrive(job.req), Deliver(job.limit), Execute(job.limit), Answer]
  {
    assert [job][1..] == [] && Rounds([]) == [];
    assert Round(job) == [Arrive(job.req), Deliver(job.limit), Execute(job.limit), Answer];
  }

  // ------------------------------------------------ duplicates that show

  lemma ChangedDisagrees(t: FileStore, ip: string, op: PathOp)
    requires op.Rename? && Apply(t, ip, op).0 != t
    ensures !Agree(t, Apply(t, ip, op).0, false)
  {
    hide Locate, Denied, NoLock, MoveNames, Empty;
    RenameChangesIff(t, ip, op);
    var a, b := Locate(t, Translate(op.path)).value, Locate(t, Translate(op.newpath)).value;
    assert Apply(t, ip, op).0 == MoveNames(t, a, b);
    assert MovedFrom(a, b, Name(a)) == None;
    assert Name(a) in t.refs && Name(a) !in MoveNames(t, a, b).refs;
  }

  lemma HarmIsRename(t: FileStore, ip: string, op: PathOp)
    ensures HarmfulTwice(t, ip, op) ==> op.Rename?
  {
  }

  lemma TwiceAgreesIff(t: FileStore, u: FileStore, ip: string, op: PathOp)
    requires Agree(t, u, false)
    ensures var once := Apply(u, ip, op).0;
            Agree(Apply(t, ip, op).0, Apply(once, ip, op).0, false) <==> !HarmfulTwice(u, ip, op)
  {
    hide Apply, Agree, HarmfulTwice;
    var once := Apply(u, ip, op).0;
    var twice := Apply(once, ip, op).0;
    ApplyAgree(t, u, false, ip, op);
    ApplyTwiceIff(u, ip, op);
    if HarmfulTwice(u, ip, op) {
      HarmIsRename(u, ip, op);
      ChangedDisagrees(once, ip, op);
      EitherAgreesWith(Apply(t, ip, op).0, once, twice);
    }
  }

  lemma ThreeSteps(c: Cluster, a: Step, b: Step, e: Step)
    requires Enabled(c, a) && Enabled(Next(c, a), b) && Enabled(Next(Next(c, a), b), e)
    ensures Possible(c, [a, b, e]) && After(c, [a, b, e]) == Next(Next(Next(c, a), b), e)
  {
    hide Enabled, Next, Possible, After;
    StepLast(Next(Next(c, a), b), e);
    Durability.StepFirst(Next(c, a), b, [e], [b, e]);
    Durability.StepFirst(c, a, [b, e], [a, b, e]);
  }

  lemma CopyTwice(c: Cluster, ip: string, op: PathOp)
    requires c.primaryUp && c.secondaryUp && c.phase.Idle? && c.clean && c.intact
    ensures var steps := [Arrive(Mutate(ip, op)), Deliver(0), Duplicate(0)];
            && Possible(c, steps)
            && var d := After(c, steps);
               && d.secondary.store == Apply(Apply(c.secondary.store, ip, op).0, ip, op).0
               && d.phase == Copied(Mutate(ip, op), 0) && d.primaryUp && d.intact
               && (d.clean <==> !HarmfulTwice(c.secondary.store, ip, op))
  {
    hide Apply, HarmfulTwice, Possible, After;
    ThreeSteps(c, Arrive(Mutate(ip, op)), Deliver(0), Duplicate(0));
  }

  lemma AnswerAndCrash(c: Cluster, ip: string, op: PathOp)
    requires c.primaryUp && c.intact && c.phase == Copied(Mutate(ip, op), 0)
    ensures var steps := [Execute(0), Answer, CrashPrimary];
            && Possible(c, steps)
            && After(c, steps).secondary == c.secondary && (After(c, steps).intact <==> c.clean)
  {
    hide Serve, Possible, After;
    ThreeSteps(c, Execute(0), Answer, CrashPrimary);
  }

  /**
   A second delivery of the copy shows on the survivor exactly when it does
   harm, which the tree before the first one tells.
   */
  lemma DuplicateSurvivesIff(init: SingleServer, c: Cluster, ip: string, op: PathOp)
    requires Initial(init, c) && c.secondaryUp
    ensures var steps := [Arrive(Mutate(ip, op)), Deliver(0), Duplicate(0)] + [Execute(0), Answer, CrashPrimary];
            && Possible(c, steps)
            && var d := After(c, steps);
               && d.secondary.store == Apply(Apply(c.secondary.store, ip, op).0, ip, op).0
               && (Agree(Apply(init.store, ip, op).0, d.secondary.store, false) <==>
                   !HarmfulTwice(c.secondary.store, ip, op))
               && (d.intact <==> !HarmfulTwice(c.secondary.store, ip, op))
  {
    hide Apply, Agree, HarmfulTwice, Possible, After, SameServer;
    var first := [Arrive(Mutate(ip, op)), Deliver(0), Duplicate(0)];
    CopyTwice(c, ip, op);
    AnswerAndCrash(After(c, first), ip, op);
    Joined(c, first, [Execute(0), Answer, CrashPrimary]);
    TwiceAgreesIff(init.store, c.secondary.store, ip, op);
  }

  // ------------------------------------------------- restoration works

  /** After a cold restoration of either machine the pair is well, or will be once both are up. */
  lemma RestorationHeals(c: Cluster, t: FileStore)
    requires Paired(c)
    ensures c.primaryUp && c.phase.Idle? && Agree(c.primary.store, t, false) ==>
              && Enabled(c, RestoreSecondary(t))
              && Well(Next(c, RestoreSecondary(t)).(intact := true))
    ensures !c.primaryUp && c.secondaryUp && Agree(c.secondary.store, t, false) ==>
              && Enabled(c, RestorePrimary(t))
              && Well(Next(c, RestorePrimary(t)).(intact := true))
  {
    hide Agree, Serve, NamesOnly;
    if c.primaryUp && c.phase.Idle? && Agree(c.primary.store, t, false) {
      StepPaired(c, RestoreSecondary(t));
    }
    if !c.primaryUp && c.secondaryUp && Agree(c.secondary.store, t, false) {
      StepPaired(c, RestorePrimary(t));
    }
  }

  /** A secondary that crashes between two requests and comes back has its tree, and is as clean as before. */
  lemma SecondaryComesBack(c: Cluster)
    requires Well(c)
    ensures var steps := [CrashSecondary, RestartSecondary];
            Possible(c, steps) && Well(After(c, steps)) && After(c, steps).log == c.log
            && Agree(c.secondary.store, After(c, steps).secondary.store, false)
  {
    hide Agree, Serve, NamesOnly, Paired;
    var d := Next(c, CrashSecondary);
    StepPaired(c, CrashSecondary);
    StepPaired(d, RestartSecondary);
    NamesOnlyAgree(c.secondary.store);
    StepLast(d, RestartSecondary);
    Durability.StepFirst(c, CrashSecondary, [RestartSecondary], [CrashSecondary, RestartSecondary]);
  }

  /** One that is torn by a crash comes back with whatever tree that left, and is not up to date. */
  lemma TornSecondary(c: Cluster, t: FileStore)
    requires c.secondaryUp
    ensures var steps := [TearSecondary(t), RestartSecondary];
            && Possible(c, steps)
            && var d := After(c, steps);
               && Agree(t, d.secondary.store, false) && d.secondaryUp && d.primary == c.primary && d.log == c.log
               && !d.clean && (d.intact <==> c.intact && c.primaryUp)
  {
    hide Agree, Serve, NamesOnly;
    NamesOnlyAgree(t);
    StepLast(Next(c, TearSecondary(t)), RestartSecondary);
    Durability.StepFirst(c, TearSecondary(t), [RestartSecondary], [TearSecondary(t), RestartSecondary]);
  }

  // ---------------------------------- the step machine and the server object

  /** What TRANSMIT_TO_SECONDATY makes of the peer is what Deliver and its duplicates make of the secondary. */
  lemma {:induction false} TransmittedIsDelivered(m: Machine, req: Request, n: nat, limit: nat)
    requires Forwarded(req) && n > 0 && m.held == {} && !m.stuck
    requires req.Mutate? ==> Balanced(m.store, req.ip, req.op)
    requires n > 1 ==>
               && Stable(CopyStore(m.store, req, limit), req)
               && (req.Mutate? ==> Balanced(CopyStore(m.store, req, limit), req.ip, req.op))
    ensures Repeated(m, req, n, limit) == m.(store := CopyStore(m.store, req, limit))
    decreases n
  {
    hide Apply, WriteCopy, WriteOriginal, Balanced, Stable;
    var before := Repeated(m, req, n - 1, limit);
    if n > 1 {
      TransmittedIsDelivered(m, req, n - 1, limit);
      assert CopyStore(before.store, req, limit) == before.store by { StableApplies(before.store, req, limit); }
    } else {
      assert before == m;
    }
    if req.Mutate? {
      BalancedIff(before, req.ip, req.op);
    }
  }

  lemma StableApplies(t: FileStore, req: Request, limit: nat)
    requires Forwarded(req) && Stable(t, req)
    ensures CopyStore(t, req, limit) == t
  {
  }
}
