/**
 A primary, a secondary and their clients as one step machine. The primary
 forwards every mutation, ignores the outcome, and then executes it itself;
 clients go to the secondary once the primary is down. The last four fields
 are history: what the servers themselves do not know.
 */
module Replication {
  import opened Base
  import opened Paths
  import opened Kernel
  import opened Handlers
  import opened Agreement
  import opened CopiedWrites
  import opened Duplicates

  /** Where the primary is with the one request it is handling. */
  datatype Phase =
    | Idle
    | Received(req: Request)  // to be forwarded
    | Ready(req: Request)     // nothing to forward, or the forward was lost
    | Copied(req: Request, limit: nat)  // the secondary has executed the forwarded copy, a write up to the limit
    | Executed(req: Request)  // not answered yet

  /** The history of the server that clients see. */
  datatype Event =
    | Served(req: Request, limit: nat, reply: Reply, acknowledged: bool)
    | Switched(nextFd: int)   // clients start anew on another server, or on a restarted one

  datatype Cluster = Cluster(
    primary: SingleServer,
    secondary: SingleServer,
    primaryUp: bool,
    secondaryUp: bool,
    phase: Phase,
    late: Option<Request>,    // the last forwarded copy, which the network may deliver again
    harmless: bool,           // whether delivering it again changes nothing
    clean: bool,              // the secondary has missed nothing
    intact: bool,             // no client was ever switched to a secondary that had missed something
    log: seq<Event>
  )

  // ------------------------------------------------- a forwarded copy

  /** The tree of a server after it executed a forwarded copy; the role keeps it from forwarding further. */
  function CopyStore(t: FileStore, req: Request, limit: nat): FileStore
    requires Forwarded(req)
  {
    match req
    case Mutate(ip, op) => Apply(t, ip, op).0
    case Write(_, _, _, _, _, _) => WriteCopy(t, req, limit).0
  }

  function ExecuteCopy(s: SingleServer, req: Request, limit: nat): SingleServer
    requires Forwarded(req)
  {
    Serve(s, req, Copy, limit).0
  }

  lemma ExecuteCopyStore(s: SingleServer, req: Request, limit: nat)
    requires Forwarded(req)
    ensures ExecuteCopy(s, req, limit) == s.(store := CopyStore(s.store, req, limit))
  {
  }

  predicate HarmlessRepeat(t: FileStore, req: Request)
    requires Forwarded(req)
  {
    match req
    case Mutate(ip, op) => !HarmfulTwice(t, ip, op)
    case Write(_, _, _, size, _, buffer) => size == 0 || buffer == [] || WriteCopy(t, req, 0).1.Status?
  }

  ghost predicate Stable(t: FileStore, req: Request)
    requires Forwarded(req)
  {
    forall limit :: CopyStore(t, req, limit) == t
  }

  lemma RepeatIsStable(t: FileStore, req: Request, limit: nat)
    requires Forwarded(req) && HarmlessRepeat(t, req)
    ensures Stable(CopyStore(t, req, limit), req)
  {
    match req
    case Mutate(ip, op) => ApplyTwiceIff(t, ip, op);
    case Write(_, _, path, size, _, buffer) =>
      forall again: nat
        ensures CopyStore(CopyStore(t, req, limit), req, again) == CopyStore(t, req, limit)
      {
        EmptyCopyKeeps(t, req, limit);
        EmptyCopyKeeps(t, req, again);
      }
  }

  /** A copied write that fails or carries nothing leaves the tree alone. */
  lemma EmptyCopyKeeps(t: FileStore, req: Request, limit: nat)
    requires req.Write? && HarmlessRepeat(t, req)
    ensures WriteCopy(t, req, limit).0 == t
  {
    var r := Follow(t, Translate(req.path));
    CopyFlagsAppend();
    if r.Ok? && IsKind(t, r.value, Regular) {
      var n := Node(t, r.value);
      assert n.data + [] == n.data && n.(data := n.data) == n;
      assert Chunk(req.size, req.buffer, limit) == [];
      assert SetNode(t, Name(r.value), n) == t;
    }
  }

  /** A copy taken up to l' and an original taken up to l have the same effect; only writes can fail this. */
  predicate Coincides(m: SingleServer, req: Request, l: nat, l': nat) {
    req.Write? ==> OriginalEffect(m, req, l) == CopyEffect(m.store, req, l')
  }

  lemma CopyAgreesIff(m: SingleServer, t: FileStore, req: Request, l: nat, l': nat)
    requires Forwarded(req) && Agree(m.store, t, false)
    ensures Agree(Serve(m, req, Original, l).0.store, CopyStore(t, req, l'), false) <==> Coincides(m, req, l, l')
  {
    hide Agree, Apply, WriteCopy, WriteOriginal, OriginalEffect, CopyEffect;
    match req
    case Mutate(ip, op) => ApplyAgree(m.store, t, false, ip, op);
    case Write(_, _, _, _, _, _) => CopiedWriteAgreesIff(m, t, req, l, l');
  }

  /** It does not show whether the original is taken up to l or up to l'. */
  predicate Alike(m: SingleServer, req: Request, l: nat, l': nat) {
    req.Write? ==> OriginalEffect(m, req, l) == OriginalEffect(m, req, l')
  }

  lemma AlikeIff(m: SingleServer, req: Request, l: nat, l': nat)
    requires Forwarded(req)
    ensures Agree(Serve(m, req, Original, l).0.store, Serve(m, req, Original, l').0.store, false)
       <==> Alike(m, req, l, l')
  {
    hide Apply, WriteOriginal, OriginalEffect;
    if req.Write? {
      hide Agree;
      OriginalsAgreeIff(m, req, l, l');
    }
  }

  // ------------------------------------------------------------- steps

  /** The names of a tree without its open descriptors. */
  function NamesOnly(t: FileStore): FileStore {
    t.(refs := map x | x in t.refs && x.Name? :: t.refs[x])
  }

  /** The tree a server finds on its disk after a restart, with no descriptors open. */
  function Restarted(t: FileStore, nextFd: int): SingleServer {
    Srv(NamesOnly(t), map[], nextFd)
  }

  datatype Step =
    | Arrive(req: Request)                // a client connects to the primary and sends a request
    | ForwardFails                        // the secondary cannot be reached, or the copy is lost
    | Deliver(limit: nat)                 // the secondary executes the copy; its reply may be lost
    | Duplicate(limit: nat)               // the network delivers the last copy once more
    | Execute(limit: nat)                 // the primary runs the handler itself
    | Answer
    | CrashPrimary
    | CrashSecondary
    | TearSecondary(t: FileStore)         // a crash in the middle of a handler leaves any tree
    | RestartSecondary
    | ServeDegraded(req: Request, limit: nat, acknowledged: bool)  // a client of the survivor
    | RestoreSecondary(t: FileStore)      // cold restoration from the running server
    | RestorePrimary(t: FileStore)

  ghost predicate Enabled(c: Cluster, step: Step) {
    match step
    case Arrive(_) => c.primaryUp && c.phase.Idle?
    case ForwardFails => c.phase.Received?
    case Deliver(_) => c.phase.Received? && c.secondaryUp && Forwarded(c.phase.req)
    case Duplicate(_) => c.late.Some? && c.secondaryUp && Forwarded(c.late.value)
    case Execute(_) => c.phase.Ready? || c.phase.Copied?
    case Answer => c.phase.Executed? && c.log != [] && c.log[|c.log| - 1].Served?
    case CrashPrimary => c.primaryUp
    case CrashSecondary => c.secondaryUp
    case TearSecondary(_) => c.secondaryUp
    case RestartSecondary => !c.secondaryUp
    case ServeDegraded(_, _, _) => !c.primaryUp && c.secondaryUp
    case RestoreSecondary(t) => c.primaryUp && c.phase.Idle? && Agree(c.primary.store, t, false)
    case RestorePrimary(t) => !c.primaryUp && c.secondaryUp && Agree(c.secondary.store, t, false)
  }

  /** What a crash of the primary leaves behind: an executed copy counts as served, though unanswered. */
  function LogAtCrash(c: Cluster): seq<Event> {
    var done :=
      if c.phase.Copied? then
        [Served(c.phase.req, c.phase.limit,
                Serve(c.primary, c.phase.req, Original, c.phase.limit).1, false)]
      else [];
    c.log + done + [Switched(c.secondary.nextFd)]
  }

  function Next(c: Cluster, step: Step): Cluster
    requires Enabled(c, step)
  {
    match step
    case Arrive(req) => c.(phase := if Forwarded(req) then Received(req) else Ready(req))
    case ForwardFails => c.(phase := Ready(c.phase.req), clean := false)
    case Deliver(limit) =>
      var req := c.phase.req;
      c.(phase := Copied(req, limit),
         secondary := ExecuteCopy(c.secondary, req, limit),
         late := Some(req),
         harmless := HarmlessRepeat(c.secondary.store, req),
         clean := c.clean && Coincides(c.primary, req, limit, limit))
    case Duplicate(limit) =>
      c.(secondary := ExecuteCopy(c.secondary, c.late.value, limit),
         clean := c.clean && c.harmless,
         intact := c.intact && (c.primaryUp || c.harmless))
    case Execute(limit) =>
      var r := Serve(c.primary, c.phase.req, Original, limit);
      c.(phase := Executed(c.phase.req),
         primary := r.0,
         log := c.log + [Served(c.phase.req, limit, r.1, false)],
         clean := c.clean && !Wipes(c.primary, c.phase.req)
                  && (c.phase.Copied? ==> Alike(c.primary, c.phase.req, limit, c.phase.limit)))
    case Answer =>
      var k := |c.log| - 1;
      c.(phase := Idle, log := c.log[k := c.log[k].(acknowledged := true)])
    case CrashPrimary =>
      c.(primaryUp := false, phase := Idle, intact := c.intact && c.clean, log := LogAtCrash(c))
    case CrashSecondary =>
      c.(secondaryUp := false,
         secondary := Restarted(c.secondary.store, c.secondary.nextFd),
         late := None,
         log := if c.primaryUp then c.log else c.log + [Switched(c.secondary.nextFd)])
    case TearSecondary(t) =>
      c.(secondaryUp := false,
         secondary := Restarted(t, c.secondary.nextFd),
         late := None,
         clean := false,
         intact := c.intact && c.primaryUp)
    case RestartSecondary => c.(secondaryUp := true)
    case ServeDegraded(req, limit, acknowledged) =>
      var r := Serve(c.secondary, req, Original, limit);
      c.(secondary := r.0, late := None, log := c.log + [Served(req, limit, r.1, acknowledged)])
    case RestoreSecondary(t) =>
      c.(secondary := Restarted(t, c.secondary.nextFd), secondaryUp := true, late := None, clean := true)
    case RestorePrimary(t) =>
      c.(primary := Restarted(t, c.primary.nextFd), primaryUp := true,
         secondary := Restarted(c.secondary.store, c.secondary.nextFd),
         late := None, clean := true,
         log := c.log + [Switched(c.primary.nextFd)])
  }

  // ------------------------------------------- the single-server history

  function ReplayEvent(s: SingleServer, e: Event): SingleServer {
    match e
    case Served(req, limit, _, _) => Serve(s, req, Original, limit).0
    case Switched(nextFd) => Restarted(s.store, nextFd)
  }

  /** One server executing the logged requests one after the other. */
  function Replay(init: SingleServer, log: seq<Event>): SingleServer {
    if log == [] then init
    else ReplayEvent(Replay(init, log[..|log| - 1]), log[|log| - 1])
  }

  /** Every logged reply is the one that single server gives. */
  ghost predicate Faithful(init: SingleServer, log: seq<Event>) {
    log == [] ||
    (var before, e := log[..|log| - 1], log[|log| - 1];
     && Faithful(init, before)
     && (e.Served? ==> e.reply == Serve(Replay(init, before), e.req, Original, e.limit).1))
  }

  lemma ReplayAppend(init: SingleServer, log: seq<Event>, e: Event)
    ensures Replay(init, log + [e]) == ReplayEvent(Replay(init, log), e)
    ensures Faithful(init, log + [e]) <==>
            Faithful(init, log) && (e.Served? ==> e.reply == Serve(Replay(init, log), e.req, Original, e.limit).1)
  {
    assert (log + [e])[..|log|] == log;
  }

  /** Answering a request changes no replay. */
  lemma ReplayAcknowledge(init: SingleServer, log: seq<Event>)
    requires log != [] && log[|log| - 1].Served?
    ensures var log' := log[|log| - 1 := log[|log| - 1].(acknowledged := true)];
            Replay(init, log') == Replay(init, log) && (Faithful(init, log) ==> Faithful(init, log'))
  {
    var k := |log| - 1;
    assert log[k := log[k].(acknowledged := true)][..k] == log[..k];
  }

  // ---------------------------------------------------------- invariant

  predicate NoHandles(s: SingleServer) {
    s.modes == map[]
  }

  /** The server clients use looks like the single server of the history. */
  ghost predicate Refines(init: SingleServer, c: Cluster) {
    && Faithful(init, c.log)
    && SameServer(if c.primaryUp then c.primary else c.secondary, Replay(init, c.log))
  }

  /** The secondary's tree is the primary's, or ahead by the mutation already copied to it. */
  ghost predicate InPace(c: Cluster) {
    var expected := if c.phase.Copied? then Serve(c.primary, c.phase.req, Original, c.phase.limit).0 else c.primary;
    Agree(expected.store, c.secondary.store, false)
  }

  /** What holds of the two servers, whatever clients have seen of them. */
  ghost predicate Paired(c: Cluster) {
    && (c.phase.Received? || c.phase.Copied? ==> Forwarded(c.phase.req))
    && (!c.phase.Idle? ==> c.primaryUp)
    && (c.phase.Ready? && Forwarded(c.phase.req) ==> !c.clean)
    && (c.primaryUp ==> NoHandles(c.secondary))
    && (c.late.Some? ==> Forwarded(c.late.value))
    && (c.late.Some? && c.harmless ==> Stable(c.secondary.store, c.late.value))
    && (c.primaryUp && c.clean ==> InPace(c))
  }

  ghost predicate Invariant(init: SingleServer, c: Cluster) {
    && Paired(c)
    && (c.phase.Executed? ==> Enabled(c, Answer))
    && (c.intact ==> Refines(init, c))
  }

  /** Both servers start from the same tree and nothing has happened. */
  ghost predicate Initial(init: SingleServer, c: Cluster) {
    && SameServer(c.primary, init) && Agree(init.store, c.secondary.store, false) && NoHandles(c.secondary)
    && c.primaryUp && c.phase.Idle? && c.late.None? && c.clean && c.intact && c.log == []
  }

  lemma InitialHolds(init: SingleServer, c: Cluster)
    requires Initial(init, c)
    ensures Invariant(init, c)
  {
    AgreeOnNames(c.primary.store, init.store);
    AgreeTransitive(c.primary.store, init.store, c.secondary.store, false);
  }

  // ------------------------------------------------ descriptors and names

  lemma NamesOnlyAgree(t: FileStore)
    ensures Agree(t, NamesOnly(t), false)
  {
  }

  lemma WithoutHandles(a: SingleServer, b: FileStore, nextFd: int)
    requires Agree(a.store, b, false) && NoHandles(a) && a.nextFd == nextFd
    ensures SameServer(a, Restarted(b, nextFd))
  {
    var u := Restarted(b, nextFd);
    assert forall x :: x in a.store.refs ==> x.Name?;
    assert forall x :: x in u.store.refs ==> x.Name?;
    NamesOnlyAgree(b);
    AgreeTransitive(a.store, b, u.store, false);
  }
}
