/**
 The directory locks of one server process. A lock belongs to the descriptor
 opened for it; asking for a second one on the same directory waits for ever,
 because the only process that could release the first is the one waiting.
 */
module Locks {
  import opened Base
  import opened Paths
  import opened Identity
  import opened Kernel
  import opened Handlers
  import opened CleanPaths

  /** The directories a handler locks, in order. */
  datatype Plan =
    | Unlocked               // denied, nothing to lock, or the directory cannot be opened
    | One(d: Path)
    | Two(d: Path, e: Path)
    | Stuck(d: Path)         // the second directory cannot be opened: the handler returns holding the first

  function ParentPlan(t: FileStore, f: string, ip: string, opName: string): (plan: Plan)
    requires '/' in f
    ensures Planned(t, plan)
  {
    if Denied(t, f, ip, opName) then Unlocked
    else match OpenDir(t, ParentPath(f))
      case None => Unlocked
      case Some(d) => One(d)
  }

  /** rename locks both parents, or one if they are the same string. */
  function LockPair(t: FileStore, parent: string, newParent: string): (plan: Plan)
    ensures Planned(t, plan)
  {
    match OpenDir(t, parent)
    case None => Unlocked
    case Some(d) =>
      if parent == newParent then One(d)
      else match OpenDir(t, newParent)
        case None => Stuck(d)
        case Some(e) => Two(d, e)
  }

  function RenamePlan(t: FileStore, f: string, g: string, ip: string): (plan: Plan)
    requires '/' in f && '/' in g
    ensures Planned(t, plan)
  {
    if Denied(t, f, ip, "rename") || Denied(t, g, ip, "rename") then Unlocked
    else LockPair(t, ParentPath(f), ParentPath(g))
  }

  function PlanOf(t: FileStore, ip: string, op: PathOp): (plan: Plan)
    ensures Planned(t, plan)
  {
    match op
    case Mkdir(path, _) => ParentPlan(t, Translate(path), ip, "mkdir")
    case Rmdir(path) => ParentPlan(t, Translate(path), ip, "rmdir")
    case Unlink(path) => ParentPlan(t, Translate(path), ip, "unlink")
    case Mknod(path, _) => ParentPlan(t, Translate(path), ip, "mknod")
    case Rename(path, newpath) => RenamePlan(t, Translate(path), Translate(newpath), ip)
    case _ => Unlocked
  }

  datatype Outcome = Answered(reply: Reply) | Waiting

  /** A server's tree, open files, the inodes it holds locked, and whether it waits for ever. */
  datatype Machine = Machine(store: FileStore, modes: map<int, Mode>, held: set<nat>, stuck: bool)

  function Inum(t: FileStore, d: Path): nat
    requires Exists(t, d)
  {
    t.refs[Name(d)]
  }

  ghost predicate Planned(t: FileStore, plan: Plan) {
    && (!plan.Unlocked? ==> Exists(t, plan.d))
    && (plan.Two? ==> Exists(t, plan.e))
  }

  /** A handler that locks by the given plan and, if it gets its locks, yields r. */
  function Locked(m: Machine, plan: Plan, r: (FileStore, int)): (Machine, Outcome)
    requires Planned(m.store, plan)
  {
    var done := (m.(store := r.0), Answered(Status(r.1)));
    var waits := (m.(stuck := true), Waiting);
    match plan
    case Unlocked => done
    case One(d) => if Inum(m.store, d) in m.held then waits else done
    case Two(d, e) =>
      var i, j := Inum(m.store, d), Inum(m.store, e);
      if i in m.held then waits
      else if j in m.held + {i} then (m.(held := m.held + {i}, stuck := true), Waiting)
      else done
    case Stuck(d) =>
      var i := Inum(m.store, d);
      if i in m.held then waits else (m.(held := m.held + {i}), done.1)
  }

  /** One path mutation with its locks. */
  function Mutation(m: Machine, ip: string, op: PathOp): (Machine, Outcome) {
    Locked(m, PlanOf(m.store, ip, op), Apply(m.store, ip, op))
  }

  /** The handlers that lock one parent and then yield r. */
  function OneLock(m: Machine, f: string, ip: string, opName: string, r: (FileStore, int)): (Machine, Outcome)
    requires '/' in f
  {
    Locked(m, ParentPlan(m.store, f, ip, opName), InParent(m.store, f, ip, opName, r))
  }

  function RenameLocks(m: Machine, f: string, g: string, ip: string): (Machine, Outcome)
    requires '/' in f && '/' in g
  {
    Locked(m, RenamePlan(m.store, f, g, ip), ApplyRename(m.store, ip, f, g))
  }

  /** A forwarded or original mutation on one machine; a waiting server answers nothing any more. */
  function Perform(m: Machine, req: Request, role: Role, limit: nat): (Machine, Outcome)
    requires Forwarded(req)
  {
    if m.stuck then (m, Waiting)
    else match req
      case Mutate(ip, op) => Mutation(m, ip, op)
      case Write(_, _, _, _, _, _) =>
        var r := if role == Copy then WriteCopy(m.store, req, limit) else WriteOriginal(m.store, m.modes, req, limit);
        (m.(store := r.0), Answered(r.1))
  }

  // ---------------------------------------------------------- balance

  /** No rename whose second parent passes the check but is no directory, or is the first one by another name. */
  predicate Balanced(t: FileStore, ip: string, op: PathOp) {
    BalancedPlan(t, PlanOf(t, ip, op))
  }

  /** Starting without locks, a mutation ends without locks, answered, exactly when it is balanced. */
  lemma BalancedIff(m: Machine, ip: string, op: PathOp)
    requires m.held == {} && !m.stuck
    ensures Balanced(m.store, ip, op) <==> Mutation(m, ip, op).1.Answered? && Mutation(m, ip, op).0.held == {}
    ensures Balanced(m.store, ip, op) ==>
              && Mutation(m, ip, op).0 == m.(store := Apply(m.store, ip, op).0)
              && Mutation(m, ip, op).1 == Answered(Status(Apply(m.store, ip, op).1))
  {
    var plan := PlanOf(m.store, ip, op);
    if plan.Two? || plan.Stuck? {
      assert Inum(m.store, plan.d) in m.held + {Inum(m.store, plan.d)};
    }
  }

  function Runs(m: Machine, calls: seq<Call>): Machine
    requires forall i :: 0 <= i < |calls| ==> Forwarded(calls[i].req)
  {
    if calls == [] then m
    else
      var last := calls[|calls| - 1];
      Perform(Runs(m, calls[..|calls| - 1]), last.req, last.role, last.limit).0
  }

  /** A leaked lock is fatal: the next request that locks the same directory waits for ever. */
  lemma LeakThenWait(m: Machine, ip: string, op: PathOp, ip': string, op': PathOp)
    requires m.held == {} && !m.stuck && PlanOf(m.store, ip, op).Stuck?
    requires PlanOf(m.store, ip', op') == One(PlanOf(m.store, ip, op).d)
    ensures var m1 := Mutation(m, ip, op).0; !m1.stuck && m1.held != {} && Mutation(m1, ip', op').1 == Waiting
  {
    var i := Inum(m.store, PlanOf(m.store, ip, op).d);
    assert Mutation(m, ip, op).0 == m.(held := m.held + {i});
    assert i in m.held + {i};
  }

  /** /DFS is a directory and /DFS/p a file whose bits are all set: it passes for a parent but does not open. */
  predicate OpenFileAsParent(t: FileStore, p: string) {
    CleanName(p) && IsDir(t, ["DFS"]) && IsKind(t, Top(p), Regular) && Node(t, Top(p)).perm == 511
  }

  lemma FileParentPlans(t: FileStore, ip: string, p: string, a: string, x: string, b: string, mode: int)
    requires OpenFileAsParent(t, p) && CleanName(a) && CleanName(x) && CleanName(b)
    ensures PlanOf(t, ip, Rename("/" + a, "/" + p + "/" + x)) == Stuck(["DFS"])
    ensures PlanOf(t, ip, Mkdir("/" + b, mode)) == One(["DFS"])
  {
    hide Walk, Split, LastSlash, Translate;
    TopPath(a);
    TopPath(b);
    TopPath(p);
    BelowPath(p, x);
    RootOpens(t);
    FileDoesNotOpen(t, p);
    assert ("/DFS/" + a)[0] == '/' && ("/DFS/" + b)[0] == '/' && ("/DFS/" + p + "/" + x)[0] == '/';
    assert |"/DFS/" + p| > |"/DFS"|;
    assert IsOpValid(t, "/DFS/" + p, ip, true, true, true) == 1;
  }

  lemma RootOpens(t: FileStore)
    requires IsDir(t, ["DFS"])
    ensures OpenDir(t, "/DFS") == Some(["DFS"])
  {
    assert CleanName("a");
    TopLocated(t, "a");
  }

  lemma FileDoesNotOpen(t: FileStore, p: string)
    requires CleanName(p) && IsDir(t, ["DFS"]) && IsKind(t, Top(p), Regular)
    ensures OpenDir(t, "/DFS/" + p) == None && LstatPath(t, "/DFS/" + p) == Ok(Top(p))
  {
    TopPath(p);
    WalkTop(t, p, MAX_LINKS);
    TopLocated(t, p);
    assert ["DFS"] + [p] == Top(p) && [p][1..] == [];
  }

  /** In such a tree anybody's rename of /a to /p/x leaves /DFS locked, and the next mkdir there waits for ever. */
  lemma LeakExample(m: Machine, ip: string, ip': string, p: string, a: string, x: string, b: string, mode: int)
    requires m.held == {} && !m.stuck && OpenFileAsParent(m.store, p)
    requires CleanName(a) && CleanName(x) && CleanName(b)
    ensures var m1 := Mutation(m, ip, Rename("/" + a, "/" + p + "/" + x)).0;
            !m1.stuck && m1.held != {} && Mutation(m1, ip', Mkdir("/" + b, mode)).1 == Waiting
  {
    hide PlanOf, Apply;
    FileParentPlans(m.store, ip, p, a, x, b, mode);
    FileParentPlans(m.store, ip', p, a, x, b, mode);
    LeakThenWait(m, ip, Rename("/" + a, "/" + p + "/" + x), ip', Mkdir("/" + b, mode));
  }

  /** A balanced run of requests computes what the lock-free server computes. */
  lemma PerformIsServe(m: Machine, s: SingleServer, req: Request, role: Role, limit: nat)
    requires Forwarded(req) && m.held == {} && !m.stuck && m.store == s.store && m.modes == s.modes
    requires req.Mutate? ==> Balanced(m.store, req.ip, req.op)
    ensures Perform(m, req, role, limit).1 == Answered(Serve(s, req, role, limit).1)
    ensures Perform(m, req, role, limit).0 == m.(store := Serve(s, req, role, limit).0.store)
  {
    if req.Mutate? {
      BalancedIff(m, req.ip, req.op);
    }
  }

  // -------------------------------------- when renames are balanced

  /** A directory has one name. */
  ghost predicate OneNamePerDirectory(t: FileStore) {
    forall p, q :: IsDir(t, p) && Exists(t, q) && Inum(t, p) == Inum(t, q) ==> p == q
  }

  /** A clean directory path that opens leads to its canonical entry. */
  lemma OpenDirClean(t: FileStore, ns: Path)
    requires Clean(ns) && NoLinkAbove(t, Canonical(ns)) && !IsKind(t, Canonical(ns), Symlink)
    ensures var r := OpenDir(t, Translate(ClientPath(ns))); r.Some? ==> r.value == Canonical(ns)
  {
    FollowClean(t, ns);
  }

  /** Renames between clean, link-free parents that are directories if they pass the check. */
  lemma CleanRenameBalanced(t: FileStore, ip: string, ns: Path, ms: Path)
    requires OneNamePerDirectory(t)
    requires Clean(ns) && ns != [] && Clean(ms) && ms != []
    requires var p, q := Canonical(ns[..|ns| - 1]), Canonical(ms[..|ms| - 1]);
             && NoLinkAbove(t, p) && NoLinkAbove(t, q) && !IsKind(t, p, Symlink) && !IsKind(t, q, Symlink)
    requires var g := Translate(ClientPath(ms)); Denied(t, g, ip, "rename") || !NoLock(t, g)
    ensures Balanced(t, ip, Rename(ClientPath(ns), ClientPath(ms)))
  {
    hide Locate, LstatPath, Follow, IsParentDirValid, Translate, ClientPath, LastSlash;
    var up, vp := ns[..|ns| - 1], ms[..|ms| - 1];
    CleanParent(ns);
    CleanParent(ms);
    OpenDirClean(t, up);
    OpenDirClean(t, vp);
    if up != vp {
      assert Canonical(up)[1..] == up && Canonical(vp)[1..] == vp;
      DifferentDirectories(t, Canonical(up), Canonical(vp));
    }
    var f, g := Translate(ClientPath(ns)), Translate(ClientPath(ms));
    assert RenamePlan(t, f, g, ip) == PlanOf(t, ip, Rename(ClientPath(ns), ClientPath(ms)));
    if !Denied(t, f, ip, "rename") && !Denied(t, g, ip, "rename") {
      PairBalanced(t, ParentPath(f), ParentPath(g));
    }
  }

  lemma DifferentDirectories(t: FileStore, p: Path, q: Path)
    requires OneNamePerDirectory(t) && p != q
    ensures IsDir(t, p) && IsDir(t, q) ==> Inum(t, p) != Inum(t, q)
  {
  }

  predicate BalancedPlan(t: FileStore, plan: Plan)
    requires Planned(t, plan)
  {
    !plan.Stuck? && (plan.Two? ==> Inum(t, plan.d) != Inum(t, plan.e))
  }

  /** Two parents are fine if the second opens and different strings lead to different directories. */
  lemma PairBalanced(t: FileStore, parent: string, newParent: string)
    requires OpenDir(t, newParent).Some?
    requires var d, e := OpenDir(t, parent), OpenDir(t, newParent);
             d.Some? && parent != newParent ==> Inum(t, d.value) != Inum(t, e.value)
    ensures BalancedPlan(t, LockPair(t, parent, newParent))
  {
  }

  lemma SetNodeKeepsNames(t: FileStore, p: Path, n: Inode)
    requires OneNamePerDirectory(t) && Exists(t, p) && n.kind == Node(t, p).kind
    ensures OneNamePerDirectory(SetNode(t, Name(p), n))
  {
    var u := SetNode(t, Name(p), n);
    forall q, r | IsDir(u, q) && Exists(u, r) && Inum(u, q) == Inum(u, r)
      ensures q == r
    {
      assert IsDir(t, q) && Exists(t, r) && Inum(t, q) == Inum(t, r);
    }
  }

  lemma AddNodeKeepsNames(t: FileStore, p: Path, n: Inode)
    requires OneNamePerDirectory(t) && !Exists(t, p)
    ensures OneNamePerDirectory(AddNode(t, Name(p), n))
  {
    var u := AddNode(t, Name(p), n);
    forall q, r | IsDir(u, q) && Exists(u, r) && Inum(u, q) == Inum(u, r)
      ensures q == r
    {
      assert q != p ==> Exists(t, q) && Inum(t, q) in t.inodes;
      assert r != p ==> Exists(t, r) && Inum(t, r) in t.inodes;
      if q != p && r != p {
        assert IsDir(t, q) && Inum(t, q) == Inum(t, r);
      }
    }
  }

  lemma MoveKeepsNames(t: FileStore, a: Path, b: Path)
    requires OneNamePerDirectory(t) && !(a <= b) && !(b <= a)
    ensures OneNamePerDirectory(MoveNames(t, a, b))
  {
    hide MoveNames;
    var u := MoveNames(t, a, b);
    forall q, r | IsDir(u, q) && Exists(u, r) && Inum(u, q) == Inum(u, r)
      ensures q == r
    {
      var q', r' := MovedFrom(a, b, Name(q)).value.path, MovedFrom(a, b, Name(r)).value.path;
      assert IsDir(t, q') && Exists(t, r');
      assert q' == r';
      assert b <= q ==> q == b + q[|b|..] && a <= q' && q' == a + q[|b|..];
      assert b <= r ==> r == b + r[|b|..] && a <= r' && r' == a + r[|b|..];
      if b <= q && b <= r {
        assert q[|b|..] == q'[|a|..] && r[|b|..] == r'[|a|..];
      }
    }
  }

  /** Creation, and the change of owner behind it. */
  lemma CreatedKeepsNames(r: Result<FileStore>, t: FileStore, f: string, ip: string)
    requires KeepsHandles(t, r) && OneNamePerDirectory(t) && (r.Ok? ==> OneNamePerDirectory(r.value))
    ensures OneNamePerDirectory(Created(r, t, f, ip).0)
    ensures r.Ok? ==> OneNamePerDirectory(SetSoftlinkOwner(r.value, f, ip).0)
  {
    if r.Ok? {
      var id := UserId(ip);
      if Follow(r.value, f).Ok? {
        var p := Follow(r.value, f).value;
        SetNodeKeepsNames(r.value, p, Own(Node(r.value, p), id, id));
      }
      if LstatPath(r.value, f).Ok? {
        var p := LstatPath(r.value, f).value;
        SetNodeKeepsNames(r.value, p, Own(Node(r.value, p), id, id));
      }
    }
  }

  lemma CreateKeepsNames(t: FileStore, f: string, n: Inode)
    requires OneNamePerDirectory(t)
    ensures var r := Create(t, f, n); r.Ok? ==> OneNamePerDirectory(r.value)
  {
    if Create(t, f, n).Ok? {
      AddNodeKeepsNames(t, Locate(t, f).value, n);
    }
  }

  lemma LinkKeepsNames(t: FileStore, s: string, s': string)
    requires OneNamePerDirectory(t)
    ensures var r := SysLink(t, s, s'); r.Ok? ==> OneNamePerDirectory(r.value)
  {
    if SysLink(t, s, s').Ok? {
      var u, p, p' := SysLink(t, s, s').value, LstatPath(t, s).value, Locate(t, s').value;
      forall q, r | IsDir(u, q) && Exists(u, r) && Inum(u, q) == Inum(u, r)
        ensures q == r
      {
        var q', r' := if q == p' then p else q, if r == p' then p else r;
        assert IsDir(t, q') && Exists(t, r') && Inum(t, q') == Inum(t, r');
      }
    }
  }

  lemma ReplaceKeepsNames(t: FileStore, ip: string, op: PathOp)
    requires OneNamePerDirectory(t) && (op.Truncate? || op.Chmod? || op.Chown?)
    ensures OneNamePerDirectory(Apply(t, ip, op).0)
  {
    var f := Translate(op.path);
    if Apply(t, ip, op).0 != t {
      var p := Follow(t, f).value;
      SetNodeKeepsNames(t, p, Node(Apply(t, ip, op).0, p));
    }
  }

  lemma CreationKeepsNames(t: FileStore, ip: string, op: PathOp)
    requires OneNamePerDirectory(t) && (op.Mkdir? || op.Mknod? || op.MakeSymlink? || op.HardLink?)
    ensures OneNamePerDirectory(Apply(t, ip, op).0)
  {
    hide Locate, LstatPath, Follow, OpenDir, IsParentDirValid, OneNamePerDirectory, Create, SysLink;
    match op
    case Mkdir(path, mode) =>
      CreateKeepsNames(t, Translate(path), Inode(Directory, mode % 4096, 0, 0, [], ""));
      CreatedKeepsNames(SysMkdir(t, Translate(path), mode), t, Translate(path), ip);
    case Mknod(path, mode) =>
      if KindOfMode(mode).Ok? {
        CreateKeepsNames(t, Translate(path), Inode(KindOfMode(mode).value, mode % 4096, 0, 0, [], ""));
      }
      CreatedKeepsNames(SysMknod(t, Translate(path), mode), t, Translate(path), ip);
    case MakeSymlink(target, link) =>
      CreateKeepsNames(t, Translate(link), Inode(Symlink, 511, 0, 0, [], target));
      CreatedKeepsNames(SysSymlink(t, target, Translate(link)), t, Translate(link), ip);
    case HardLink(path, newpath) =>
      LinkKeepsNames(t, Translate(path), Translate(newpath));
      CreatedKeepsNames(SysLink(t, Translate(path), Translate(newpath)), t, Translate(newpath), ip);
  }

  lemma DropKeepsNames(t: FileStore, x: Ref)
    requires OneNamePerDirectory(t)
    ensures OneNamePerDirectory(DropRef(t, x))
  {
    var u := DropRef(t, x);
    forall q, r | IsDir(u, q) && Exists(u, r) && Inum(u, q) == Inum(u, r)
      ensures q == r
    {
      assert IsDir(t, q) && Exists(t, r);
    }
  }

  lemma RemovalKeepsNames(t: FileStore, ip: string, op: PathOp)
    requires OneNamePerDirectory(t) && (op.Rmdir? || op.Unlink?)
    ensures OneNamePerDirectory(Apply(t, ip, op).0)
  {
    var f := Translate(op.path);
    if SysRmdir(t, f).Ok? || SysUnlink(t, f).Ok? {
      DropKeepsNames(t, Name(Locate(t, f).value));
    }
  }

  lemma RenameKeepsNames(t: FileStore, ip: string, op: PathOp)
    requires OneNamePerDirectory(t) && op.Rename?
    ensures OneNamePerDirectory(Apply(t, ip, op).0)
  {
    var a, b := Locate(t, Translate(op.path)), Locate(t, Translate(op.newpath));
    if a.Ok? && b.Ok? && !(a.value <= b.value) && !(b.value <= a.value) {
      MoveKeepsNames(t, a.value, b.value);
    }
  }

  /** Directories keep a single name under every path mutation, so the hypothesis above is an invariant. */
  lemma ApplyKeepsNames(t: FileStore, ip: string, op: PathOp)
    requires OneNamePerDirectory(t)
    ensures OneNamePerDirectory(Apply(t, ip, op).0)
  {
    match op
    case Rename(_, _) => RenameKeepsNames(t, ip, op);
    case Truncate(_, _) => ReplaceKeepsNames(t, ip, op);
    case Chmod(_, _) => ReplaceKeepsNames(t, ip, op);
    case Chown(_, _, _) => ReplaceKeepsNames(t, ip, op);
    case Utime(_) => assert Apply(t, ip, op).0 == t;
    case Rmdir(_) => RemovalKeepsNames(t, ip, op);
    case Unlink(_) => RemovalKeepsNames(t, ip, op);
    case _ => CreationKeepsNames(t, ip, op);
  }

  // ------------------------------------------------------ whole runs

  /** A path without links among the directories above its entry, as the names below /DFS. */
  ghost predicate PlainParent(t: FileStore, ns: Path) {
    && Clean(ns) && ns != []
    && var p := Canonical(ns[..|ns| - 1]);
       NoLinkAbove(t, p) && !IsKind(t, p, Symlink)
  }

  ghost predicate PlainRename(t: FileStore, ip: string, ns: Path, ms: Path) {
    && PlainParent(t, ns) && PlainParent(t, ms)
    && var g := Translate(ClientPath(ms)); Denied(t, g, ip, "rename") || !NoLock(t, g)
  }

  /**
   What the clients and the kernel must grant: a rename names both ends by
   clean paths without links, and its second parent opens if it passes the
   check. All other requests are ordinary as they are.
   */
  ghost predicate Ordinary(t: FileStore, ip: string, op: PathOp) {
    op.Rename? ==>
      exists ns: Path, ms: Path ::
        op.path == ClientPath(ns) && op.newpath == ClientPath(ms) && PlainRename(t, ip, ns, ms)
  }

  lemma OrdinaryIsBalanced(t: FileStore, ip: string, op: PathOp)
    requires OneNamePerDirectory(t) && Ordinary(t, ip, op)
    ensures Balanced(t, ip, op)
  {
    if op.Rename? {
      var ns: Path, ms: Path :|
        op.path == ClientPath(ns) && op.newpath == ClientPath(ms) && PlainRename(t, ip, ns, ms);
      CleanRenameBalanced(t, ip, ns, ms);
    }
  }

  lemma WriteKeepsNames(t: FileStore, x: Ref, mode: Mode, size: nat, offset: nat, buffer: seq<byte>, limit: nat)
    requires OneNamePerDirectory(t) && x in t.refs
    ensures OneNamePerDirectory(WriteRef(t, x, mode, size, offset, buffer, limit).0)
  {
    var u := WriteRef(t, x, mode, size, offset, buffer, limit).0;
    forall q, r | IsDir(u, q) && Exists(u, r) && Inum(u, q) == Inum(u, r)
      ensures q == r
    {
      assert IsDir(t, q) && Exists(t, r) && Inum(t, q) == Inum(t, r);
    }
  }

  /** One ordinary request: answered, no lock left, directories still single-named. */
  lemma OrdinaryCall(m: Machine, call: Call)
    requires m.held == {} && !m.stuck && OneNamePerDirectory(m.store) && Forwarded(call.req)
    requires call.req.Mutate? ==> Ordinary(m.store, call.req.ip, call.req.op)
    ensures var (m', o) := Perform(m, call.req, call.role, call.limit);
            o.Answered? && m'.held == {} && !m'.stuck && OneNamePerDirectory(m'.store)
  {
    hide OneNamePerDirectory, WriteRef, PlanOf, Apply, Ordinary, Follow;
    match call.req
    case Mutate(ip, op) =>
      OrdinaryIsBalanced(m.store, ip, op);
      BalancedIff(m, ip, op);
      ApplyKeepsNames(m.store, ip, op);
    case Write(_, fd, path, size, offset, buffer) =>
      if call.role == Copy {
        var r := Follow(m.store, Translate(path));
        if r.Ok? {
          WriteKeepsNames(m.store, Name(r.value), ModeOf(COPY_FLAGS), size, offset, buffer, call.limit);
        }
      } else if fd in m.modes && Handle(fd) in m.store.refs {
        WriteKeepsNames(m.store, Handle(fd), m.modes[fd], size, offset, buffer, call.limit);
      }
  }

  /** Every request is ordinary in the tree it finds. */
  ghost predicate AllOrdinary(m: Machine, calls: seq<Call>)
    requires forall i :: 0 <= i < |calls| ==> Forwarded(calls[i].req)
  {
    forall i :: 0 <= i < |calls| && calls[i].req.Mutate? ==>
      Ordinary(Runs(m, calls[..i]).store, calls[i].req.ip, calls[i].req.op)
  }

  /** Over any run of ordinary requests no lock is ever left behind and the server never waits for itself. */
  lemma {:induction false} LocksBalanceOverRuns(m: Machine, calls: seq<Call>)
    requires m.held == {} && !m.stuck && OneNamePerDirectory(m.store)
    requires forall i :: 0 <= i < |calls| ==> Forwarded(calls[i].req)
    requires AllOrdinary(m, calls)
    ensures Runs(m, calls).held == {} && !Runs(m, calls).stuck && OneNamePerDirectory(Runs(m, calls).store)
  {
    hide OneNamePerDirectory, Ordinary, Perform;
    if calls != [] {
      var k := |calls| - 1;
      assert forall i :: 0 <= i < k ==> calls[..k][..i] == calls[..i];
      LocksBalanceOverRuns(m, calls[..k]);
      OrdinaryCall(Runs(m, calls[..k]), calls[k]);
    }
  }
}
