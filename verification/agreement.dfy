/**
 When two servers hold the same file tree: the same names (and, if handles
 count, the same descriptors), equal inodes behind them, and the same hard
 links. Inode numbers and unreachable inodes may differ. Every request keeps
 two agreeing servers in agreement and gets the same reply from both.
 */
module Agreement {
  import opened Base
  import opened Paths
  import opened Identity
  import opened Kernel
  import opened Handlers

  predicate Counts(h: bool, x: Ref) {
    h || x.Name?
  }

  ghost predicate Agree(a: FileStore, b: FileStore, h: bool) {
    && (forall x :: Counts(h, x) ==> (x in a.refs <==> x in b.refs))
    && (forall x :: Counts(h, x) && x in a.refs && x in b.refs ==> a.inodes[a.refs[x]] == b.inodes[b.refs[x]])
    && (forall x, y :: Counts(h, x) && Counts(h, y) && x in a.refs && y in a.refs && x in b.refs && y in b.refs ==>
          (a.refs[x] == a.refs[y] <==> b.refs[x] == b.refs[y]))
  }

  lemma AgreeSymmetric(a: FileStore, b: FileStore, h: bool)
    requires Agree(a, b, h)
    ensures Agree(b, a, h)
  {
  }

  lemma AgreeTransitive(a: FileStore, b: FileStore, c: FileStore, h: bool)
    requires Agree(a, b, h) && Agree(b, c, h)
    ensures Agree(a, c, h)
  {
  }

  lemma AgreeOnNames(a: FileStore, b: FileStore)
    requires Agree(a, b, true)
    ensures Agree(a, b, false)
  {
  }

  ghost predicate ResultsAgree(ra: Result<FileStore>, rb: Result<FileStore>, h: bool) {
    match (ra, rb)
    case (Ok(a), Ok(b)) => Agree(a, b, h)
    case (Err(d), Err(e)) => d == e
    case _ => false
  }

  // -------------------------------------------------- path resolution

  lemma {:induction false} WalkAgree(a: FileStore, b: FileStore, h: bool, dir: Path, comps: Path, links: nat)
    requires Agree(a, b, h)
    ensures Walk(a, dir, comps, links) == Walk(b, dir, comps, links)
    decreases links, |comps|
  {
    if comps == [] {
    } else if comps[0] == "." {
      WalkAgree(a, b, h, dir, comps[1..], links);
    } else if comps[0] == ".." {
      WalkAgree(a, b, h, ParentDir(dir), comps[1..], links);
    } else {
      var p := dir + [comps[0]];
      assert Counts(h, Name(p));
      if Exists(a, p) {
        match Node(a, p).kind
        case Directory => WalkAgree(a, b, h, p, comps[1..], links);
        case Symlink =>
          if links > 0 {
            var target := Node(a, p).target;
            var base := if target != "" && target[0] == '/' then [] else dir;
            WalkAgree(a, b, h, base, Split(target) + comps[1..], links - 1);
          }
        case _ =>
      }
    }
  }

  lemma NodesAgree(a: FileStore, b: FileStore, h: bool)
    requires Agree(a, b, h)
    ensures forall p :: Exists(a, p) <==> Exists(b, p)
    ensures forall p :: Exists(a, p) && Exists(b, p) ==> Node(a, p) == Node(b, p)
    ensures forall p :: Empty(a, p) == Empty(b, p)
  {
    forall p
      ensures Exists(a, p) <==> Exists(b, p)
      ensures Exists(a, p) ==> Node(a, p) == Node(b, p)
    {
      assert Counts(h, Name(p));
    }
    forall p
      ensures Empty(a, p) == Empty(b, p)
    {
      assert forall x: Ref | x.Name? :: Counts(h, x);
    }
  }

  lemma ResolveAgree(a: FileStore, b: FileStore, h: bool, s: string)
    requires Agree(a, b, h)
    ensures Follow(a, s) == Follow(b, s)
    ensures Locate(a, s) == Locate(b, s)
    ensures LstatPath(a, s) == LstatPath(b, s)
    ensures OpenDir(a, s) == OpenDir(b, s)
  {
    NodesAgree(a, b, h);
    var comps := Split(s);
    WalkAgree(a, b, h, [], comps, MAX_LINKS);
    if comps != [] {
      WalkAgree(a, b, h, [], comps[..|comps| - 1], MAX_LINKS);
    }
  }

  // ------------------------------------------------------------ edits

  lemma AddNodeAgree(a: FileStore, b: FileStore, h: bool, x: Ref, n: Inode)
    requires Agree(a, b, h)
    ensures Agree(AddNode(a, x, n), AddNode(b, x, n), h)
  {
  }

  lemma AddRefAgree(a: FileStore, b: FileStore, h: bool, x: Ref, y: Ref)
    requires Agree(a, b, h) && Counts(h, x) && Counts(h, y) && y in a.refs && y in b.refs
    ensures Agree(AddRef(a, x, y), AddRef(b, x, y), h)
  {
  }

  lemma DropRefAgree(a: FileStore, b: FileStore, h: bool, x: Ref)
    requires Agree(a, b, h)
    ensures Agree(DropRef(a, x), DropRef(b, x), h)
  {
  }

  lemma SetNodeAgree(a: FileStore, b: FileStore, h: bool, x: Ref, n: Inode)
    requires Agree(a, b, h) && Counts(h, x) && x in a.refs && x in b.refs
    ensures Agree(SetNode(a, x, n), SetNode(b, x, n), h)
  {
  }

  lemma MoveNamesAgree(a: FileStore, b: FileStore, h: bool, p: Path, q: Path)
    requires Agree(a, b, h) && !(p <= q) && !(q <= p)
    ensures Agree(MoveNames(a, p, q), MoveNames(b, p, q), h)
  {
    hide MoveNames;
    var a', b' := MoveNames(a, p, q), MoveNames(b, p, q);
    forall x | Counts(h, x)
      ensures x in a'.refs <==> x in b'.refs
      ensures x in a'.refs && x in b'.refs ==> a'.inodes[a'.refs[x]] == b'.inodes[b'.refs[x]]
    {
      var m := MovedFrom(p, q, x);
      assert m.Some? ==> Counts(h, m.value);
    }
    forall x, y | Counts(h, x) && Counts(h, y) && x in a'.refs && y in a'.refs && x in b'.refs && y in b'.refs
      ensures a'.refs[x] == a'.refs[y] <==> b'.refs[x] == b'.refs[y]
    {
      var mx, my := MovedFrom(p, q, x).value, MovedFrom(p, q, y).value;
      assert Counts(h, mx) && Counts(h, my);
    }
  }

  // ------------------------------------------------------ system calls

  lemma CreateAgree(a: FileStore, b: FileStore, h: bool, s: string, n: Inode)
    requires Agree(a, b, h)
    ensures ResultsAgree(Create(a, s, n), Create(b, s, n), h)
  {
    hide Locate, LstatPath, Follow, OpenDir, AddNode;
    ResolveAgree(a, b, h, s);
    NodesAgree(a, b, h);
    if Create(a, s, n).Ok? {
      AddNodeAgree(a, b, h, Name(Locate(a, s).value), n);
    }
  }

  lemma RemoveAgree(a: FileStore, b: FileStore, h: bool, s: string)
    requires Agree(a, b, h)
    ensures ResultsAgree(SysRmdir(a, s), SysRmdir(b, s), h)
    ensures ResultsAgree(SysUnlink(a, s), SysUnlink(b, s), h)
  {
    hide Locate, LstatPath, Follow, OpenDir, DropRef;
    ResolveAgree(a, b, h, s);
    NodesAgree(a, b, h);
    if Locate(a, s).Ok? {
      DropRefAgree(a, b, h, Name(Locate(a, s).value));
    }
  }

  lemma LinkAgree(a: FileStore, b: FileStore, h: bool, s: string, s': string)
    requires Agree(a, b, h)
    ensures ResultsAgree(SysLink(a, s, s'), SysLink(b, s, s'), h)
  {
    hide Locate, LstatPath, Follow, OpenDir, AddRef;
    ResolveAgree(a, b, h, s);
    ResolveAgree(a, b, h, s');
    NodesAgree(a, b, h);
    if SysLink(a, s, s').Ok? {
      var p, p' := LstatPath(a, s).value, Locate(a, s').value;
      assert Exists(b, p);
      AddRefAgree(a, b, h, Name(p'), Name(p));
    }
  }

  lemma RenameAgree(a: FileStore, b: FileStore, h: bool, s: string, s': string)
    requires Agree(a, b, h)
    ensures ResultsAgree(SysRename(a, s, s'), SysRename(b, s, s'), h)
  {
    hide Locate, LstatPath, Follow, OpenDir, MoveNames;
    ResolveAgree(a, b, h, s);
    ResolveAgree(a, b, h, s');
    NodesAgree(a, b, h);
    if Locate(a, s).Ok? && Locate(a, s').Ok? {
      var p, q := Locate(a, s).value, Locate(a, s').value;
      assert Counts(h, Name(p)) && Counts(h, Name(q));
      assert Exists(a, p) <==> Exists(b, p);
      assert Exists(a, q) <==> Exists(b, q);
      if Exists(a, p) && !(p <= q) && !(q <= p) {
        MoveNamesAgree(a, b, h, p, q);
      }
    }
  }

  /** Calls that change the inode behind a path. */
  lemma AttributesAgree(a: FileStore, b: FileStore, h: bool, s: string, mode: int, size: int)
    requires Agree(a, b, h)
    ensures ResultsAgree(SysChmod(a, s, mode), SysChmod(b, s, mode), h)
    ensures ResultsAgree(SysTruncate(a, s, size), SysTruncate(b, s, size), h)
    ensures ResultsAgree(SysUtime(a, s), SysUtime(b, s), h)
  {
    hide Locate, LstatPath, Follow, OpenDir, SetNode;
    ResolveAgree(a, b, h, s);
    NodesAgree(a, b, h);
    forall p, n | Exists(a, p) && Exists(b, p)
      ensures Agree(SetNode(a, Name(p), n), SetNode(b, Name(p), n), h)
    {
      SetNodeAgree(a, b, h, Name(p), n);
    }
  }

  lemma OwnersAgree(a: FileStore, b: FileStore, h: bool, s: string, uid: nat, gid: nat)
    requires Agree(a, b, h)
    ensures ResultsAgree(SysChown(a, s, uid, gid), SysChown(b, s, uid, gid), h)
    ensures ResultsAgree(SysLchown(a, s, uid, gid), SysLchown(b, s, uid, gid), h)
  {
    hide Locate, LstatPath, Follow, OpenDir, SetNode;
    ResolveAgree(a, b, h, s);
    NodesAgree(a, b, h);
    forall p, n | Exists(a, p) && Exists(b, p)
      ensures Agree(SetNode(a, Name(p), n), SetNode(b, Name(p), n), h)
    {
      SetNodeAgree(a, b, h, Name(p), n);
    }
  }

  // ---------------------------------------------------------- handlers

  lemma ChecksAgree(a: FileStore, b: FileStore, h: bool, f: string, ip: string, opName: string)
    requires Agree(a, b, h) && '/' in f
    ensures Denied(a, f, ip, opName) == Denied(b, f, ip, opName)
    ensures NoLock(a, f) == NoLock(b, f)
    ensures IsOwner(a, f, ip) == IsOwner(b, f, ip)
    ensures forall r, w, x :: IsOpValid(a, f, ip, r, w, x) == IsOpValid(b, f, ip, r, w, x)
  {
    hide Locate, LstatPath, Follow, OpenDir, Agree;
    ResolveAgree(a, b, h, f);
    ResolveAgree(a, b, h, ParentPath(f));
    NodesAgree(a, b, h);
  }

  ghost predicate PairsAgree(ra: (FileStore, int), rb: (FileStore, int), h: bool) {
    ra.1 == rb.1 && Agree(ra.0, rb.0, h)
  }

  lemma CreatedAgree(ra: Result<FileStore>, rb: Result<FileStore>, a: FileStore, b: FileStore, h: bool,
                     f: string, ip: string)
    requires Agree(a, b, h) && ResultsAgree(ra, rb, h) && KeepsHandles(a, ra) && KeepsHandles(b, rb)
    ensures PairsAgree(Created(ra, a, f, ip), Created(rb, b, f, ip), h)
  {
    if ra.Ok? {
      OwnersAgree(ra.value, rb.value, h, f, UserId(ip), UserId(ip));
    }
  }

  /** Creations: the ones that end with a change of owner. */
  lemma ApplyCreationAgree(a: FileStore, b: FileStore, h: bool, ip: string, op: PathOp)
    requires Agree(a, b, h)
    requires op.Mkdir? || op.Mknod? || op.MakeSymlink? || op.HardLink?
    ensures PairsAgree(Apply(a, ip, op), Apply(b, ip, op), h)
  {
    hide Locate, LstatPath, Follow, OpenDir, Agree, IsParentDirValid, SysLink, Create;
    match op
    case Mkdir(path, mode) =>
      var f := Translate(path);
      ChecksAgree(a, b, h, f, ip, "mkdir");
      CreateAgree(a, b, h, f, Inode(Directory, mode % 4096, 0, 0, [], ""));
      CreatedAgree(SysMkdir(a, f, mode), SysMkdir(b, f, mode), a, b, h, f, ip);
    case Mknod(path, mode) =>
      var f := Translate(path);
      ChecksAgree(a, b, h, f, ip, "mknod");
      if KindOfMode(mode).Ok? {
        CreateAgree(a, b, h, f, Inode(KindOfMode(mode).value, mode % 4096, 0, 0, [], ""));
      }
      CreatedAgree(SysMknod(a, f, mode), SysMknod(b, f, mode), a, b, h, f, ip);
    case MakeSymlink(target, link) =>
      var f := Translate(link);
      ChecksAgree(a, b, h, f, ip, "symlink");
      CreateAgree(a, b, h, f, Inode(Symlink, 511, 0, 0, [], target));
      var ra, rb := SysSymlink(a, target, f), SysSymlink(b, target, f);
      if ra.Ok? {
        OwnersAgree(ra.value, rb.value, h, f, UserId(ip), UserId(ip));
      }
    case HardLink(path, newpath) =>
      var f, g := Translate(path), Translate(newpath);
      ChecksAgree(a, b, h, f, ip, "link");
      ChecksAgree(a, b, h, g, ip, "link");
      LinkAgree(a, b, h, f, g);
      CreatedAgree(SysLink(a, f, g), SysLink(b, f, g), a, b, h, g, ip);
  }

  /** One path mutation on two agreeing trees: same decision, same reply, agreeing trees. */
  lemma ApplyAgree(a: FileStore, b: FileStore, h: bool, ip: string, op: PathOp)
    requires Agree(a, b, h)
    ensures PairsAgree(Apply(a, ip, op), Apply(b, ip, op), h)
  {
    hide Locate, LstatPath, Follow, OpenDir, Agree, IsParentDirValid;
    hide SysRename, SysTruncate, SysChmod, SysChown, SysRmdir, SysUnlink;
    match op
    case Mkdir(_, _) => ApplyCreationAgree(a, b, h, ip, op);
    case Mknod(_, _) => ApplyCreationAgree(a, b, h, ip, op);
    case MakeSymlink(_, _) => ApplyCreationAgree(a, b, h, ip, op);
    case HardLink(_, _) => ApplyCreationAgree(a, b, h, ip, op);
    case Rmdir(path) =>
      ChecksAgree(a, b, h, Translate(path), ip, "rmdir");
      RemoveAgree(a, b, h, Translate(path));
    case Unlink(path) =>
      ChecksAgree(a, b, h, Translate(path), ip, "unlink");
      RemoveAgree(a, b, h, Translate(path));
    case Rename(path, newpath) =>
      ChecksAgree(a, b, h, Translate(path), ip, "rename");
      ChecksAgree(a, b, h, Translate(newpath), ip, "rename");
      RenameAgree(a, b, h, Translate(path), Translate(newpath));
    case Truncate(path, newsize) => AttributesAgree(a, b, h, Translate(path), 0, newsize);
    case Utime(path) =>
      ChecksAgree(a, b, h, Translate(path), ip, "utime");
      AttributesAgree(a, b, h, Translate(path), 0, 0);
    case Chmod(path, mode) =>
      ChecksAgree(a, b, h, Translate(path), ip, "chmod");
      AttributesAgree(a, b, h, Translate(path), mode, 0);
    case Chown(path, uid, gid) => OwnersAgree(a, b, h, Translate(path), uid, gid);
  }

  // ------------------------------------------------- whole servers

  /** Two servers no client can tell apart: same tree, same descriptors. */
  ghost predicate SameServer(a: SingleServer, b: SingleServer) {
    Agree(a.store, b.store, true) && a.modes == b.modes && a.nextFd == b.nextFd
  }

  ghost predicate ServedAlike(a: SingleServer, b: SingleServer, req: Request, role: Role, limit: nat) {
    && Serve(a, req, role, limit).1 == Serve(b, req, role, limit).1
    && SameServer(Serve(a, req, role, limit).0, Serve(b, req, role, limit).0)
  }

  lemma WriteRefAgree(a: FileStore, b: FileStore, h: bool, x: Ref, mode: Mode,
                      size: nat, offset: nat, buffer: seq<byte>, limit: nat)
    requires Agree(a, b, h) && Counts(h, x) && x in a.refs && x in b.refs
    ensures WriteRef(a, x, mode, size, offset, buffer, limit).1 == WriteRef(b, x, mode, size, offset, buffer, limit).1
    ensures Agree(WriteRef(a, x, mode, size, offset, buffer, limit).0,
                  WriteRef(b, x, mode, size, offset, buffer, limit).0, h)
  {
    var n := a.inodes[a.refs[x]];
    var d := Chunk(size, buffer, limit);
    SetNodeAgree(a, b, h, x, n.(data := if mode.append then Append(n.data, d) else PWrite(n.data, d, offset)));
  }

  lemma ServeWriteSame(a: SingleServer, b: SingleServer, req: Request, limit: nat)
    requires SameServer(a, b) && req.Write?
    ensures ServedAlike(a, b, req, Original, limit)
  {
    if req.fd in a.modes {
      WriteRefAgree(a.store, b.store, true, Handle(req.fd), a.modes[req.fd], req.size, req.offset, req.buffer, limit);
    }
  }

  lemma NewHandleSame(a: SingleServer, b: SingleServer, p: Path, mode: Mode)
    requires SameServer(a, b) && Exists(a.store, p) && Exists(b.store, p)
    ensures SameServer(NewHandle(a, p, mode), NewHandle(b, p, mode))
  {
    AddRefAgree(a.store, b.store, true, Handle(a.nextFd), Name(p));
  }

  lemma EmptiedAgree(a: FileStore, b: FileStore, h: bool, p: Path, flags: int)
    requires Agree(a, b, h) && Exists(a, p) && Exists(b, p)
    ensures Agree(Emptied(a, p, flags), Emptied(b, p, flags), h)
  {
    hide Agree, SetNode;
    NodesAgree(a, b, h);
    SetNodeAgree(a, b, h, Name(p), Node(a, p).(data := []));
  }

  lemma OpenFileSame(a: SingleServer, b: SingleServer, ip: string, f: string, flags: int)
    requires SameServer(a, b) && '/' in f
    ensures OpenFile(a, ip, f, flags).1 == OpenFile(b, ip, f, flags).1
    ensures SameServer(OpenFile(a, ip, f, flags).0, OpenFile(b, ip, f, flags).0)
  {
    hide Agree, IsOpValid, Follow, NewHandle, Emptied;
    ChecksAgree(a.store, b.store, true, f, ip, "open");
    ResolveAgree(a.store, b.store, true, f);
    NodesAgree(a.store, b.store, true);
    if Follow(a.store, f).Ok? {
      var p := Follow(a.store, f).value;
      EmptiedAgree(a.store, b.store, true, p, flags);
      NewHandleSame(a.(store := Emptied(a.store, p, flags)), b.(store := Emptied(b.store, p, flags)), p, ModeOf(flags));
    }
  }

  /** Two servers with one tree are wiped by the same opens. */
  lemma WipesAlike(a: SingleServer, b: SingleServer, req: Request)
    requires Agree(a.store, b.store, false) && req.Open?
    ensures Wipes(a, req) <==> Wipes(b, req)
  {
    hide Agree, IsOpValid, Follow;
    var f := Translate(req.path);
    ChecksAgree(a.store, b.store, false, f, req.ip, "open");
    ResolveAgree(a.store, b.store, false, f);
    NodesAgree(a.store, b.store, false);
  }

  lemma ServeQuerySame(a: SingleServer, b: SingleServer, req: Request, limit: nat)
    requires SameServer(a, b) && (req.Read? || req.Getattr?)
    ensures ServedAlike(a, b, req, Original, limit)
  {
    match req
    case Read(fd, size, offset) => assert Counts(true, Handle(fd));
    case Getattr(path) =>
      ResolveAgree(a.store, b.store, true, Translate(path));
      NodesAgree(a.store, b.store, true);
  }

  /** Every request, whatever its kind, gets the same reply and keeps the servers the same. */
  lemma ServeSame(a: SingleServer, b: SingleServer, req: Request, limit: nat)
    requires SameServer(a, b)
    ensures ServedAlike(a, b, req, Original, limit)
  {
    hide Agree, Apply, WriteOriginal, OpenFile;
    match req
    case Mutate(ip, op) => ApplyAgree(a.store, b.store, true, ip, op);
    case Write(_, _, _, _, _, _) => ServeWriteSame(a, b, req, limit);
    case Open(ip, path, flags) => OpenFileSame(a, b, ip, Translate(path), flags);
    case Release(fd) => DropRefAgree(a.store, b.store, true, Handle(fd));
    case Read(_, _, _) => ServeQuerySame(a, b, req, limit);
    case Getattr(_) => ServeQuerySame(a, b, req, limit);
  }
}
