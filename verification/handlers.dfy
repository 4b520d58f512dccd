/**
 What one server does with one request, leaving out locks and forwarding: the
 permission checks of the handlers, the system calls they make and the reply.
 The Server class in server.dfy runs the handlers step by step and is proved
 to compute these functions.
 */
module Handlers {
  import opened Base
  import opened Paths
  import opened Identity
  import opened Kernel

  // ------------------------------------------------------- permissions

  predicate Bit(perm: nat, mask: nat)
    requires mask > 0
  {
    (perm / mask) % 2 == 1
  }

  /** The owner's bit for the owner, everyone else's bit for the others; the group is not looked at. */
  predicate MayRead(n: Inode, id: nat) {
    Bit(n.perm, if n.uid == id then 256 else 4)
  }

  predicate MayWrite(n: Inode, id: nat) {
    Bit(n.perm, if n.uid == id then 128 else 2)
  }

  predicate MayExecute(n: Inode, id: nat) {
    Bit(n.perm, if n.uid == id then 64 else 1)
  }

  /** is_op_valid: -1 when lstat fails, else whether every requested bit is set. */
  function IsOpValid(t: FileStore, fpath: string, ip: string, r: bool, w: bool, x: bool): int {
    match LstatPath(t, fpath)
    case Err(_) => -1
    case Ok(p) =>
      var n, id := Node(t, p), UserId(ip);
      if (r ==> MayRead(n, id)) && (w ==> MayWrite(n, id)) && (x ==> MayExecute(n, id)) then 1 else 0
  }

  predicate IsOwner(t: FileStore, fpath: string, ip: string) {
    var r := LstatPath(t, fpath);
    r.Ok? && Node(t, r.value).uid == UserId(ip)
  }

  /** -1 when lstat fails: the caller tests it as a truth value, so a missing entry passes. */
  function IsRootdirOpValidToDelete(t: FileStore, fpath: string, ip: string): int {
    match LstatPath(t, fpath)
    case Err(_) => -1
    case Ok(p) => if Node(t, p).uid == UserId(ip) then 1 else 0
  }

  predicate IsParentDirValid(t: FileStore, parent: string, fpath: string, ip: string, opName: string) {
    if parent == PREFIX then
      (opName == "rmdir" || opName == "unlink") ==> IsRootdirOpValidToDelete(t, fpath, ip) != 0
    else
      IsOpValid(t, parent, ip, true, true, true) == 1
  }

  /** opendir succeeds: the directory a path leads to, links followed. */
  function OpenDir(t: FileStore, path: string): Option<Path> {
    match Follow(t, path)
    case Err(_) => None
    case Ok(p) => if IsDir(t, p) then Some(p) else None
  }

  // ------------------------------------------------- path mutations

  /** The forwarded operations that name their target by path. */
  datatype PathOp =
    | Mkdir(path: string, mode: int)
    | Rmdir(path: string)
    | Rename(path: string, newpath: string)
    | MakeSymlink(target: string, link: string)
    | HardLink(path: string, newpath: string)
    | Mknod(path: string, mode: int)
    | Truncate(path: string, newsize: int)
    | Unlink(path: string)
    | Utime(path: string)
    | Chmod(path: string, mode: int)
    | Chown(path: string, uid: nat, gid: nat)

  function ToReturn(r: Result<FileStore>, t: FileStore, onError: int): (c: (FileStore, int))
    requires KeepsHandles(t, r)
    ensures KeepsHandles(t, Ok(c.0))
    ensures KeepsRefs(t, r) ==> KeepsRefs(t, Ok(c.0))
  {
    match r
    case Ok(t') => (t', 0)
    case Err(_) => (t, onError)
  }

  /** The wrappers that answer -errno instead of -1. */
  function ToErrno(r: Result<FileStore>, t: FileStore): (c: (FileStore, int))
    requires KeepsHandles(t, r)
    ensures KeepsHandles(t, Ok(c.0))
    ensures KeepsRefs(t, r) ==> KeepsRefs(t, Ok(c.0))
  {
    match r
    case Ok(t') => (t', 0)
    case Err(e) => (t, -e)
  }

  function SetOwner(t: FileStore, f: string, ip: string): (r: (FileStore, int))
    ensures KeepsHandles(t, Ok(r.0)) && KeepsRefs(t, Ok(r.0))
  {
    ToReturn(SysChown(t, f, UserId(ip), UserId(ip)), t, -1)
  }

  function SetSoftlinkOwner(t: FileStore, f: string, ip: string): (r: (FileStore, int))
    ensures KeepsHandles(t, Ok(r.0)) && KeepsRefs(t, Ok(r.0))
  {
    ToReturn(SysLchown(t, f, UserId(ip), UserId(ip)), t, -1)
  }

  /** A creation followed, if it succeeded, by the change of owner. */
  function Created(r: Result<FileStore>, t: FileStore, f: string, ip: string): (c: (FileStore, int))
    requires KeepsHandles(t, r)
    ensures KeepsHandles(t, Ok(c.0))
    ensures KeepsRefs(t, r) ==> KeepsRefs(t, Ok(c.0))
  {
    match r
    case Ok(t') => SetOwner(t', f, ip)
    case Err(_) => (t, -1)
  }

  /** The parent directory cannot be opened for locking. */
  predicate NoLock(t: FileStore, f: string)
    requires '/' in f
  {
    OpenDir(t, ParentPath(f)).None?
  }

  predicate Denied(t: FileStore, f: string, ip: string, opName: string)
    requires '/' in f
  {
    !IsParentDirValid(t, ParentPath(f), f, ip, opName)
  }

  /** What a handler answers that checks the parent, locks it, and then gets r. */
  function InParent(t: FileStore, f: string, ip: string, opName: string, r: (FileStore, int)): (c: (FileStore, int))
    requires '/' in f
    ensures KeepsHandles(t, Ok(r.0)) ==> KeepsHandles(t, Ok(c.0))
    ensures KeepsRefs(t, Ok(r.0)) ==> KeepsRefs(t, Ok(c.0))
  {
    if Denied(t, f, ip, opName) then (t, -EACCES)
    else if NoLock(t, f) then (t, -1)
    else r
  }

  function ApplyRename(t: FileStore, ip: string, f: string, g: string): (r: (FileStore, int))
    requires '/' in f && '/' in g
    ensures KeepsHandles(t, Ok(r.0))
  {
    if Denied(t, f, ip, "rename") || Denied(t, g, ip, "rename") then (t, -EACCES)
    else MoveEntry(t, f, g)
  }

  /** rename between two parents that passed the check. */
  function MoveEntry(t: FileStore, f: string, g: string): (r: (FileStore, int))
    requires '/' in f && '/' in g
    ensures KeepsHandles(t, Ok(r.0))
  {
    if NoLock(t, f) || NoLock(t, g) then (t, -1)
    else ToReturn(SysRename(t, f, g), t, -1)
  }

  function ApplySymlink(t: FileStore, ip: string, target: string, f: string): (r: (FileStore, int))
    requires '/' in f
    ensures KeepsHandles(t, Ok(r.0)) && KeepsRefs(t, Ok(r.0))
  {
    if Denied(t, f, ip, "symlink") then (t, -EACCES)
    else match SysSymlink(t, target, f)
      case Ok(t') => SetSoftlinkOwner(t', f, ip)
      case Err(_) => (t, -1)
  }

  function ApplyLink(t: FileStore, ip: string, f: string, g: string): (r: (FileStore, int))
    requires '/' in f && '/' in g
    ensures KeepsHandles(t, Ok(r.0)) && KeepsRefs(t, Ok(r.0))
  {
    if Denied(t, f, ip, "link") || Denied(t, g, ip, "link") then (t, -EACCES)
    else Created(SysLink(t, f, g), t, g, ip)
  }

  /** What a handler answers that serves the owner only, and then gets r. */
  function OwnerOnly(t: FileStore, f: string, ip: string, r: (FileStore, int)): (c: (FileStore, int))
    ensures KeepsHandles(t, Ok(r.0)) ==> KeepsHandles(t, Ok(c.0))
    ensures KeepsRefs(t, Ok(r.0)) ==> KeepsRefs(t, Ok(c.0))
  {
    if !IsOwner(t, f, ip) then (t, -EACCES) else r
  }

  /** The new store and the ret field of one path mutation. */
  function Apply(t: FileStore, ip: string, op: PathOp): (r: (FileStore, int))
    ensures KeepsHandles(t, Ok(r.0))
    ensures !op.Rename? && !op.Rmdir? && !op.Unlink? ==> KeepsRefs(t, Ok(r.0))
  {
    match op
    case Mkdir(path, mode) =>
      var f := Translate(path);
      InParent(t, f, ip, "mkdir", Created(SysMkdir(t, f, mode), t, f, ip))
    case Rmdir(path) =>
      var f := Translate(path);
      InParent(t, f, ip, "rmdir", ToReturn(SysRmdir(t, f), t, -1))
    case Unlink(path) =>
      var f := Translate(path);
      InParent(t, f, ip, "unlink", ToReturn(SysUnlink(t, f), t, -1))
    case Mknod(path, mode) =>
      var f := Translate(path);
      InParent(t, f, ip, "mknod", Created(SysMknod(t, f, mode), t, f, ip))
    case Rename(path, newpath) => ApplyRename(t, ip, Translate(path), Translate(newpath))
    case MakeSymlink(target, link) => ApplySymlink(t, ip, target, Translate(link))
    case HardLink(path, newpath) => ApplyLink(t, ip, Translate(path), Translate(newpath))
    case Truncate(path, newsize) => ToErrno(SysTruncate(t, Translate(path), newsize), t)
    case Utime(path) =>
      var f := Translate(path);
      OwnerOnly(t, f, ip, ToReturn(SysUtime(t, f), t, -1))
    case Chmod(path, mode) =>
      var f := Translate(path);
      OwnerOnly(t, f, ip, ToReturn(SysChmod(t, f, mode), t, -1))
    case Chown(path, uid, gid) => ToErrno(SysChown(t, Translate(path), uid, gid), t)
  }

  /** chown is refused to nobody: whoever asks, the file gets the owner named, the asker included. */
  lemma AnybodyTakesOwnership(t: FileStore, ip: string, path: string, uid: nat, gid: nat)
    requires Follow(t, Translate(path)).Ok?
    ensures var p := Follow(t, Translate(path)).value; var r := Apply(t, ip, Chown(path, uid, gid));
            && r.1 == 0 && Exists(r.0, p)
            && Node(r.0, p).uid == (if uid == KEEP_ID then Node(t, p).uid else uid)
    ensures forall ip' :: Apply(t, ip', Chown(path, uid, gid)) == Apply(t, ip, Chown(path, uid, gid))
  {
    var p := Follow(t, Translate(path)).value;
    assert SysChown(t, Translate(path), uid, gid) == Ok(SetNode(t, Name(p), Own(Node(t, p), uid, gid)));
  }

  // ------------------------------------- one server with its descriptors

  datatype Mode = Mode(readable: bool, writable: bool, append: bool)

  datatype Srv = Srv(store: FileStore, modes: map<int, Mode>, nextFd: int)

  ghost predicate ValidSrv(s: Srv) {
    && (forall fd :: Handle(fd) in s.store.refs <==> fd in s.modes)
    && (forall fd :: fd in s.modes ==> fd < s.nextFd)
  }

  type SingleServer = s: Srv | ValidSrv(s) witness Srv(Store(map[], map[], 0), map[], 0)

  datatype Request =
    | Mutate(ip: string, op: PathOp)
    | Write(ip: string, fd: int, path: string, size: nat, offset: nat, buffer: seq<byte>)
    | Open(ip: string, path: string, flags: int)
    | Release(fd: int)
    | Read(fd: int, size: nat, offset: nat)
    | Getattr(path: string)

  /** The inode number and timestamps of getattr are left out: they differ between servers. */
  datatype Reply =
    | Status(ret: int)
    | Opened(fd: int)
    | Contents(bytes: seq<byte>)
    | Written(len: nat)
    | Attributes(kind: Kind, perm: nat, uid: nat, gid: nat, size: nat)

  /** Original: is_master = 1. Copy: is_master = 0 and is_degraded = 0, a forwarded request. */
  datatype Role = Original | Copy

  /** The requests whose handlers begin by forwarding. */
  predicate Forwarded(req: Request) {
    req.Mutate? || req.Write?
  }

  function ModeOf(flags: int): Mode {
    var acc := flags % 4;
    Mode(acc == 0 || acc == 2, acc == 1 || acc == 2, (flags / 1024) % 2 == 1)
  }

  /** O_TRUNC. */
  predicate Truncates(flags: int) {
    (flags / 512) % 2 == 1
  }

  /** The flags a copied write opens its file with; on Linux O_WRONLY | O_APPEND | O_LARGEFILE. */
  const COPY_FLAGS: int := 33793

  lemma CopyFlagsAppend()
    ensures ModeOf(COPY_FLAGS) == Mode(false, true, true) && !Truncates(COPY_FLAGS)
  {
  }

  function Chunk(size: nat, buffer: seq<byte>, limit: nat): seq<byte> {
    buffer[..Min(Min(size, |buffer|), limit)]
  }

  /** pwrite through an open reference; limit is how many bytes the kernel takes this time. */
  function WriteRef(t: FileStore, x: Ref, mode: Mode, size: nat, offset: nat, buffer: seq<byte>, limit: nat)
    : (FileStore, Reply)
    requires x in t.refs
  {
    var n := t.inodes[t.refs[x]];
    if !mode.writable then (t, Status(-EBADF))
    else if n.kind != Regular then (t, Status(-ESPIPE))
    else
      var d := Chunk(size, buffer, limit);
      var data := if mode.append then Append(n.data, d) else PWrite(n.data, d, offset);
      (SetNode(t, x, n.(data := data)), Written(|d|))
  }

  /** The write handler on a forwarded copy opens the path itself. */
  function WriteCopy(t: FileStore, req: Request, limit: nat): (FileStore, Reply)
    requires req.Write?
  {
    match Follow(t, Translate(req.path))
    case Err(_) => (t, Status(-EBADF))
    case Ok(p) =>
      if IsDir(t, p) then (t, Status(-EBADF))
      else WriteRef(t, Name(p), ModeOf(COPY_FLAGS), req.size, req.offset, req.buffer, limit)
  }

  /** The descriptor table after a successful open. */
  function NewHandle(s: SingleServer, p: Path, mode: Mode): SingleServer
    requires Exists(s.store, p)
  {
    Srv(AddRef(s.store, Handle(s.nextFd), Name(p)), s.modes[s.nextFd := mode], s.nextFd + 1)
  }

  /** What open does to the file it opens. */
  function Emptied(t: FileStore, p: Path, flags: int): (t': FileStore)
    requires Exists(t, p)
    ensures forall x :: x in t'.refs <==> x in t.refs
  {
    if Truncates(flags) && IsKind(t, p, Regular) then SetNode(t, Name(p), Node(t, p).(data := [])) else t
  }

  /** The flags of the request go to open as they are; nothing of this is forwarded. */
  function OpenFile(s: SingleServer, ip: string, f: string, flags: int): (SingleServer, Reply) {
    var mode := ModeOf(flags);
    if IsOpValid(s.store, f, ip, mode.readable, mode.writable, false) != 1 then (s, Status(-EACCES))
    else match Follow(s.store, f)
      case Err(e) => (s, Status(-e))
      case Ok(p) =>
        if IsDir(s.store, p) && (mode.writable || Truncates(flags)) then (s, Status(-EISDIR))
        else (NewHandle(s.(store := Emptied(s.store, p, flags)), p, mode), Opened(s.nextFd))
  }

  /** An open that throws file contents away. */
  predicate Wipes(s: SingleServer, req: Request) {
    && req.Open? && Truncates(req.flags)
    && var f, mode := Translate(req.path), ModeOf(req.flags);
       && IsOpValid(s.store, f, req.ip, mode.readable, mode.writable, false) == 1
       && Follow(s.store, f).Ok? && IsKind(s.store, Follow(s.store, f).value, Regular)
       && Node(s.store, Follow(s.store, f).value).data != []
  }

  /** The write handler on a client's own request goes through the descriptor. */
  function WriteOriginal(t: FileStore, modes: map<int, Mode>, req: Request, limit: nat): (r: (FileStore, Reply))
    requires req.Write?
    ensures KeepsHandles(t, Ok(r.0))
  {
    if req.fd !in modes || Handle(req.fd) !in t.refs then (t, Status(-EBADF))
    else WriteRef(t, Handle(req.fd), modes[req.fd], req.size, req.offset, req.buffer, limit)
  }

  /** A request with what the kernel makes of it: how much one read or write takes. */
  datatype Call = Call(req: Request, role: Role, limit: nat)

  function Serve(s: SingleServer, req: Request, role: Role, limit: nat): (SingleServer, Reply) {
    match req
    case Mutate(ip, op) =>
      var r := Apply(s.store, ip, op);
      (s.(store := r.0), Status(r.1))
    case Write(_, _, _, _, _, _) =>
      var r := if role == Copy then WriteCopy(s.store, req, limit) else WriteOriginal(s.store, s.modes, req, limit);
      (s.(store := r.0), r.1)
    case Open(ip, path, flags) => OpenFile(s, ip, Translate(path), flags)
    case Release(fd) =>
      if fd !in s.modes then (s, Status(-EBADF))
      else (s.(store := DropRef(s.store, Handle(fd)), modes := s.modes - {fd}), Status(0))
    case Read(fd, size, offset) =>
      if fd !in s.modes || !s.modes[fd].readable then (s, Status(-EBADF))
      else
        var n := s.store.inodes[s.store.refs[Handle(fd)]];
        if n.kind == Directory then (s, Status(-EISDIR))
        else (s, Contents(PRead(n.data, Min(size, limit), offset)))
    case Getattr(path) => (
      match LstatPath(s.store, Translate(path))
      case Err(e) => (s, Status(-e))
      case Ok(p) =>
        var n := Node(s.store, p);
        (s, Attributes(n.kind, n.perm, n.uid, n.gid, |n.data|))
    )
  }
}
