/**
 One server process: its tree, its open files and its directory locks, with
 the handlers as they run, step by step. A handler that mutates first forwards
 its request to the peer, whatever comes of it, and then executes it here.
 */
module Servers {
  import opened Base
  import opened Paths
  import opened Identity
  import opened Kernel
  import opened Handlers
  import opened Locks

  /** The server_info of a request. */
  datatype ServerInfo = ServerInfo(isMaster: bool, isDegraded: bool)

  predicate Forwards(id: ServerInfo) {
    id.isMaster && !id.isDegraded
  }

  function RoleOf(id: ServerInfo): Role {
    if !id.isMaster && !id.isDegraded then Copy else Original
  }

  /** The server_info of a client's requests. */
  function GetIdentity(isDegraded: bool): ServerInfo {
    ServerInfo(true, isDegraded)
  }

  datatype Host = Primary | Secondary

  /**
   CONNECT_SERVER: the primary if it answers, else the secondary in degraded
   mode, else the client gives up. Whatever the client then sends is executed
   as an original, and forwarded exactly when it goes to the primary.
   */
  method ConnectServer(primaryAnswers: bool, secondaryAnswers: bool) returns (clnt: Option<Host>, isDegraded: bool)
    ensures clnt == Some(Primary) <==> primaryAnswers
    ensures clnt == None <==> !primaryAnswers && !secondaryAnswers
    ensures RoleOf(GetIdentity(isDegraded)) == Original
    ensures clnt.Some? ==> (Forwards(GetIdentity(isDegraded)) <==> clnt == Some(Primary))
  {
    clnt := if primaryAnswers then Some(Primary) else None;
    isDegraded := false;
    if clnt == None {
      clnt := if secondaryAnswers then Some(Secondary) else None;
      if clnt == None {
        return;
      }
      isDegraded := true;
    }
  }

  /** What the network does to one forward: how often the peer executes it, and how much its write takes. */
  datatype Link = Link(connected: bool, executions: nat, limit: nat)

  /** The peer after n executions of a copy. */
  function Repeated(m: Machine, req: Request, n: nat, limit: nat): Machine
    requires Forwarded(req)
  {
    if n == 0 then m else Perform(Repeated(m, req, n - 1, limit), req, Copy, limit).0
  }

  ghost predicate FitsOp(op: PathOp) {
    match op
    case Rename(path, newpath) => Fits(path) && Fits(newpath)
    case HardLink(path, newpath) => Fits(path) && Fits(newpath)
    case MakeSymlink(_, link) => Fits(link)
    case _ => Fits(op.path)
  }

  /** All paths of the request fit the server's buffers, and a write carries at most one buffer. */
  ghost predicate FitsRequest(req: Request) {
    Forwarded(req) &&
    (match req
     case Mutate(_, op) => FitsOp(op)
     case Write(_, _, path, size, _, buffer) => Fits(path) && size <= MAX_SIZE == |buffer|)
  }

  /** Taking a lock adds its inode to the locked ones. */
  lemma LockValues<K, V>(locks: map<K, V>, fd: K, i: V)
    requires fd !in locks
    ensures locks[fd := i].Values == locks.Values + {i}
  {
    var more := locks[fd := i];
    assert more[fd] == i;
    forall j | j in locks.Values
      ensures j in more.Values
    {
      var k :| k in locks && locks[k] == j;
      assert more[k] == j;
    }
  }

  class Server {
    const peer: Server?
    var store: FileStore
    var modes: map<int, Mode>
    var locks: map<int, nat>  // descriptors opened for locking, and the inode each holds
    var nextLock: int
    var stuck: bool

    constructor (store: FileStore, peer: Server?)
      ensures this.store == store && this.peer == peer && Valid()
      ensures View() == Machine(store, map[], {}, false)
    {
      this.store, this.modes, this.locks, this.nextLock, this.stuck := store, map[], map[], 0, false;
      this.peer := peer;
    }

    /** Descriptors for locks are numbered upwards, and no inode is locked twice. */
    ghost predicate Valid()
      reads this
    {
      && (forall fd :: fd in locks ==> fd < nextLock)
      && (forall fd, fd' :: fd in locks && fd' in locks && locks[fd] == locks[fd'] ==> fd == fd')
    }

    ghost function View(): Machine
      reads this
    {
      Machine(store, modes, locks.Values, stuck)
    }

    // ------------------------------------------------------- forwarding

    /** TRANSMIT_TO_SECONDATY: the copy has is_master cleared; no outcome is looked at. */
    method Transmit(id: ServerInfo, req: Request, net: Link)
      requires FitsRequest(req) && Forwards(id)
      requires peer != null && peer != this && peer.Valid()
      modifies peer
      decreases 1, 0
      ensures peer.Valid()
      ensures peer.View() == Repeated(old(peer.View()), req, if net.connected then net.executions else 0, net.limit)
    {
      if net.connected {
        var copyId := id.(isMaster := false);
        for k := 0 to net.executions
          invariant peer.Valid()
          invariant peer.View() == Repeated(old(peer.View()), req, k, net.limit)
        {
          if !peer.stuck {
            var ignored := peer.Handle(copyId, req, net, net.limit);
          }
        }
      }
    }

    /** One request: forward it if this is the undegraded primary, then run its handler. */
    method Handle(id: ServerInfo, req: Request, net: Link, limit: nat) returns (o: Outcome)
      requires FitsRequest(req) && Valid() && !stuck
      requires Forwards(id) && peer != null ==> peer != this && peer.Valid()
      modifies this, if Forwards(id) && peer != null then {peer} else {}
      decreases if Forwards(id) then 1 else 0, 1
      ensures Valid()
      ensures (View(), o) == Perform(old(View()), req, RoleOf(id), limit)
      ensures Forwards(id) && peer != null ==>
        (&& peer.Valid()
         && peer.View() == Repeated(old(peer.View()), req, if net.connected then net.executions else 0, net.limit))
    {
      if Forwards(id) && peer != null {
        Transmit(id, req, net);
      }
      match req
      case Write(_, fd, path, size, offset, buffer) => o := Write(id, fd, path, size, offset, buffer, limit, req);
      case Mutate(ip, op) =>
        match op
        case Mkdir(path, mode) => o := Mkdir(ip, path, mode);
        case Rmdir(path) => o := Rmdir(ip, path);
        case Rename(path, newpath) => o := Rename(ip, path, newpath);
        case MakeSymlink(target, link) => o := MakeSymlink(ip, target, link);
        case HardLink(path, newpath) => o := HardLink(ip, path, newpath);
        case Mknod(path, mode) => o := Mknod(ip, path, mode);
        case Truncate(path, newsize) => o := Truncate(ip, path, newsize);
        case Unlink(path) => o := Unlink(ip, path);
        case Utime(path) => o := Utime(ip, path);
        case Chmod(path, mode) => o := Chmod(ip, path, mode);
        case Chown(path, uid, gid) => o := Chown(ip, path, uid, gid);
    }

    // ------------------------------------------------------------ locks

    /** dlock: -1 if the directory cannot be opened; waits if this process already holds its lock. */
    method Dlock(path: string) returns (fd: int, waits: bool)
      requires Valid() && !stuck
      modifies `locks, `nextLock, `stuck
      ensures Valid()
      ensures waits == stuck ==
              (OpenDir(store, path).Some? && Inum(store, OpenDir(store, path).value) in old(locks).Values)
      ensures fd < 0 <==> OpenDir(store, path).None?
      ensures fd < 0 || waits ==> locks == old(locks)
      ensures fd >= 0 && !waits ==>
                fd !in old(locks) && locks == old(locks)[fd := Inum(store, OpenDir(store, path).value)]
    {
      var dir := OpenDir(store, path);
      waits := false;
      if dir.None? {
        return -1, false;
      }
      fd := if nextLock < 0 then 0 else nextLock;
      nextLock := fd + 1;
      var i := Inum(store, dir.value);
      if i in locks.Values {
        waits, stuck := true, true;
      } else {
        locks := locks[fd := i];
      }
    }

    method Dunlock(fd: int)
      requires Valid()
      modifies `locks
      ensures Valid() && locks == old(locks) - {fd}
    {
      locks := locks - {fd};
    }

    // ------------------------------------------ the shared beginning

    /** GET_PARENT_PATH, CHECK_PARENT_DIRECTORY_VALID and LOCK_DIRECTORY in a row. */
    method EnterParent(fpath: string, ip: string, opName: string) returns (fd: int, early: Option<Outcome>)
      requires NulFree(fpath) && '/' in fpath && |fpath| < MAX_PATH_LEN && Valid() && !stuck
      modifies `locks, `nextLock, `stuck
      ensures Valid()
      ensures early.Some? ==> forall r :: OneLock(old(View()), fpath, ip, opName, r) == (View(), early.value)
      ensures early.None? ==>
                && !stuck && fd !in old(locks) && locks - {fd} == old(locks)
                && forall r :: OneLock(old(View()), fpath, ip, opName, r) ==
                               (old(View()).(store := r.0), Answered(Status(r.1)))
    {
      fd := -1;
      var parent := ParentOf(fpath);
      if !IsParentDirValid(store, parent, fpath, ip, opName) {
        return fd, Some(Answered(Status(-EACCES)));
      }
      var waits;
      fd, waits := Dlock(parent);
      if waits {
        return fd, Some(Waiting);
      }
      if fd < 0 {
        return fd, Some(Answered(Status(-1)));
      }
      early := None;
    }

    // --------------------------------------- handlers with one directory lock

    method Mkdir(ip: string, path: string, mode: int) returns (o: Outcome)
      requires Fits(path) && Valid() && !stuck
      modifies this
      ensures Valid()
      ensures var m, f := old(View()), Translate(path);
              (View(), o) == OneLock(m, f, ip, "mkdir", Created(SysMkdir(m.store, f, mode), m.store, f, ip))
    {
      hide OneLock, Locate, SetOwner;
      var fpath := FullPath(path);
      assert View() == old(View());
      var fd, early := EnterParent(fpath, ip, "mkdir");
      if early.Some? {
        return early.value;
      }
      var ret := MakeAndUnlock(fpath, mode, ip, fd);
      o := Answered(Status(ret));
    }

    /** mkdir itself, the release of its lock, and then the change of owner. */
    method MakeAndUnlock(fpath: string, mode: int, ip: string, fd: int) returns (ret: int)
      requires Valid()
      modifies `store, `locks
      ensures Valid() && locks == old(locks) - {fd}
      ensures (store, ret) == Created(SysMkdir(old(store), fpath, mode), old(store), fpath, ip)
    {
      ret := -1;
      var made := SysMkdir(store, fpath, mode);
      if made.Ok? {
        store, ret := made.value, 0;
      }
      Dunlock(fd);
      if ret >= 0 {
        ret := ChangeOwner(fpath, ip);
      }
    }

    /** set_owner. */
    method ChangeOwner(fpath: string, ip: string) returns (ret: int)
      modifies `store
      ensures (store, ret) == SetOwner(old(store), fpath, ip)
    {
      var id := UserId(ip);
      var r := SysChown(store, fpath, id, id);
      if r.Err? {
        return -1;
      }
      store := r.value;
      ret := 0;
    }

    method Rmdir(ip: string, path: string) returns (o: Outcome)
      requires Fits(path) && Valid() && !stuck
      modifies this
      ensures Valid()
      ensures var m, f := old(View()), Translate(path);
              (View(), o) == OneLock(m, f, ip, "rmdir", ToReturn(SysRmdir(m.store, f), m.store, -1))
    {
      hide OneLock, Locate, SetOwner;
      var fpath := FullPath(path);
      assert View() == old(View());
      var fd, early := EnterParent(fpath, ip, "rmdir");
      if early.Some? {
        return early.value;
      }
      var ret := -1;
      var removed := SysRmdir(store, fpath);
      if removed.Ok? {
        store, ret := removed.value, 0;
      }
      Dunlock(fd);
      assert locks == old(locks);
      o := Answered(Status(ret));
    }

    method Unlink(ip: string, path: string) returns (o: Outcome)
      requires Fits(path) && Valid() && !stuck
      modifies this
      ensures Valid()
      ensures var m, f := old(View()), Translate(path);
              (View(), o) == OneLock(m, f, ip, "unlink", ToReturn(SysUnlink(m.store, f), m.store, -1))
    {
      hide OneLock, Locate, SetOwner;
      var fpath := FullPath(path);
      assert View() == old(View());
      var fd, early := EnterParent(fpath, ip, "unlink");
      if early.Some? {
        return early.value;
      }
      var ret := -1;
      var removed := SysUnlink(store, fpath);
      if removed.Ok? {
        store, ret := removed.value, 0;
      }
      Dunlock(fd);
      assert locks == old(locks);
      o := Answered(Status(ret));
    }

    /** The three branches for regular files, fifos and devices fail alike: unlock, then answer -1. */
    method Mknod(ip: string, path: string, mode: int) returns (o: Outcome)
      requires Fits(path) && Valid() && !stuck
      modifies this
      ensures Valid()
      ensures var m, f := old(View()), Translate(path);
              (View(), o) == OneLock(m, f, ip, "mknod", Created(SysMknod(m.store, f, mode), m.store, f, ip))
    {
      hide OneLock, Locate, SetOwner;
      var fpath := FullPath(path);
      assert View() == old(View());
      var fd, early := EnterParent(fpath, ip, "mknod");
      if early.Some? {
        return early.value;
      }
      var made := SysMknod(store, fpath, mode);
      if made.Err? {
        Dunlock(fd);
        assert locks == old(locks);
        return Answered(Status(-1));
      }
      store := made.value;
      var ret := ChangeOwner(fpath, ip);
      Dunlock(fd);
      assert locks == old(locks);
      o := Answered(Status(ret));
    }

    // ---------------------------------------------------------- rename

    /** Two directory locks unless the parents are the same string; a failing second lock returns at once. */
    method Rename(ip: string, path: string, newpath: string) returns (o: Outcome)
      requires Fits(path) && Fits(newpath) && Valid() && !stuck
      modifies this
      ensures Valid()
      ensures (View(), o) == RenameLocks(old(View()), Translate(path), Translate(newpath), ip)
    {
      var fpath := FullPath(path);
      var fnewpath := FullPath(newpath);
      var parent := ParentOf(fpath);
      var newParent := ParentOf(fnewpath);
      if !IsParentDirValid(store, parent, fpath, ip, "rename")
         || !IsParentDirValid(store, newParent, fnewpath, ip, "rename")
      {
        return Answered(Status(-EACCES));
      }
      o := RenameChecked(fpath, fnewpath, parent, newParent);
    }

    method RenameChecked(fpath: string, fnewpath: string, parent: string, newParent: string) returns (o: Outcome)
      requires '/' in fpath && '/' in fnewpath && Valid() && !stuck
      requires parent == ParentPath(fpath) && newParent == ParentPath(fnewpath)
      modifies this
      ensures Valid()
      ensures (View(), o) ==
              Locked(old(View()), LockPair(old(store), parent, newParent), MoveEntry(old(store), fpath, fnewpath))
    {
      var fd, newFd, early := LockBoth(parent, newParent);
      if early.Some? {
        return early.value;
      }
      var ret := MoveAndUnlock(fpath, fnewpath, if parent != newParent then {fd, newFd} else {fd});
      assert locks == old(locks);
      o := Answered(Status(ret));
    }

    /** The rename itself, and the release of the locks taken for it. */
    method MoveAndUnlock(fpath: string, fnewpath: string, taken: set<int>) returns (ret: int)
      requires Valid()
      modifies `store, `locks
      ensures Valid() && locks == old(locks) - taken
      ensures (store, ret) == ToReturn(SysRename(old(store), fpath, fnewpath), old(store), -1)
    {
      ret := -1;
      var moved := SysRename(store, fpath, fnewpath);
      if moved.Ok? {
        store, ret := moved.value, 0;
      }
      locks := locks - taken;
    }

    /** The locking part of rename, on two parents that passed the check. */
    method LockBoth(parent: string, newParent: string) returns (fd: int, newFd: int, early: Option<Outcome>)
      requires Valid() && !stuck
      modifies `locks, `nextLock, `stuck
      ensures Valid()
      ensures
        match LockPair(store, parent, newParent)
        case Unlocked => early == Some(Answered(Status(-1))) && locks == old(locks) && !stuck
        case One(d) =>
          var i := Inum(store, d);
          if i in old(locks).Values then early == Some(Waiting) && locks == old(locks) && stuck
          else early == None && fd !in old(locks) && locks == old(locks)[fd := i] && !stuck
        case Stuck(d) =>
          var i := Inum(store, d);
          if i in old(locks).Values then early == Some(Waiting) && locks == old(locks) && stuck
          else early == Some(Answered(Status(-1))) && locks.Values == old(locks).Values + {i} && !stuck
        case Two(d, e) =>
          var i, j := Inum(store, d), Inum(store, e);
          if i in old(locks).Values then early == Some(Waiting) && locks == old(locks) && stuck
          else if j in old(locks).Values + {i} then
            early == Some(Waiting) && locks.Values == old(locks).Values + {i} && stuck
          else
            && early == None && !stuck
            && fd !in old(locks) && newFd !in old(locks)[fd := i] && locks == old(locks)[fd := i][newFd := j]
    {
      newFd, early := -1, None;
      var waits;
      fd, waits := Dlock(parent);
      if waits {
        return fd, newFd, Some(Waiting);
      }
      if fd < 0 {
        return fd, newFd, Some(Answered(Status(-1)));
      }
      LockValues(old(locks), fd, Inum(store, OpenDir(store, parent).value));
      if parent != newParent {
        newFd, waits := Dlock(newParent);
        if waits {
          return fd, newFd, Some(Waiting);
        }
        if newFd < 0 {
          return fd, newFd, Some(Answered(Status(-1)));
        }
      }
    }

    // ------------------------------------------------ handlers without locks

    method MakeSymlink(ip: string, target: string, link: string) returns (o: Outcome)
      requires Fits(link) && Valid() && !stuck
      modifies `store
      ensures Valid()
      ensures (View(), o) == Locked(old(View()), Unlocked, ApplySymlink(old(store), ip, target, Translate(link)))
    {
      var flink := FullPath(link);
      var parent := ParentOf(flink);
      if !IsParentDirValid(store, parent, flink, ip, "symlink") {
        return Answered(Status(-EACCES));
      }
      var ret := -1;
      var made := SysSymlink(store, target, flink);
      if made.Ok? {
        store := made.value;
        ret := ChangeLinkOwner(flink, ip);
      }
      o := Answered(Status(ret));
    }

    /** set_softlink_owner. */
    method ChangeLinkOwner(flink: string, ip: string) returns (ret: int)
      modifies `store
      ensures (store, ret) == SetSoftlinkOwner(old(store), flink, ip)
    {
      var id := UserId(ip);
      var r := SysLchown(store, flink, id, id);
      if r.Err? {
        return -1;
      }
      store := r.value;
      ret := 0;
    }

    method HardLink(ip: string, path: string, newpath: string) returns (o: Outcome)
      requires Fits(path) && Fits(newpath) && Valid() && !stuck
      modifies `store
      ensures Valid()
      ensures (View(), o) ==
              Locked(old(View()), Unlocked, ApplyLink(old(store), ip, Translate(path), Translate(newpath)))
    {
      hide Locate, LstatPath, OpenDir, IsParentDirValid, SetOwner;
      var fpath := FullPath(path);
      var fnewpath := FullPath(newpath);
      var parent := ParentOf(fpath);
      if !IsParentDirValid(store, parent, fpath, ip, "link") {
        return Answered(Status(-EACCES));
      }
      var newParent := ParentOf(fnewpath);
      if !IsParentDirValid(store, newParent, fnewpath, ip, "link") {
        return Answered(Status(-EACCES));
      }
      var ret := -1;
      var linked := SysLink(store, fpath, fnewpath);
      if linked.Ok? {
        store := linked.value;
        ret := ChangeOwner(fnewpath, ip);
      }
      o := Answered(Status(ret));
    }

    method Truncate(ip: string, path: string, newsize: int) returns (o: Outcome)
      requires Fits(path) && Valid() && !stuck
      modifies `store
      ensures Valid() && (View(), o) == Mutation(old(View()), ip, PathOp.Truncate(path, newsize))
    {
      var fpath := FullPath(path);
      var r := SysTruncate(store, fpath, newsize);
      if r.Err? {
        return Answered(Status(-r.errno));
      }
      store := r.value;
      o := Answered(Status(0));
    }

    method Utime(ip: string, path: string) returns (o: Outcome)
      requires Fits(path) && Valid() && !stuck
      modifies `store
      ensures Valid() && (View(), o) == Mutation(old(View()), ip, PathOp.Utime(path))
    {
      var fpath := FullPath(path);
      if !IsOwner(store, fpath, ip) {
        return Answered(Status(-EACCES));
      }
      var r := SysUtime(store, fpath);
      o := Answered(Status(if r.Ok? then 0 else -1));
    }

    method Chmod(ip: string, path: string, mode: int) returns (o: Outcome)
      requires Fits(path) && Valid() && !stuck
      modifies `store
      ensures Valid() && (View(), o) == Mutation(old(View()), ip, PathOp.Chmod(path, mode))
    {
      var fpath := FullPath(path);
      if !IsOwner(store, fpath, ip) {
        return Answered(Status(-EACCES));
      }
      var r := SysChmod(store, fpath, mode);
      if r.Ok? {
        store := r.value;
      }
      o := Answered(Status(if r.Ok? then 0 else -1));
    }

    method Chown(ip: string, path: string, uid: nat, gid: nat) returns (o: Outcome)
      requires Fits(path) && Valid() && !stuck
      modifies `store
      ensures Valid() && (View(), o) == Mutation(old(View()), ip, PathOp.Chown(path, uid, gid))
    {
      var fpath := FullPath(path);
      var r := SysChown(store, fpath, uid, gid);
      if r.Err? {
        return Answered(Status(-r.errno));
      }
      store := r.value;
      o := Answered(Status(0));
    }

    // ------------------------------------------------------------- write

    /** The primary writes through its descriptor; a copy opens the path for this one write. */
    method Write(id: ServerInfo, fd: int, path: string, size: nat, offset: nat, buffer: seq<byte>, limit: nat,
                 ghost req: Request)
      returns (o: Outcome)
      requires Fits(path) && Valid() && !stuck
      requires req.Write? && req == Request.Write(req.ip, fd, path, size, offset, buffer)
      modifies `store
      ensures Valid() && (View(), o) == Perform(old(View()), req, RoleOf(id), limit)
    {
      if !id.isMaster && !id.isDegraded {
        var fpath := FullPath(path);
        var found := Follow(store, fpath);
        if found.Err? || IsDir(store, found.value) {
          return Answered(Status(-EBADF));
        }
        var r := WriteRef(store, Name(found.value), ModeOf(COPY_FLAGS), size, offset, buffer, limit);
        store := r.0;
        o := Answered(r.1);
      } else {
        if fd !in modes || Ref.Handle(fd) !in store.refs {
          return Answered(Status(-EBADF));
        }
        var r := WriteRef(store, Ref.Handle(fd), modes[fd], size, offset, buffer, limit);
        store := r.0;
        o := Answered(r.1);
      }
    }
  }
}
