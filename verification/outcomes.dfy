/**
 What the other handlers do: when they answer 0, what is different afterwards,
 and what the reply says. Replies are given as numbers, as a client sees them.
 */
module Outcomes {
  import opened Base
  import opened Paths
  import opened Identity
  import opened Kernel
  import opened Handlers
  import opened Permissions
  import opened CleanPaths
  import opened Renames
  import opened RootDirectory
  import opened Creations

  // ------------------------------------------------------- removals

  /** rmdir and unlink take one name away, or nothing. */
  lemma RemovalOutcome(t: FileStore, ip: string, op: PathOp)
    requires op.Rmdir? || op.Unlink?
    ensures var f := Translate(op.path); var (u, ret) := Apply(t, ip, op);
            var name := if op.Rmdir? then "rmdir" else "unlink";
            && (ret == 0 <==>
                  && !Denied(t, f, ip, name) && !NoLock(t, f)
                  && Locate(t, f).Ok? && Exists(t, Locate(t, f).value) && Removable(t, op, Locate(t, f).value))
            && (ret == 0 ==> !Exists(u, Locate(t, f).value) && SameButFor(t, u, Locate(t, f).value))
            && (ret != 0 ==> u == t && ret == if Denied(t, f, ip, name) then -13 else -1)
  {
    hide Denied, NoLock, Locate, Empty;
  }

  lemma TopLstat(t: FileStore, n: string)
    requires CleanName(n) && IsDir(t, ["DFS"])
    ensures Translate("/" + n) == "/DFS/" + n && ParentPath("/DFS/" + n) == "/DFS"
    ensures var r := LstatPath(t, "/DFS/" + n); if Exists(t, Top(n)) then r == Ok(Top(n)) else r == Err(2)
  {
    TopPath(n);
    TopLocated(t, n);
    hide Split, Walk;
    assert Top(n)[|Top(n)| - 1] == n;
  }

  /**
   A new directory in /DFS: everybody may make one, it belongs to who made it,
   its owner can take it away again and leaves the tree as it was, and nobody
   else can.
   */
  lemma MkdirThenRmdir(t: FileStore, ip: string, ip': string, n: string, mode: int)
    requires CleanName(n) && IsDir(t, ["DFS"]) && forall x: Ref :: x in t.refs && x.Name? ==> !(Top(n) <= x.path)
    requires UserId(ip) != 0xFFFF_FFFF
    ensures var (u, made) := Apply(t, ip, Mkdir("/" + n, mode));
            && made == 0 && Exists(u, Top(n))
            && Node(u, Top(n)) == Inode(Directory, mode % 4096, UserId(ip), UserId(ip), [], "")
            && var (v, taken) := Apply(u, ip', Rmdir("/" + n));
               && (UserId(ip') == UserId(ip) ==>
                     && taken == 0 && v.refs == t.refs
                     && forall x :: x in t.refs ==> v.inodes[v.refs[x]] == t.inodes[t.refs[x]])
               && (UserId(ip') != UserId(ip) ==> taken == -13 && v == u)
  {
    hide Apply, Locate, LstatPath, Denied, NoLock, Follow, Walk, Translate;
    TopLstat(t, n);
    TopIsLocated(t, n);
    DeniedInRootIff(t, "/DFS/" + n, ip, "mkdir");
    assert Name(Top(n)) !in t.refs;
    MkdirOutcome(t, ip, "/" + n, mode);
    var u := Apply(t, ip, Mkdir("/" + n, mode)).0;
    assert IsDir(u, ["DFS"]) by { assert Name(["DFS"]) in t.refs; }
    TopLstat(u, n);
    TopIsLocated(u, n);
    DeniedInRootIff(u, "/DFS/" + n, ip', "rmdir");
    RemovalOutcome(u, ip', Rmdir("/" + n));
    assert Removable(u, Rmdir("/" + n), Top(n));
    var v := Apply(u, ip', Rmdir("/" + n)).0;
    if UserId(ip') == UserId(ip) {
      assert v.refs == t.refs by {
        assert forall x :: x in v.refs <==> x in t.refs;
      }
    }
  }

  // -------------------------------------------------------- renames

  /** The names at and below a stand at and below b; nothing else is touched. */
  ghost predicate Moved(t: FileStore, u: FileStore, a: Path, b: Path) {
    && (forall q :: Exists(u, b + q) <==> Exists(t, a + q))
    && (forall q :: Exists(t, a + q) && Exists(u, b + q) ==> u.refs[Name(b + q)] == t.refs[Name(a + q)])
    && (forall q :: !Exists(u, a + q))
    && (forall x: Ref :: x.Handle? || (!(a <= x.path) && !(b <= x.path)) ==>
          (x in u.refs <==> x in t.refs) && (x in t.refs && x in u.refs ==> u.refs[x] == t.refs[x]))
    && u.inodes == t.inodes
  }

  lemma MoveNamesMoves(t: FileStore, a: Path, b: Path)
    requires !(a <= b) && !(b <= a)
    ensures Moved(t, MoveNames(t, a, b), a, b)
  {
    hide MoveNames;
    var u := MoveNames(t, a, b);
    forall q
      ensures Exists(u, b + q) <==> Exists(t, a + q)
      ensures Exists(t, a + q) && Exists(u, b + q) ==> u.refs[Name(b + q)] == t.refs[Name(a + q)]
      ensures !Exists(u, a + q)
    {
      assert (b + q)[|b|..] == q;
      assert MovedFrom(a, b, Name(b + q)) == Some(Name(a + q));
      assert a <= a + q;
      assert !(b <= a + q) by { if b <= a + q { Comparable(a, b, a + q); } }
      assert MovedFrom(a, b, Name(a + q)) == None;
    }
  }

  lemma Comparable(a: Path, b: Path, p: Path)
    requires a <= p && b <= p
    ensures a <= b || b <= a
  {
  }

  /** The two paths name the same object already: rename answers 0 and does nothing. */
  predicate SameObject(t: FileStore, f: string, g: string) {
    var a, b := Locate(t, f), Locate(t, g);
    a.Ok? && b.Ok? && Exists(t, a.value) && Exists(t, b.value) && t.refs[Name(a.value)] == t.refs[Name(b.value)]
  }

  lemma RenameOutcome(t: FileStore, ip: string, path: string, newpath: string)
    ensures var f, g := Translate(path), Translate(newpath); var (u, ret) := Apply(t, ip, Rename(path, newpath));
            var denied := Denied(t, f, ip, "rename") || Denied(t, g, ip, "rename");
            && (ret == 0 <==>
                  || MovesAnEntry(t, ip, f, g)
                  || (!denied && !NoLock(t, f) && !NoLock(t, g) && SameObject(t, f, g)))
            && (MovesAnEntry(t, ip, f, g) ==> Moved(t, u, Locate(t, f).value, Locate(t, g).value))
            && (!MovesAnEntry(t, ip, f, g) ==> u == t)
            && (ret != 0 ==> ret == if denied then -13 else -1)
  {
    hide Denied, NoLock, Locate, Empty, MoveNames, Moved;
    var f, g := Translate(path), Translate(newpath);
    if MovesAnEntry(t, ip, f, g) {
      MoveNamesMoves(t, Locate(t, f).value, Locate(t, g).value);
    }
  }

  // ------------------------------------------- changes of one inode

  /** The inode behind p, under all its names, is n; everything else is as before. */
  ghost predicate Changed(t: FileStore, u: FileStore, p: Path, n: Inode)
    requires Exists(t, p)
  {
    && u.refs == t.refs
    && (forall x :: x in u.refs ==>
          u.inodes[u.refs[x]] == if t.refs[x] == t.refs[Name(p)] then n else t.inodes[t.refs[x]])
  }

  /** The file cut to size, or filled up with zeros. */
  ghost predicate Cut(data: seq<byte>, size: nat, cut: seq<byte>) {
    |cut| == size && forall i :: 0 <= i < size ==> cut[i] == if i < |data| then data[i] else 0
  }

  /** truncate asks nobody's permission and answers with the kernel's error. */
  lemma TruncateOutcome(t: FileStore, ip: string, path: string, size: int)
    ensures var r := Follow(t, Translate(path)); var (u, ret) := Apply(t, ip, Truncate(path, size));
            && (ret == 0 <==> size >= 0 && r.Ok? && IsKind(t, r.value, Regular))
            && (ret == 0 ==>
                  var n := Node(t, r.value);
                  exists cut :: Cut(n.data, size, cut) && Changed(t, u, r.value, n.(data := cut)))
            && (ret != 0 ==>
                  && u == t
                  && ret == if size < 0 then -22 else if r.Err? then -r.errno
                            else if IsDir(t, r.value) then -21 else -22)
  {
    hide Follow;
    var r := Follow(t, Translate(path));
    if size >= 0 && r.Ok? && IsKind(t, r.value, Regular) {
      var n := Node(t, r.value);
      assert Cut(n.data, size, Resize(n.data, size));
      assert Changed(t, Apply(t, ip, Truncate(path, size)).0, r.value, n.(data := Resize(n.data, size)));
    }
  }

  /** chmod serves the owner of what lstat finds, and sets the mode of what the path leads to. */
  lemma ChmodOutcome(t: FileStore, ip: string, path: string, mode: int)
    ensures var f := Translate(path); var l, r := LstatPath(t, f), Follow(t, f);
            var mine := l.Ok? && Node(t, l.value).uid == UserId(ip);
            var (u, ret) := Apply(t, ip, Chmod(path, mode));
            && (ret == 0 <==> mine && r.Ok?)
            && (ret == 0 ==> Changed(t, u, r.value, Node(t, r.value).(perm := mode % 4096)))
            && (ret != 0 ==> u == t && ret == if mine then -1 else -13)
  {
    hide Follow, LstatPath;
  }

  /** utime serves the owner too; of what it changes, nothing but the two times, nothing is modelled. */
  lemma UtimeOutcome(t: FileStore, ip: string, path: string)
    ensures var f := Translate(path); var l, r := LstatPath(t, f), Follow(t, f);
            var mine := l.Ok? && Node(t, l.value).uid == UserId(ip);
            var (u, ret) := Apply(t, ip, Utime(path));
            u == t && ret == if !mine then -13 else if r.Ok? then 0 else -1
  {
    hide Follow, LstatPath;
  }

  /** chown serves everybody; the greatest number stands for no change. */
  lemma ChownOutcome(t: FileStore, ip: string, path: string, uid: nat, gid: nat)
    ensures var r := Follow(t, Translate(path)); var (u, ret) := Apply(t, ip, Chown(path, uid, gid));
            && (ret == 0 <==> r.Ok?)
            && (ret == 0 ==>
                  var n := Node(t, r.value);
                  Changed(t, u, r.value, n.(uid := if uid == 0xFFFF_FFFF then n.uid else uid,
                                            gid := if gid == 0xFFFF_FFFF then n.gid else gid)))
            && (ret != 0 ==> u == t && r.Err? && ret == -r.errno)
  {
    hide Follow;
  }

  // --------------------------------------------------------- writes

  /** How much of a request the kernel takes, at most limit bytes. */
  function Taken(size: nat, buffer: seq<byte>, limit: nat): nat {
    Min(Min(size, |buffer|), limit)
  }

  /** The first n bytes of the buffer stand at the offset; elsewhere is what was there, and a gap reads as zeros. */
  ghost predicate WrittenAt(before: seq<byte>, data: seq<byte>, buffer: seq<byte>, n: nat, offset: nat) {
    && n <= |buffer|
    && |data| == (if n == 0 || offset + n <= |before| then |before| else offset + n)
    && forall i :: 0 <= i < |data| ==>
         data[i] == if offset <= i < offset + n then buffer[i - offset] else if i < |before| then before[i] else 0
  }

  lemma PWriteIs(data: seq<byte>, buffer: seq<byte>, n: nat, offset: nat)
    requires n <= |buffer|
    ensures WrittenAt(data, PWrite(data, buffer[..n], offset), buffer, n, offset)
  {
  }

  lemma AppendIs(data: seq<byte>, buffer: seq<byte>, n: nat)
    requires n <= |buffer|
    ensures WrittenAt(data, Append(data, buffer[..n]), buffer, n, |data|)
  {
  }

  /** What a handle is open on. */
  function OpenOn(s: SingleServer, fd: int): Inode
    requires fd in s.modes
  {
    s.store.inodes[s.store.refs[Handle(fd)]]
  }

  /** The inode that x refers to, under all its names and handles, holds data; everything else is as before. */
  ghost predicate Holds(t: FileStore, u: FileStore, x: Ref, data: seq<byte>)
    requires x in t.refs
  {
    && u.refs == t.refs
    && (forall y :: y in u.refs ==>
          u.inodes[u.refs[y]] ==
            if t.refs[y] == t.refs[x] then t.inodes[t.refs[x]].(data := data) else t.inodes[t.refs[y]])
  }

  /** A client's write goes through its descriptor: at the offset, or at the end if it was opened for appending. */
  lemma WriteOutcome(s: SingleServer, req: Request, limit: nat)
    requires req.Write?
    ensures var (s', reply) := Serve(s, req, Original, limit); var n := Taken(req.size, req.buffer, limit);
            && s'.modes == s.modes && s'.nextFd == s.nextFd
            && (req.fd !in s.modes || !s.modes[req.fd].writable ==> s'.store == s.store && reply == Status(-9))
            && (req.fd in s.modes && s.modes[req.fd].writable ==>
                  if OpenOn(s, req.fd).kind != Regular then s'.store == s.store && reply == Status(-29)
                  else
                    var before := OpenOn(s, req.fd).data;
                    && reply == Written(n)
                    && exists data ::
                         && WrittenAt(before, data, req.buffer, n,
                                      if s.modes[req.fd].append then |before| else req.offset)
                         && Holds(s.store, s'.store, Handle(req.fd), data))
  {
    if req.fd in s.modes && s.modes[req.fd].writable && OpenOn(s, req.fd).kind == Regular {
      var n, before := Taken(req.size, req.buffer, limit), OpenOn(s, req.fd).data;
      PWriteIs(before, req.buffer, n, req.offset);
      AppendIs(before, req.buffer, n);
      hide PWrite, Append, WrittenAt;
      var data := if s.modes[req.fd].append then Append(before, req.buffer[..n])
                  else PWrite(before, req.buffer[..n], req.offset);
      assert Holds(s.store, Serve(s, req, Original, limit).0.store, Handle(req.fd), data);
    }
  }

  /** A forwarded write goes to the file its path leads to, and there to the end. */
  lemma CopyOutcome(s: SingleServer, req: Request, limit: nat)
    requires req.Write?
    ensures var (s', reply) := Serve(s, req, Copy, limit); var n := Taken(req.size, req.buffer, limit);
            var r := Follow(s.store, Translate(req.path));
            && s'.modes == s.modes && s'.nextFd == s.nextFd
            && (r.Err? || IsDir(s.store, r.value) ==> s'.store == s.store && reply == Status(-9))
            && (r.Ok? && !IsDir(s.store, r.value) ==>
                  if !IsKind(s.store, r.value, Regular) then s'.store == s.store && reply == Status(-29)
                  else
                    var before := Node(s.store, r.value).data;
                    && reply == Written(n)
                    && exists data ::
                         && WrittenAt(before, data, req.buffer, n, |before|)
                         && Holds(s.store, s'.store, Name(r.value), data))
  {
    CopyFlagsAppend();
    hide Follow;
    var r := Follow(s.store, Translate(req.path));
    if r.Ok? && IsKind(s.store, r.value, Regular) {
      var n, before := Taken(req.size, req.buffer, limit), Node(s.store, r.value).data;
      AppendIs(before, req.buffer, n);
      hide Append, WrittenAt;
      assert Holds(s.store, Serve(s, req, Copy, limit).0.store, Name(r.value), Append(before, req.buffer[..n]));
    }
  }

  // ---------------------------------------------- descriptors and queries

  /** A read returns the bytes from the offset on, as many as are asked for, there, and given. */
  lemma ReadOutcome(s: SingleServer, fd: int, size: nat, offset: nat, limit: nat)
    ensures var (s', reply) := Serve(s, Read(fd, size, offset), Original, limit);
            && s' == s
            && (fd !in s.modes || !s.modes[fd].readable ==> reply == Status(-9))
            && (fd in s.modes && s.modes[fd].readable ==>
                  if OpenOn(s, fd).kind == Directory then reply == Status(-21)
                  else
                    var data := OpenOn(s, fd).data;
                    var n := if offset >= |data| then 0 else Min(Min(size, limit), |data| - offset);
                    && reply.Contents? && |reply.bytes| == n
                    && forall i :: 0 <= i < n ==> reply.bytes[i] == data[offset + i])
  {
  }

  /** O_RDONLY is 0, O_WRONLY 1, O_RDWR 2, O_APPEND 1024, O_TRUNC 512. */
  ghost predicate FlagsMean(flags: int, r: bool, w: bool, append: bool, truncate: bool) {
    && (r <==> flags % 4 == 0 || flags % 4 == 2)
    && (w <==> flags % 4 == 1 || flags % 4 == 2)
    && (append <==> (flags / 1024) % 2 == 1)
    && (truncate <==> (flags / 512) % 2 == 1)
  }

  /** An open needs the rights it asks for; the new descriptor leads to the file, and only O_TRUNC changes that. */
  lemma OpenOutcome(s: SingleServer, ip: string, path: string, flags: int, limit: nat,
                    r: bool, w: bool, append: bool, truncate: bool)
    requires FlagsMean(flags, r, w, append, truncate)
    ensures var f := Translate(path); var to := Follow(s.store, f);
            var (s', reply) := Serve(s, Open(ip, path, flags), Original, limit);
            var allowed := IsOpValid(s.store, f, ip, r, w, false) == 1;
            && (reply.Opened? <==> allowed && to.Ok? && !(IsDir(s.store, to.value) && (w || truncate)))
            && (!reply.Opened? ==>
                  && s' == s
                  && reply == Status(if !allowed then -13 else if to.Err? then -to.errno else -21))
            && (reply.Opened? ==>
                  && reply.fd == s.nextFd && s'.nextFd == s.nextFd + 1
                  && s'.modes == s.modes[reply.fd := Mode(r, w, append)]
                  && s'.store.refs == s.store.refs[Handle(reply.fd) := s.store.refs[Name(to.value)]]
                  && (forall x :: x in s.store.refs ==>
                        s'.store.inodes[s'.store.refs[x]] ==
                          var n := s.store.inodes[s.store.refs[x]];
                          if truncate && n.kind == Regular && s.store.refs[x] == s.store.refs[Name(to.value)]
                          then n.(data := []) else n))
  {
    hide Follow, IsOpValid;
  }

  lemma ReleaseOutcome(s: SingleServer, fd: int, limit: nat)
    ensures var (s', reply) := Serve(s, Release(fd), Original, limit);
            && s'.nextFd == s.nextFd && s'.store.inodes == s.store.inodes
            && reply == Status(if fd in s.modes then 0 else -9)
            && fd !in s'.modes && (forall k :: k != fd ==> (k in s'.modes <==> k in s.modes))
            && (forall x :: x != Handle(fd) ==> (x in s'.store.refs <==> x in s.store.refs))
            && (forall x :: x != Handle(fd) && x in s.store.refs && x in s'.store.refs ==>
                  s'.store.refs[x] == s.store.refs[x])
  {
  }

  /** getattr looks at the entry itself, not through a link, and says of it what there is to say. */
  lemma GetattrOutcome(s: SingleServer, path: string, limit: nat)
    ensures var l := LstatPath(s.store, Translate(path)); var (s', reply) := Serve(s, Getattr(path), Original, limit);
            && s' == s
            && (l.Err? ==> reply == Status(-l.errno))
            && (l.Ok? ==>
                  && reply.Attributes? && reply.kind == Node(s.store, l.value).kind
                  && reply.perm == Node(s.store, l.value).perm && reply.uid == Node(s.store, l.value).uid
                  && reply.gid == Node(s.store, l.value).gid && reply.size == |Node(s.store, l.value).data|)
  {
  }
}
