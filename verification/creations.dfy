/**
 What mkdir, mknod, symlink and link leave behind: when they answer 0, which
 entry they make, whom it belongs to, and that nothing else changes.
 */
module Creations {
  import opened Base
  import opened Paths
  import opened Identity
  import opened Kernel
  import opened Handlers
  import opened Idempotence

  // --------------------------------------------- a path to its own entry

  /** One more name behind a path to a directory. */
  lemma {:induction false} WalkStep(t: FileStore, dir: Path, comps: Path, c: string, links: nat)
    requires var r := Walk(t, dir, comps, links); r.Ok? && IsDir(t, r.value)
    requires !Dots(c)
    requires var p := Walk(t, dir, comps, links).value + [c]; Exists(t, p) && Node(t, p).kind != Symlink
    ensures Walk(t, dir, comps + [c], links) == Ok(Walk(t, dir, comps, links).value + [c])
    decreases links, |comps|
  {
    if comps == [] {
      assert comps + [c] == [c] && [c][1..] == [];
      assert Walk(t, dir + [c], [], links) == Ok(dir + [c]);
    } else {
      assert (comps + [c])[0] == comps[0] && (comps + [c])[1..] == comps[1..] + [c];
      if comps[0] == "." {
        WalkStep(t, dir, comps[1..], c, links);
      } else if comps[0] == ".." {
        WalkStep(t, ParentDir(dir), comps[1..], c, links);
      } else {
        var p := dir + [comps[0]];
        match Node(t, p).kind
        case Directory => WalkStep(t, p, comps[1..], c, links);
        case Symlink =>
          var target := Node(t, p).target;
          var base := if target != "" && target[0] == '/' then [] else dir;
          assert Split(target) + (comps[1..] + [c]) == Split(target) + comps[1..] + [c];
          WalkStep(t, base, Split(target) + comps[1..], c, links - 1);
        case _ =>
      }
    }
  }

  /** A path leads to the entry it names, unless that is a link. */
  lemma FollowsToEntry(t: FileStore, f: string, p: Path)
    requires Locate(t, f) == Ok(p) && Exists(t, p) && Node(t, p).kind != Symlink
    ensures Follow(t, f) == Ok(p)
  {
    var comps := Split(f);
    var up, c := comps[..|comps| - 1], comps[|comps| - 1];
    assert up + [c] == comps;
    assert f != "" by { assert Split("") == []; }
    WalkStep(t, [], up, c, MAX_LINKS);
  }

  // ------------------------------------------------------------ creations

  /** Every reference but the one to p is as before, and so is what it refers to. */
  ghost predicate SameButFor(t: FileStore, u: FileStore, p: Path) {
    && (forall x :: x != Name(p) ==> (x in u.refs <==> x in t.refs))
    && (forall x :: x != Name(p) && x in t.refs && x in u.refs ==>
          u.refs[x] == t.refs[x] && u.inodes[u.refs[x]] == t.inodes[t.refs[x]])
  }

  /** The id a new entry belongs to: the caller's; the one number that chown does not take leaves it to root. */
  function Given(ip: string): nat {
    if UserId(ip) == 0xFFFF_FFFF then 0 else UserId(ip)
  }

  /** p is a new entry that shares its inode with nobody. */
  ghost predicate Made(t: FileStore, u: FileStore, p: Path, kind: Kind, perm: nat, id: nat, target: string) {
    && Exists(u, p) && Node(u, p) == Inode(kind, perm, id, id, [], target)
    && (forall x :: x in u.refs && x != Name(p) ==> u.refs[x] != u.refs[Name(p)])
    && SameButFor(t, u, p)
  }

  /** The path names a free place in a directory. */
  predicate Free(t: FileStore, f: string) {
    var r := Locate(t, f);
    r.Ok? && !Exists(t, r.value)
  }

  lemma NewAndOwned(t: FileStore, f: string, ip: string, n: Inode)
    requires Free(t, f) && n.uid == 0 && n.gid == 0
    ensures var p := Locate(t, f).value; var v := AddNode(t, Name(p), n);
            && Create(t, f, n) == Ok(v) && Locate(v, f) == Ok(p) && LstatPath(v, f) == Ok(p)
            && SetNode(v, Name(p), Own(n, UserId(ip), UserId(ip))).inodes[t.next] ==
               n.(uid := Given(ip), gid := Given(ip))
  {
    var p := Locate(t, f).value;
    ResolveExtends(t, AddNode(t, Name(p), n), f);
  }

  lemma CreatedIs(t: FileStore, f: string, ip: string, n: Inode, r: Result<FileStore>)
    requires n.uid == 0 && n.gid == 0 && n.kind != Symlink && n.data == [] && n.target == ""
    requires KeepsHandles(t, r)
    requires r == Create(t, f, n)
    ensures var c := Created(r, t, f, ip);
            && (c.1 == 0 <==> Free(t, f)) && (c.1 == 0 || c.1 == -1) && (c.1 == -1 ==> c.0 == t)
            && (c.1 == 0 ==> Made(t, c.0, Locate(t, f).value, n.kind, n.perm, Given(ip), ""))
  {
    if Free(t, f) {
      NewAndOwned(t, f, ip, n);
      var p := Locate(t, f).value;
      FollowsToEntry(AddNode(t, Name(p), n), f, p);
      hide Locate, Follow;
      var u := SetNode(AddNode(t, Name(p), n), Name(p), Own(n, UserId(ip), UserId(ip)));
      assert Created(r, t, f, ip) == (u, 0);
      assert forall x :: x in t.refs ==> t.refs[x] in t.inodes;
    }
  }

  /** mkdir answers 0 exactly when the parent lets the caller in and the place is free; then there is the directory. */
  lemma MkdirOutcome(t: FileStore, ip: string, path: string, mode: int)
    ensures var f := Translate(path); var (u, ret) := Apply(t, ip, Mkdir(path, mode));
            && (ret == 0 <==> !Denied(t, f, ip, "mkdir") && !NoLock(t, f) && Free(t, f))
            && (ret == 0 ==> Made(t, u, Locate(t, f).value, Directory, mode % 4096, Given(ip), ""))
            && (ret != 0 ==> u == t && ret == if Denied(t, f, ip, "mkdir") then -13 else -1)
  {
    hide Denied, NoLock, Locate, Created, Create, Made;
    var f := Translate(path);
    CreatedIs(t, f, ip, Inode(Directory, mode % 4096, 0, 0, [], ""), SysMkdir(t, f, mode));
  }

  /** The kinds of entry that mknod makes, by the type bits of the mode. */
  function KindMade(mode: int): Option<Kind> {
    var bits := (mode / 4096) % 16;
    if bits == 8 || bits == 0 then Some(Regular)
    else if bits == 1 || bits == 2 || bits == 6 || bits == 12 then Some(Special)
    else None
  }

  lemma MknodOutcome(t: FileStore, ip: string, path: string, mode: int)
    ensures var f := Translate(path); var (u, ret) := Apply(t, ip, Mknod(path, mode));
            && (ret == 0 <==> !Denied(t, f, ip, "mknod") && !NoLock(t, f) && Free(t, f) && KindMade(mode).Some?)
            && (ret == 0 ==> Made(t, u, Locate(t, f).value, KindMade(mode).value, mode % 4096, Given(ip), ""))
            && (ret != 0 ==> u == t && ret == if Denied(t, f, ip, "mknod") then -13 else -1)
  {
    hide Denied, NoLock, Locate, Create, Made;
    var f := Translate(path);
    assert KindOfMode(mode).Ok? <==> KindMade(mode).Some?;
    assert KindOfMode(mode).Ok? ==> KindOfMode(mode).value == KindMade(mode).value;
    if KindMade(mode).Some? {
      CreatedIs(t, f, ip, Inode(KindMade(mode).value, mode % 4096, 0, 0, [], ""), SysMknod(t, f, mode));
      }
  }

  /** A symbolic link is made with all bits set, and the link itself gets the caller as owner. */
  lemma SymlinkOutcome(t: FileStore, ip: string, target: string, link: string)
    ensures var f := Translate(link); var (u, ret) := Apply(t, ip, MakeSymlink(target, link));
            && (ret == 0 <==> !Denied(t, f, ip, "symlink") && target != "" && Free(t, f))
            && (ret == 0 ==> Made(t, u, Locate(t, f).value, Symlink, 511, Given(ip), target))
            && (ret != 0 ==> u == t && ret == if Denied(t, f, ip, "symlink") then -13 else -1)
  {
    hide Denied, NoLock, Locate, LstatPath;
    var f := Translate(link);
    if Free(t, f) && target != "" {
      var n := Inode(Symlink, 511, 0, 0, [], target);
      NewAndOwned(t, f, ip, n);
      assert forall x :: x in t.refs ==> t.refs[x] in t.inodes;
    }
  }

  /** What link needs: both parents let the caller in, the source is no directory, the new place is free. */
  predicate Linkable(t: FileStore, ip: string, f: string, g: string)
    requires '/' in f && '/' in g
  {
    && !Denied(t, f, ip, "link") && !Denied(t, g, ip, "link")
    && LstatPath(t, f).Ok? && !IsDir(t, LstatPath(t, f).value) && Free(t, g)
  }

  /** The new name is one more name of the old inode, which, with all its names, passes to the caller. */
  ghost predicate Linked(t: FileStore, u: FileStore, p: Path, q: Path, id: nat)
    requires Exists(t, p)
  {
    && Exists(u, q) && u.refs[Name(q)] == t.refs[Name(p)]
    && (forall x :: x != Name(q) ==> (x in u.refs <==> x in t.refs))
    && (forall x :: x != Name(q) && x in t.refs && x in u.refs ==> u.refs[x] == t.refs[x])
    && (forall x :: x in u.refs ==>
          u.inodes[u.refs[x]] ==
            if u.refs[x] == t.refs[Name(p)] then Own(Node(t, p), id, id) else t.inodes[u.refs[x]])
  }

  lemma LinkedFollows(t: FileStore, g: string, p: Path, q: Path)
    requires Exists(t, p) && !IsKind(t, p, Symlink) && Locate(t, g) == Ok(q) && !Exists(t, q)
    ensures Follow(AddRef(t, Name(q), Name(p)), g) == Ok(q)
  {
    hide Walk, Split;
    var v := AddRef(t, Name(q), Name(p));
    ResolveExtends(t, v, g);
    FollowsToEntry(v, g, q);
  }

  lemma LinkOutcome(t: FileStore, ip: string, path: string, newpath: string)
    ensures var f, g := Translate(path), Translate(newpath); var (u, ret) := Apply(t, ip, HardLink(path, newpath));
            && (!Linkable(t, ip, f, g) ==>
                  u == t && ret == if Denied(t, f, ip, "link") || Denied(t, g, ip, "link") then -13 else -1)
            && (Linkable(t, ip, f, g) ==>
                  var p, q := LstatPath(t, f).value, Locate(t, g).value;
                  && Exists(u, q) && u.refs[Name(q)] == t.refs[Name(p)]
                  && (!IsKind(t, p, Symlink) ==> ret == 0 && Linked(t, u, p, q, UserId(ip))))
  {
    hide Denied, Locate, LstatPath, Follow, Translate;
    var f, g := Translate(path), Translate(newpath);
    if Linkable(t, ip, f, g) {
      var p, q := LstatPath(t, f).value, Locate(t, g).value;
      if !IsKind(t, p, Symlink) {
        LinkedFollows(t, g, p, q);
      }
      assert SysLink(t, f, g) == Ok(AddRef(t, Name(q), Name(p)));
    }
  }
}
