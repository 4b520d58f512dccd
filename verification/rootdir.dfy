/**
 /DFS is shared by everybody, and only its owner may delete an entry in it.
 What the checks give for single requests and for whole runs.
 */
module RootDirectory {
  import opened Base
  import opened Paths
  import opened Identity
  import opened Kernel
  import opened Handlers
  import opened CleanPaths
  import opened Renames

  /** The names a request may take away are the ones its path or paths lead to. */
  lemma DisappearanceCause(t: FileStore, ip: string, op: PathOp, e: Path)
    requires Exists(t, e) && !Exists(Apply(t, ip, op).0, e)
    ensures op.Rename? || ((op.Rmdir? || op.Unlink?) && Locate(t, Translate(op.path)) == Ok(e))
  {
    hide Locate, LstatPath, Follow, OpenDir, IsOpValid;
  }

  predicate OwnerAsks(t: FileStore, ip: string, e: Path) {
    Exists(t, e) && Node(t, e).uid == UserId(ip)
  }

  /** rmdir and unlink find something they may remove. */
  predicate Removable(t: FileStore, op: PathOp, e: Path) {
    if op.Rmdir? then IsDir(t, e) && Empty(t, e) else !IsDir(t, e)
  }

  /**
   The exact case: a deletion takes an entry away when its path leads there,
   the parent opens, and either the parent string is "/DFS" and the owner asks,
   or it is another string and what lstat finds there has all bits set.
   */
  lemma DeletionIff(t: FileStore, ip: string, op: PathOp, e: Path)
    requires (op.Rmdir? || op.Unlink?) && Exists(t, e)
    ensures var f := Translate(op.path);
            !Exists(Apply(t, ip, op).0, e) <==>
              && Locate(t, f) == Ok(e) && Removable(t, op, e) && !NoLock(t, f)
              && if ParentPath(f) == PREFIX then OwnerAsks(t, ip, e)
                 else IsOpValid(t, ParentPath(f), ip, true, true, true) == 1
  {
    hide Locate, OpenDir, Follow, Empty;
    var f := Translate(op.path);
    assert Locate(t, f) == Ok(e) ==> LstatPath(t, f) == Ok(e) by { LocatedIsSeen(t, f, e); }
  }

  /** lstat looks at the entry that a deletion would remove. */
  lemma LocatedIsSeen(t: FileStore, f: string, e: Path)
    requires Exists(t, e)
    ensures Locate(t, f) == Ok(e) ==> LstatPath(t, f) == Ok(e)
  {
  }

  /**
   Deleting through a path whose parent string is "/DFS" needs the owner. A
   failing lstat counts as permission, but then the deletion finds no entry.
   */
  lemma RootDeletionNeedsOwner(t: FileStore, ip: string, op: PathOp, e: Path)
    requires op.Rmdir? || op.Unlink?
    requires ParentPath(Translate(op.path)) == PREFIX
    requires Exists(t, e) && !Exists(Apply(t, ip, op).0, e)
    ensures OwnerAsks(t, ip, e)
  {
    var f := Translate(op.path);
    DisappearanceCause(t, ip, op, e);
    assert LstatPath(t, f) == Ok(e);
  }

  /** The request names its entry by a clean path with no link among its directories. */
  ghost predicate Direct(t: FileStore, op: PathOp) {
    (op.Rmdir? || op.Unlink?) ==>
      exists ns: Path :: Clean(ns) && ns != [] && op.path == ClientPath(ns) && NoLinkAbove(t, Canonical(ns))
  }

  /** A direct path that leads to /DFS/n is /n. */
  lemma DirectPathIsTop(t: FileStore, op: PathOp, n: string)
    requires Direct(t, op) && (op.Rmdir? || op.Unlink?) && Locate(t, Translate(op.path)) == Ok(Top(n))
    ensures op.path == "/" + n && ParentPath(Translate(op.path)) == PREFIX
  {
    var ns: Path :| Clean(ns) && ns != [] && op.path == ClientPath(ns) && NoLinkAbove(t, Canonical(ns));
    LocateClean(t, ns);
    assert Canonical(ns)[1..] == ns && Top(n)[1..] == [n];
    assert ns == [n];
    assert CleanName(ns[0]);
    assert [n][1..] == [] && Join([]) == "";
    TopPath(n);
  }

  /** A direct request that deletes /DFS/n is one of /n, and it comes from the owner. */
  lemma DirectDeletionNeedsOwner(t: FileStore, ip: string, op: PathOp, n: string)
    requires Direct(t, op) && !op.Rename?
    requires Exists(t, Top(n)) && !Exists(Apply(t, ip, op).0, Top(n))
    ensures (op.Rmdir? || op.Unlink?) && op.path == "/" + n && OwnerAsks(t, ip, Top(n))
  {
    DisappearanceCause(t, ip, op, Top(n));
    DirectPathIsTop(t, op, n);
    RootDeletionNeedsOwner(t, ip, op, Top(n));
  }

  /** The check for a rename in /DFS, unlike the one for a deletion, is passed by everybody. */
  lemma RenameIgnoresOwner(t: FileStore, ip: string, n: string)
    requires CleanName(n)
    ensures !Denied(t, Translate("/" + n), ip, "rename")
  {
    TopPath(n);
  }

  /** /DFS/n can be moved to /DFS/m, which is free or also no directory. */
  predicate RenamableTo(t: FileStore, n: string, m: string) {
    && CleanName(n) && CleanName(m) && n != m && IsDir(t, ["DFS"]) && Exists(t, Top(n))
    && (Exists(t, Top(m)) ==>
          && !IsDir(t, Top(n)) && !IsDir(t, Top(m)) && t.refs[Name(Top(n))] != t.refs[Name(Top(m))])
  }

  /**
   So whoever asks, a rename of /n to /m takes the entry /DFS/n away and puts it
   in the place of /DFS/m, whoever owns the two; the design document reserves
   this for the owner.
   */
  lemma AnybodyRenames(t: FileStore, ip: string, n: string, m: string)
    requires RenamableTo(t, n, m)
    ensures var u := Apply(t, ip, Rename("/" + n, "/" + m)).0;
            && !Exists(u, Top(n))
            && Exists(u, Top(m)) && u.refs[Name(Top(m))] == t.refs[Name(Top(n))]
  {
    hide MoveNames, Locate, OpenDir, IsParentDirValid, Translate, Walk, LstatPath, Follow, Empty;
    TopIsLocated(t, n);
    TopIsLocated(t, m);
    RenameIgnoresOwner(t, ip, n);
    RenameIgnoresOwner(t, ip, m);
    assert Top(n)[1] == n && Top(m)[1] == m;
    var a, b := Top(n), Top(m);
    assert Apply(t, ip, Rename("/" + n, "/" + m)).0 == MoveNames(t, a, b);
    assert MovedFrom(a, b, Name(a)) == None;
    assert a + b[|b|..] == a;
    assert MovedFrom(a, b, Name(b)) == Some(Name(a));
  }

  lemma TopIsLocated(t: FileStore, n: string)
    requires CleanName(n) && IsDir(t, ["DFS"])
    ensures var f := Translate("/" + n);
            Locate(t, f) == Ok(Top(n)) && '/' in f && !NoLock(t, f)
  {
    TopPath(n);
    TopLocated(t, n);
    hide Locate, Follow;
    assert ("/DFS/" + n)[0] == '/';
  }

  // --------------------------------------------------------- whole runs

  function AfterCalls(s: SingleServer, calls: seq<Call>): SingleServer {
    if calls == [] then s
    else
      var before, last := AfterCalls(s, calls[..|calls| - 1]), calls[|calls| - 1];
      Serve(before, last.req, last.role, last.limit).0
  }

  /** A deletion of /DFS/n by its owner, or a rename of it or of a directory above it. */
  predicate TakenBy(t: FileStore, ip: string, op: PathOp, n: string) {
    || ((op.Rmdir? || op.Unlink?) && op.path == "/" + n && OwnerAsks(t, ip, Top(n)))
    || (&& op.Rename? && MovesAnEntry(t, ip, Translate(op.path), Translate(op.newpath))
        && Locate(t, Translate(op.path)).value <= Top(n))
  }

  /** The call takes /DFS/n away, in one of these two ways. */
  ghost predicate Takes(s: SingleServer, call: Call, n: string) {
    && Exists(s.store, Top(n)) && !Exists(Serve(s, call.req, call.role, call.limit).0.store, Top(n))
    && call.req.Mutate? && TakenBy(s.store, call.req.ip, call.req.op, n)
  }

  lemma OneMutation(t: FileStore, ip: string, op: PathOp, n: string)
    requires Direct(t, op) && IsDir(t, ["DFS"])
    requires Exists(t, Top(n)) && !Exists(Apply(t, ip, op).0, Top(n))
    ensures TakenBy(t, ip, op, n)
  {
    hide Apply, MovesAnEntry, Locate, Direct;
    if op.Rename? {
      assert forall k :: 0 < k < |Top(n)| ==> Top(n)[..k] == ["DFS"];
      RenameTakesIff(t, ip, op, Top(n));
    } else {
      DirectDeletionNeedsOwner(t, ip, op, n);
    }
  }

  lemma OneCall(s: SingleServer, call: Call, n: string)
    requires call.req.Mutate? ==> Direct(s.store, call.req.op)
    requires IsDir(s.store, ["DFS"])
    requires Exists(s.store, Top(n)) && !Exists(Serve(s, call.req, call.role, call.limit).0.store, Top(n))
    ensures Takes(s, call, n)
  {
    hide Apply, TakenBy, Direct, WriteCopy, WriteOriginal, OpenFile, LstatPath;
    if call.req.Mutate? {
      OneMutation(s.store, call.req.ip, call.req.op, n);
    } else {
      OthersKeepNames(s, call, n);
    }
  }

  /** Requests that are no path mutations take no name away, and leave every directory one. */
  lemma OthersKeepNames(s: SingleServer, call: Call, n: string)
    requires !call.req.Mutate?
    ensures var u := Serve(s, call.req, call.role, call.limit).0.store;
            && (Exists(s.store, Top(n)) ==> Exists(u, Top(n)))
            && (IsDir(s.store, ["DFS"]) ==> IsDir(u, ["DFS"]))
  {
    hide Follow, IsOpValid, LstatPath, PWrite, Chunk, ModeOf, Truncates;
    match call.req
    case Write(_, _, _, _, _, _) =>
    case Open(_, _, _) =>
    case _ =>
  }

  /** Names that survive a request keep the kind of their object, except those a rename moves. */
  ghost predicate KindsKept(t: FileStore, u: FileStore) {
    forall p :: Exists(t, p) && Exists(u, p) ==> Node(u, p).kind == Node(t, p).kind
  }

  lemma CreatedKeepsKinds(r: Result<FileStore>, t: FileStore, f: string, ip: string)
    requires KeepsHandles(t, r) && (r.Ok? ==> KindsKept(t, r.value))
    ensures KindsKept(t, Created(r, t, f, ip).0)
  {
    hide Follow;
  }

  lemma CreationKeepsKinds(t: FileStore, ip: string, op: PathOp)
    requires op.Mkdir? || op.Mknod? || op.MakeSymlink? || op.HardLink?
    ensures KindsKept(t, Apply(t, ip, op).0)
  {
    hide Locate, LstatPath, Follow, OpenDir, IsParentDirValid, Created, ApplySymlink, Translate, KindOfMode;
    match op
    case Mkdir(path, mode) => CreatedKeepsKinds(SysMkdir(t, Translate(path), mode), t, Translate(path), ip);
    case Mknod(path, mode) => CreatedKeepsKinds(SysMknod(t, Translate(path), mode), t, Translate(path), ip);
    case HardLink(path, newpath) =>
      var g := Translate(newpath);
      CreatedKeepsKinds(SysLink(t, Translate(path), g), t, g, ip);
    case MakeSymlink(target, link) => SymlinkKeepsKinds(t, ip, target, Translate(link));
  }

  lemma SymlinkKeepsKinds(t: FileStore, ip: string, target: string, f: string)
    requires '/' in f
    ensures KindsKept(t, ApplySymlink(t, ip, target, f).0)
  {
    hide Locate, LstatPath, Denied;
    assert SysSymlink(t, target, f).Ok? ==> KindsKept(t, SysSymlink(t, target, f).value);
  }

  lemma OtherKeepsKinds(t: FileStore, ip: string, op: PathOp)
    requires !(op.Mkdir? || op.Mknod? || op.MakeSymlink? || op.HardLink? || op.Rename?)
    ensures KindsKept(t, Apply(t, ip, op).0)
  {
    hide Locate, LstatPath, Follow, OpenDir, IsParentDirValid;
  }

  /** As long as it has an entry, /DFS stays a directory. */
  lemma RootStays(s: SingleServer, call: Call, n: string)
    requires IsDir(s.store, ["DFS"]) && Exists(s.store, Top(n))
    requires Exists(Serve(s, call.req, call.role, call.limit).0.store, Top(n))
    ensures IsDir(Serve(s, call.req, call.role, call.limit).0.store, ["DFS"])
  {
    if call.req.Mutate? {
      hide Apply;
      MutationKeepsRoot(s.store, call.req.ip, call.req.op, n);
    } else {
      OthersKeepNames(s, call, n);
    }
  }

  lemma MutationKeepsRoot(t: FileStore, ip: string, op: PathOp, n: string)
    requires IsDir(t, ["DFS"]) && Exists(t, Top(n)) && Exists(Apply(t, ip, op).0, Top(n))
    ensures IsDir(Apply(t, ip, op).0, ["DFS"])
  {
    hide Apply;
    if op.Rename? {
      RootStaysAcrossRename(t, ip, op, n);
    } else {
      RootIsNotDeleted(t, ip, op, n);
      if op.Mkdir? || op.Mknod? || op.MakeSymlink? || op.HardLink? {
        CreationKeepsKinds(t, ip, op);
      } else {
        OtherKeepsKinds(t, ip, op);
      }
    }
  }

  lemma RootIsNotDeleted(t: FileStore, ip: string, op: PathOp, n: string)
    requires IsDir(t, ["DFS"]) && Exists(t, Top(n)) && !op.Rename?
    ensures Exists(Apply(t, ip, op).0, ["DFS"])
  {
    hide Locate, LstatPath, Follow, OpenDir, IsParentDirValid;
    assert !Empty(t, ["DFS"]) by { assert Name(Top(n)) in t.refs && ["DFS"] <= Top(n); }
    if op.Rmdir? || op.Unlink? {
      DeletionIff(t, ip, op, ["DFS"]);
    }
  }

  lemma RootStaysAcrossRename(t: FileStore, ip: string, op: PathOp, n: string)
    requires IsDir(t, ["DFS"]) && Exists(t, Top(n)) && op.Rename?
    requires Exists(Apply(t, ip, op).0, Top(n))
    ensures IsDir(Apply(t, ip, op).0, ["DFS"])
  {
    hide Locate, MoveNames, OpenDir, IsParentDirValid;
    assert forall k :: 0 < k < |Top(n)| ==> Top(n)[..k] == ["DFS"];
    assert ["DFS"] <= Top(n);
    RenameChangesIff(t, ip, op);
    RenameTakesIff(t, ip, op, Top(n));
    var f, g := Translate(op.path), Translate(op.newpath);
    if MovesAnEntry(t, ip, f, g) {
      var a, b := Locate(t, f).value, Locate(t, g).value;
      assert !Empty(t, ["DFS"]) by { assert Name(Top(n)) in t.refs; }
      assert !(a <= ["DFS"]);
      assert b != [] && (b <= ["DFS"] ==> b == ["DFS"]);
      assert MovedFrom(a, b, Name(["DFS"])) == Some(Name(["DFS"]));
    }
  }

  /** /DFS/n is there from the beginning to the end of the run. */
  ghost predicate Present(s: SingleServer, calls: seq<Call>, n: string) {
    forall i :: 0 <= i <= |calls| ==> Exists(AfterCalls(s, calls[..i]).store, Top(n))
  }

  /** Every request of the run is direct in the tree it finds. */
  ghost predicate AllDirect(s: SingleServer, calls: seq<Call>) {
    forall i :: 0 <= i < |calls| && calls[i].req.Mutate? ==> Direct(AfterCalls(s, calls[..i]).store, calls[i].req.op)
  }

  lemma Earlier(s: SingleServer, calls: seq<Call>, j: nat, n: string)
    requires j <= |calls|
    ensures AllDirect(s, calls) ==> AllDirect(s, calls[..j])
    ensures Present(s, calls, n) ==> Present(s, calls[..j], n)
  {
    hide AfterCalls, Direct;
    assert forall i :: 0 <= i <= j ==> calls[..j][..i] == calls[..i];
  }

  lemma {:induction false} RootStaysOverRun(s: SingleServer, calls: seq<Call>, n: string)
    requires IsDir(s.store, ["DFS"]) && Present(s, calls, n)
    ensures IsDir(AfterCalls(s, calls).store, ["DFS"])
  {
    hide Serve, IsKind;
    if calls != [] {
      var init := calls[..|calls| - 1];
      Earlier(s, calls, |init|, n);
      assert calls[..|calls|] == calls;
      RootStaysOverRun(s, init, n);
      RootStays(AfterCalls(s, init), calls[|calls| - 1], n);
    }
  }

  /**
   Over any run of direct requests, an entry of /DFS that is gone was taken by
   one of them: its then owner deleted it, or somebody renamed it, or /DFS.
   */
  lemma {:induction false} RootEntryLostOnlyIf(s: SingleServer, calls: seq<Call>, n: string) returns (k: nat)
    requires IsDir(s.store, ["DFS"]) && AllDirect(s, calls)
    requires Exists(s.store, Top(n)) && !Exists(AfterCalls(s, calls).store, Top(n))
    ensures k < |calls| && Takes(AfterCalls(s, calls[..k]), calls[k], n)
    ensures Present(s, calls[..k], n)
    decreases |calls|
  {
    hide Serve, Takes, Direct, AfterCalls;
    FirstIsStart(s);
    var init := calls[..|calls| - 1];
    if Present(s, init, n) {
      k := |calls| - 1;
      RootStaysOverRun(s, init, n);
      assert init[..|init|] == init;
      LastOfRun(s, calls);
      OneCall(AfterCalls(s, init), calls[k], n);
    } else {
      var j: nat :| j <= |init| && !Exists(AfterCalls(s, init[..j]).store, Top(n));
      assert init[..j] == calls[..j];
      Earlier(s, calls, j, n);
      k := RootEntryLostOnlyIf(s, calls[..j], n);
      assert calls[..j][..k] == calls[..k];
    }
  }

  lemma FirstIsStart(s: SingleServer)
    ensures AfterCalls(s, []) == s
  {
  }

  lemma LastOfRun(s: SingleServer, calls: seq<Call>)
    requires calls != []
    ensures var before, last := AfterCalls(s, calls[..|calls| - 1]), calls[|calls| - 1];
            && AfterCalls(s, calls) == Serve(before, last.req, last.role, last.limit).0
            && (last.req.Mutate? && AllDirect(s, calls) ==> Direct(before.store, last.req.op))
  {
  }

  /** l is a link to /DFS, and n a file there. */
  predicate Aliases(t: FileStore, l: string, n: string) {
    && CleanName(l) && CleanName(n) && l != n
    && IsDir(t, ["DFS"]) && IsKind(t, Top(l), Symlink) && Node(t, Top(l)).perm == 511
    && Node(t, Top(l)).target == "/DFS" && IsKind(t, Top(n), Regular)
  }

  lemma AliasedWalk(t: FileStore, l: string, n: string)
    requires Aliases(t, l, n)
    ensures Walk(t, [], Top(l), MAX_LINKS) == Ok(["DFS"])
    ensures Locate(t, "/DFS/" + l + "/" + n) == Ok(Top(n)) && LstatPath(t, "/DFS/" + l) == Ok(Top(l))
  {
    TopPath(l);
    BelowPath(l, n);
    WalkTop(t, l, MAX_LINKS);
    WalkTop(t, n, MAX_LINKS - 1);
    assert ["DFS"] + [l] == Top(l) && [l][1..] == [] && Split("/DFS") + [] == ["DFS"];
    assert Below(l, n)[..2] == Top(l) && ["DFS"] + [n] == Top(n) && Top(l)[..1] == ["DFS"];
  }

  lemma AliasedFollow(t: FileStore, l: string, n: string)
    requires Aliases(t, l, n)
    ensures Follow(t, "/DFS/" + l) == Ok(["DFS"])
  {
    AliasedWalk(t, l, n);
    TopPath(l);
    hide Walk, Split;
  }

  lemma AliasedChecks(t: FileStore, l: string, n: string, ip: string)
    requires Aliases(t, l, n)
    ensures var f := "/DFS/" + l + "/" + n; '/' in f && !Denied(t, f, ip, "unlink") && !NoLock(t, f)
  {
    hide Locate, LstatPath, Follow, LastSlash;
    AliasedWalk(t, l, n);
    AliasedFollow(t, l, n);
    BelowPath(l, n);
    assert ("/DFS/" + l + "/" + n)[0] == '/';
    assert IsOpValid(t, "/DFS/" + l, ip, true, true, true) == 1;
    assert |"/DFS/" + l| > |PREFIX|;
  }

  /** Why links must be excluded: through a link to /DFS anybody may delete anybody's file. */
  lemma AliasedDeletion(t: FileStore, l: string, n: string, ip: string)
    requires Aliases(t, l, n)
    ensures !Exists(Apply(t, ip, Unlink("/" + l + "/" + n)).0, Top(n))
  {
    hide LastSlash, Locate, LstatPath, Follow, IsOpValid, NoLock;
    AliasedWalk(t, l, n);
    AliasedChecks(t, l, n, ip);
    BelowPath(l, n);
    assert |"/DFS/" + l| > |PREFIX|;
    DeletionIff(t, ip, Unlink("/" + l + "/" + n), Top(n));
  }
}
