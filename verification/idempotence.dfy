/**
 A forwarded copy travels over UDP and may be executed more than once. Running
 any path mutation a second time leaves the tree as the first run left it, with
 one exception: a rename of a symbolic link onto a symbolic link that the way to
 its own source leads through.
 */
module Idempotence {
  import opened Base
  import opened Paths
  import opened Identity
  import opened Kernel
  import opened Handlers
  import opened CleanPaths
  import opened Renames

  // ------------------------------------------- resolution in larger trees

  /** u has every name of t, with the same kind and link target. */
  ghost predicate Extends(t: FileStore, u: FileStore) {
    forall p :: Exists(t, p) ==>
      Exists(u, p) && Node(u, p).kind == Node(t, p).kind && Node(u, p).target == Node(t, p).target
  }

  lemma {:induction false} WalkExtends(t: FileStore, u: FileStore, dir: Path, comps: Path, links: nat)
    requires Extends(t, u) && Walk(t, dir, comps, links).Ok?
    ensures Walk(u, dir, comps, links) == Walk(t, dir, comps, links)
    decreases links, |comps|
  {
    if comps == [] {
    } else if comps[0] == "." {
      WalkExtends(t, u, dir, comps[1..], links);
    } else if comps[0] == ".." {
      WalkExtends(t, u, ParentDir(dir), comps[1..], links);
    } else {
      var p := dir + [comps[0]];
      match Node(t, p).kind
      case Directory => WalkExtends(t, u, p, comps[1..], links);
      case Symlink =>
        var target := Node(t, p).target;
        var base := if target != "" && target[0] == '/' then [] else dir;
        WalkExtends(t, u, base, Split(target) + comps[1..], links - 1);
      case _ =>
    }
  }

  lemma ResolveExtends(t: FileStore, u: FileStore, s: string)
    requires Extends(t, u)
    ensures Locate(t, s).Ok? ==> Locate(u, s) == Locate(t, s)
    ensures Follow(t, s).Ok? ==> Follow(u, s) == Follow(t, s)
    ensures LstatPath(t, s).Ok? ==> LstatPath(u, s) == LstatPath(t, s)
  {
    var comps := Split(s);
    if Walk(t, [], comps, MAX_LINKS).Ok? {
      WalkExtends(t, u, [], comps, MAX_LINKS);
    }
    if comps != [] && Walk(t, [], comps[..|comps| - 1], MAX_LINKS).Ok? {
      WalkExtends(t, u, [], comps[..|comps| - 1], MAX_LINKS);
    }
  }

  // ------------------------------------------------------------- creation

  /** After a creation and the change of owner, the entry is there to refuse a second creation. */
  lemma EntryStays(t: FileStore, t': FileStore, f: string, p: Path, id: nat)
    requires Locate(t, f) == Ok(p) && Extends(t, t') && Exists(t', p)
    ensures var u := SysChown(t', f, id, id); u.Ok? ==> Locate(u.value, f) == Ok(p) && Exists(u.value, p)
    ensures var u := SysLchown(t', f, id, id); u.Ok? ==> Locate(u.value, f) == Ok(p) && Exists(u.value, p)
    ensures Locate(t', f) == Ok(p)
  {
    ResolveExtends(t, t', f);
    forall u | SysChown(t', f, id, id) == Ok(u) || SysLchown(t', f, id, id) == Ok(u)
      ensures Locate(u, f) == Ok(p) && Exists(u, p)
    {
      assert Extends(t', u);
      ResolveExtends(t', u, f);
    }
  }

  /** A tree on which op changes nothing. */
  predicate Settled(t: FileStore, ip: string, op: PathOp) {
    Apply(t, ip, op).0 == t
  }

  /** Once f names an existing entry, nothing can be created there and no link can be made there. */
  lemma OccupiedRefuses(t: FileStore, f: string, s: string, n: Inode)
    requires var r := Locate(t, f); r.Ok? && Exists(t, r.value)
    ensures Create(t, f, n).Err? && SysLink(t, s, f).Err?
  {
  }

  lemma MkdirSettles(t: FileStore, ip: string, op: PathOp)
    requires op.Mkdir? && Apply(t, ip, op).0 != t
    ensures Settled(Apply(t, ip, op).0, ip, op)
  {
    hide Locate, LstatPath, Follow, OpenDir, IsOpValid;
    var f := Translate(op.path);
    var made := SysMkdir(t, f, op.mode);
    EntryStays(t, made.value, f, Locate(t, f).value, UserId(ip));
    OccupiedRefuses(Apply(t, ip, op).0, f, "", Inode(Directory, op.mode % 4096, 0, 0, [], ""));
  }

  lemma MknodSettles(t: FileStore, ip: string, op: PathOp)
    requires op.Mknod? && Apply(t, ip, op).0 != t
    ensures Settled(Apply(t, ip, op).0, ip, op)
  {
    hide Locate, LstatPath, Follow, OpenDir, IsOpValid;
    var f := Translate(op.path);
    var made := SysMknod(t, f, op.mode);
    EntryStays(t, made.value, f, Locate(t, f).value, UserId(ip));
    OccupiedRefuses(Apply(t, ip, op).0, f, "", Inode(KindOfMode(op.mode).value, op.mode % 4096, 0, 0, [], ""));
  }

  lemma SymlinkSettles(t: FileStore, ip: string, op: PathOp)
    requires op.MakeSymlink? && Apply(t, ip, op).0 != t
    ensures Settled(Apply(t, ip, op).0, ip, op)
  {
    hide Locate, LstatPath, Follow, OpenDir, IsOpValid;
    var f := Translate(op.link);
    var made := SysSymlink(t, op.target, f);
    EntryStays(t, made.value, f, Locate(t, f).value, UserId(ip));
    OccupiedRefuses(Apply(t, ip, op).0, f, "", Inode(Symlink, 511, 0, 0, [], op.target));
  }

  lemma HardLinkSettles(t: FileStore, ip: string, op: PathOp)
    requires op.HardLink? && Apply(t, ip, op).0 != t
    ensures Settled(Apply(t, ip, op).0, ip, op)
  {
    hide Locate, LstatPath, Follow, OpenDir, IsOpValid;
    var f, g := Translate(op.path), Translate(op.newpath);
    var made := SysLink(t, f, g);
    EntryStays(t, made.value, g, Locate(t, g).value, UserId(ip));
    OccupiedRefuses(Apply(t, ip, op).0, g, f, Inode(Regular, 0, 0, 0, [], ""));
  }

  // -------------------------------------------------------------- removal

  /** Once the entry is dropped, the path leads nowhere. */
  lemma DroppedIsGone(t: FileStore, f: string, p: Path)
    requires Locate(t, f) == Ok(p)
    ensures var t' := DropRef(t, Name(p)); var r := Locate(t', f); r.Ok? ==> !Exists(t', r.value)
  {
    var t' := DropRef(t, Name(p));
    assert Extends(t', t);
    ResolveExtends(t', t, f);
  }

  lemma RemovalSettles(t: FileStore, ip: string, op: PathOp)
    requires op.Rmdir? || op.Unlink?
    requires Apply(t, ip, op).0 != t
    ensures Settled(Apply(t, ip, op).0, ip, op)
  {
    hide Locate, LstatPath, Follow, OpenDir, IsOpValid;
    var f := Translate(op.path);
    var p := Locate(t, f).value;
    DroppedIsGone(t, f, p);
    var u := DropRef(t, Name(p));
    assert Apply(t, ip, op).0 == u;
    assert SysRmdir(u, f).Err? && SysUnlink(u, f).Err?;
    assert Apply(u, ip, op).0 == u;
  }

  // ----------------------------------------------------------- attributes

  /** Replacing the inode behind a followed path keeps the path, so the same replacement is a repetition. */
  lemma SetNodeRepeats(t: FileStore, f: string, n: Inode)
    requires var r := Follow(t, f); r.Ok? && n.kind == Node(t, r.value).kind && n.target == Node(t, r.value).target
    ensures var p := Follow(t, f).value; var u := SetNode(t, Name(p), n);
            Follow(u, f) == Ok(p) && Node(u, p) == n && SetNode(u, Name(p), n) == u
  {
    var u := SetNode(t, Name(Follow(t, f).value), n);
    assert Extends(t, u);
    ResolveExtends(t, u, f);
  }

  lemma AttributeSettles(t: FileStore, ip: string, op: PathOp)
    requires op.Truncate? || op.Chmod? || op.Chown? || op.Utime?
    requires Apply(t, ip, op).0 != t
    ensures Settled(Apply(t, ip, op).0, ip, op)
  {
    var f := Translate(op.path);
    var n := Node(t, Follow(t, f).value);
    match op
    case Truncate(_, size) =>
      var r := Resize(n.data, size);
      assert r[..size] == r;
      SetNodeRepeats(t, f, n.(data := r));
    case Chmod(_, mode) => SetNodeRepeats(t, f, n.(perm := mode % 4096));
    case Chown(_, uid, gid) => SetNodeRepeats(t, f, Own(n, uid, gid));
    case Utime(_) => assert false;
  }

  // --------------------------------------------------------------- rename

  /** The walk along comps follows the symbolic link at b. */
  predicate Follows(t: FileStore, b: Path, dir: Path, comps: Path, links: nat)
    decreases links, |comps|
  {
    if comps == [] then false
    else if comps[0] == "." then Follows(t, b, dir, comps[1..], links)
    else if comps[0] == ".." then Follows(t, b, ParentDir(dir), comps[1..], links)
    else
      var p := dir + [comps[0]];
      if IsDir(t, p) then Follows(t, b, p, comps[1..], links)
      else if IsKind(t, p, Symlink) && links > 0 then
        var target := Node(t, p).target;
        var base := if target != "" && target[0] == '/' then [] else dir;
        p == b || Follows(t, b, base, Split(target) + comps[1..], links - 1)
      else false
  }

  /** The components of a path's directory. */
  function DirComps(s: string): Path {
    ParentDir(Split(s))
  }

  /** A link is moved over a link that the way to the source leads through. */
  predicate ThroughReplacedLink(t: FileStore, f: string, a: Path, b: Path) {
    BothLinks(t, a, b) && Follows(t, b, [], DirComps(f), MAX_LINKS)
  }

  /**
   Walk a path once before and once after a move of a to b. If both walks end
   in directories, they end in the same one: the entries a walk can pass are
   unchanged, except a, which is gone, and b, which is passable in both trees
   only as a directory that was empty, or as a link replaced by a link.
   */
  lemma {:induction false} WalkAcrossMove(t: FileStore, a: Path, b: Path, dir: Path, comps: Path, links: nat)
    requires Moves(t, a, b) && !(BothLinks(t, a, b) && Follows(t, b, dir, comps, links))
    requires !(a <= dir) && (b <= dir ==> dir == b && IsDir(t, b))
    requires var r := Walk(t, dir, comps, links); r.Ok? && IsDir(t, r.value)
    requires var r := Walk(MoveNames(t, a, b), dir, comps, links); r.Ok? && IsDir(MoveNames(t, a, b), r.value)
    ensures Walk(t, dir, comps, links) == Walk(MoveNames(t, a, b), dir, comps, links)
    decreases links, |comps|
  {
    hide MoveNames;
    var t' := MoveNames(t, a, b);
    if comps == [] {
    } else if comps[0] == "." {
      WalkAcrossMove(t, a, b, dir, comps[1..], links);
    } else if comps[0] == ".." {
      assert ParentDir(dir) <= dir;
      WalkAcrossMove(t, a, b, ParentDir(dir), comps[1..], links);
    } else {
      var p := dir + [comps[0]];
      assert a <= p ==> p == a;
      assert b <= p ==> p == b;
      assert MovedFrom(a, b, Name(p)) == Some(Name(if p == b then a else p)) by {
        if p == b { assert a + p[|b|..] == a; }
        assert Exists(t', p);
      }
      match Node(t, p).kind
      case Directory => WalkAcrossMove(t, a, b, p, comps[1..], links);
      case Symlink =>
        var target := Node(t, p).target;
        var base := if target != "" && target[0] == '/' then [] else dir;
        WalkAcrossMove(t, a, b, base, Split(target) + comps[1..], links - 1);
      case _ =>
    }
  }

  /** After the move, the source path no longer leads to an entry. */
  lemma SourceGone(t: FileStore, f: string, b: Path)
    requires Locate(t, f).Ok? && Moves(t, Locate(t, f).value, b)
    requires !ThroughReplacedLink(t, f, Locate(t, f).value, b)
    ensures var r := Locate(MoveNames(t, Locate(t, f).value, b), f);
            r.Ok? ==> !Exists(MoveNames(t, Locate(t, f).value, b), r.value)
  {
    hide MoveNames, Walk;
    var a := Locate(t, f).value;
    var t' := MoveNames(t, a, b);
    if Locate(t', f).Ok? {
      var comps := Split(f);
      var up := comps[..|comps| - 1];
      assert !(a <= []) && !(b <= []);
      WalkAcrossMove(t, a, b, [], up, MAX_LINKS);
      assert Locate(t', f).value == a;
      assert MovedFrom(a, b, Name(a)) == None;
    }
  }

  lemma RenameSettles(t: FileStore, ip: string, op: PathOp)
    requires op.Rename? && RepeatSafe(t, op)
    requires Apply(t, ip, op).0 != t
    ensures Settled(Apply(t, ip, op).0, ip, op)
  {
    var f, g := Translate(op.path), Translate(op.newpath);
    var a, b := Locate(t, f).value, Locate(t, g).value;
    assert RenameEntry(t, a, b) == SysRename(t, f, g) == Ok(Apply(t, ip, op).0);
    assert Moves(t, a, b);
    SourceGone(t, f, b);
    assert SysRename(MoveNames(t, a, b), f, g).Err?;
  }

  /** Not a rename of a link onto a link that the way to its own source leads through. */
  predicate RepeatSafe(t: FileStore, op: PathOp) {
    op.Rename? ==>
      var a, b := Locate(t, Translate(op.path)), Locate(t, Translate(op.newpath));
      !(a.Ok? && b.Ok? && ThroughReplacedLink(t, Translate(op.path), a.value, b.value))
  }

  /** Executing a forwarded path mutation twice is executing it once. */
  lemma ApplyTwice(t: FileStore, ip: string, op: PathOp)
    requires RepeatSafe(t, op)
    ensures Apply(Apply(t, ip, op).0, ip, op).0 == Apply(t, ip, op).0
  {
    if Apply(t, ip, op).0 != t {
      match op
      case Mkdir(_, _) => MkdirSettles(t, ip, op);
      case Mknod(_, _) => MknodSettles(t, ip, op);
      case MakeSymlink(_, _) => SymlinkSettles(t, ip, op);
      case HardLink(_, _) => HardLinkSettles(t, ip, op);
      case Rmdir(_) => RemovalSettles(t, ip, op);
      case Unlink(_) => RemovalSettles(t, ip, op);
      case Rename(_, _) => RenameSettles(t, ip, op);
      case _ => AttributeSettles(t, ip, op);
    }
  }

  lemma {:induction false} NothingToFollow(t: FileStore, b: Path, dir: Path, comps: Path, links: nat)
    requires Clean(comps)
    requires forall k :: |dir| < k <= |dir + comps| ==> !IsKind(t, (dir + comps)[..k], Symlink)
    ensures !Follows(t, b, dir, comps, links)
    decreases |comps|
  {
    if comps != [] {
      assert CleanName(comps[0]);
      var p := dir + [comps[0]];
      assert (dir + comps)[..|dir| + 1] == p;
      assert p + comps[1..] == dir + comps;
      NothingToFollow(t, b, p, comps[1..], links);
    }
  }

  /** In particular a rename from a clean path without links on its way may arrive twice, whatever it replaces. */
  lemma CleanRenameIsSafe(t: FileStore, ns: Path, newpath: string)
    requires Clean(ns) && ns != [] && NoLinkAbove(t, Canonical(ns))
    ensures RepeatSafe(t, Rename(ClientPath(ns), newpath))
  {
    SplitTranslate(ns);
    var f, up := Translate(ClientPath(ns)), ParentDir(Canonical(ns));
    assert DirComps(f) == up && [] + up == up;
    assert Clean(up) by { assert CleanName("DFS"); }
    forall k | 0 < k <= |up|
      ensures !IsKind(t, up[..k], Symlink)
    {
      assert up[..k] == Canonical(ns)[..k];
    }
    forall b
      ensures !Follows(t, b, [], DirComps(f), MAX_LINKS)
    {
      NothingToFollow(t, b, [], up, MAX_LINKS);
    }
  }

  // ------------------------------------------------- where repetition hurts

  /** The top-level link l leads to the directory d, which holds an entry f that is no directory. */
  predicate Leads(t: FileStore, l: string, d: string, f: string) {
    && CleanName(l) && CleanName(d) && CleanName(f) && l != d
    && IsDir(t, ["DFS"]) && IsDir(t, Top(d))
    && IsKind(t, Top(l), Symlink) && Node(t, Top(l)).target == "/DFS/" + d
    && Node(t, Top(l)).perm == 511
    && Exists(t, Below(d, f)) && !IsDir(t, Below(d, f))
    && t.refs[Name(Below(d, f))] != t.refs[Name(Top(l))]
  }

  lemma PathsThroughLink(t: FileStore, l: string, d: string, f: string)
    requires Leads(t, l, d, f)
    ensures Locate(t, "/DFS/" + l + "/" + f) == Ok(Below(d, f)) && Locate(t, "/DFS/" + l) == Ok(Top(l))
    ensures Follow(t, "/DFS/" + l) == Ok(Top(d)) && Follow(t, "/DFS") == Ok(["DFS"])
  {
    TopPath(l);
    TopPath(d);
    BelowPath(l, f);
    WalkTop(t, l, MAX_LINKS);
    WalkTop(t, d, MAX_LINKS - 1);
    assert ["DFS"] + [l] == Top(l) && [l][1..] == [];
    assert Split("/DFS/" + d) + [] == Top(d);
    assert Walk(t, [], Top(l), MAX_LINKS) == Ok(Top(d));
    assert Below(l, f)[..2] == Top(l) && Top(d) + [f] == Below(d, f) && Top(l)[..1] == ["DFS"];
  }

  /** The parent check looks at the link itself, whose bits are all set. */
  lemma ChecksThroughLink(t: FileStore, l: string, d: string, f: string, ip: string)
    requires Leads(t, l, d, f)
    ensures var s, s' := "/DFS/" + l + "/" + f, "/DFS/" + l;
            && '/' in s && '/' in s'
            && !Denied(t, s, ip, "rename") && !Denied(t, s', ip, "rename") && !NoLock(t, s) && !NoLock(t, s')
  {
    TopPath(l);
    BelowPath(l, f);
    PathsThroughLink(t, l, d, f);
    assert ("/DFS/" + l)[0] == '/' && ("/DFS/" + l + "/" + f)[0] == '/';
    assert LstatPath(t, "/DFS/" + l) == Ok(Top(l));
    assert IsOpValid(t, "/DFS/" + l, ip, true, true, true) == 1;
  }

  /** Renaming the entry behind the link onto the link. */
  lemma RenameThroughLink(t: FileStore, l: string, d: string, f: string, ip: string)
    requires Leads(t, l, d, f)
    ensures !(Below(d, f) <= Top(l)) && !(Top(l) <= Below(d, f))
    ensures Apply(t, ip, Rename("/" + l + "/" + f, "/" + l)).0 == MoveNames(t, Below(d, f), Top(l))
  {
    TopPath(l);
    BelowPath(l, f);
    PathsThroughLink(t, l, d, f);
    ChecksThroughLink(t, l, d, f, ip);
    assert Top(l)[1] != Below(d, f)[1];
    assert RenameEntry(t, Below(d, f), Top(l)) == Ok(MoveNames(t, Below(d, f), Top(l)));
  }

  /**
   With l leading to d and d/f a link to e, a second rename of /l/f onto /l
   moves e/f as well: the restriction in ApplyTwice is needed.
   */
  lemma RenameTwiceDiffers(t: FileStore, l: string, d: string, e: string, f: string, ip: string)
    requires Leads(t, l, d, f)
    requires IsKind(t, Below(d, f), Symlink) && Node(t, Below(d, f)).target == "/DFS/" + e
    requires Node(t, Below(d, f)).perm == 511
    requires CleanName(e) && e != l && e != d && IsDir(t, Top(e))
    requires Exists(t, Below(e, f)) && !IsDir(t, Below(e, f))
    requires t.refs[Name(Below(e, f))] != t.refs[Name(Below(d, f))]
    ensures var op := Rename("/" + l + "/" + f, "/" + l); var once := Apply(t, ip, op).0;
            Apply(once, ip, op).0 != once
  {
    RenameThroughLink(t, l, d, f, ip);
    LeadsElsewhere(t, l, d, e, f);
    var once := MoveNames(t, Below(d, f), Top(l));
    RenameThroughLink(once, l, e, f, ip);
    assert MovedFrom(Below(e, f), Top(l), Name(Below(e, f))) == None;
    assert !Exists(MoveNames(once, Below(e, f), Top(l)), Below(e, f));
  }

  /** After the first rename, l leads to e. */
  lemma LeadsElsewhere(t: FileStore, l: string, d: string, e: string, f: string)
    requires Leads(t, l, d, f) && !(Below(d, f) <= Top(l)) && !(Top(l) <= Below(d, f))
    requires IsKind(t, Below(d, f), Symlink) && Node(t, Below(d, f)).target == "/DFS/" + e
    requires Node(t, Below(d, f)).perm == 511
    requires CleanName(e) && e != l && e != d && IsDir(t, Top(e))
    requires Exists(t, Below(e, f)) && !IsDir(t, Below(e, f))
    requires t.refs[Name(Below(e, f))] != t.refs[Name(Below(d, f))]
    ensures Leads(MoveNames(t, Below(d, f), Top(l)), l, e, f)
  {
    assert Below(d, f) + Top(l)[2..] == Below(d, f);
    assert MovedFrom(Below(d, f), Top(l), Name(Top(l))) == Some(Name(Below(d, f)));
    assert Top(e)[1] != Top(l)[1] && Below(e, f)[1] != Top(l)[1] && Below(e, f)[1] != Below(d, f)[1];
    assert MovedFrom(Below(d, f), Top(l), Name(Top(e))) == Some(Name(Top(e)));
    assert MovedFrom(Below(d, f), Top(l), Name(Below(e, f))) == Some(Name(Below(e, f)));
    assert MovedFrom(Below(d, f), Top(l), Name(["DFS"])) == Some(Name(["DFS"]));
  }

  function Open511(kind: Kind, target: string): Inode {
    Inode(kind, 511, 0, 0, [], target)
  }

  /** A tree of that shape: L -> D, D/f -> E, and a file E/f. */
  function LinkedTree(): FileStore {
    Store(map[Name(["DFS"]) := 1, Name(Top("D")) := 2, Name(Below("D", "f")) := 3,
              Name(Top("E")) := 4, Name(Below("E", "f")) := 5, Name(Top("L")) := 6],
          map[1 := Open511(Directory, ""), 2 := Open511(Directory, ""), 3 := Open511(Symlink, "/DFS/E"),
              4 := Open511(Directory, ""), 5 := Open511(Regular, ""), 6 := Open511(Symlink, "/DFS/D")],
          7)
  }

  lemma LinkedTreeRefs()
    ensures var t := LinkedTree();
            && t.refs.Keys >= {Name(["DFS"]), Name(Top("D")), Name(Below("D", "f")), Name(Top("E")),
                               Name(Below("E", "f")), Name(Top("L"))}
            && t.refs[Name(["DFS"])] == 1 && t.refs[Name(Top("D"))] == 2 && t.refs[Name(Below("D", "f"))] == 3
            && t.refs[Name(Top("E"))] == 4 && t.refs[Name(Below("E", "f"))] == 5 && t.refs[Name(Top("L"))] == 6
  {
    var d, e, l := "D", "E", "L";
    assert d[0] != e[0] && e[0] != l[0] && d[0] != l[0];
    assert Top(d)[1] != Top(e)[1] && Top(l)[1] != Top(e)[1] && Top(l)[1] != Top(d)[1];
    assert Below(d, "f")[1] != Below(e, "f")[1];
  }

  lemma LinkedTreeLeads()
    ensures Leads(LinkedTree(), "L", "D", "f")
    ensures IsKind(LinkedTree(), Below("D", "f"), Symlink)
    ensures Node(LinkedTree(), Below("D", "f")) == Open511(Symlink, "/DFS/E")
    ensures IsDir(LinkedTree(), Top("E")) && IsKind(LinkedTree(), Below("E", "f"), Regular)
    ensures LinkedTree().refs[Name(Below("E", "f"))] != LinkedTree().refs[Name(Below("D", "f"))]
  {
    LinkedTreeRefs();
    var l, d := "L", "D";
    assert l[0] != d[0] && "/DFS/" + d == "/DFS/D";
  }

  /** A duplicate of rename /L/f onto /L moves a second file. */
  lemma RenameTwiceExample(ip: string)
    ensures var op := Rename("/" + "L" + "/" + "f", "/" + "L"); var once := Apply(LinkedTree(), ip, op).0;
            Apply(once, ip, op).0 != once
  {
    LinkedTreeLeads();
    var l, d, e := "L", "D", "E";
    assert e[0] != l[0] && e[0] != d[0] && "/DFS/" + e == "/DFS/E";
    RenameTwiceDiffers(LinkedTree(), "L", "D", "E", "f", ip);
  }

  /** A copied write may be repeated exactly when it appends nothing. */
  lemma WriteCopyTwiceIff(t: FileStore, req: Request, limit: nat)
    requires req.Write?
    ensures WriteCopy(WriteCopy(t, req, limit).0, req, limit).0 == WriteCopy(t, req, limit).0
       <==> !(WriteCopy(t, req, limit).1.Written? && WriteCopy(t, req, limit).1.len > 0)
  {
    var f := Translate(req.path);
    CopyFlagsAppend();
    if WriteCopy(t, req, limit).1.Written? {
      var p := Follow(t, f).value;
      var d := Chunk(req.size, req.buffer, limit);
      var n := Node(t, p).(data := Append(Node(t, p).data, d));
      SetNodeRepeats(t, f, n);
      var u := SetNode(t, Name(p), n);
      assert WriteCopy(t, req, limit).0 == u;
      var v := WriteCopy(u, req, limit).0;
      assert Node(v, p).data == n.data + d;
      if d == [] {
        assert n.data + d == n.data;
      } else {
        assert |Node(v, p).data| > |Node(u, p).data|;
      }
    }
  }
}
