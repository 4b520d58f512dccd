/**
 When exactly a duplicate of a rename moves a second entry, in terms of the
 tree before the first one. The first one puts the link at a in the place of
 the link at b; the definitions here say how paths resolve from then on.
 */
module Duplicates {
  import opened Base
  import opened Paths
  import opened Identity
  import opened Kernel
  import opened Handlers
  import opened Renames
  import opened Idempotence

  function NodeAfter(t: FileStore, a: Path, b: Path, p: Path): Option<Inode>
    requires Exists(t, a)
  {
    if p == a then None
    else if p == b then Some(Node(t, a))
    else if Exists(t, p) then Some(Node(t, p))
    else None
  }

  function WalkAfter(t: FileStore, a: Path, b: Path, dir: Path, comps: Path, links: nat): Result<Path>
    requires Exists(t, a)
    decreases links, |comps|
  {
    if comps == [] then Ok(dir)
    else if comps[0] == "." then WalkAfter(t, a, b, dir, comps[1..], links)
    else if comps[0] == ".." then WalkAfter(t, a, b, ParentDir(dir), comps[1..], links)
    else
      var p := dir + [comps[0]];
      match NodeAfter(t, a, b, p)
      case None => Err(ENOENT)
      case Some(n) =>
        match n.kind
        case Directory => WalkAfter(t, a, b, p, comps[1..], links)
        case Symlink =>
          if links == 0 then Err(ELOOP)
          else
            var base := if n.target != "" && n.target[0] == '/' then [] else dir;
            WalkAfter(t, a, b, base, Split(n.target) + comps[1..], links - 1)
        case _ => if |comps| == 1 then Ok(p) else Err(ENOTDIR)
  }

  predicate IsDirAfter(t: FileStore, a: Path, b: Path, p: Path)
    requires Exists(t, a)
  {
    var n := NodeAfter(t, a, b, p);
    n.Some? && n.value.kind == Directory
  }

  function FollowAfter(t: FileStore, a: Path, b: Path, s: string): (r: Option<Path>)
    requires Exists(t, a)
    ensures r.Some? ==> NodeAfter(t, a, b, r.value).Some?
  {
    var r := WalkAfter(t, a, b, [], Split(s), MAX_LINKS);
    if s != "" && r.Ok? && NodeAfter(t, a, b, r.value).Some? then Some(r.value) else None
  }

  function LocateAfter(t: FileStore, a: Path, b: Path, s: string): Option<Path>
    requires Exists(t, a)
  {
    var comps := Split(s);
    if comps == [] || Dots(comps[|comps| - 1]) then None
    else
      var d := WalkAfter(t, a, b, [], DirComps(s), MAX_LINKS);
      if d.Ok? && IsDirAfter(t, a, b, d.value) then Some(d.value + [comps[|comps| - 1]]) else None
  }

  function LstatAfter(t: FileStore, a: Path, b: Path, s: string): (r: Option<Path>)
    requires Exists(t, a)
    ensures r.Some? ==> NodeAfter(t, a, b, r.value).Some?
  {
    var comps := Split(s);
    if comps == [] || Dots(comps[|comps| - 1]) then FollowAfter(t, a, b, s)
    else
      var r := LocateAfter(t, a, b, s);
      if r.Some? && NodeAfter(t, a, b, r.value).Some? then r else None
  }

  /** The parent passes the permission check, and opens. */
  predicate EntersAfter(t: FileStore, a: Path, b: Path, ip: string, f: string)
    requires Exists(t, a) && '/' in f
  {
    var parent, id := ParentPath(f), UserId(ip);
    var looked, led := LstatAfter(t, a, b, parent), FollowAfter(t, a, b, parent);
    && (parent == PREFIX ||
        (&& looked.Some?
         && var n := NodeAfter(t, a, b, looked.value).value;
            MayRead(n, id) && MayWrite(n, id) && MayExecute(n, id)))
    && led.Some? && IsDirAfter(t, a, b, led.value)
  }

  predicate EmptyAfter(t: FileStore, a: Path, b: Path, p: Path) {
    !(p <= b) && forall x | x in t.refs :: x.Name? && p <= x.path ==> x.path == p || a <= x.path
  }

  function InumAfter(t: FileStore, a: Path, b: Path, p: Path): nat
    requires Exists(t, a) && NodeAfter(t, a, b, p).Some?
  {
    t.refs[Name(if p == b then a else p)]
  }

  /** x is an entry that can be moved to y. */
  predicate MovableAfter(t: FileStore, a: Path, b: Path, x: Path, y: Path)
    requires Exists(t, a)
  {
    && NodeAfter(t, a, b, x).Some? && !(x <= y) && !(y <= x)
    && (NodeAfter(t, a, b, y).Some? ==>
          && IsDirAfter(t, a, b, x) == IsDirAfter(t, a, b, y)
          && InumAfter(t, a, b, x) != InumAfter(t, a, b, y))
    && (IsDirAfter(t, a, b, y) ==> EmptyAfter(t, a, b, y))
  }

  /** With the link in its new place, the same two paths lead to an entry that may be moved once more. */
  predicate MovesAgain(t: FileStore, ip: string, f: string, g: string, a: Path, b: Path)
    requires Exists(t, a) && '/' in f && '/' in g
  {
    && EntersAfter(t, a, b, ip, f) && EntersAfter(t, a, b, ip, g)
    && var x, y := LocateAfter(t, a, b, f), LocateAfter(t, a, b, g);
       x.Some? && y.Some? && MovableAfter(t, a, b, x.value, y.value)
  }

  // ------------------------------------------- that this is what happens

  /** Two links apart from each other, the first moved onto the second. */
  ghost predicate LinksApart(t: FileStore, a: Path, b: Path) {
    BothLinks(t, a, b) && !(a <= b) && !(b <= a)
  }

  predicate Beside(a: Path, b: Path, p: Path) {
    (a <= p ==> p == a) && (b <= p ==> p == b)
  }

  lemma NodeAfterIs(t: FileStore, a: Path, b: Path, p: Path)
    requires LinksApart(t, a, b) && Beside(a, b, p)
    ensures var t' := MoveNames(t, a, b);
            && (Exists(t', p) <==> NodeAfter(t, a, b, p).Some?)
            && (Exists(t', p) ==> NodeAfter(t, a, b, p) == Some(Node(t', p))
                                  && InumAfter(t, a, b, p) == t'.refs[Name(p)])
            && (IsDir(t', p) <==> IsDirAfter(t, a, b, p))
  {
    hide MoveNames;
    assert p == b ==> a + p[|b|..] == a;
    assert MovedFrom(a, b, Name(p)) == (if p == b then Some(Name(a)) else if p == a then None else Some(Name(p)));
  }

  lemma {:induction false} WalkAfterIs(t: FileStore, a: Path, b: Path, dir: Path, comps: Path, links: nat)
    requires LinksApart(t, a, b) && !(a <= dir) && !(b <= dir)
    ensures Walk(MoveNames(t, a, b), dir, comps, links) == WalkAfter(t, a, b, dir, comps, links)
    ensures var r := WalkAfter(t, a, b, dir, comps, links); r.Ok? ==> !(a <= r.value) && !(b <= r.value)
    decreases links, |comps|
  {
    hide MoveNames;
    if comps == [] {
    } else if comps[0] == "." {
      WalkAfterIs(t, a, b, dir, comps[1..], links);
    } else if comps[0] == ".." {
      assert ParentDir(dir) <= dir;
      WalkAfterIs(t, a, b, ParentDir(dir), comps[1..], links);
    } else {
      var p := dir + [comps[0]];
      assert a <= p ==> p == a;
      assert b <= p ==> p == b;
      NodeAfterIs(t, a, b, p);
      match NodeAfter(t, a, b, p)
      case None =>
      case Some(n) =>
        assert p != a && (p == b ==> n.kind == Symlink);
        match n.kind
        case Directory => WalkAfterIs(t, a, b, p, comps[1..], links);
        case Symlink =>
          if links > 0 {
            assert !(a <= []) && !(b <= []);
            var base := if n.target != "" && n.target[0] == '/' then [] else dir;
            WalkAfterIs(t, a, b, base, Split(n.target) + comps[1..], links - 1);
          }
        case _ =>
    }
  }

  ghost predicate SamePath(r: Result<Path>, q: Option<Path>) {
    (r.Ok? <==> q.Some?) && (r.Ok? ==> r.value == q.value)
  }

  lemma ResolvedAfter(t: FileStore, a: Path, b: Path, s: string)
    requires LinksApart(t, a, b)
    ensures var t' := MoveNames(t, a, b);
            && SamePath(Locate(t', s), LocateAfter(t, a, b, s))
            && SamePath(Follow(t', s), FollowAfter(t, a, b, s))
            && SamePath(LstatPath(t', s), LstatAfter(t, a, b, s))
    ensures LocateAfter(t, a, b, s).Some? ==> Beside(a, b, LocateAfter(t, a, b, s).value)
    ensures FollowAfter(t, a, b, s).Some? ==> Beside(a, b, FollowAfter(t, a, b, s).value)
    ensures LstatAfter(t, a, b, s).Some? ==> Beside(a, b, LstatAfter(t, a, b, s).value)
  {
    hide MoveNames, Walk, WalkAfter, NodeAfter, IsDirAfter;
    assert !(a <= []) && !(b <= []);
    var comps := Split(s);
    WalkAfterIs(t, a, b, [], comps, MAX_LINKS);
    var r := WalkAfter(t, a, b, [], comps, MAX_LINKS);
    if r.Ok? {
      NodeAfterIs(t, a, b, r.value);
    }
    if comps != [] {
      assert DirComps(s) == comps[..|comps| - 1];
      WalkAfterIs(t, a, b, [], DirComps(s), MAX_LINKS);
      var d := WalkAfter(t, a, b, [], DirComps(s), MAX_LINKS);
      if d.Ok? {
        NodeAfterIs(t, a, b, d.value);
        var p := d.value + [comps[|comps| - 1]];
        assert Beside(a, b, p);
        NodeAfterIs(t, a, b, p);
      }
    }
  }

  lemma EntersAfterIs(t: FileStore, a: Path, b: Path, ip: string, f: string)
    requires LinksApart(t, a, b) && '/' in f
    ensures var t' := MoveNames(t, a, b);
            EntersAfter(t, a, b, ip, f) <==> !Denied(t', f, ip, "rename") && !NoLock(t', f)
  {
    hide MoveNames, Locate, LstatPath, Follow, LocateAfter, LstatAfter, FollowAfter, NodeAfter, LastSlash;
    hide MayRead, MayWrite, MayExecute;
    var parent := ParentPath(f);
    ResolvedAfter(t, a, b, parent);
    if LstatAfter(t, a, b, parent).Some? {
      NodeAfterIs(t, a, b, LstatAfter(t, a, b, parent).value);
    }
    if FollowAfter(t, a, b, parent).Some? {
      NodeAfterIs(t, a, b, FollowAfter(t, a, b, parent).value);
    }
  }

  lemma PrefixesCompare(p: Path, q: Path, x: Path)
    requires p <= x && q <= x
    ensures p <= q || q <= p
  {
  }

  lemma EmptyAfterIs(t: FileStore, a: Path, b: Path, p: Path)
    requires LinksApart(t, a, b) && !(a <= p) && !(b <= p)
    ensures EmptyAfter(t, a, b, p) <==> Empty(MoveNames(t, a, b), p)
  {
    hide MoveNames;
    var t' := MoveNames(t, a, b);
    if EmptyAfter(t, a, b, p) {
      forall x | x in t'.refs && x.Name? && p <= x.path
        ensures x.path == p
      {
        if b <= x.path {
          PrefixesCompare(p, b, x.path);
        } else {
          assert MovedFrom(a, b, x) == Some(x);
        }
      }
    } else if p <= b {
      assert a + b[|b|..] == a;
      assert MovedFrom(a, b, Name(b)) == Some(Name(a));
      assert Name(b) in t'.refs && Name(b).path != p;
    } else {
      var x :| x in t.refs && x.Name? && p <= x.path && x.path != p && !(a <= x.path);
      if b <= x.path {
        PrefixesCompare(p, b, x.path);
      } else {
        assert MovedFrom(a, b, x) == Some(x);
        assert x in t'.refs;
      }
    }
  }

  lemma MovableAfterIs(t: FileStore, a: Path, b: Path, x: Path, y: Path)
    requires LinksApart(t, a, b) && Beside(a, b, x) && Beside(a, b, y)
    ensures var t' := MoveNames(t, a, b);
            MovableAfter(t, a, b, x, y) <==>
            Moves(t', x, y) && (Exists(t', y) ==> t'.refs[Name(x)] != t'.refs[Name(y)])
  {
    NodeAfterIs(t, a, b, x);
    NodeAfterIs(t, a, b, y);
    if IsDirAfter(t, a, b, y) {
      assert y != a && y != b;
      EmptyAfterIs(t, a, b, y);
    }
    hide MoveNames, NodeAfter, InumAfter, EmptyAfter, Empty;
  }

  lemma MovesAgainIff(t: FileStore, ip: string, f: string, g: string, a: Path, b: Path)
    requires LinksApart(t, a, b) && '/' in f && '/' in g
    ensures MovesAgain(t, ip, f, g, a, b) <==> MovesAnEntry(MoveNames(t, a, b), ip, f, g)
  {
    hide MoveNames, EntersAfter, Denied, NoLock, Locate, LocateAfter, MovableAfter, Moves, NodeAfter;
    EntersAfterIs(t, a, b, ip, f);
    EntersAfterIs(t, a, b, ip, g);
    ResolvedAfter(t, a, b, f);
    ResolvedAfter(t, a, b, g);
    var x, y := LocateAfter(t, a, b, f), LocateAfter(t, a, b, g);
    if x.Some? && y.Some? {
      MovableAfterIs(t, a, b, x.value, y.value);
    }
  }

  /**
   The duplicate does harm: the first rename moves a link onto a link that the
   way to its source leads through, and once the way leads where the moved link
   leads, the same two paths again name an entry and a place for it.
   */
  predicate HarmfulTwice(t: FileStore, ip: string, op: PathOp) {
    && op.Rename?
    && var f, g := Translate(op.path), Translate(op.newpath);
       && MovesAnEntry(t, ip, f, g)
       && var a, b := Locate(t, f).value, Locate(t, g).value;
          ThroughReplacedLink(t, f, a, b) && MovesAgain(t, ip, f, g, a, b)
  }

  /** Executing a forwarded path mutation twice is executing it once, exactly in the other cases. */
  lemma ApplyTwiceIff(t: FileStore, ip: string, op: PathOp)
    ensures Apply(Apply(t, ip, op).0, ip, op).0 == Apply(t, ip, op).0 <==> !HarmfulTwice(t, ip, op)
  {
    hide Apply, Locate, MoveNames, MovesAgain, MovesAnEntry, ThroughReplacedLink;
    if RepeatSafe(t, op) {
      ApplyTwice(t, ip, op);
      if op.Rename? && MovesAnEntry(t, ip, Translate(op.path), Translate(op.newpath)) {
        MovingFinds(t, ip, op);
      }
    } else {
      var f, g := Translate(op.path), Translate(op.newpath);
      RenameChangesIff(t, ip, op);
      if MovesAnEntry(t, ip, f, g) {
        MovingFinds(t, ip, op);
        var a, b := Locate(t, f).value, Locate(t, g).value;
        RenameChangesIff(MoveNames(t, a, b), ip, op);
        MovesAgainIff(t, ip, f, g, a, b);
      }
    }
  }

  lemma MovingFinds(t: FileStore, ip: string, op: PathOp)
    requires op.Rename? && MovesAnEntry(t, ip, Translate(op.path), Translate(op.newpath))
    ensures var a, b := Locate(t, Translate(op.path)), Locate(t, Translate(op.newpath));
            && a.Ok? && b.Ok? && Moves(t, a.value, b.value)
            && Apply(t, ip, op).0 == MoveNames(t, a.value, b.value)
            && (ThroughReplacedLink(t, Translate(op.path), a.value, b.value) ==> LinksApart(t, a.value, b.value))
  {
    hide Locate, MoveNames, OpenDir, IsParentDirValid, Follows;
  }
}
