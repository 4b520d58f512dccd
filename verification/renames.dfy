/** Which renames change a tree, and what they do to the names in it. */
module Renames {
  import opened Base
  import opened Paths
  import opened Kernel
  import opened Handlers

  predicate Moves(t: FileStore, a: Path, b: Path) {
    && Exists(t, a) && !(a <= b) && !(b <= a)
    && (Exists(t, b) ==> IsDir(t, a) == IsDir(t, b))
    && (IsDir(t, b) ==> Empty(t, b))
  }

  predicate BothLinks(t: FileStore, a: Path, b: Path) {
    IsKind(t, a, Symlink) && IsKind(t, b, Symlink)
  }

  /** A rename request is permitted, gets its locks, and finds an entry to move somewhere else. */
  predicate MovesAnEntry(t: FileStore, ip: string, f: string, g: string)
    requires '/' in f && '/' in g
  {
    && !Denied(t, f, ip, "rename") && !Denied(t, g, ip, "rename") && !NoLock(t, f) && !NoLock(t, g)
    && Locate(t, f).Ok? && Locate(t, g).Ok?
    && var a, b := Locate(t, f).value, Locate(t, g).value;
       Moves(t, a, b) && (Exists(t, b) ==> t.refs[Name(a)] != t.refs[Name(b)])
  }

  lemma RenameChangesIff(t: FileStore, ip: string, op: PathOp)
    requires op.Rename?
    ensures Apply(t, ip, op).0 != t <==> MovesAnEntry(t, ip, Translate(op.path), Translate(op.newpath))
  {
    hide Locate, OpenDir, IsParentDirValid, MoveNames;
    var f, g := Translate(op.path), Translate(op.newpath);
    if MovesAnEntry(t, ip, f, g) {
      var a, b := Locate(t, f).value, Locate(t, g).value;
      assert MovedFrom(a, b, Name(a)) == None;
      assert Apply(t, ip, op).0 == MoveNames(t, a, b);
      assert !Exists(MoveNames(t, a, b), a);
    }
  }

  /** All directories on the way to p are directories. */
  predicate InDirectories(t: FileStore, p: Path) {
    forall k :: 0 < k < |p| ==> IsDir(t, p[..k])
  }

  lemma MoveEffect(t: FileStore, a: Path, b: Path, e: Path)
    requires Moves(t, a, b) && Exists(t, e) && InDirectories(t, e) && b != []
    ensures Exists(MoveNames(t, a, b), e) <==> !(a <= e)
    ensures !(a <= e) ==> MoveNames(t, a, b).refs[Name(e)] == t.refs[Name(if b == e then a else e)]
  {
    hide MoveNames;
    assert b == e ==> a + e[|b|..] == a;
    assert b <= e ==> e[..|b|] == b;
    assert Name(e) in t.refs;
  }

  /**
   A rename takes an entry away exactly when it moves something and its source
   leads to the entry or a directory above it, and puts another object in the
   entry's place exactly when it moves something and its target leads there.
   Who owns the entry plays no part.
   */
  lemma RenameTakesIff(t: FileStore, ip: string, op: PathOp, e: Path)
    requires op.Rename? && Exists(t, e) && InDirectories(t, e)
    ensures var u, f, g := Apply(t, ip, op).0, Translate(op.path), Translate(op.newpath);
            && (!Exists(u, e) <==> MovesAnEntry(t, ip, f, g) && Locate(t, f).value <= e)
            && (Exists(u, e) && u.refs[Name(e)] != t.refs[Name(e)] <==>
                  MovesAnEntry(t, ip, f, g) && Locate(t, g).value == e)
  {
    hide Locate, MoveNames, OpenDir, IsParentDirValid, InDirectories;
    var f, g := Translate(op.path), Translate(op.newpath);
    RenameChangesIff(t, ip, op);
    if MovesAnEntry(t, ip, f, g) {
      MoveEffect(t, Locate(t, f).value, Locate(t, g).value, e);
    }
  }
}
