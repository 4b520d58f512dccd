/** Which directory a handler locks: the one whose entry it changes, if it locks at all. */
module Exclusion {
  import opened Base
  import opened Paths
  import opened Identity
  import opened Kernel
  import opened Handlers
  import opened CleanPaths
  import opened Renames
  import opened Locks

  // ------------------------------------------------- parents as strings

  lemma {:induction false} SplitAtSlash(a: string, b: string, cur: string)
    ensures SplitFrom(a + "/" + b, cur) == SplitFrom(a, cur) + SplitFrom(b, "")
    decreases |a|
  {
    var s := a + "/" + b;
    if a == "" {
      assert s[1..] == b;
    } else {
      assert s[1..] == a[1..] + "/" + b;
      if a[0] == '/' {
        SplitAtSlash(a[1..], b, "");
      } else {
        SplitAtSlash(a[1..], b, cur + [a[0]]);
      }
    }
  }

  predicate EndsInName(f: string) {
    f != "" && f[|f| - 1] != '/'
  }

  /** The parent string has all the components but the last one. */
  lemma SplitParent(f: string)
    requires '/' in f && EndsInName(f)
    ensures Split(f) != [] && Split(ParentPath(f)) == ParentDir(Split(f))
  {
    var k := LastSlash(f);
    assert k >= 0;
    var name := f[k + 1..];
    assert SlashFree(name) && name != "";
    assert f == ParentPath(f) + "/" + name;
    SplitAtSlash(ParentPath(f), name, "");
    SplitName(name, "", "");
    assert name + "" == name && "" + name == name;
    assert ParentDir(Split(ParentPath(f)) + [name]) == Split(ParentPath(f));
  }

  /** If the parent opens, it is the directory of the entry that the path names. */
  lemma ParentIsDirectory(t: FileStore, f: string)
    requires '/' in f && EndsInName(f) && Locate(t, f).Ok? && !NoLock(t, f)
    ensures OpenDir(t, ParentPath(f)) == Some(ParentDir(Locate(t, f).value))
  {
    hide Walk, Split, LastSlash;
    SplitParent(f);
    var comps := Split(f);
    assert ParentDir(comps) == comps[..|comps| - 1];
    var d := Walk(t, [], ParentDir(comps), MAX_LINKS).value;
    assert ParentDir(d + [comps[|comps| - 1]]) == d;
  }

  /** A path that names a place in a directory has a parent that opens, "/DFS" itself apart. */
  lemma ParentOpens(t: FileStore, f: string)
    requires '/' in f && EndsInName(f) && ParentPath(f) != "" && Locate(t, f).Ok?
    ensures !NoLock(t, f)
  {
    hide Walk, Split, LastSlash;
    SplitParent(f);
    var comps := Split(f);
    assert ParentDir(comps) == comps[..|comps| - 1];
    var d := Walk(t, [], ParentDir(comps), MAX_LINKS).value;
    assert ParentDir(d + [comps[|comps| - 1]]) == d;
  }

  // ------------------------------------------------- changes under locks

  /** The directories in which a mutation adds, removes or replaces an entry. */
  function Affected(t: FileStore, op: PathOp): set<Path> {
    match op
    case Rename(path, newpath) => EntryDir(t, Translate(path)) + EntryDir(t, Translate(newpath))
    case Mkdir(path, _) => EntryDir(t, Translate(path))
    case Rmdir(path) => EntryDir(t, Translate(path))
    case Mknod(path, _) => EntryDir(t, Translate(path))
    case Unlink(path) => EntryDir(t, Translate(path))
    case MakeSymlink(_, link) => EntryDir(t, Translate(link))
    case HardLink(_, newpath) => EntryDir(t, Translate(newpath))
    case _ => {}
  }

  function EntryDir(t: FileStore, f: string): set<Path> {
    if Locate(t, f).Ok? then {ParentDir(Locate(t, f).value)} else {}
  }

  function PlannedDirs(plan: Plan): set<Path> {
    match plan
    case Unlocked => {}
    case One(d) => {d}
    case Two(d, e) => {d, e}
    case Stuck(d) => {d}
  }

  /** The paths of a mutation end in a name, as the paths of a mount do. */
  predicate Named(op: PathOp) {
    match op
    case Rename(path, newpath) => EndsInName(Translate(path)) && EndsInName(Translate(newpath))
    case Mkdir(path, _) => EndsInName(Translate(path))
    case Rmdir(path) => EndsInName(Translate(path))
    case Mknod(path, _) => EndsInName(Translate(path))
    case Unlink(path) => EndsInName(Translate(path))
    case _ => true
  }

  lemma CleanEndsInName(ns: Path)
    requires Clean(ns) && ns != []
    ensures EndsInName(Translate(ClientPath(ns)))
  {
    hide Translate, ClientPath, Split, Join;
    SplitTranslate(ns);
    JoinAppend(ParentDir(Canonical(ns)), ns[|ns| - 1]);
    assert ParentDir(Canonical(ns)) + [ns[|ns| - 1]] == Canonical(ns);
    assert CleanName(ns[|ns| - 1]);
  }

  predicate LocksParents(op: PathOp) {
    op.Mkdir? || op.Rmdir? || op.Mknod? || op.Unlink? || op.Rename?
  }

  lemma NothingChangesUnlocked(t: FileStore, ip: string, op: PathOp)
    requires LocksParents(op) && !op.Rename? && Apply(t, ip, op).0 != t
    ensures var f := Translate(op.path); Locate(t, f).Ok? && !NoLock(t, f)
    ensures exists name :: PlanOf(t, ip, op) == ParentPlan(t, Translate(op.path), ip, name)
                           && !Denied(t, Translate(op.path), ip, name)
  {
    hide Locate, Denied, OpenDir, Empty, Translate, KindOfMode, ParentPlan, SetOwner;
    var name := match op
      case Mkdir(_, _) => "mkdir"
      case Rmdir(_) => "rmdir"
      case Mknod(_, _) => "mknod"
      case _ => "unlink";
    assert PlanOf(t, ip, op) == ParentPlan(t, Translate(op.path), ip, name);
  }

  /** What changes the tree locks exactly the directories it changes. */
  lemma LocksWhatItChanges(t: FileStore, ip: string, op: PathOp)
    requires LocksParents(op) && Named(op) && Apply(t, ip, op).0 != t
    ensures PlannedDirs(PlanOf(t, ip, op)) == Affected(t, op) && !PlanOf(t, ip, op).Stuck?
  {
    hide Apply, Locate, Denied, OpenDir, EndsInName, MoveNames, Empty;
    if op.Rename? {
      RenameChangesIff(t, ip, op);
      ParentIsDirectory(t, Translate(op.path));
      ParentIsDirectory(t, Translate(op.newpath));
    } else {
      NothingChangesUnlocked(t, ip, op);
      ParentIsDirectory(t, Translate(op.path));
    }
  }

  /**
   Mutual exclusion: while the lock on a directory is held, nothing but symlink
   and link changes an entry in it.
   */
  lemma HeldIsUnchanged(m: Machine, ip: string, op: PathOp)
    requires LocksParents(op) && Named(op) && Mutation(m, ip, op).0.store != m.store
    ensures forall d :: d in Affected(m.store, op) ==> Exists(m.store, d) && Inum(m.store, d) !in m.held
  {
    hide Apply, PlanOf, Affected;
    LocksWhatItChanges(m.store, ip, op);
  }

  /** symlink and link go ahead whoever holds the directory. */
  lemma LinksIgnoreLocks(m: Machine, ip: string, op: PathOp)
    requires op.MakeSymlink? || op.HardLink?
    ensures Mutation(m, ip, op) == (m.(store := Apply(m.store, ip, op).0), Answered(Status(Apply(m.store, ip, op).1)))
  {
  }
}
