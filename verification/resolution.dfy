/** How the kernel resolves a path, said by what it does with directories, files and links on the way. */
module Resolution {
  import opened Base
  import opened Paths
  import opened Kernel
  import opened CleanPaths

  /** Into a directory and back out again is nowhere. */
  lemma InAndOut(t: FileStore, dir: Path, n: string, rest: Path, links: nat)
    requires CleanName(n) && IsDir(t, dir + [n])
    ensures Walk(t, dir, [n, ".."] + rest, links) == Walk(t, dir, rest, links)
  {
    var comps := [n, ".."] + rest;
    assert comps[1..] == [".."] + rest && comps[1..][1..] == rest;
    assert ParentDir(dir + [n]) == dir;
  }

  /** A file ends the way, and so does a name that is not there. */
  lemma NoWayOn(t: FileStore, dir: Path, n: string, m: string, rest: Path, links: nat)
    requires CleanName(n)
    ensures !Exists(t, dir + [n]) ==> Walk(t, dir, [n] + rest, links) == Err(2)
    ensures IsKind(t, dir + [n], Regular) || IsKind(t, dir + [n], Special) ==>
              Walk(t, dir, [n, m] + rest, links) == Err(20) && Walk(t, dir, [n], links) == Ok(dir + [n])
  {
  }

  /** A link is replaced by its target: in the link's own directory if it is relative, else from the root. */
  lemma ThroughLink(t: FileStore, dir: Path, n: string, rest: Path, links: nat, ns: Path)
    requires CleanName(n) && IsKind(t, dir + [n], Symlink) && links > 0 && Clean(ns) && ns != []
    ensures Node(t, dir + [n]).target == Join(ns) ==>
              Walk(t, dir, [n] + rest, links) == Walk(t, [], ns + rest, links - 1)
    ensures Node(t, dir + [n]).target == Join(ns)[1..] ==>
              Walk(t, dir, [n] + rest, links) == Walk(t, dir, ns + rest, links - 1)
  {
    hide SplitFrom;
    var comps := [n] + rest;
    assert comps[1..] == rest;
    SplitAbsolute(ns);
    SplitRelative(ns);
  }

  lemma SplitAbsolute(ns: Path)
    requires Clean(ns) && ns != []
    ensures Join(ns) != "" && Join(ns)[0] == '/' && Split(Join(ns)) == ns
  {
    SplitJoin(ns, "");
    assert [] + ns == ns;
  }

  lemma SplitRelative(ns: Path)
    requires Clean(ns) && ns != []
    ensures Join(ns)[1..] != "" && Join(ns)[1..][0] != '/' && Split(Join(ns)[1..]) == ns
  {
    SplitAbsolute(ns);
    assert CleanName(ns[0]);
    assert Join(ns)[1..] == ns[0] + Join(ns[1..]);
    assert SplitFrom(Join(ns), "") == [] + SplitFrom(Join(ns)[1..], "");
    assert [] + SplitFrom(Join(ns)[1..], "") == SplitFrom(Join(ns)[1..], "");
  }

  /** A link to itself is followed forty times and then given up. */
  lemma {:induction false} SelfLink(t: FileStore, dir: Path, n: string, rest: Path, links: nat)
    requires CleanName(n) && IsKind(t, dir + [n], Symlink) && Node(t, dir + [n]).target == n
    ensures Walk(t, dir, [n] + rest, links) == Err(40) && MAX_LINKS == 40
    decreases links
  {
    if links > 0 {
      assert Join([n]) == "/" + n + "" && Join([n])[1..] == n;
      ThroughLink(t, dir, n, rest, links, [n]);
      SelfLink(t, dir, n, rest, links - 1);
    }
  }

  /** stat of a link is stat of its target, lstat is not. */
  lemma LstatStops(t: FileStore, n: string, m: string)
    requires CleanName(n) && CleanName(m) && IsDir(t, ["DFS"]) && IsKind(t, Top(n), Symlink)
    requires Node(t, Top(n)).target == m && Exists(t, Top(m)) && !IsKind(t, Top(m), Symlink)
    ensures LstatPath(t, "/DFS/" + n) == Ok(Top(n)) && Follow(t, "/DFS/" + n) == Ok(Top(m))
  {
    hide Split, Walk;
    TopPath(n);
    TopLocated(t, n);
    assert ["DFS"] + [n] == Top(n) && ["DFS"] + [m] == Top(m);
    WalkTop(t, n, MAX_LINKS);
    assert Join([m]) == "/" + m + "" && Join([m])[1..] == m;
    ThroughLink(t, ["DFS"], n, [], MAX_LINKS, [m]);
    LastStep(t, ["DFS"], m, MAX_LINKS - 1);
    assert [n] + [] == [n] && [m] + [] == [m];
  }

  lemma LastStep(t: FileStore, dir: Path, m: string, links: nat)
    requires CleanName(m) && Exists(t, dir + [m]) && !IsKind(t, dir + [m], Symlink)
    ensures Walk(t, dir, [m], links) == Ok(dir + [m])
  {
    assert [m][1..] == [];
  }
}
