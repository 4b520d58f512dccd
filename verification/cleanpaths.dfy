/** Clean client paths, as a FUSE mount sends them, and how they resolve. */
module CleanPaths {
  import opened Base
  import opened Paths
  import opened Kernel

  predicate CleanName(n: string) {
    n != "" && SlashFree(n) && !Dots(n)
  }

  predicate Clean(ns: Path) {
    forall i :: 0 <= i < |ns| ==> CleanName(ns[i])
  }

  /** "/" + n0 + "/" + n1 ... */
  function Join(ns: Path): string {
    if ns == [] then "" else "/" + ns[0] + Join(ns[1..])
  }

  function ClientPath(ns: Path): string {
    if ns == [] then "/" else Join(ns)
  }

  /** Where the tree keeps a clean client path. */
  function Canonical(ns: Path): Path {
    ["DFS"] + ns
  }

  lemma {:induction false} SplitName(n: string, cur: string, rest: string)
    requires SlashFree(n)
    ensures SplitFrom(n + rest, cur) == SplitFrom(rest, cur + n)
  {
    if n == "" {
      assert n + rest == rest && cur + n == cur;
    } else {
      SplitName(n[1..], cur + [n[0]], rest);
      assert (n + rest)[1..] == n[1..] + rest;
      assert cur + [n[0]] + n[1..] == cur + n;
    }
  }

  lemma {:induction false} SplitJoin(ns: Path, cur: string)
    requires Clean(ns)
    ensures SplitFrom(Join(ns), cur) == (if cur == "" then [] else [cur]) + ns
  {
    if ns != [] {
      var rest := Join(ns[1..]);
      assert Join(ns) == "/" + (ns[0] + rest);
      assert Join(ns)[1..] == ns[0] + rest;
      SplitName(ns[0], "", rest);
      assert "" + ns[0] == ns[0];
      SplitJoin(ns[1..], ns[0]);
      assert [ns[0]] + ns[1..] == ns;
    } else {
      assert (if cur == "" then [] else [cur]) + ns == (if cur == "" then [] else [cur]);
    }
  }

  /** A translated clean path splits into its canonical names. */
  lemma SplitTranslate(ns: Path)
    requires Clean(ns)
    ensures Translate(ClientPath(ns)) == Join(Canonical(ns))
    ensures Split(Translate(ClientPath(ns))) == Canonical(ns)
  {
    assert Canonical(ns)[1..] == ns;
    assert PREFIX == "/" + "DFS";
    SplitJoin(Canonical(ns), "");
    assert [] + Canonical(ns) == Canonical(ns);
    if ns != [] {
      assert ClientPath(ns)[0] == '/';
      assert |ClientPath(ns)| >= 2;
    }
  }

  lemma {:induction false} JoinAppend(ns: Path, n: string)
    ensures Join(ns + [n]) == Join(ns) + "/" + n
  {
    if ns == [] {
      assert [n][1..] == [];
    } else {
      JoinAppend(ns[1..], n);
      assert (ns + [n])[1..] == ns[1..] + [n];
    }
  }

  /** The parent string of a clean path is the translation of its clean parent. */
  lemma CleanParent(ns: Path)
    requires Clean(ns) && ns != []
    ensures ParentPath(Translate(ClientPath(ns))) == Translate(ClientPath(ns[..|ns| - 1]))
  {
    var up, n := ns[..|ns| - 1], ns[|ns| - 1];
    assert up + [n] == ns;
    JoinAppend(up, n);
    assert CleanName(n);
    assert ClientPath(up) != "" by {
      if up != [] { assert Join(up)[0] == '/'; }
    }
    assert up != [] ==> Join(up) != "/" by {
      if up != [] { assert CleanName(up[0]); assert |Join(up)| >= 2; }
    }
    assert JoinPath(ClientPath(up), n) == ClientPath(ns);
    ParentCommutes(ClientPath(up), n);
  }

  /** Distinct clean paths are distinct strings on the server. */
  lemma CleanInjective(ns: Path, ms: Path)
    requires Clean(ns) && Clean(ms)
    requires Translate(ClientPath(ns)) == Translate(ClientPath(ms))
    ensures ns == ms
  {
    SplitTranslate(ns);
    SplitTranslate(ms);
    assert Canonical(ns)[1..] == ns && Canonical(ms)[1..] == ms;
  }

  /** No proper ancestor of the canonical path p below position k is a symbolic link. */
  predicate NoLinkAbove(t: FileStore, p: Path) {
    forall k :: 0 < k < |p| ==> !IsKind(t, p[..k], Symlink)
  }

  /** Without links on the way, a clean walk is the identity. */
  lemma {:induction false} WalkClean(t: FileStore, dir: Path, comps: Path, links: nat)
    requires Clean(comps)
    requires forall k :: |dir| < k <= |dir + comps| ==> !IsKind(t, (dir + comps)[..k], Symlink)
    ensures Walk(t, dir, comps, links).Ok? ==> Walk(t, dir, comps, links).value == dir + comps
    decreases |comps|
  {
    if comps == [] {
      assert dir + comps == dir;
    } else {
      assert CleanName(comps[0]);
      var p := dir + [comps[0]];
      assert (dir + comps)[..|dir| + 1] == p;
      assert p + comps[1..] == dir + comps;
      WalkClean(t, p, comps[1..], links);
      if |comps| == 1 {
        assert comps[1..] == [];
      }
    }
  }

  /** A clean path whose ancestors are not links denotes its canonical entry. */
  lemma LocateClean(t: FileStore, ns: Path)
    requires Clean(ns) && ns != [] && NoLinkAbove(t, Canonical(ns))
    ensures var r := Locate(t, Translate(ClientPath(ns))); r.Ok? ==> r.value == Canonical(ns)
    ensures var r := LstatPath(t, Translate(ClientPath(ns))); r.Ok? ==> r.value == Canonical(ns)
  {
    hide Walk, Split, Translate, ClientPath;
    SplitTranslate(ns);
    var comps := Canonical(ns);
    var up := comps[..|comps| - 1];
    assert CleanName(comps[|comps| - 1]);
    assert [] + up == up;
    forall k | 0 < k <= |up|
      ensures !IsKind(t, up[..k], Symlink)
    {
      assert up[..k] == comps[..k];
    }
    assert Clean(Canonical(ns)) by { assert CleanName("DFS"); }
    WalkClean(t, [], up, MAX_LINKS);
    assert up + [comps[|comps| - 1]] == comps;
  }

  /** The same for a path that is followed to its end. */
  lemma FollowClean(t: FileStore, ns: Path)
    requires Clean(ns) && NoLinkAbove(t, Canonical(ns)) && !IsKind(t, Canonical(ns), Symlink)
    ensures var r := Follow(t, Translate(ClientPath(ns))); r.Ok? ==> r.value == Canonical(ns)
  {
    SplitTranslate(ns);
    var comps := Canonical(ns);
    assert [] + comps == comps;
    forall k | 0 < k <= |comps|
      ensures !IsKind(t, comps[..k], Symlink)
    {
      assert k == |comps| ==> comps[..k] == comps;
    }
    assert Clean(Canonical(ns)) by { assert CleanName("DFS"); }
    WalkClean(t, [], comps, MAX_LINKS);
  }

  // ------------------------------------------- one and two levels below /DFS

  function Top(n: string): Path {
    ["DFS", n]
  }

  function Below(n: string, m: string): Path {
    ["DFS", n, m]
  }

  lemma WalkTop(t: FileStore, n: string, links: nat)
    requires CleanName(n) && IsDir(t, ["DFS"])
    ensures Walk(t, [], ["DFS"], links) == Ok(["DFS"])
    ensures Walk(t, [], Top(n), links) == Walk(t, ["DFS"], [n], links)
    ensures IsDir(t, Top(n)) ==> Walk(t, [], Top(n), links) == Ok(Top(n))
  {
    assert [] + ["DFS"] == ["DFS"] && ["DFS"][1..] == [] && Top(n)[1..] == [n] && [n][1..] == [];
    assert Walk(t, ["DFS"], [], links) == Ok(["DFS"]);
    assert ["DFS"] + [n] == Top(n);
    assert Walk(t, Top(n), [], links) == Ok(Top(n));
  }

  lemma TopPath(n: string)
    requires CleanName(n)
    ensures Translate("/" + n) == "/DFS/" + n && Split("/DFS/" + n) == Top(n)
    ensures ParentPath("/DFS/" + n) == "/DFS" && Split("/DFS") == ["DFS"]
  {
    assert Clean([n]) && Clean([]);
    assert [n][1..] == [] && Join([]) == "" && ClientPath([n]) == "/" + n;
    SplitTranslate([n]);
    SplitTranslate([]);
    LastSlashBeforeName("/DFS", n);
    assert "/DFS" + "/" + n == "/DFS/" + n;
  }

  /** With /DFS in place, a path of one name leads to its entry there, and the parent string to /DFS. */
  lemma TopLocated(t: FileStore, n: string)
    requires CleanName(n) && IsDir(t, ["DFS"])
    ensures Locate(t, "/DFS/" + n) == Ok(Top(n)) && Follow(t, "/DFS") == Ok(["DFS"])
  {
    TopPath(n);
    WalkTop(t, n, MAX_LINKS);
    assert Top(n)[..1] == ["DFS"] && ["DFS"] + [n] == Top(n);
    hide Walk, Split;
  }

  lemma BelowPath(n: string, m: string)
    requires CleanName(n) && CleanName(m)
    ensures Translate("/" + n + "/" + m) == "/DFS/" + n + "/" + m
    ensures Split("/DFS/" + n + "/" + m) == Below(n, m)
    ensures ParentPath("/DFS/" + n + "/" + m) == "/DFS/" + n
  {
    assert Clean([n, m]);
    JoinAppend([n], m);
    assert [n][1..] == [] && [n] + [m] == [n, m] && Join([]) == "";
    assert ClientPath([n, m]) == "/" + n + "/" + m;
    SplitTranslate([n, m]);
    LastSlashBeforeName("/DFS/" + n, m);
    assert ("/DFS/" + n) + "/" + m == "/DFS/" + n + "/" + m;
  }
}
