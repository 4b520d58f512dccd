/**
 The file system under a server, as specified system calls on a store of
 inodes. A reference to an inode is a name (a canonical path from "/") or an
 open descriptor; hard links are two names of one inode. The server runs as
 root, so the kernel's own permission checks always pass.
 */
module Kernel {
  import opened Base

  const EPERM: int := 1
  const ENOENT: int := 2
  const EBADF: int := 9
  const EACCES: int := 13
  const EBUSY: int := 16
  const EEXIST: int := 17
  const ENOTDIR: int := 20
  const EISDIR: int := 21
  const EINVAL: int := 22
  const ESPIPE: int := 29
  const ENOTEMPTY: int := 39
  const ELOOP: int := 40

  predicate IsErrno(e: int) {
    0 < e < 200
  }

  /** How many symbolic links one resolution may follow. */
  const MAX_LINKS: nat := 40

  /** The id that tells chown to leave the owner as it is: (uid_t) -1. */
  const KEEP_ID: nat := TWO32 - 1

  type Path = seq<string>

  datatype Kind = Directory | Regular | Symlink | Special

  datatype Inode = Inode(kind: Kind, perm: nat, uid: nat, gid: nat, data: seq<byte>, target: string)

  datatype Ref = Name(path: Path) | Handle(fd: int)

  /** Inode numbers are handed out from next; two servers never share numbers. */
  datatype Store = Store(refs: map<Ref, nat>, inodes: map<nat, Inode>, next: nat)

  ghost predicate Valid(t: Store) {
    && (forall x :: x in t.refs ==> t.refs[x] in t.inodes)
    && (forall i :: i in t.inodes ==> i < t.next)
  }

  type FileStore = t: Store | Valid(t) witness Store(map[], map[], 0)

  predicate Exists(t: Store, p: Path) {
    Name(p) in t.refs
  }

  function Node(t: FileStore, p: Path): Inode
    requires Exists(t, p)
  {
    t.inodes[t.refs[Name(p)]]
  }

  predicate IsKind(t: FileStore, p: Path, k: Kind) {
    Exists(t, p) && Node(t, p).kind == k
  }

  predicate IsDir(t: FileStore, p: Path) {
    IsKind(t, p, Directory)
  }

  /** No name lies strictly below p. */
  predicate Empty(t: Store, p: Path) {
    forall x | x in t.refs :: x.Name? && p <= x.path ==> x.path == p
  }

  // ------------------------------------------------------ path resolution

  /** The components of a path string; repeated slashes count once. */
  function Split(s: string): Path {
    SplitFrom(s, "")
  }

  function SplitFrom(s: string, cur: string): Path {
    var done := if cur == "" then [] else [cur];
    if s == "" then done
    else if s[0] == '/' then done + SplitFrom(s[1..], "")
    else SplitFrom(s[1..], cur + [s[0]])
  }

  function ParentDir(p: Path): Path {
    if p == [] then [] else p[..|p| - 1]
  }

  /** Resolve all components below dir, following every symbolic link met. */
  function Walk(t: FileStore, dir: Path, comps: Path, links: nat): (r: Result<Path>)
    ensures r.Err? ==> IsErrno(r.errno)
    decreases links, |comps|
  {
    if comps == [] then Ok(dir)
    else if comps[0] == "." then Walk(t, dir, comps[1..], links)
    else if comps[0] == ".." then Walk(t, ParentDir(dir), comps[1..], links)
    else
      var p := dir + [comps[0]];
      if !Exists(t, p) then Err(ENOENT)
      else match Node(t, p).kind
        case Directory => Walk(t, p, comps[1..], links)
        case Symlink =>
          if links == 0 then Err(ELOOP)
          else
            var target := Node(t, p).target;
            var base := if target != "" && target[0] == '/' then [] else dir;
            Walk(t, base, Split(target) + comps[1..], links - 1)
        case _ => if |comps| == 1 then Ok(p) else Err(ENOTDIR)
  }

  /** A path resolved to an existing object, a final link being followed. */
  function Follow(t: FileStore, s: string): (r: Result<Path>)
    ensures r.Ok? ==> Exists(t, r.value)
    ensures r.Err? ==> IsErrno(r.errno)
  {
    if s == "" then Err(ENOENT)
    else match Walk(t, [], Split(s), MAX_LINKS)
      case Err(e) => Err(e)
      case Ok(p) => if Exists(t, p) then Ok(p) else Err(ENOENT)
  }

  predicate Dots(c: string) {
    c == "." || c == ".."
  }

  /** The directory entry a path names, which may not exist yet; a final link is not followed. */
  function Locate(t: FileStore, s: string): (r: Result<Path>)
    ensures r.Ok? ==> r.value != [] && IsDir(t, ParentDir(r.value))
    ensures r.Err? ==> IsErrno(r.errno)
  {
    var comps := Split(s);
    if comps == [] || Dots(comps[|comps| - 1]) then Err(EBUSY)
    else match Walk(t, [], comps[..|comps| - 1], MAX_LINKS)
      case Err(e) => Err(e)
      case Ok(d) =>
        if !IsDir(t, d) then Err(ENOTDIR)
        else
          assert ParentDir(d + [comps[|comps| - 1]]) == d;
          Ok(d + [comps[|comps| - 1]])
  }

  /** The object lstat looks at. */
  function LstatPath(t: FileStore, s: string): (r: Result<Path>)
    ensures r.Ok? ==> Exists(t, r.value)
    ensures r.Err? ==> IsErrno(r.errno)
  {
    var comps := Split(s);
    if comps == [] || Dots(comps[|comps| - 1]) then Follow(t, s)
    else match Locate(t, s)
      case Err(e) => Err(e)
      case Ok(p) => if Exists(t, p) then Ok(p) else Err(ENOENT)
  }

  // ------------------------------------------------------------ edits

  /** A new reference to a new inode. */
  function AddNode(t: FileStore, x: Ref, n: Inode): FileStore {
    Store(t.refs[x := t.next], t.inodes[t.next := n], t.next + 1)
  }

  function AddRef(t: FileStore, x: Ref, y: Ref): FileStore
    requires y in t.refs
  {
    t.(refs := t.refs[x := t.refs[y]])
  }

  function DropRef(t: FileStore, x: Ref): FileStore {
    t.(refs := t.refs - {x})
  }

  function SetNode(t: FileStore, x: Ref, n: Inode): FileStore
    requires x in t.refs
  {
    t.(inodes := t.inodes[t.refs[x] := n])
  }

  /** q with its prefix a replaced by b. */
  function Rebase(a: Path, b: Path, q: Path): Path
    requires a <= q
  {
    b + q[|a|..]
  }

  /** The reference whose inode x refers to once a has been moved to b. */
  function MovedFrom(a: Path, b: Path, x: Ref): Option<Ref> {
    if x.Handle? then Some(x)
    else if b <= x.path then Some(Name(a + x.path[|b|..]))
    else if a <= x.path then None
    else Some(x)
  }

  lemma MovedFromRebased(a: Path, b: Path, p: Path)
    requires a <= p && !(a <= b) && !(b <= a)
    ensures MovedFrom(a, b, Name(Rebase(a, b, p))) == Some(Name(p))
  {
    assert a + Rebase(a, b, p)[|b|..] == p;
  }

  lemma RebasedMovedFrom(a: Path, b: Path, p: Path)
    requires b <= p
    ensures Rebase(a, b, a + p[|b|..]) == p
  {
    assert (a + p[|b|..])[|a|..] == p[|b|..];
  }

  /** The references left after a move of a to b. */
  function RefsAfterMove(refs: set<Ref>, a: Path, b: Path): (moved: set<Ref>)
    requires !(a <= b) && !(b <= a)
    ensures forall x :: x in moved <==> MovedFrom(a, b, x).Some? && MovedFrom(a, b, x).value in refs
  {
    var stay := set x | x in refs && !(x.Name? && (a <= x.path || b <= x.path));
    var go := set x | x in refs && x.Name? && a <= x.path :: Name(Rebase(a, b, x.path));
    assert forall x :: x in go ==> MovedFrom(a, b, x).Some? && MovedFrom(a, b, x).value in refs by {
      forall x | x in go
        ensures MovedFrom(a, b, x).Some? && MovedFrom(a, b, x).value in refs
      {
        var y :| y in refs && y.Name? && a <= y.path && x == Name(Rebase(a, b, y.path));
        MovedFromRebased(a, b, y.path);
      }
    }
    assert forall x :: MovedFrom(a, b, x).Some? && MovedFrom(a, b, x).value in refs ==> x in stay + go by {
      forall x | MovedFrom(a, b, x).Some? && MovedFrom(a, b, x).value in refs
        ensures x in stay + go
      {
        if x.Name? && b <= x.path {
          RebasedMovedFrom(a, b, x.path);
          assert MovedFrom(a, b, x).value.path == a + x.path[|b|..];
        }
      }
    }
    stay + go
  }

  /** Names under a move to b; what was at or under b goes away. */
  function MoveNames(t: FileStore, a: Path, b: Path): (t': FileStore)
    requires !(a <= b) && !(b <= a)
    ensures forall x :: x in t'.refs <==> MovedFrom(a, b, x).Some? && MovedFrom(a, b, x).value in t.refs
    ensures forall x :: x in t'.refs ==> t'.refs[x] == t.refs[MovedFrom(a, b, x).value]
    ensures t'.inodes == t.inodes && t'.next == t.next
  {
    var left := RefsAfterMove(t.refs.Keys, a, b);
    t.(refs := map x | x in left :: t.refs[MovedFrom(a, b, x).value])
  }

  // ------------------------------------------------------ system calls

  /** A path system call neither opens nor closes descriptors. */
  ghost predicate KeepsHandles(t: Store, r: Result<Store>) {
    r.Ok? ==> forall fd :: Handle(fd) in r.value.refs <==> Handle(fd) in t.refs
  }

  /** A system call that takes no name away. */
  ghost predicate KeepsRefs(t: Store, r: Result<Store>) {
    r.Ok? ==> forall x :: x in t.refs ==> x in r.value.refs
  }

  function SysMkdir(t: FileStore, s: string, mode: int): (r: Result<FileStore>)
    ensures KeepsHandles(t, r) && KeepsRefs(t, r)
  {
    Create(t, s, Inode(Directory, mode % 4096, 0, 0, [], ""))
  }

  function Create(t: FileStore, s: string, n: Inode): (r: Result<FileStore>)
    ensures KeepsHandles(t, r) && KeepsRefs(t, r)
  {
    match Locate(t, s)
    case Err(e) => Err(e)
    case Ok(p) => if Exists(t, p) then Err(EEXIST) else Ok(AddNode(t, Name(p), n))
  }

  function SysRmdir(t: FileStore, s: string): (r: Result<FileStore>)
    ensures KeepsHandles(t, r)
    ensures r.Ok? ==> Locate(t, s).Ok? && r.value == DropRef(t, Name(Locate(t, s).value))
  {
    match Locate(t, s)
    case Err(e) => Err(e)
    case Ok(p) =>
      if !Exists(t, p) then Err(ENOENT)
      else if !IsDir(t, p) then Err(ENOTDIR)
      else if !Empty(t, p) then Err(ENOTEMPTY)
      else Ok(DropRef(t, Name(p)))
  }

  function SysUnlink(t: FileStore, s: string): (r: Result<FileStore>)
    ensures KeepsHandles(t, r)
    ensures r.Ok? ==> Locate(t, s).Ok? && r.value == DropRef(t, Name(Locate(t, s).value))
  {
    match Locate(t, s)
    case Err(e) => Err(e)
    case Ok(p) =>
      if !Exists(t, p) then Err(ENOENT)
      else if IsDir(t, p) then Err(EISDIR)
      else Ok(DropRef(t, Name(p)))
  }

  function SysSymlink(t: FileStore, target: string, s: string): (r: Result<FileStore>)
    ensures KeepsHandles(t, r) && KeepsRefs(t, r)
  {
    if target == "" then Err(ENOENT)
    else Create(t, s, Inode(Symlink, 511, 0, 0, [], target))
  }

  function SysLink(t: FileStore, s: string, s': string): (r: Result<FileStore>)
    ensures KeepsHandles(t, r) && KeepsRefs(t, r)
  {
    match LstatPath(t, s)
    case Err(e) => Err(e)
    case Ok(p) =>
      match Locate(t, s')
      case Err(e) => Err(e)
      case Ok(p') =>
        if Exists(t, p') then Err(EEXIST)
        else if IsDir(t, p) then Err(EPERM)
        else Ok(AddRef(t, Name(p'), Name(p)))
  }

  /** What mknod and its siblings create, by the file type bits of the mode. */
  function KindOfMode(mode: int): Result<Kind> {
    match (mode / 4096) % 16
    case 0 => Ok(Regular)
    case 8 => Ok(Regular)
    case 1 => Ok(Special)
    case 2 => Ok(Special)
    case 6 => Ok(Special)
    case 12 => Ok(Special)
    case 4 => Err(EPERM)
    case _ => Err(EINVAL)
  }

  /** open(O_CREAT | O_EXCL), mkfifo or mknod: all three refuse an existing entry. */
  function SysMknod(t: FileStore, s: string, mode: int): (r: Result<FileStore>)
    ensures KeepsHandles(t, r) && KeepsRefs(t, r)
  {
    match KindOfMode(mode)
    case Err(e) => Err(e)
    case Ok(k) => Create(t, s, Inode(k, mode % 4096, 0, 0, [], ""))
  }

  function SysRename(t: FileStore, s: string, s': string): (r: Result<FileStore>)
    ensures KeepsHandles(t, r)
  {
    match Locate(t, s)
    case Err(e) => Err(e)
    case Ok(a) =>
      match Locate(t, s')
      case Err(e) => Err(e)
      case Ok(b) => RenameEntry(t, a, b)
  }

  function RenameEntry(t: FileStore, a: Path, b: Path): (r: Result<FileStore>)
    ensures KeepsHandles(t, r)
  {
    if !Exists(t, a) then Err(ENOENT)
    else if Exists(t, b) && t.refs[Name(a)] == t.refs[Name(b)] then Ok(t)
    else if a <= b then Err(EINVAL)
    else if b <= a then Err(ENOTEMPTY)
    else if Exists(t, b) && IsDir(t, a) && !IsDir(t, b) then Err(ENOTDIR)
    else if Exists(t, b) && !IsDir(t, a) && IsDir(t, b) then Err(EISDIR)
    else if IsDir(t, b) && !Empty(t, b) then Err(ENOTEMPTY)
    else Ok(MoveNames(t, a, b))
  }

  function Resize(data: seq<byte>, n: nat): (r: seq<byte>)
    ensures |r| == n
  {
    if n <= |data| then data[..n] else data + Fill(n - |data|, 0)
  }

  function SysTruncate(t: FileStore, s: string, size: int): (r: Result<FileStore>)
    ensures KeepsHandles(t, r) && KeepsRefs(t, r)
  {
    if size < 0 then Err(EINVAL)
    else match Follow(t, s)
      case Err(e) => Err(e)
      case Ok(p) =>
        match Node(t, p).kind
        case Directory => Err(EISDIR)
        case Regular => Ok(SetNode(t, Name(p), Node(t, p).(data := Resize(Node(t, p).data, size))))
        case _ => Err(EINVAL)
  }

  function SysUtime(t: FileStore, s: string): (r: Result<FileStore>)
    ensures KeepsHandles(t, r) && KeepsRefs(t, r)
  {
    match Follow(t, s)
    case Err(e) => Err(e)
    case Ok(p) => Ok(t)
  }

  function SysChmod(t: FileStore, s: string, mode: int): (r: Result<FileStore>)
    ensures KeepsHandles(t, r) && KeepsRefs(t, r)
  {
    match Follow(t, s)
    case Err(e) => Err(e)
    case Ok(p) => Ok(SetNode(t, Name(p), Node(t, p).(perm := mode % 4096)))
  }

  function Own(n: Inode, uid: nat, gid: nat): Inode {
    n.(uid := if uid == KEEP_ID then n.uid else uid,
       gid := if gid == KEEP_ID then n.gid else gid)
  }

  function SysChown(t: FileStore, s: string, uid: nat, gid: nat): (r: Result<FileStore>)
    ensures KeepsHandles(t, r) && KeepsRefs(t, r)
  {
    match Follow(t, s)
    case Err(e) => Err(e)
    case Ok(p) => Ok(SetNode(t, Name(p), Own(Node(t, p), uid, gid)))
  }

  function SysLchown(t: FileStore, s: string, uid: nat, gid: nat): (r: Result<FileStore>)
    ensures KeepsHandles(t, r) && KeepsRefs(t, r)
  {
    match LstatPath(t, s)
    case Err(e) => Err(e)
    case Ok(p) => Ok(SetNode(t, Name(p), Own(Node(t, p), uid, gid)))
  }

  // ------------------------------------------------------- file contents

  /** pwrite on an ordinary descriptor; a gap before the offset reads as zeros. */
  function PWrite(data: seq<byte>, d: seq<byte>, offset: nat): seq<byte> {
    if d == [] then data
    else
      var base := if offset <= |data| then data else data + Fill(offset - |data|, 0);
      base[..offset] + d + (if offset + |d| <= |base| then base[offset + |d|..] else [])
  }

  /** pwrite on an O_APPEND descriptor: the offset is ignored. */
  function Append(data: seq<byte>, d: seq<byte>): seq<byte> {
    data + d
  }

  /** The two coincide exactly when nothing is written or the offset is the end of the file. */
  lemma AppendIsPWriteIff(data: seq<byte>, d: seq<byte>, offset: nat)
    ensures Append(data, d) == PWrite(data, d, offset) <==> d == [] || offset == |data|
  {
    if d != [] {
      var w := PWrite(data, d, offset);
      if offset < |data| {
        assert |w| == (if offset + |d| <= |data| then |data| else offset + |d|);
        assert |w| < |Append(data, d)|;
      } else {
        assert |w| == offset + |d|;
        if offset == |data| {
          assert data[..offset] == data;
        }
      }
    }
  }

  function PRead(data: seq<byte>, size: nat, offset: nat): seq<byte> {
    if offset >= |data| then [] else data[offset..Min(offset + size, |data|)]
  }
}
