/**
 The server's path strings: a client path is translated into /DFS, and the
 parent of a full path is cut off at its last slash. The C code works in
 200-byte buffers; the methods below do the same and are proved against the
 string functions.
 */
module Paths {
  import opened Base

  const PREFIX: string := "/DFS"

  ghost predicate NulFree(s: string) {
    forall i :: 0 <= i < |s| ==> s[i] != '\0'
  }

  /** The translated path and its terminator fit the server's buffers. */
  ghost predicate Fits(path: string) {
    NulFree(path) && |Translate(path)| < MAX_PATH_LEN
  }

  predicate SlashFree(s: string) {
    '/' !in s
  }

  function Translate(path: string): (f: string)
    ensures |f| >= 4 && f[..4] == PREFIX && '/' in f
  {
    assert PREFIX[0] == '/';
    if path == "/" then PREFIX
    else if path == "" || path[0] != '/' then PREFIX + "/" + path
    else PREFIX + path
  }

  /** Index of the last slash, or -1. */
  function LastSlash(s: string): (idx: int)
    ensures -1 <= idx < |s|
    ensures idx >= 0 ==> s[idx] == '/'
    ensures forall j :: idx < j < |s| ==> s[j] != '/'
  {
    if s == "" then -1
    else if s[|s| - 1] == '/' then |s| - 1
    else LastSlash(s[..|s| - 1])
  }

  function ParentPath(f: string): string
    requires '/' in f
  {
    f[..LastSlash(f)]
  }

  // ---------------------------------------------------------------- laws

  lemma LastSlashIs(s: string, k: nat)
    requires k < |s| && s[k] == '/' && SlashFree(s[k + 1..])
    ensures LastSlash(s) == k && '/' in s
  {
    var idx := LastSlash(s);
    assert forall j :: k < j < |s| ==> s[j] == s[k + 1..][j - k - 1];
  }

  /** The last slash is the one before a slash-free tail. */
  lemma LastSlashBeforeName(dir: string, n: string)
    requires SlashFree(n)
    ensures '/' in dir + "/" + n && LastSlash(dir + "/" + n) == |dir| && ParentPath(dir + "/" + n) == dir
  {
    var s := dir + "/" + n;
    assert s[|dir| + 1..] == n;
    LastSlashIs(s, |dir|);
    assert s[..|dir|] == dir;
  }

  /** The client-side child of a directory path. */
  function JoinPath(p: string, n: string): string {
    if p == "/" then "/" + n else p + "/" + n
  }

  /** Translation commutes with taking the parent, and the pieces rebuild the full path. */
  lemma ParentCommutes(p: string, n: string)
    requires p != "" && n != "" && SlashFree(n)
    ensures '/' in Translate(JoinPath(p, n))
    ensures ParentPath(Translate(JoinPath(p, n))) == Translate(p)
    ensures Translate(p) + "/" + n == Translate(JoinPath(p, n))
  {
    var f := Translate(JoinPath(p, n));
    assert f == Translate(p) + "/" + n;
    LastSlashBeforeName(Translate(p), n);
  }

  /** The parent is the shared root exactly for top-level paths, "/" itself excluded. */
  lemma ParentIsRootIff(q: string)
    ensures '/' in Translate(q)
    ensures ParentPath(Translate(q)) == PREFIX
       <==> (if q != "" && q[0] == '/' then |q| >= 2 && SlashFree(q[1..]) else SlashFree(q))
  {
    var f := Translate(q);
    if q == "/" {
      assert f == "" + "/" + "DFS";
      LastSlashBeforeName("", "DFS");
    } else {
      var tail := if q != "" && q[0] == '/' then q[1..] else q;
      assert f == PREFIX + "/" + tail;
      if SlashFree(tail) {
        LastSlashBeforeName(PREFIX, tail);
      } else {
        var k :| 0 <= k < |tail| && tail[k] == '/';
        assert f[5 + k] == '/';
        assert LastSlash(f) >= 5 + k;
        assert |ParentPath(f)| == LastSlash(f);
      }
    }
  }

  /** Two client paths share a full path only when they differ by the optional leading slash. */
  lemma TranslateInjectiveIff(p: string, q: string)
    ensures Translate(p) == Translate(q)
       <==> p == q || LeadingSlashOnly(p, q) || LeadingSlashOnly(q, p)
  {
    var a, b := Translate(p), Translate(q);
    assert a[..4] == PREFIX && b[..4] == PREFIX;
    assert a[4..] == (if p == "/" then "" else if p == "" || p[0] != '/' then "/" + p else p);
    assert b[4..] == (if q == "/" then "" else if q == "" || q[0] != '/' then "/" + q else q);
    assert ("/" + p)[1..] == p && ("/" + q)[1..] == q;
    if a == b {
      assert a[4..] == b[4..];
    }
  }

  /** p is q with a slash put in front, q being a path without one. */
  predicate LeadingSlashOnly(p: string, q: string) {
    q != "" && q[0] != '/' && p == "/" + q
  }

  // -------------------------------------------------- the buffers in place

  /** What a char buffer holds: the string s and then only NULs. */
  ghost predicate Holds(b: seq<char>, s: string) {
    |s| < |b| && b == s + Fill(|b| - |s|, '\0')
  }

  method Memset(buf: array<char>, n: nat)
    requires n <= buf.Length
    modifies buf
    ensures buf[..] == Fill(n, '\0') + old(buf[n..])
  {
    for i := 0 to n
      invariant forall k :: 0 <= k < i ==> buf[k] == '\0'
      invariant forall k :: i <= k < buf.Length ==> buf[k] == old(buf[k])
    {
      buf[i] := '\0';
    }
  }

  /** Copies src[..n] to buf from position at; the callers always pass n <= strlen(src). */
  method CopyAt(buf: array<char>, at: nat, src: string, n: nat)
    requires n <= |src| && at + n <= buf.Length
    modifies buf
    ensures buf[..] == old(buf[..at]) + src[..n] + old(buf[at + n..])
  {
    for i := 0 to n
      invariant forall k :: 0 <= k < buf.Length && !(at <= k < at + i) ==> buf[k] == old(buf[k])
      invariant forall k :: 0 <= k < i ==> buf[at + k] == src[k]
    {
      buf[at + i] := src[i];
    }
  }

  /** strncat: find the terminator, then copy behind it. */
  method Concatenate(buf: array<char>, ghost s: string, src: string)
    requires NulFree(s) && Holds(buf[..], s) && |s| + |src| < buf.Length
    modifies buf
    ensures Holds(buf[..], s + src)
  {
    var end := 0;
    assert buf[|s|] == '\0';
    while buf[end] != '\0'
      invariant 0 <= end <= |s|
      decreases |s| - end
    {
      end := end + 1;
    }
    CopyAt(buf, end, src, |src|);
    assert buf[..] == s + src + Fill(buf.Length - |s + src|, '\0');
  }

  method TranslateAbspath(buf: array<char>, path: string)
    requires buf.Length == MAX_PATH_LEN && Fits(path)
    modifies buf
    ensures Holds(buf[..], Translate(path))
  {
    Memset(buf, MAX_PATH_LEN);
    CopyAt(buf, 0, PREFIX, |PREFIX|);
    assert Holds(buf[..], PREFIX);
    if path == "/" {
      return;
    }
    ghost var s := PREFIX;
    if path == "" || path[0] != '/' {
      buf[4] := '/';
      s := PREFIX + "/";
      assert buf[..] == s + Fill(buf.Length - |s|, '\0');
    }
    Concatenate(buf, s, path);
    assert s + path == Translate(path);
  }

  method GetLastSlash(fpath: string) returns (idx: int)
    ensures idx == LastSlash(fpath)
  {
    idx := -1;
    for ptr := 0 to |fpath|
      invariant idx == LastSlash(fpath[..ptr])
    {
      assert fpath[..ptr + 1][..ptr] == fpath[..ptr];
      if fpath[ptr] == '/' {
        idx := ptr;
      }
    }
    assert fpath[..|fpath|] == fpath;
  }

  method GetParentPath(buf: array<char>, fpath: string)
    requires buf.Length == MAX_PATH_LEN && '/' in fpath && |fpath| < MAX_PATH_LEN
    modifies buf
    ensures Holds(buf[..], ParentPath(fpath))
  {
    Memset(buf, MAX_PATH_LEN);
    var lastSlashIdx := GetLastSlash(fpath);
    assert lastSlashIdx >= 0 by {
      var k :| 0 <= k < |fpath| && fpath[k] == '/';
    }
    CopyAt(buf, 0, fpath, lastSlashIdx);
  }

  /** The C string in a buffer: everything before the first NUL. */
  method ReadString(buf: array<char>, ghost s: string) returns (r: string)
    requires NulFree(s) && Holds(buf[..], s)
    ensures r == s
  {
    var end := 0;
    assert buf[|s|] == '\0';
    while buf[end] != '\0'
      invariant 0 <= end <= |s|
      decreases |s| - end
    {
      end := end + 1;
    }
    r := buf[..end];
  }

  /** translate_abspath into a fresh buffer, read back as the handlers use it. */
  method FullPath(path: string) returns (f: string)
    requires Fits(path)
    ensures f == Translate(path)
  {
    var buf := new char[MAX_PATH_LEN];
    TranslateAbspath(buf, path);
    f := ReadString(buf, Translate(path));
  }

  method ParentOf(fpath: string) returns (parent: string)
    requires NulFree(fpath) && '/' in fpath && |fpath| < MAX_PATH_LEN
    ensures parent == ParentPath(fpath)
  {
    var buf := new char[MAX_PATH_LEN];
    GetParentPath(buf, fpath);
    parent := ReadString(buf, ParentPath(fpath));
  }
}
