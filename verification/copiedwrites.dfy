/**
 A write reaches the primary's file through a descriptor and the secondary's
 through a path, and there it appends. What each of the two does to the files
 that have names, and when the two do the same.
 */
module CopiedWrites {
  import opened Base
  import opened Paths
  import opened Kernel
  import opened Handlers
  import opened Agreement

  predicate Named(t: FileStore, i: nat) {
    exists x | x in t.refs :: x.Name? && t.refs[x] == i
  }

  /** What a write changes: the inode, by its number, and the contents afterwards. */
  datatype Effect = Effect(inum: nat, data: seq<byte>)

  /** The effect of the original, None if no file that has a name is changed. */
  function OriginalEffect(m: SingleServer, req: Request, limit: nat): Option<Effect>
    requires req.Write?
  {
    if req.fd !in m.modes then None
    else
      var i, mode := m.store.refs[Handle(req.fd)], m.modes[req.fd];
      var n, d := m.store.inodes[i], Chunk(req.size, req.buffer, limit);
      var data := if mode.append then Append(n.data, d) else PWrite(n.data, d, req.offset);
      if !mode.writable || n.kind != Regular || !Named(m.store, i) || data == n.data then None
      else Some(Effect(i, data))
  }

  /** The effect of the copy, read over the tree of the primary: whatever the path leads to grows. */
  function CopyEffect(t: FileStore, req: Request, limit: nat): Option<Effect>
    requires req.Write?
  {
    var r, d := Follow(t, Translate(req.path)), Chunk(req.size, req.buffer, limit);
    if r.Err? || !IsKind(t, r.value, Regular) || d == [] then None
    else Some(Effect(t.refs[Name(r.value)], Append(Node(t, r.value).data, d)))
  }

  /** u is t with the effect e on the files that have names, e's inode being counted in m. */
  ghost predicate Affected(m: FileStore, t: FileStore, u: FileStore, e: Option<Effect>) {
    && (forall p :: Exists(t, p) ==> Exists(m, p))
    && (forall p :: Exists(u, p) <==> Exists(t, p))
    && (forall p :: Exists(u, p) ==> u.refs[Name(p)] == t.refs[Name(p)])
    && (forall p :: Exists(u, p) ==>
          Node(u, p) ==
            if e.Some? && m.refs[Name(p)] == e.value.inum then Node(t, p).(data := e.value.data) else Node(t, p))
  }

  lemma OriginalAffects(m: SingleServer, req: Request, limit: nat)
    requires req.Write?
    ensures Affected(m.store, m.store, Serve(m, req, Original, limit).0.store, OriginalEffect(m, req, limit))
  {
    hide PWrite, Chunk;
    if req.fd in m.modes && !Named(m.store, m.store.refs[Handle(req.fd)]) {
      assert forall p :: Exists(m.store, p) ==> Name(p) in m.store.refs;
    }
  }

  lemma LinksAgree(m: FileStore, t: FileStore, p: Path, q: Path)
    requires Agree(m, t, false) && Exists(m, p) && Exists(m, q)
    ensures Exists(t, p) && Exists(t, q)
    ensures m.refs[Name(p)] == m.refs[Name(q)] <==> t.refs[Name(p)] == t.refs[Name(q)]
  {
    assert Counts(false, Name(p)) && Counts(false, Name(q));
  }

  lemma CopyAffects(m: FileStore, t: FileStore, req: Request, limit: nat)
    requires req.Write? && Agree(m, t, false)
    ensures Affected(m, t, WriteCopy(t, req, limit).0, CopyEffect(m, req, limit))
  {
    ResolveAgree(m, t, false, Translate(req.path));
    NodesAgree(m, t, false);
    CopyFlagsAppend();
    hide Follow, Chunk, Agree, Translate;
    var r, d := Follow(m, Translate(req.path)), Chunk(req.size, req.buffer, limit);
    if r.Ok? && IsKind(m, r.value, Regular) {
      assert Append(Node(t, r.value).data, []) == Node(t, r.value).data;
      forall p | Exists(t, p)
        ensures m.refs[Name(p)] == m.refs[Name(r.value)] <==> t.refs[Name(p)] == t.refs[Name(r.value)]
      {
        LinksAgree(m, t, p, r.value);
      }
    }
  }

  /** An effect can be seen: some name leads to its inode and the contents there were others before. */
  ghost predicate Visible(m: FileStore, e: Option<Effect>) {
    e.Some? ==> exists p :: Exists(m, p) && m.refs[Name(p)] == e.value.inum && Node(m, p).data != e.value.data
  }

  lemma EffectsAreVisible(m: SingleServer, req: Request, limit: nat)
    requires req.Write?
    ensures Visible(m.store, OriginalEffect(m, req, limit)) && Visible(m.store, CopyEffect(m.store, req, limit))
  {
    hide PWrite, Follow, Chunk;
    var e, c := OriginalEffect(m, req, limit), CopyEffect(m.store, req, limit);
    if e.Some? {
      var x :| x in m.store.refs && x.Name? && m.store.refs[x] == e.value.inum;
      assert Exists(m.store, x.path);
    }
    if c.Some? {
      var p := Follow(m.store, Translate(req.path)).value;
      var d := Chunk(req.size, req.buffer, limit);
      assert |Append(Node(m.store, p).data, d)| > |Node(m.store, p).data|;
    }
  }

  /** From agreeing trees, two effects end in agreeing trees exactly when they are the same. */
  lemma SameEffectIff(m: FileStore, t: FileStore, u: FileStore, v: FileStore, e: Option<Effect>, c: Option<Effect>)
    requires Agree(m, t, false) && Affected(m, m, u, e) && Affected(m, t, v, c) && Visible(m, e) && Visible(m, c)
    ensures Agree(u, v, false) <==> e == c
  {
    assert forall p :: Counts(false, Name(p));
    assert forall x | Counts(false, x) :: x.Name? && x == Name(x.path);
    NodesAgree(m, t, false);
    if e == c {
      forall x | Counts(false, x)
        ensures x in u.refs <==> x in v.refs
        ensures x in u.refs && x in v.refs ==> u.inodes[u.refs[x]] == v.inodes[v.refs[x]]
      {
        assert Exists(u, x.path) <==> Exists(v, x.path);
        assert Exists(u, x.path) ==> Node(u, x.path) == Node(v, x.path);
      }
      forall x, y | Counts(false, x) && Counts(false, y) && x in u.refs && y in u.refs && x in v.refs && y in v.refs
        ensures u.refs[x] == u.refs[y] <==> v.refs[x] == v.refs[y]
      {
        assert Exists(u, x.path) && Exists(u, y.path) && Exists(v, x.path) && Exists(v, y.path);
      }
    } else {
      var p := DifferentAt(m, e, c);
      assert Exists(u, p) && Exists(v, p) && Node(u, p) != Node(v, p);
      assert Counts(false, Name(p));
    }
  }

  /** A name at which two different effects differ. */
  lemma DifferentAt(m: FileStore, e: Option<Effect>, c: Option<Effect>) returns (p: Path)
    requires Visible(m, e) && Visible(m, c) && e != c
    ensures Exists(m, p)
    ensures (if e.Some? && m.refs[Name(p)] == e.value.inum then e.value.data else Node(m, p).data) !=
            (if c.Some? && m.refs[Name(p)] == c.value.inum then c.value.data else Node(m, p).data)
  {
    if e.Some? {
      p :| Exists(m, p) && m.refs[Name(p)] == e.value.inum && Node(m, p).data != e.value.data;
    } else {
      p :| Exists(m, p) && m.refs[Name(p)] == c.value.inum && Node(m, p).data != c.value.data;
    }
  }

  /**
   For every write, whatever the descriptor, the path and the two servers'
   kernels make of it: the original on the primary and the copy on the
   secondary leave agreeing trees exactly when their effects are the same.
   */
  lemma CopiedWriteAgreesIff(m: SingleServer, t: FileStore, req: Request, lm: nat, lt: nat)
    requires req.Write? && Agree(m.store, t, false)
    ensures Agree(Serve(m, req, Original, lm).0.store, WriteCopy(t, req, lt).0, false)
       <==> OriginalEffect(m, req, lm) == CopyEffect(m.store, req, lt)
  {
    hide Agree, Affected, Visible, Serve, WriteCopy, OriginalEffect, CopyEffect;
    OriginalAffects(m, req, lm);
    CopyAffects(m.store, t, req, lt);
    EffectsAreVisible(m, req, lm);
    EffectsAreVisible(m, req, lt);
    SameEffectIff(m.store, t, Serve(m, req, Original, lm).0.store, WriteCopy(t, req, lt).0,
                  OriginalEffect(m, req, lm), CopyEffect(m.store, req, lt));
  }

  /** Two ways the original may go, by how much the kernel takes, are alike exactly when their effects are. */
  lemma OriginalsAgreeIff(m: SingleServer, req: Request, l: nat, l': nat)
    requires req.Write?
    ensures Agree(Serve(m, req, Original, l).0.store, Serve(m, req, Original, l').0.store, false)
       <==> OriginalEffect(m, req, l) == OriginalEffect(m, req, l')
  {
    hide Affected, Visible, Serve, OriginalEffect, CopyEffect;
    OriginalAffects(m, req, l);
    OriginalAffects(m, req, l');
    EffectsAreVisible(m, req, l);
    EffectsAreVisible(m, req, l');
    SameEffectIff(m.store, m.store, Serve(m, req, Original, l).0.store, Serve(m, req, Original, l').0.store,
                  OriginalEffect(m, req, l), OriginalEffect(m, req, l'));
  }

  /** The descriptor is open for writing on the regular file that the request's path names. */
  predicate PathNamesFile(s: SingleServer, req: Request) {
    && req.Write? && req.fd in s.modes && s.modes[req.fd].writable
    && var r := Follow(s.store, Translate(req.path));
       && r.Ok? && IsKind(s.store, r.value, Regular)
       && s.store.refs[Name(r.value)] == s.store.refs[Handle(req.fd)]
  }

  predicate InFull(req: Request, limit: nat)
    requires req.Write?
  {
    limit >= Min(req.size, |req.buffer|)
  }

  /**
   In particular, when the path names the open file and both writes complete:
   the replies are the same, and the trees agree exactly when the descriptor
   appends too, nothing is written, or the offset is the end of the file.
   */
  lemma FullWriteAgreesIff(m: SingleServer, t: FileStore, req: Request, lm: nat, lt: nat)
    requires Agree(m.store, t, false) && PathNamesFile(m, req) && InFull(req, lm) && InFull(req, lt)
    ensures Serve(m, req, Original, lm).1 == WriteCopy(t, req, lt).1
    ensures Agree(Serve(m, req, Original, lm).0.store, WriteCopy(t, req, lt).0, false)
       <==> m.modes[req.fd].append || Chunk(req.size, req.buffer, lm) == []
            || req.offset == |Node(m.store, Follow(m.store, Translate(req.path)).value).data|
  {
    hide Agree, PWrite;
    CopiedWriteAgreesIff(m, t, req, lm, lt);
    ResolveAgree(m.store, t, false, Translate(req.path));
    NodesAgree(m.store, t, false);
    CopyFlagsAppend();
    var p := Follow(m.store, Translate(req.path)).value;
    var n, d := Node(m.store, p), Chunk(req.size, req.buffer, lm);
    assert Name(p) in m.store.refs && Named(m.store, m.store.refs[Handle(req.fd)]);
    AppendIsPWriteIff(n.data, d, req.offset);
    AppendIsPWriteIff(n.data, [], req.offset);
    assert d != [] ==> |Append(n.data, d)| > |n.data|;
    assert n.data + [] == n.data;
  }
}
