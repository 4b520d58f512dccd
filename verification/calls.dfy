/**
 The handlers behind the dispatch, on decoded messages, and the calls that
 reach them: what a client reads in the reply is what the handler answered.
 */
module Calls {
  import opened Base
  import opened Xdr
  import opened Messages
  import opened Rpc
  import opened Requests
  import Identity
  import Kernel
  import Handlers
  import Servers

  type SingleServer = Handlers.SingleServer

  /** What stat(2) says of the kind of a file, in the bits above the permissions. */
  function TypeBits(kind: Kernel.Kind, special: SpecialBits): nat {
    match kind
    case Directory => 4
    case Regular => 8
    case Symlink => 10
    case Special => special
  }

  /** Fifo, character device, block device or socket. */
  type SpecialBits = n: nat | n in {1, 2, 6, 12} witness 1

  function KindOf(bits: int): Kernel.Kind {
    if bits == 4 then Kernel.Directory
    else if bits == 8 then Kernel.Regular
    else if bits == 10 then Kernel.Symlink
    else Kernel.Special
  }

  /** The value a C int keeps of n. */
  function AsInt(n: int): (r: int)
    ensures Int32(r) && (Int32(n) ==> r == n)
  {
    Signed(Wrap32(n))
  }

  /** The 4096 bytes a read handler copies into its result. */
  function Buffer(bytes: seq<byte>): (buffer: seq<byte>)
    ensures |buffer| == MAX_SIZE && (|bytes| <= MAX_SIZE ==> buffer[..|bytes|] == bytes)
  {
    if |bytes| >= MAX_SIZE then bytes[..MAX_SIZE] else bytes + Fill(MAX_SIZE - |bytes|, 0)
  }

  /** The result a handler leaves behind, in memory that held stale: a failure sets ret and nothing else. */
  function ReplyValues(p: Procedure, reply: Handlers.Reply, stale: seq<Value>, special: SpecialBits)
    : (vs: seq<Value>)
    requires Modelled(p) && |stale| == |Fields(StubOf(p).res)|
    ensures |vs| == |stale|
  {
    match reply
    case Status(ret) => stale[|stale| - 1 := Num(AsInt(ret))]
    case Opened(fd) => if p == DoOpen then [Num(AsInt(fd)), Num(0)] else stale
    case Contents(bytes) => if p == DoRead then [Bytes(Buffer(bytes)), Num(AsInt(|bytes|)), Num(0)] else stale
    case Written(len) => if p == DoWrite then [Num(AsInt(len)), Num(0)] else stale
    case Attributes(kind, perm, uid, gid, size) =>
      if p == DoGetattr then
        stale[2 := Num(AsInt(4096 * TypeBits(kind, special) + perm))][4 := Num(AsInt(uid))][5 := Num(AsInt(gid))]
             [7 := Num(size % TWO64)][13 := Num(0)]
      else stale
  }

  /** What the client makes of a result: ret first, and what else there is if that is not negative. */
  function ReplyOf(p: Procedure, vs: seq<Value>): Handlers.Reply
    requires vs != []
  {
    var ret := NumAt(vs, |vs| - 1);
    if ret < 0 then Handlers.Status(ret)
    else match p
      case DoOpen => Handlers.Opened(NumAt(vs, 0))
      case DoRead => Handlers.Contents(BytesAt(vs, 0)[..Min(NatAt(vs, 1), |BytesAt(vs, 0)|)])
      case DoWrite => Handlers.Written(NatAt(vs, 0))
      case DoGetattr =>
        Handlers.Attributes(KindOf(Wrap32(NumAt(vs, 2)) / 4096), Wrap32(NumAt(vs, 2)) % 4096,
                            Wrap32(NumAt(vs, 4)), Wrap32(NumAt(vs, 5)), NatAt(vs, 7))
      case _ => Handlers.Status(ret)
  }

  /** The answer is one the handler of p gives, and its numbers fit. */
  predicate Fitting(p: Procedure, reply: Handlers.Reply) {
    match reply
    case Status(ret) => Int32(ret) && (p in {DoOpen, DoRead, DoWrite, DoGetattr} ==> ret < 0)
    case Opened(fd) => p == DoOpen && Int32(fd)
    case Contents(bytes) => p == DoRead && |bytes| <= MAX_SIZE
    case Written(len) => p == DoWrite && Int32(len)
    case Attributes(_, perm, uid, gid, size) =>
      p == DoGetattr && perm < 4096 && uid < TWO32 && gid < TWO32 && size < TWO32
  }

  /** The client reads what the handler answered. */
  lemma ReplyComesBack(p: Procedure, reply: Handlers.Reply, stale: seq<Value>, special: SpecialBits)
    requires Modelled(p) && |stale| == |Fields(StubOf(p).res)| && Fitting(p, reply)
    ensures ReplyOf(p, ReplyValues(p, reply, stale, special)) == reply
  {
    if reply.Attributes? {
      ModeComesBack(reply.kind, reply.perm, special);
      hide TypeBits, KindOf, AsInt, Wrap32;
      WrapComesBack(reply.uid);
      WrapComesBack(reply.gid);
    }
  }

  lemma WrapComesBack(n: nat)
    requires n < TWO32
    ensures Wrap32(AsInt(n)) == n
  {
  }

  lemma ModeComesBack(kind: Kernel.Kind, perm: nat, special: SpecialBits)
    requires perm < 4096
    ensures var mode := Wrap32(AsInt(4096 * TypeBits(kind, special) + perm));
            KindOf(mode / 4096) == kind && mode % 4096 == perm
  {
  }

  lemma ReplyHasTypes(p: Procedure, reply: Handlers.Reply, stale: seq<Value>, special: SpecialBits)
    requires Modelled(p) && HasTypes(Fields(StubOf(p).res), stale)
    ensures HasTypes(Fields(StubOf(p).res), ReplyValues(p, reply, stale, special))
  {
    hide Fields, StubOf, AsInt, Buffer, TypeBits;
    if p == DoGetattr {
      GetattrResult();
    } else {
      ShortResults(p);
    }
  }

  lemma ReplyEncodable(p: Procedure, reply: Handlers.Reply, stale: seq<Value>, special: SpecialBits)
    requires Modelled(p) && HasTypes(Fields(StubOf(p).res), stale) && AllEncodable(Fields(StubOf(p).res), stale)
    requires Fitting(p, reply)
    ensures AllEncodable(Fields(StubOf(p).res), ReplyValues(p, reply, stale, special))
  {
    hide Fields, StubOf, AsInt, Buffer, TypeBits;
    if p == DoGetattr {
      GetattrResult();
    } else {
      ShortResults(p);
    }
  }

  // ----------------------------------------------------- replies as bytes

  lemma {:induction false} WordsOf(vs: seq<Value>, i: nat, k: nat)
    requires i <= k < |vs| && forall j :: 0 <= j < |vs| ==> vs[j].Num?
    ensures Word(FastPut(vs, i), 4 * (k - i)) == Wrap32(vs[k].n)
    decreases k - i
  {
    hide PutWord, Word;
    var bs := FastPut(vs, i);
    if i == k {
      WordPut(bs, 0, vs[i].n);
    } else {
      WordsOf(vs, i + 1, k);
      assert bs[4..] == FastPut(vs, i + 1);
      WordBehind(bs, 4, 4 * (k - i - 1));
    }
  }

  lemma WordBehind(bs: seq<byte>, from: nat, at: nat)
    requires from + at + 4 <= |bs|
    ensures Word(bs, from + at) == Word(bs[from..], at)
  {
  }

  /** Where the attributes stand in the 56 bytes of a getattr reply, whichever way the server codes it. */
  lemma AttributesOnWire(reply: Handlers.Reply, stale: seq<Value>, special: SpecialBits, inlined: bool)
    requires HasTypes(Fields(GetattrRet), stale) && AllEncodable(Fields(GetattrRet), stale)
    requires Fitting(DoGetattr, reply) && reply.Attributes?
    ensures var vs := ReplyValues(DoGetattr, reply, stale, special);
            && HasTypes(Fields(GetattrRet), vs)
            && var bs := EncodeMessage(GetattrRet, inlined, vs);
               && bs.Some? && |bs.value| == 56
               && Word(bs.value, 8) == 4096 * TypeBits(reply.kind, special) + reply.perm
               && Word(bs.value, 16) == reply.uid && Word(bs.value, 20) == reply.gid
               && Word(bs.value, 28) == reply.size && Word(bs.value, 52) == 0
  {
    var vs := ReplyValues(DoGetattr, reply, stale, special);
    ReplyHasTypes(DoGetattr, reply, stale, special);
    ReplyEncodable(DoGetattr, reply, stale, special);
    AttributeValues(reply, stale, special);
    hide ReplyValues, HasTypes, FastPut, TypeBits, Word, Fitting, EncodeFrom;
    InlineIsNumeric(GetattrRet);
    AllNumbers(Fields(GetattrRet), vs);
    FastPutIsEncodeIff(Fields(GetattrRet), vs, 0);
    assert EncodeMessage(GetattrRet, inlined, vs) == Some(FastPut(vs, 0));
    WordsOf(vs, 0, 2);
    WordsOf(vs, 0, 4);
    WordsOf(vs, 0, 5);
    WordsOf(vs, 0, 7);
    WordsOf(vs, 0, 13);
  }

  lemma AttributeValues(reply: Handlers.Reply, stale: seq<Value>, special: SpecialBits)
    requires |stale| == 14 && Fitting(DoGetattr, reply) && reply.Attributes?
    ensures var vs := ReplyValues(DoGetattr, reply, stale, special);
            && vs[2].Num? && Wrap32(vs[2].n) == 4096 * TypeBits(reply.kind, special) + reply.perm
            && vs[4].Num? && Wrap32(vs[4].n) == reply.uid && vs[5].Num? && Wrap32(vs[5].n) == reply.gid
            && vs[7].Num? && Wrap32(vs[7].n) == reply.size && vs[13] == Num(0)
  {
    hide AsInt;
    WrapComesBack(reply.uid);
    WrapComesBack(reply.gid);
    WrapComesBack(4096 * TypeBits(reply.kind, special) + reply.perm);
  }

  lemma ContentsOnWire(bytes: seq<byte>)
    requires |bytes| <= MAX_SIZE
    ensures OnWire(Fields(ReadRet), [Bytes(Buffer(bytes)), Num(|bytes|), Num(0)],
                   bytes + Fill(MAX_SIZE - |bytes|, 0) + (PutWord(|bytes|) + PutWord(0)))
  {
    hide PutWord, OnWire;
    OpaqueOnWire(Buffer(bytes));
    NumsOnWire(FInt, |bytes|, 0);
    JoinedOnWire([FOpaque], [Bytes(Buffer(bytes))], Buffer(bytes),
                 [FInt, FInt], [Num(|bytes|), Num(0)], PutWord(|bytes|) + PutWord(0));
    assert [FOpaque] + [FInt, FInt] == Fields(ReadRet);
    assert bytes + Fill(MAX_SIZE - |bytes|, 0) == Buffer(bytes);
    assert [Bytes(Buffer(bytes))] + [Num(|bytes|), Num(0)] == [Bytes(Buffer(bytes)), Num(|bytes|), Num(0)];
  }

  /** The other answers: one number, or what was asked for and a zero. */
  lemma AnswerOnWire(p: Procedure, reply: Handlers.Reply, stale: seq<Value>, special: SpecialBits)
    requires Modelled(p) && |stale| == |Fields(StubOf(p).res)| && Fitting(p, reply) && !reply.Attributes?
    requires reply.Status? ==> p !in {DoGetattr, DoOpen, DoRead, DoWrite}
    ensures OnWire(Fields(StubOf(p).res), ReplyValues(p, reply, stale, special),
                   match reply
                   case Opened(fd) => PutWord(fd) + PutWord(0)
                   case Written(len) => PutWord(len) + PutWord(0)
                   case Contents(bytes) => bytes + Fill(MAX_SIZE - |bytes|, 0) + (PutWord(|bytes|) + PutWord(0))
                   case Status(ret) => PutWord(ret))
  {
    hide PutWord, OnWire;
    match reply {
      case Opened(fd) => NumsOnWire(FInt, fd, 0);
      case Written(len) => NumsOnWire(FInt, len, 0);
      case Contents(bytes) =>
        ContentsOnWire(bytes);
        assert ReplyValues(p, reply, stale, special) == [Bytes(Buffer(bytes)), Num(|bytes|), Num(0)];
      case Status(ret) =>
        NumOnWire(FInt, ret);
        assert ReplyValues(p, reply, stale, special) == [Num(ret)];
    }
  }

  // ------------------------------------------------------- the answers fit

  lemma ApplyFits(t: Kernel.FileStore, ip: string, op: Handlers.PathOp)
    ensures -200 < Handlers.Apply(t, ip, op).1 <= 0
  {
    hide Kernel.Follow, Kernel.Locate, Kernel.LstatPath, Kernel.Empty, Kernel.Split, Kernel.MoveNames,
         Handlers.Denied, Handlers.NoLock, Handlers.IsOwner, Kernel.Resize, Kernel.KindOfMode;
  }

  /** A server whose files have numbers that the messages can carry. */
  ghost predicate FitsServer(s: SingleServer) {
    && Int32(s.nextFd)
    && forall x :: x in s.store.refs ==>
         var n := s.store.inodes[s.store.refs[x]];
         n.perm < 4096 && n.uid < TWO32 && n.gid < TWO32 && |n.data| < TWO32
  }

  lemma AnswerFits(s: SingleServer, req: Request, role: Handlers.Role, limit: nat)
    requires InRange(req) && FitsServer(s)
    ensures Fitting(ProcOf(req), Handlers.Serve(s, req, role, limit).1)
  {
    hide Kernel.Follow, Kernel.LstatPath, Handlers.IsOpValid, Handlers.Apply, Text;
    if req.Mutate? {
      ApplyFits(s.store, req.ip, req.op);
    }
  }

  // ------------------------------------------------- the handlers at work

  /** What one call meets: how much the kernel takes, what special files are, and what result memory holds. */
  datatype World = World(limit: nat, special: SpecialBits, stale: Procedure -> seq<Value>)

  /** Result memory holds values of the result's type, such as the messages can carry. */
  ghost predicate Sane(w: World) {
    forall p: Procedure :: Modelled(p) ==>
      HasTypes(Fields(StubOf(p).res), w.stale(p)) && AllEncodable(Fields(StubOf(p).res), w.stale(p))
  }

  /** The handler of a modelled procedure: take the argument apart, serve it, fill in the result. */
  function Handled(w: World, p: Procedure, vs: seq<Value>, s: SingleServer): Rpc.Outcome<SingleServer>
    requires Modelled(p) && |w.stale(p)| == |Fields(StubOf(p).res)|
  {
    var (after, reply) := Handlers.Serve(s, RequestOf(p, vs), Servers.RoleOf(InfoOf(p, vs)), w.limit);
    Outcome(true, ReplyValues(p, reply, w.stale(p), w.special), after)
  }

  /** All handlers; those that are not part of the model do anything. */
  function Handling(w: World, others: Handler<SingleServer>): Handler<SingleServer> {
    (p, vs, s) =>
      if Modelled(p) && |w.stale(p)| == |Fields(StubOf(p).res)| then Handled(w, p, vs, s) else others(p, vs, s)
  }

  lemma HandlingIs(w: World, others: Handler<SingleServer>, p: Procedure, vs: seq<Value>, s: SingleServer)
    requires Modelled(p) && |w.stale(p)| == |Fields(StubOf(p).res)|
    ensures Handling(w, others)(p, vs, s) == Handled(w, p, vs, s)
  {
    hide Handled, Fields, StubOf;
  }

  lemma HandlingIsTyped(w: World, others: Handler<SingleServer>)
    requires Sane(w) && WellTyped(others)
    ensures WellTyped(Handling(w, others))
  {
    hide Fields, StubOf, ReplyValues, HasTypes, AllEncodable, Handlers.Serve, RequestOf, InfoOf;
    var h := Handling(w, others);
    forall p, vs, s | HasTypes(Fields(StubOf(p).arg), vs)
      ensures HasTypes(Fields(StubOf(p).res), h(p, vs, s).result)
    {
      if Modelled(p) {
        TypedLength(Fields(StubOf(p).res), w.stale(p));
        var reply := Handlers.Serve(s, RequestOf(p, vs), Servers.RoleOf(InfoOf(p, vs)), w.limit).1;
        ReplyHasTypes(p, reply, w.stale(p), w.special);
        HandlingIs(w, others, p, vs, s);
      } else {
        assert h(p, vs, s) == others(p, vs, s);
      }
    }
  }

  lemma TypedLength(fs: seq<Filter>, vs: seq<Value>)
    requires HasTypes(fs, vs)
    ensures |vs| == |fs|
  {
  }

  // ---------------------------------------------------- room for a reply

  function RoomFor(fs: seq<Filter>, i: nat): nat
    requires i <= |fs|
    decreases |fs| - i
  {
    if i == |fs| then 0 else (if fs[i] == FOpaque then MAX_SIZE else 4) + RoomFor(fs, i + 1)
  }

  lemma {:induction false} RoomIs(fs: seq<Filter>, vs: seq<Value>, i: nat)
    requires HasTypes(fs, vs) && i <= |fs| && EncodeFrom(fs, vs, i).Some? && FString !in fs
    ensures |EncodeFrom(fs, vs, i).value| == RoomFor(fs, i)
    decreases |fs| - i
  {
    hide PutWord;
    if i < |fs| {
      RoomIs(fs, vs, i + 1);
      assert HasType(fs[i], vs[i]) && fs[i] in fs;
      assert fs[i] == FOpaque ==> Padded(vs[i].s) == vs[i].s;
    }
  }

  /** How many bytes the reply to a procedure takes. */
  function ReplySize(p: Procedure): nat {
    match p
    case DoGetattr => 56
    case DoStatfs => 48
    case DoReaddir => MAX_SIZE + 8
    case DoReadlink => MAX_SIZE + 8
    case DoRead => MAX_SIZE + 8
    case DoOpen => 8
    case DoOpendir => 8
    case DoWrite => 8
    case _ => 4
  }

  /** Every reply to p that is sent takes as many. */
  lemma RepliesTake(p: Procedure, vs: seq<Value>)
    requires HasTypes(Fields(StubOf(p).res), vs) && Encode(Fields(StubOf(p).res), vs).Some?
    ensures |Encode(Fields(StubOf(p).res), vs).value| == ReplySize(p)
  {
    SizeIs(p);
    hide HasTypes, Fields, StubOf, RoomFor, ReplySize, EncodeFrom;
    RoomIs(Fields(StubOf(p).res), vs, 0);
  }

  lemma SizeIs(p: Procedure)
    ensures FString !in Fields(StubOf(p).res) && RoomFor(Fields(StubOf(p).res), 0) == ReplySize(p)
  {
    NumbersNeed([FInt], 0);
    NumbersNeed([FInt, FInt], 0);
    BuffersNeed();
    hide Fields, StubOf, RoomFor;
    if p == DoGetattr || p == DoStatfs {
      LongResults();
      NumbersNeed(Fields(StubOf(p).res), 0);
    } else {
      ShortResults(p);
    }
  }

  lemma GetattrResult()
    ensures Fields(StubOf(DoGetattr).res) == [FInt, FInt, FInt, FInt, FInt, FInt, FInt, FULong, FULong, FULong,
                                              FLong, FLong, FLong, FInt]
  {
  }

  lemma LongResults()
    ensures StubOf(DoGetattr).res == GetattrRet && StubOf(DoStatfs).res == StatfsRet
    ensures |Fields(GetattrRet)| == 14 && FOpaque !in Fields(GetattrRet) && FString !in Fields(GetattrRet)
    ensures |Fields(StatfsRet)| == 12 && FOpaque !in Fields(StatfsRet) && FString !in Fields(StatfsRet)
  {
  }

  lemma ShortResults(p: Procedure)
    requires p != DoGetattr && p != DoStatfs
    ensures Fields(StubOf(p).res) ==
            match p
            case DoReaddir => [FInt, FOpaque, FInt]
            case DoReadlink => [FOpaque, FInt, FInt]
            case DoRead => [FOpaque, FInt, FInt]
            case DoOpen => [FInt, FInt]
            case DoOpendir => [FInt, FInt]
            case DoWrite => [FInt, FInt]
            case _ => [FInt]
  {
  }

  lemma BuffersNeed()
    ensures RoomFor([FInt, FOpaque, FInt], 0) == MAX_SIZE + 8 == RoomFor([FOpaque, FInt, FInt], 0)
  {
    assert RoomFor([FInt, FOpaque, FInt], 2) == 4 == RoomFor([FOpaque, FInt, FInt], 2);
  }

  lemma {:induction false} NumbersNeed(fs: seq<Filter>, i: nat)
    requires i <= |fs| && FOpaque !in fs
    ensures RoomFor(fs, i) == 4 * (|fs| - i)
    decreases |fs| - i
  {
    if i < |fs| {
      NumbersNeed(fs, i + 1);
    }
  }

  /**
   Remote is local: a client that sends a request in range gets back exactly
   what the handler answers, and the server is left as the handler leaves it.
   */
  lemma RemoteIsLocal(w: World, others: Handler<SingleServer>, id: Info, req: Request, b: Besides,
                      s: SingleServer, e: Ends)
    requires Sane(w) && WellTyped(others) && FitsServer(s)
    requires InRange(req) && BesidesInRange(b) && (Handlers.Forwarded(req) || id == Servers.GetIdentity(false))
    requires e.room >= MAX_SIZE + 8 && |w.stale(DoGetattr)| == |Fields(GetattrRet)|
    requires e.clientInlines && req.Getattr? ==>
               AllCarried(e.widening, Fields(GetattrRet), Handled(w, DoGetattr, Values(id, req, b), s).result)
    ensures HasTypes(Fields(StubOf(ProcOf(req)).arg), Values(id, req, b)) && WellTyped(Handling(w, others))
    ensures var (answer, after) := Rpc.Call(Handling(w, others), ProcOf(req), Values(id, req, b), s, e);
            var (after', reply) := Handlers.Serve(s, req, Servers.RoleOf(id), w.limit);
            after == after' && answer.Success? && answer.result != [] && ReplyOf(ProcOf(req), answer.result) == reply
  {
    hide HasTypes, AllEncodable, AllCarried, Encode, Fields, StubOf, ProcOf, Values, InRange, RequestOf, InfoOf,
         WellTyped, Rpc.Call, Handlers.Serve, ReplyValues, ReplyOf, Fitting, FitsServer;
    var p, vs := ProcOf(req), Values(id, req, b);
    var h := Handling(w, others);
    var (after, reply) := Handlers.Serve(s, req, Servers.RoleOf(id), w.limit);
    RequestOnWire(id, req, b);
    HandlingIsTyped(w, others);
    FieldsComeBack(id, req, b);
    TypedLength(Fields(StubOf(p).res), w.stale(p));
    SameHandler(w, others, id, req, b, s);
    var result := ReplyValues(p, reply, w.stale(p), w.special);
    AnswerFits(s, req, Servers.RoleOf(id), w.limit);
    ReplyHasTypes(p, reply, w.stale(p), w.special);
    ReplyEncodable(p, reply, w.stale(p), w.special);
    ReplyComesBack(p, reply, w.stale(p), w.special);
    if Encode(Fields(StubOf(p).res), result).Some? {
      RepliesTake(p, result);
    }
    OnlyGetattrInlines(req);
    HandlingIs(w, others, p, vs, s);
    CallIsTransparent(h, p, vs, s, e);
  }

  lemma SameHandler(w: World, others: Handler<SingleServer>, id: Info, req: Request, b: Besides, s: SingleServer)
    requires InRange(req) && BesidesInRange(b) && (Handlers.Forwarded(req) || id == Servers.GetIdentity(false))
    requires |w.stale(ProcOf(req))| == |Fields(StubOf(ProcOf(req)).res)|
    ensures var p := ProcOf(req);
            var (after, reply) := Handlers.Serve(s, req, Servers.RoleOf(id), w.limit);
            && Modelled(p)
            && Handling(w, others)(p, Values(id, req, b), s) ==
               Outcome(true, ReplyValues(p, reply, w.stale(p), w.special), after)
  {
    hide HasTypes, Fields, StubOf, Values, RequestOf, Handlers.Serve, ReplyValues;
    FieldsComeBack(id, req, b);
    HandlingIs(w, others, ProcOf(req), Values(id, req, b), s);
  }

  lemma OnlyGetattrInlines(req: Request)
    ensures MayInline(StubOf(ProcOf(req)).res) <==> req.Getattr?
    ensures req.Getattr? <==> ProcOf(req) == DoGetattr
    ensures StubOf(DoGetattr).res == GetattrRet && Fields(StubOf(ProcOf(req)).res) != []
  {
  }
}
