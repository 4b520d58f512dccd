/**
 The requests and replies of the handlers as messages: which procedure and
 which values a request becomes, what the handler makes of them, and the bytes
 in between. With it, a call over the wire is the handler's own work.
 */
module Requests {
  import opened Base
  import opened Xdr
  import opened Messages
  import opened Rpc
  import Kernel
  import Handlers
  import Servers

  type Request = Handlers.Request
  type Info = Servers.ServerInfo

  /** What the messages carry besides: an address the handler does not use, the device, the two times. */
  datatype Besides = Besides(ip: string, dev: int, actime: int, modtime: int)

  function ProcOf(req: Request): Procedure {
    match req
    case Write(_, _, _, _, _, _) => DoWrite
    case Open(_, _, _) => DoOpen
    case Release(_) => DoRelease
    case Read(_, _, _) => DoRead
    case Getattr(_) => DoGetattr
    case Mutate(_, op) =>
      match op
      case Mkdir(_, _) => DoMkdir
      case Rmdir(_) => DoRmdir
      case Rename(_, _) => DoRename
      case MakeSymlink(_, _) => DoSymlink
      case HardLink(_, _) => DoLink
      case Mknod(_, _) => DoMknod
      case Truncate(_, _) => DoTruncate
      case Unlink(_) => DoUnlink
      case Utime(_) => DoUtime
      case Chmod(_, _) => DoChmod
      case Chown(_, _, _) => DoChown
  }

  /** The procedures whose handlers are part of the model. */
  predicate Modelled(p: Procedure) {
    p !in {DoInitRootdir, DoAccess, DoOpendir, DoReaddir, DoReleasedir, DoReadlink, DoStatfs}
  }

  // ------------------------------------------------------------ strings

  /** A C string: one byte a character, none of them NUL, and a length that has a length word. */
  predicate Text(s: string) {
    |s| < TWO32 - 1 && forall i :: 0 <= i < |s| ==> 0 < s[i] as int < 256
  }

  function ToBytes(s: string): (bs: seq<byte>)
    requires Text(s)
    ensures |bs| == |s| && NulFreeBytes(bs) && FromBytes(bs) == s
  {
    var bs: seq<byte> := seq(|s|, i requires 0 <= i < |s| => s[i] as int);
    assert seq(|bs|, i requires 0 <= i < |bs| => bs[i] as char) == s;
    bs
  }

  function FromBytes(bs: seq<byte>): (s: string)
    ensures |s| == |bs|
  {
    seq(|bs|, i requires 0 <= i < |bs| => bs[i] as char)
  }

  // -------------------------------------------------- requests as values

  predicate Int32(n: int) {
    -TWO31 <= n < TWO31
  }

  /** The numbers fit the C types of the message's fields. */
  predicate OpInRange(op: Handlers.PathOp) {
    match op
    case Mkdir(path, mode) => Text(path) && Int32(mode)
    case Rmdir(path) => Text(path)
    case Rename(path, newpath) => Text(path) && Text(newpath)
    case MakeSymlink(target, link) => Text(target) && Text(link)
    case HardLink(path, newpath) => Text(path) && Text(newpath)
    case Mknod(path, mode) => Text(path) && Int32(mode)
    case Truncate(path, newsize) => Text(path) && Int32(newsize)
    case Unlink(path) => Text(path)
    case Utime(path) => Text(path)
    case Chmod(path, mode) => Text(path) && Int32(mode)
    case Chown(path, uid, gid) => Text(path) && uid < TWO32 && gid < TWO32
  }

  /** So does the buffer of a write, and nobody asks to read more than a buffer. */
  predicate InRange(req: Request) {
    match req
    case Mutate(ip, op) => Text(ip) && OpInRange(op)
    case Write(ip, fd, path, size, offset, buffer) =>
      Text(ip) && Int32(fd) && Text(path) && size < TWO32 && offset < TWO32 && |buffer| == MAX_SIZE
    case Open(ip, path, flags) => Text(ip) && Text(path) && Int32(flags)
    case Release(fd) => Int32(fd)
    case Read(fd, size, offset) => Int32(fd) && size <= MAX_SIZE && offset < TWO32
    case Getattr(path) => Text(path)
  }

  predicate BesidesInRange(b: Besides) {
    Text(b.ip) && Int32(b.dev) && Int32(b.actime) && Int32(b.modtime)
  }

  function Flag(b: bool): int {
    if b then 1 else 0
  }

  function TextValue(s: string): Value
    requires Text(s)
  {
    Bytes(ToBytes(s))
  }

  function IdentityValues(id: Info): seq<Value> {
    [Num(Flag(id.isMaster)), Num(Flag(id.isDegraded))]
  }

  function ForwardedValues(ip: string, id: Info, path: string): seq<Value>
    requires Text(ip) && Text(path)
  {
    [TextValue(ip)] + IdentityValues(id) + [TextValue(path)]
  }

  function OpValues(ip: string, id: Info, op: Handlers.PathOp, b: Besides): seq<Value>
    requires Text(ip) && OpInRange(op)
  {
    match op
    case Mkdir(path, mode) => ForwardedValues(ip, id, path) + [Num(mode)]
    case Rmdir(path) => ForwardedValues(ip, id, path)
    case Rename(path, newpath) => ForwardedValues(ip, id, path) + [TextValue(newpath)]
    case MakeSymlink(target, link) => ForwardedValues(ip, id, target) + [TextValue(link)]
    case HardLink(path, newpath) => ForwardedValues(ip, id, path) + [TextValue(newpath)]
    case Mknod(path, mode) => ForwardedValues(ip, id, path) + [Num(mode), Num(b.dev)]
    case Truncate(path, newsize) => ForwardedValues(ip, id, path) + [Num(newsize)]
    case Unlink(path) => ForwardedValues(ip, id, path)
    case Utime(path) => ForwardedValues(ip, id, path) + [Num(b.actime), Num(b.modtime)]
    case Chmod(path, mode) => ForwardedValues(ip, id, path) + [Num(mode)]
    case Chown(path, uid, gid) => ForwardedValues(ip, id, path) + [Num(uid), Num(gid)]
  }

  /** The fields a client fills in before it calls the stub. */
  function Values(id: Info, req: Request, b: Besides): seq<Value>
    requires InRange(req) && BesidesInRange(b)
  {
    match req
    case Mutate(ip, op) => OpValues(ip, id, op, b)
    case Write(ip, fd, path, size, offset, buffer) =>
      [TextValue(ip)] + IdentityValues(id) +
      [Num(fd), TextValue(path), Num(size), Num(offset), Bytes(buffer)]
    case Open(ip, path, flags) => [TextValue(ip), TextValue(path), Num(flags)]
    case Release(fd) => [TextValue(b.ip), Num(fd)]
    case Read(fd, size, offset) => [TextValue(b.ip), Num(fd), Num(size), Num(offset)]
    case Getattr(path) => [TextValue(b.ip), TextValue(path)]
  }

  // The fields of a decoded message; a typed one has them all, so the other branches are never taken.

  function TextAt(vs: seq<Value>, i: nat): string {
    FromBytes(BytesAt(vs, i))
  }

  function BytesAt(vs: seq<Value>, i: nat): seq<byte> {
    if i < |vs| && vs[i].Bytes? then vs[i].s else []
  }

  function NumAt(vs: seq<Value>, i: nat): int {
    if i < |vs| && vs[i].Num? then vs[i].n else 0
  }

  function NatAt(vs: seq<Value>, i: nat): nat {
    if NumAt(vs, i) >= 0 then NumAt(vs, i) else 0
  }

  function IdentityAt(vs: seq<Value>, i: nat): Info {
    Servers.ServerInfo(NumAt(vs, i) != 0, NumAt(vs, i + 1) != 0)
  }

  function OpOf(p: Procedure, vs: seq<Value>): Handlers.PathOp {
    var path := TextAt(vs, 3);
    match p
    case DoMkdir => Handlers.PathOp.Mkdir(path, NumAt(vs, 4))
    case DoRmdir => Handlers.PathOp.Rmdir(path)
    case DoRename => Handlers.PathOp.Rename(path, TextAt(vs, 4))
    case DoSymlink => Handlers.PathOp.MakeSymlink(path, TextAt(vs, 4))
    case DoLink => Handlers.PathOp.HardLink(path, TextAt(vs, 4))
    case DoMknod => Handlers.PathOp.Mknod(path, NumAt(vs, 4))
    case DoTruncate => Handlers.PathOp.Truncate(path, NumAt(vs, 4))
    case DoUtime => Handlers.PathOp.Utime(path)
    case DoChmod => Handlers.PathOp.Chmod(path, NumAt(vs, 4))
    case DoChown => Handlers.PathOp.Chown(path, NatAt(vs, 4), NatAt(vs, 5))
    case _ => Handlers.PathOp.Unlink(path)
  }

  /** What the handler of p takes from its argument. */
  function RequestOf(p: Procedure, vs: seq<Value>): Request {
    match p
    case DoGetattr => Handlers.Getattr(TextAt(vs, 1))
    case DoOpen => Handlers.Open(TextAt(vs, 0), TextAt(vs, 1), NumAt(vs, 2))
    case DoRelease => Handlers.Release(NumAt(vs, 1))
    case DoRead => Handlers.Read(NumAt(vs, 1), NatAt(vs, 2), NatAt(vs, 3))
    case DoWrite =>
      Handlers.Request.Write(TextAt(vs, 0), NumAt(vs, 3), TextAt(vs, 4), NatAt(vs, 5), NatAt(vs, 6), BytesAt(vs, 7))
    case _ => Handlers.Mutate(TextAt(vs, 0), OpOf(p, vs))
  }

  /** The other messages do not say who sends them; their handlers act alike for everybody. */
  function InfoOf(p: Procedure, vs: seq<Value>): Info {
    if p in {DoGetattr, DoOpen, DoRelease, DoRead} then Servers.GetIdentity(false) else IdentityAt(vs, 1)
  }

  lemma FieldsComeBack(id: Info, req: Request, b: Besides)
    requires InRange(req) && BesidesInRange(b)
    ensures var p, vs := ProcOf(req), Values(id, req, b);
            Modelled(p) && RequestOf(p, vs) == req && (Handlers.Forwarded(req) ==> InfoOf(p, vs) == id)
  {
    hide ToBytes, FromBytes, OpValues, OpOf;
    if req.Mutate? {
      OpComesBack(id, req.ip, req.op, b);
    }
  }

  lemma OpComesBack(id: Info, ip: string, op: Handlers.PathOp, b: Besides)
    requires Text(ip) && OpInRange(op) && BesidesInRange(b)
    ensures var p, vs := ProcOf(Handlers.Mutate(ip, op)), OpValues(ip, id, op, b);
            && Modelled(p) && p !in {DoGetattr, DoOpen, DoRelease, DoRead, DoWrite}
            && TextAt(vs, 0) == ip && OpOf(p, vs) == op && IdentityAt(vs, 1) == id
  {
    hide ToBytes, FromBytes;
  }

  // ------------------------------------------------- requests as bytes

  /** The fields, typed and in range, take up these bytes. */
  ghost predicate OnWire(fs: seq<Filter>, vs: seq<Value>, bs: seq<byte>) {
    HasTypes(fs, vs) && AllEncodable(fs, vs) && Encode(fs, vs) == Some(bs)
  }

  lemma {:induction false} Behind(fs: seq<Filter>, vs: seq<Value>, gs: seq<Filter>, ws: seq<Value>, i: nat)
    requires HasTypes(fs, vs) && HasTypes(gs, ws) && HasTypes(fs + gs, vs + ws) && i <= |gs|
    ensures EncodeFrom(fs + gs, vs + ws, |fs| + i) == EncodeFrom(gs, ws, i)
    decreases |gs| - i
  {
    hide HasType, EncodeField;
    if i < |gs| {
      assert (fs + gs)[|fs| + i] == gs[i] && (vs + ws)[|fs| + i] == ws[i];
      Behind(fs, vs, gs, ws, i + 1);
    }
  }

  lemma {:induction false} JoinedFrom(fs: seq<Filter>, vs: seq<Value>, gs: seq<Filter>, ws: seq<Value>, i: nat)
    requires HasTypes(fs, vs) && HasTypes(gs, ws) && HasTypes(fs + gs, vs + ws) && i <= |fs|
    requires EncodeFrom(fs, vs, i).Some? && EncodeFrom(gs, ws, 0).Some?
    ensures EncodeFrom(fs + gs, vs + ws, i) == Some(EncodeFrom(fs, vs, i).value + EncodeFrom(gs, ws, 0).value)
    decreases |fs| - i
  {
    hide HasType, EncodeField;
    if i == |fs| {
      Behind(fs, vs, gs, ws, 0);
      assert [] + EncodeFrom(gs, ws, 0).value == EncodeFrom(gs, ws, 0).value;
    } else {
      assert (fs + gs)[i] == fs[i] && (vs + ws)[i] == vs[i];
      JoinedFrom(fs, vs, gs, ws, i + 1);
      var head := EncodeField(fs[i], vs[i]).value;
      var rest, others := EncodeFrom(fs, vs, i + 1).value, EncodeFrom(gs, ws, 0).value;
      assert head + (rest + others) == (head + rest) + others;
    }
  }

  /** Fields behind one another are bytes behind one another. */
  lemma JoinedOnWire(fs: seq<Filter>, vs: seq<Value>, x: seq<byte>, gs: seq<Filter>, ws: seq<Value>, y: seq<byte>)
    requires OnWire(fs, vs, x) && OnWire(gs, ws, y)
    ensures OnWire(fs + gs, vs + ws, x + y)
  {
    hide HasType, Encodable, EncodeFrom;
    JoinedFrom(fs, vs, gs, ws, 0);
  }

  lemma OneOnWire(f: Filter, v: Value)
    requires HasType(f, v) && Encodable(f, v)
    ensures OnWire([f], [v], EncodeField(f, v).value)
  {
    var bs := EncodeField(f, v).value;
    assert EncodeFrom([f], [v], 1) == Some([]) && bs + [] == bs;
  }

  /** An int, an unsigned int, or a long that 32 bits can carry. */
  lemma NumOnWire(f: Filter, n: int)
    requires f == FInt || f == FUInt || f == FLong
    requires if f == FUInt then 0 <= n < TWO32 else Int32(n)
    ensures OnWire([f], [Num(n)], PutWord(n))
  {
    hide PutWord;
    OneOnWire(f, Num(n));
  }

  lemma NumsOnWire(f: Filter, m: int, n: int)
    requires f == FInt || f == FUInt || f == FLong
    requires if f == FUInt then 0 <= m < TWO32 && 0 <= n < TWO32 else Int32(m) && Int32(n)
    ensures OnWire([f, f], [Num(m), Num(n)], PutWord(m) + PutWord(n))
  {
    hide OnWire, PutWord;
    NumOnWire(f, m);
    NumOnWire(f, n);
    JoinedOnWire([f], [Num(m)], PutWord(m), [f], [Num(n)], PutWord(n));
    assert [f] + [f] == [f, f] && [Num(m)] + [Num(n)] == [Num(m), Num(n)];
  }

  /** A length, the characters, zeros up to a whole word. */
  function TextBytes(s: string): seq<byte>
    requires Text(s)
  {
    PutWord(|s|) + ToBytes(s) + Fill(Padding(|s|), 0)
  }

  lemma TextOnWire(s: string)
    requires Text(s)
    ensures OnWire([FString], [TextValue(s)], TextBytes(s))
  {
    hide PutWord, ToBytes, OnWire;
    OneOnWire(FString, TextValue(s));
    assert TextBytes(s) == PutWord(|s|) + Padded(ToBytes(s));
  }

  function InfoBytes(id: Info): seq<byte> {
    PutWord(Flag(id.isMaster)) + PutWord(Flag(id.isDegraded))
  }

  /** Every forwarded message starts with the client's address, the sender and the first path. */
  function StartBytes(ip: string, id: Info, path: string): seq<byte>
    requires Text(ip) && Text(path)
  {
    TextBytes(ip) + InfoBytes(id) + TextBytes(path)
  }

  lemma InfoOnWire(ip: string, id: Info)
    requires Text(ip)
    ensures OnWire([FString] + IDENTITY, [TextValue(ip)] + IdentityValues(id), TextBytes(ip) + InfoBytes(id))
  {
    hide OnWire, PutWord, TextValue, TextBytes;
    TextOnWire(ip);
    NumsOnWire(FInt, Flag(id.isMaster), Flag(id.isDegraded));
    JoinedOnWire([FString], [TextValue(ip)], TextBytes(ip), IDENTITY, IdentityValues(id), InfoBytes(id));
  }

  lemma StartOnWire(ip: string, id: Info, path: string)
    requires Text(ip) && Text(path)
    ensures OnWire(FORWARDED, ForwardedValues(ip, id, path), StartBytes(ip, id, path))
  {
    hide OnWire, TextValue, TextBytes, InfoBytes, IdentityValues;
    InfoOnWire(ip, id);
    TextOnWire(path);
    JoinedOnWire([FString] + IDENTITY, [TextValue(ip)] + IdentityValues(id), TextBytes(ip) + InfoBytes(id),
                 [FString], [TextValue(path)], TextBytes(path));
  }

  /** What follows the start of a forwarded path mutation. */
  function RestBytes(op: Handlers.PathOp, b: Besides): seq<byte>
    requires OpInRange(op)
  {
    match op
    case Mkdir(_, mode) => PutWord(mode)
    case Rename(_, newpath) => TextBytes(newpath)
    case MakeSymlink(_, link) => TextBytes(link)
    case HardLink(_, newpath) => TextBytes(newpath)
    case Mknod(_, mode) => PutWord(mode) + PutWord(b.dev)
    case Truncate(_, newsize) => PutWord(newsize)
    case Utime(_) => PutWord(b.actime) + PutWord(b.modtime)
    case Chmod(_, mode) => PutWord(mode)
    case Chown(_, uid, gid) => PutWord(uid) + PutWord(gid)
    case _ => []
  }

  function FirstPath(op: Handlers.PathOp): string {
    if op.MakeSymlink? then op.target else op.path
  }

  /** The request as it goes over the wire, written down byte by byte. */
  function WireBytes(id: Info, req: Request, b: Besides): seq<byte>
    requires InRange(req) && BesidesInRange(b)
  {
    match req
    case Mutate(ip, op) => StartBytes(ip, id, FirstPath(op)) + RestBytes(op, b)
    case Write(ip, fd, path, size, offset, buffer) =>
      TextBytes(ip) + InfoBytes(id) + PutWord(fd) + TextBytes(path) + (PutWord(size) + PutWord(offset)) + buffer
    case Open(ip, path, flags) => TextBytes(ip) + TextBytes(path) + PutWord(flags)
    case Release(fd) => TextBytes(b.ip) + PutWord(fd)
    case Read(fd, size, offset) => TextBytes(b.ip) + PutWord(fd) + (PutWord(size) + PutWord(offset))
    case Getattr(path) => TextBytes(b.ip) + TextBytes(path)
  }

  lemma RestOnWire(ip: string, id: Info, op: Handlers.PathOp, b: Besides) returns (gs: seq<Filter>, ws: seq<Value>)
    requires Text(ip) && OpInRange(op) && BesidesInRange(b)
    ensures Fields(StubOf(ProcOf(Handlers.Mutate(ip, op))).arg) == FORWARDED + gs
    ensures Text(FirstPath(op)) && OpValues(ip, id, op, b) == ForwardedValues(ip, id, FirstPath(op)) + ws
    ensures OnWire(gs, ws, RestBytes(op, b))
  {
    hide OnWire, PutWord, TextValue, TextBytes, Text, ForwardedValues;
    match op {
      case Mkdir(_, mode) => gs, ws := [FInt], [Num(mode)]; NumOnWire(FInt, mode);
      case Rename(_, newpath) => gs, ws := [FString], [TextValue(newpath)]; TextOnWire(newpath);
      case MakeSymlink(_, link) => gs, ws := [FString], [TextValue(link)]; TextOnWire(link);
      case HardLink(_, newpath) => gs, ws := [FString], [TextValue(newpath)]; TextOnWire(newpath);
      case Mknod(_, mode) => gs, ws := [FInt, FInt], [Num(mode), Num(b.dev)]; NumsOnWire(FInt, mode, b.dev);
      case Truncate(_, newsize) => gs, ws := [FInt], [Num(newsize)]; NumOnWire(FInt, newsize);
      case Utime(_) =>
        gs, ws := [FLong, FLong], [Num(b.actime), Num(b.modtime)];
        NumsOnWire(FLong, b.actime, b.modtime);
      case Chmod(_, mode) => gs, ws := [FInt], [Num(mode)]; NumOnWire(FInt, mode);
      case Chown(_, uid, gid) => gs, ws := [FUInt, FUInt], [Num(uid), Num(gid)]; NumsOnWire(FUInt, uid, gid);
      case _ =>
        gs, ws := [], [];
        NothingOnWire();
        assert FORWARDED + gs == FORWARDED;
        assert OpValues(ip, id, op, b) + ws == OpValues(ip, id, op, b);
    }
  }

  lemma NothingOnWire()
    ensures OnWire([], [], [])
  {
  }

  lemma WriteOnWire(id: Info, req: Request, b: Besides)
    requires req.Write? && InRange(req) && BesidesInRange(b)
    ensures OnWire(Fields(WriteArg), Values(id, req, b), WireBytes(id, req, b))
  {
    hide OnWire, PutWord, TextValue, TextBytes, Text, InfoBytes, IdentityValues;
    InfoOnWire(req.ip, id);
    NumOnWire(FInt, req.fd);
    TextOnWire(req.path);
    NumsOnWire(FUInt, req.size, req.offset);
    OpaqueOnWire(req.buffer);
    var fs, vs, bs := [FString] + IDENTITY, [TextValue(req.ip)] + IdentityValues(id), TextBytes(req.ip) + InfoBytes(id);
    JoinedOnWire(fs, vs, bs, [FInt], [Num(req.fd)], PutWord(req.fd));
    fs, vs, bs := fs + [FInt], vs + [Num(req.fd)], bs + PutWord(req.fd);
    JoinedOnWire(fs, vs, bs, [FString], [TextValue(req.path)], TextBytes(req.path));
    fs, vs, bs := fs + [FString], vs + [TextValue(req.path)], bs + TextBytes(req.path);
    JoinedOnWire(fs, vs, bs, [FUInt, FUInt], [Num(req.size), Num(req.offset)], PutWord(req.size) + PutWord(req.offset));
    fs, vs, bs := fs + [FUInt, FUInt], vs + [Num(req.size), Num(req.offset)],
                  bs + (PutWord(req.size) + PutWord(req.offset));
    JoinedOnWire(fs, vs, bs, [FOpaque], [Bytes(req.buffer)], req.buffer);
    assert fs + [FOpaque] == Fields(WriteArg);
    assert vs + [Bytes(req.buffer)] == Values(id, req, b);
  }

  lemma OpaqueOnWire(buffer: seq<byte>)
    requires |buffer| == MAX_SIZE
    ensures OnWire([FOpaque], [Bytes(buffer)], buffer)
  {
    OneOnWire(FOpaque, Bytes(buffer));
    assert Padded(buffer) == buffer;
  }

  lemma QueryOnWire(id: Info, req: Request, b: Besides)
    requires !req.Mutate? && !req.Write? && InRange(req) && BesidesInRange(b)
    ensures OnWire(Fields(StubOf(ProcOf(req)).arg), Values(id, req, b), WireBytes(id, req, b))
  {
    hide OnWire, PutWord, TextValue, TextBytes, Text;
    match req {
      case Open(ip, path, flags) =>
        TextOnWire(ip);
        TextOnWire(path);
        NumOnWire(FInt, flags);
        JoinedOnWire([FString], [TextValue(ip)], TextBytes(ip), [FString], [TextValue(path)], TextBytes(path));
        JoinedOnWire([FString] + [FString], [TextValue(ip)] + [TextValue(path)], TextBytes(ip) + TextBytes(path),
                     [FInt], [Num(flags)], PutWord(flags));
        assert [FString] + [FString] + [FInt] == Fields(OpenArg);
        assert [TextValue(ip)] + [TextValue(path)] + [Num(flags)] == Values(id, req, b);
      case Release(fd) =>
        AddressAndNumber(b.ip, fd);
      case Read(fd, size, offset) =>
        AddressAndNumber(b.ip, fd);
        NumsOnWire(FUInt, size, offset);
        JoinedOnWire([FString, FInt], [TextValue(b.ip), Num(fd)], TextBytes(b.ip) + PutWord(fd),
                     [FUInt, FUInt], [Num(size), Num(offset)], PutWord(size) + PutWord(offset));
        assert [FString, FInt] + [FUInt, FUInt] == Fields(ReadArg);
        assert [TextValue(b.ip), Num(fd)] + [Num(size), Num(offset)] == Values(id, req, b);
      case Getattr(path) =>
        TextOnWire(b.ip);
        TextOnWire(path);
        JoinedOnWire([FString], [TextValue(b.ip)], TextBytes(b.ip), [FString], [TextValue(path)], TextBytes(path));
        assert [FString] + [FString] == Fields(GetattrArg);
        assert [TextValue(b.ip)] + [TextValue(path)] == Values(id, req, b);
    }
  }

  lemma AddressAndNumber(ip: string, n: int)
    requires Text(ip) && Int32(n)
    ensures OnWire([FString, FInt], [TextValue(ip), Num(n)], TextBytes(ip) + PutWord(n))
  {
    hide OnWire, PutWord, TextValue, TextBytes, Text;
    TextOnWire(ip);
    NumOnWire(FInt, n);
    JoinedOnWire([FString], [TextValue(ip)], TextBytes(ip), [FInt], [Num(n)], PutWord(n));
    assert [FString] + [FInt] == [FString, FInt];
    assert [TextValue(ip)] + [Num(n)] == [TextValue(ip), Num(n)];
  }

  /** What the stub of a request sends: values of the right types, in range, and exactly these bytes. */
  lemma RequestOnWire(id: Info, req: Request, b: Besides)
    requires InRange(req) && BesidesInRange(b)
    ensures OnWire(Fields(StubOf(ProcOf(req)).arg), Values(id, req, b), WireBytes(id, req, b))
  {
    if req.Mutate? {
      hide OnWire, ForwardedValues, StartBytes, RestBytes, OpValues, Text;
      var gs, ws := RestOnWire(req.ip, id, req.op, b);
      StartOnWire(req.ip, id, FirstPath(req.op));
      JoinedOnWire(FORWARDED, ForwardedValues(req.ip, id, FirstPath(req.op)), StartBytes(req.ip, id, FirstPath(req.op)),
                   gs, ws, RestBytes(req.op, b));
    } else if req.Write? {
      WriteOnWire(id, req, b);
    } else {
      QueryOnWire(id, req, b);
    }
  }

  /** Requests of one procedure that look alike on the wire are the same request, whatever follows them. */
  lemma SameBytesSameRequest(id: Info, req: Request, b: Besides, id': Info, req': Request, b': Besides,
                             x: seq<byte>, y: seq<byte>)
    requires InRange(req) && InRange(req') && BesidesInRange(b) && BesidesInRange(b') && ProcOf(req) == ProcOf(req')
    requires WireBytes(id, req, b) + x == WireBytes(id', req', b') + y
    ensures req == req' && (Handlers.Forwarded(req) ==> id == id')
  {
    hide HasTypes, AllEncodable, Encode, Fields, StubOf, ProcOf, WireBytes, Values, InRange, RequestOf, InfoOf;
    RequestOnWire(id, req, b);
    RequestOnWire(id', req', b');
    PrefixFree(Fields(StubOf(ProcOf(req)).arg), Values(id, req, b), Values(id', req', b'), x, y);
    FieldsComeBack(id, req, b);
    FieldsComeBack(id', req', b');
  }
}
