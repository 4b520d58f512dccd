/** The 23 client stubs, the dispatch by procedure number, and what lies between them. */
module Rpc {
  import opened Base
  import opened Xdr
  import opened Messages
  import opened XdrStreams

  /** The remote procedures, as the stubs and the handlers behind them are named. */
  datatype Procedure =
    | DoInitRootdir | DoGetattr | DoAccess | DoMkdir | DoRmdir | DoOpendir
    | DoReaddir | DoReleasedir | DoRename | DoSymlink | DoLink | DoReadlink
    | DoMknod | DoTruncate | DoUnlink | DoUtime | DoChmod | DoChown
    | DoOpen | DoRelease | DoRead | DoWrite | DoStatfs

  const INIT_ROOTDIR: nat := 0
  const BB_GETATTR: nat := 1
  const BB_ACCESS: nat := 2
  const BB_MKDIR: nat := 3
  const BB_RMDIR: nat := 4
  const BB_OPENDIR: nat := 5
  const BB_READDIR: nat := 6
  const BB_RELEASEDIR: nat := 7
  const BB_RENAME: nat := 8
  const BB_SYMLINK: nat := 9
  const BB_LINK: nat := 10
  const BB_READLINK: nat := 11
  const BB_MKNOD: nat := 12
  const BB_TRUNCATE: nat := 13
  const BB_UNLINK: nat := 14
  const BB_UTIME: nat := 15
  const BB_CHMOD: nat := 16
  const BB_CHOWN: nat := 17
  const BB_OPEN: nat := 18
  const BB_RELEASE: nat := 19
  const BB_READ: nat := 20
  const BB_WRITE: nat := 21
  const BB_STATFS: nat := 22

  /** The procedures in the order in which the interface numbers them. */
  const PROCEDURES: seq<Procedure> :=
    [DoInitRootdir, DoGetattr, DoAccess, DoMkdir, DoRmdir, DoOpendir, DoReaddir, DoReleasedir,
     DoRename, DoSymlink, DoLink, DoReadlink, DoMknod, DoTruncate, DoUnlink, DoUtime,
     DoChmod, DoChown, DoOpen, DoRelease, DoRead, DoWrite, DoStatfs]

  /** What a stub passes to clnt_call. */
  datatype Stub = Stub(number: nat, arg: Message, res: Message)

  function StubOf(p: Procedure): Stub {
    match p
    case DoInitRootdir => Stub(INIT_ROOTDIR, InitArg, InitRet)
    case DoGetattr => Stub(BB_GETATTR, GetattrArg, GetattrRet)
    case DoAccess => Stub(BB_ACCESS, AccessArg, AccessRet)
    case DoMkdir => Stub(BB_MKDIR, MkdirArg, MkdirRet)
    case DoRmdir => Stub(BB_RMDIR, RmdirArg, RmdirRet)
    case DoOpendir => Stub(BB_OPENDIR, OpendirArg, OpendirRet)
    case DoReaddir => Stub(BB_READDIR, ReaddirArg, ReaddirRet)
    case DoReleasedir => Stub(BB_RELEASEDIR, ReleasedirArg, ReleasedirRet)
    case DoRename => Stub(BB_RENAME, RenameArg, RenameRet)
    case DoSymlink => Stub(BB_SYMLINK, SymlinkArg, SymlinkRet)
    case DoLink => Stub(BB_LINK, LinkArg, LinkRet)
    case DoReadlink => Stub(BB_READLINK, ReadlinkArg, ReadlinkRet)
    case DoMknod => Stub(BB_MKNOD, MknodArg, MknodRet)
    case DoTruncate => Stub(BB_TRUNCATE, TruncateArg, TruncateRet)
    case DoUnlink => Stub(BB_UNLINK, UnlinkArg, UnlinkRet)
    case DoUtime => Stub(BB_UTIME, UtimeArg, UtimeRet)
    case DoChmod => Stub(BB_CHMOD, ChmodArg, ChmodRet)
    case DoChown => Stub(BB_CHOWN, ChownArg, ChownRet)
    case DoOpen => Stub(BB_OPEN, OpenArg, OpenRet)
    case DoRelease => Stub(BB_RELEASE, ReleaseArg, ReleaseRet)
    case DoRead => Stub(BB_READ, ReadArg, ReadRet)
    case DoWrite => Stub(BB_WRITE, WriteArg, WriteRet)
    case DoStatfs => Stub(BB_STATFS, StatfsArg, StatfsRet)
  }

  /** What the switch selects for a number. */
  datatype Local = Local(arg: Message, res: Message, handler: Procedure)

  function Dispatch(number: nat): Option<Local> {
    if number == INIT_ROOTDIR then Some(Local(InitArg, InitRet, DoInitRootdir))
    else if number == BB_GETATTR then Some(Local(GetattrArg, GetattrRet, DoGetattr))
    else if number == BB_ACCESS then Some(Local(AccessArg, AccessRet, DoAccess))
    else if number == BB_MKDIR then Some(Local(MkdirArg, MkdirRet, DoMkdir))
    else if number == BB_RMDIR then Some(Local(RmdirArg, RmdirRet, DoRmdir))
    else if number == BB_OPENDIR then Some(Local(OpendirArg, OpendirRet, DoOpendir))
    else if number == BB_READDIR then Some(Local(ReaddirArg, ReaddirRet, DoReaddir))
    else if number == BB_RELEASEDIR then Some(Local(ReleasedirArg, ReleasedirRet, DoReleasedir))
    else if number == BB_RENAME then Some(Local(RenameArg, RenameRet, DoRename))
    else if number == BB_SYMLINK then Some(Local(SymlinkArg, SymlinkRet, DoSymlink))
    else if number == BB_LINK then Some(Local(LinkArg, LinkRet, DoLink))
    else if number == BB_READLINK then Some(Local(ReadlinkArg, ReadlinkRet, DoReadlink))
    else if number == BB_MKNOD then Some(Local(MknodArg, MknodRet, DoMknod))
    else if number == BB_TRUNCATE then Some(Local(TruncateArg, TruncateRet, DoTruncate))
    else if number == BB_UNLINK then Some(Local(UnlinkArg, UnlinkRet, DoUnlink))
    else if number == BB_UTIME then Some(Local(UtimeArg, UtimeRet, DoUtime))
    else if number == BB_CHMOD then Some(Local(ChmodArg, ChmodRet, DoChmod))
    else if number == BB_CHOWN then Some(Local(ChownArg, ChownRet, DoChown))
    else if number == BB_OPEN then Some(Local(OpenArg, OpenRet, DoOpen))
    else if number == BB_RELEASE then Some(Local(ReleaseArg, ReleaseRet, DoRelease))
    else if number == BB_READ then Some(Local(ReadArg, ReadRet, DoRead))
    else if number == BB_WRITE then Some(Local(WriteArg, WriteRet, DoWrite))
    else if number == BB_STATFS then Some(Local(StatfsArg, StatfsRet, DoStatfs))
    else None
  }

  /** Every stub's number selects its own handler with the same two filters. */
  lemma StubsMeetDispatch(p: Procedure)
    ensures Dispatch(StubOf(p).number) == Some(Local(StubOf(p).arg, StubOf(p).res, p))
  {
  }

  /** The numbers are those of the 23 stubs and no others. */
  lemma UnknownNumberIff(number: nat)
    ensures Dispatch(number) == None <==> number > BB_STATFS
    ensures forall l :: Dispatch(number) == Some(l) ==> StubOf(l.handler) == Stub(number, l.arg, l.res)
  {
  }

  /** A procedure's number is its place in the interface, at both ends. */
  lemma NumbersAre(k: nat)
    ensures |PROCEDURES| == 23
    ensures k < 23 ==> StubOf(PROCEDURES[k]).number == k
    ensures k < 23 ==> Dispatch(k).Some? && Dispatch(k).value.handler == PROCEDURES[k]
    ensures k >= 23 ==> Dispatch(k) == None
  {
  }

  lemma ArgumentsAreNotInline(p: Procedure)
    ensures !MayInline(StubOf(p).arg)
  {
  }

  // ------------------------------------------------------------ a call

  /** What a handler does: whether it answers, the result, the state afterwards. */
  datatype Outcome<+S> = Outcome(answers: bool, result: seq<Value>, state: S)

  type Handler<!S> = (Procedure, seq<Value>, S) -> Outcome<S>

  /** Handlers fill a result of their procedure's type. */
  ghost predicate WellTyped<S(!new)>(h: Handler<S>) {
    forall p, args, st ::
      HasTypes(Fields(StubOf(p).arg), args) ==> HasTypes(Fields(StubOf(p).res), h(p, args, st).result)
  }

  datatype Reply = NoProcedure | GarbageArguments | SystemError | Silent | Sent(body: seq<byte>)

  /** svc_sendreply into room bytes; XDR_INLINE needs room for all the words. */
  function ReplyWith(res: Message, result: seq<Value>, inlines: bool, room: nat): Reply
    requires HasTypes(Fields(res), result)
  {
    match EncodeMessage(res, inlines && 4 * |Fields(res)| <= room, result)
    case None => SystemError
    case Some(bs) => if |bs| <= room then Sent(bs) else SystemError
  }

  /** One request at the server: the bytes from at on are the arguments, room bytes are left for the reply. */
  function Serve<S(!new)>(h: Handler<S>, number: nat, body: seq<byte>, at: nat, st: S, inlines: bool, room: nat)
    : (Reply, S)
    requires at <= |body| && WellTyped(h)
  {
    match Dispatch(number)
    case None => (NoProcedure, st)
    case Some(local) =>
      UnknownNumberIff(number);
      match Decode(Fields(local.arg), body, at)
      case None => (GarbageArguments, st)
      case Some((args, _)) =>
        DecodedHasTypes(Fields(local.arg), body, at);
        var o := h(local.handler, args, st);
        if !o.answers then (Silent, o.state)
        else
          (ReplyWith(local.res, o.result, inlines, room), o.state)
  }

  lemma DecodedHasTypes(fs: seq<Filter>, s: seq<byte>, at: nat)
    requires at <= |s| && Decode(fs, s, at).Some?
    ensures HasTypes(fs, Decode(fs, s, at).value.0) && AllEncodable(fs, Decode(fs, s, at).value.0)
  {
    DecodedIsInRange(fs, s, at, 0);
  }

  datatype CallResult =
    | CantEncodeArguments
    | Refused(reply: Reply)
    | TimedOut
    | CantDecodeResult
    | Success(result: seq<Value>)

  /** How the two ends and the C library code inline. */
  datatype Ends = Ends(serverInlines: bool, clientInlines: bool, widening: Widening, room: nat)

  /** A stub's clnt_call, over a transport that delivers once. */
  function Call<S(!new)>(h: Handler<S>, p: Procedure, args: seq<Value>, st: S, e: Ends): (CallResult, S)
    requires HasTypes(Fields(StubOf(p).arg), args) && WellTyped(h)
  {
    match Encode(Fields(StubOf(p).arg), args)
    case None => (CantEncodeArguments, st)
    case Some(body) =>
      var (reply, after) := Serve(h, StubOf(p).number, body, 0, st, e.serverInlines, e.room);
      match reply
      case Silent => (TimedOut, after)
      case Sent(bs) =>
        var res := StubOf(p).res;
        var inlined := e.clientInlines && 4 * |Fields(res)| <= |bs|;
        (match DecodeMessage(res, inlined, e.widening, bs, 0)
         case None => CantDecodeResult
         case Some((result, _)) => Success(result), after)
      case _ => (Refused(reply), after)
  }

  /** The server decodes what the stub encoded and hands it to the stub's own handler. */
  lemma ServedIs<S(!new)>(h: Handler<S>, p: Procedure, args: seq<Value>, st: S, inlines: bool, room: nat)
    requires HasTypes(Fields(StubOf(p).arg), args) && AllEncodable(Fields(StubOf(p).arg), args) && WellTyped(h)
    ensures Encode(Fields(StubOf(p).arg), args).Some?
    ensures var o := h(p, args, st);
            var r := Serve(h, StubOf(p).number, Encode(Fields(StubOf(p).arg), args).value, 0, st, inlines, room);
            && HasTypes(Fields(StubOf(p).res), o.result)
            && r.1 == o.state
            && r.0 == if o.answers then ReplyWith(StubOf(p).res, o.result, inlines, room) else Silent
  {
    hide Dispatch, StubOf, Fields, HasTypes, AllEncodable, Encode, Decode, ReplyWith;
    StubsMeetDispatch(p);
    RoundTrip(Fields(StubOf(p).arg), args, [], []);
    var body := Encode(Fields(StubOf(p).arg), args).value;
    assert [] + body + [] == body;
  }

  /**
   Transparency: a call over the wire is the handler's call, for every
   procedure, all arguments and results in range, and whichever way each end
   codes the inline messages.
   */
  lemma CallIsTransparent<S(!new)>(h: Handler<S>, p: Procedure, args: seq<Value>, st: S, e: Ends)
    requires HasTypes(Fields(StubOf(p).arg), args) && AllEncodable(Fields(StubOf(p).arg), args) && WellTyped(h)
    requires h(p, args, st).answers
    requires AllEncodable(Fields(StubOf(p).res), h(p, args, st).result)
    requires e.clientInlines && MayInline(StubOf(p).res) ==>
               AllCarried(e.widening, Fields(StubOf(p).res), h(p, args, st).result)
    requires Encode(Fields(StubOf(p).res), h(p, args, st).result).Some? ==>
               |Encode(Fields(StubOf(p).res), h(p, args, st).result).value| <= e.room
    ensures Call(h, p, args, st, e) == (Success(h(p, args, st).result), h(p, args, st).state)
  {
    hide Dispatch, StubOf, Fields, HasTypes, AllEncodable, AllCarried, MayInline, Encode, EncodeMessage, Serve;
    ServedIs(h, p, args, st, e.serverInlines, e.room);
    var res, result := StubOf(p).res, h(p, args, st).result;
    var inlined := e.clientInlines && MayInline(res);
    var out := e.serverInlines && 4 * |Fields(res)| <= e.room;
    MessageRoundTrip(res, e.widening, out, inlined, result, [], []);
    var bs := EncodeMessage(res, out, result).value;
    assert [] + bs + [] == bs;
  }

  /** Outside that range: nothing is sent, or the operation is done and its caller not told. */
  lemma OutOfRange<S(!new)>(h: Handler<S>, p: Procedure, args: seq<Value>, st: S, e: Ends)
    requires HasTypes(Fields(StubOf(p).arg), args) && WellTyped(h)
    ensures !AllEncodable(Fields(StubOf(p).arg), args) <==> Call(h, p, args, st, e).0 == CantEncodeArguments
    ensures !AllEncodable(Fields(StubOf(p).arg), args) ==> Call(h, p, args, st, e).1 == st
    ensures AllEncodable(Fields(StubOf(p).arg), args) ==> Call(h, p, args, st, e).1 == h(p, args, st).state
    ensures AllEncodable(Fields(StubOf(p).arg), args) && h(p, args, st).answers && !e.serverInlines
            && !AllEncodable(Fields(StubOf(p).res), h(p, args, st).result) ==>
              Call(h, p, args, st, e).0 == Refused(SystemError)
  {
    hide Dispatch, StubOf, Fields, HasType, AllEncodable, MayInline, Encode, Serve;
    RoundTrip(Fields(StubOf(p).arg), args, [], []);
    if AllEncodable(Fields(StubOf(p).arg), args) {
      ServedIs(h, p, args, st, e.serverInlines, e.room);
      RoundTrip(Fields(StubOf(p).res), h(p, args, st).result, [], []);
    }
  }

  /** Whatever arrives, the state is left alone unless it names a procedure and decodes as its arguments. */
  lemma OnlyHandlersChangeState<S(!new)>(h: Handler<S>, number: nat, body: seq<byte>, at: nat, st: S,
                                         inlines: bool, room: nat)
    requires at <= |body| && WellTyped(h)
    ensures var (reply, after) := Serve(h, number, body, at, st, inlines, room);
            || (after == st && number > BB_STATFS && reply == NoProcedure)
            || (after == st && number <= BB_STATFS && reply == GarbageArguments)
            || exists p, args ::
                 && StubOf(p).number == number && HasTypes(Fields(StubOf(p).arg), args)
                 && Decode(Fields(StubOf(p).arg), body, at).Some?
                 && args == Decode(Fields(StubOf(p).arg), body, at).value.0
                 && after == h(p, args, st).state
  {
    hide Fields, HasTypes, AllEncodable, Decode;
    UnknownNumberIff(number);
    if number <= BB_STATFS {
      var local := Dispatch(number).value;
      assert StubOf(local.handler).arg == local.arg;
      if Decode(Fields(local.arg), body, at).Some? {
        DecodedHasTypes(Fields(local.arg), body, at);
      }
    }
  }

  // ------------------------------------------------------------ the service

  /** svc_sendreply. */
  method SendReply(response: XdrStream, res: Message, w: Widening, result: seq<Value>) returns (reply: Reply)
    requires response.Valid() && HasTypes(Fields(res), result)
    modifies response`pos, response.data
    ensures response.Valid()
    ensures reply == ReplyWith(res, result, response.inlines, response.data.Length - old(response.pos))
    ensures reply.Sent? ==>
      old(response.pos) <= response.pos && response.data[old(response.pos)..response.pos] == reply.body
  {
    hide Fields, HasType;
    var start := response.pos;
    assert EncodeMessage(res, response.Inlines(res, start), result) ==
           EncodeMessage(res, response.inlines && 4 * |Fields(res)| <= response.data.Length - start, result);
    hide EncodeMessage;
    var sent, _ := response.Run(XdrEncode, res, w, result);
    if !sent {
      return SystemError;
    }
    ghost var bs := EncodeMessage(res, response.Inlines(res, start), result).value;
    assert response.data[start..response.pos] == bs;
    reply := Sent(response.data[start..response.pos]);
  }

  /** The server process: one request at a time, state changed by handlers only. */
  class RpcService<S(!new)> {
    var state: S
    const handler: Handler<S>

    constructor (handler: Handler<S>, state: S)
      ensures this.handler == handler && this.state == state
    {
      this.handler, this.state := handler, state;
    }

    /** compute_6: select, decode, call, encode. */
    method Compute6(number: nat, request: XdrStream, response: XdrStream, w: Widening) returns (reply: Reply)
      requires WellTyped(handler) && request.Valid() && response.Valid()
      requires request != response && request.data != response.data
      modifies this`state, request`pos, request.data, response`pos, response.data
      ensures request.data[..] == old(request.data[..]) && response.Valid()
      ensures (reply, state) == Serve(handler, number, old(request.data[..]), old(request.pos), old(state),
                                      response.inlines, response.data.Length - old(response.pos))
      ensures reply.Sent? ==>
        old(response.pos) <= response.pos && response.data[old(response.pos)..response.pos] == reply.body
    {
      hide Dispatch, Fields, HasType, AllEncodable, Decode, ReplyWith;
      var selected := Dispatch(number);
      if selected == None {
        return NoProcedure;
      }
      UnknownNumberIff(number);
      var local := selected.value;
      ArgumentsAreNotInline(local.handler);
      ghost var body, at := request.data[..], request.pos;
      var ok, argument := request.Run(XdrDecode, local.arg, w, Fill(|Fields(local.arg)|, Num(0)));
      if !ok {
        return GarbageArguments;
      }
      DecodedHasTypes(Fields(local.arg), body, at);
      var outcome := handler(local.handler, argument, state);
      state := outcome.state;
      if !outcome.answers {
        return Silent;
      }
      reply := SendReply(response, local.res, w, outcome.result);
    }
  }
}
