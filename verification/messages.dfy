/** The fields of every message, in the order its filter visits them, and the two that may go inline. */
module Messages {
  import opened Base
  import opened Xdr

  datatype Message =
    | InitArg | InitRet | GetattrArg | GetattrRet | AccessArg | AccessRet
    | MkdirArg | MkdirRet | RmdirArg | RmdirRet | OpendirArg | OpendirRet
    | ReaddirArg | ReaddirRet | ReleasedirArg | ReleasedirRet | RenameArg | RenameRet
    | SymlinkArg | SymlinkRet | LinkArg | LinkRet | ReadlinkArg | ReadlinkRet
    | MknodArg | MknodRet | UtimeArg | UtimeRet | TruncateArg | TruncateRet
    | ChmodArg | ChmodRet | ChownArg | ChownRet | UnlinkArg | UnlinkRet
    | OpenArg | OpenRet | ReleaseArg | ReleaseRet | ReadArg | ReadRet
    | WriteArg | WriteRet | StatfsArg | StatfsRet

  /** xdr_identity: is_master and is_degraded. */
  const IDENTITY: seq<Filter> := [FInt, FInt]

  /** Client address, identity of the sender and path: how every forwarded request starts. */
  const FORWARDED: seq<Filter> := [FString] + IDENTITY + [FString]

  const GETATTR: seq<Filter> :=
    [FInt, FInt, FInt, FInt, FInt, FInt, FInt, FULong, FULong, FULong, FLong, FLong, FLong, FInt]

  const STATFS: seq<Filter> :=
    [FULong, FULong, FULong, FULong, FULong, FULong, FULong, FULong, FULong, FULong, FULong, FInt]

  function Fields(m: Message): seq<Filter> {
    match m
    case InitArg => IDENTITY + [FString, FString]
    case GetattrArg => [FString, FString]
    case GetattrRet => GETATTR
    case AccessArg => [FString, FString, FInt]
    case MkdirArg => FORWARDED + [FInt]
    case RmdirArg => FORWARDED
    case OpendirArg => [FString, FString]
    case OpendirRet => [FInt, FInt]
    case ReaddirArg => [FInt]
    case ReaddirRet => [FInt, FOpaque, FInt]
    case ReleasedirArg => [FInt]
    case RenameArg => FORWARDED + [FString]
    case SymlinkArg => FORWARDED + [FString]
    case LinkArg => FORWARDED + [FString]
    case ReadlinkArg => [FString, FString, FUInt]
    case ReadlinkRet => [FOpaque, FInt, FInt]
    case MknodArg => FORWARDED + [FInt, FInt]
    case UtimeArg => FORWARDED + [FLong, FLong]
    case TruncateArg => FORWARDED + [FInt]
    case ChmodArg => FORWARDED + [FInt]
    case ChownArg => FORWARDED + [FUInt, FUInt]
    case UnlinkArg => FORWARDED
    case OpenArg => [FString, FString, FInt]
    case OpenRet => [FInt, FInt]
    case ReleaseArg => [FString, FInt]
    case ReadArg => [FString, FInt, FUInt, FUInt]
    case ReadRet => [FOpaque, FInt, FInt]
    case WriteArg => [FString] + IDENTITY + [FInt, FString, FUInt, FUInt, FOpaque]
    case WriteRet => [FInt, FInt]
    case StatfsArg => [FString]
    case StatfsRet => STATFS
    case _ => [FInt]
  }

  predicate MayInline(m: Message) {
    m == GetattrRet || m == StatfsRet
  }

  lemma InlineIsNumeric(m: Message)
    requires MayInline(m)
    ensures Numeric(Fields(m))
  {
  }

  lemma AllNumbers(fs: seq<Filter>, vs: seq<Value>)
    requires Numeric(fs) && HasTypes(fs, vs)
    ensures forall j :: 0 <= j < |vs| ==> vs[j].Num?
  {
    assert forall j :: 0 <= j < |vs| ==> HasType(fs[j], vs[j]);
  }

  /** What a message's filter writes, given whether XDR_INLINE yields a pointer. */
  function EncodeMessage(m: Message, inlined: bool, vs: seq<Value>): (bs: Option<seq<byte>>)
    requires HasTypes(Fields(m), vs)
  {
    if inlined && MayInline(m) then
      InlineIsNumeric(m);
      AllNumbers(Fields(m), vs);
      Some(FastPut(vs, 0))
    else
      Encode(Fields(m), vs)
  }

  /** What it reads. Inlining needs all the words to be there, so only then can it be asked for. */
  function DecodeMessage(m: Message, inlined: bool, w: Widening, s: seq<byte>, at: nat): (r: Option<(seq<Value>, nat)>)
    requires at <= |s| && (inlined && MayInline(m) ==> at + 4 * |Fields(m)| <= |s|)
    ensures r.Some? ==> |r.value.0| == |Fields(m)| && at <= r.value.1 <= |s|
  {
    if inlined && MayInline(m) then Some((FastGet(w, Fields(m), s, at, 0), at + 4 * |Fields(m)|))
    else Decode(Fields(m), s, at)
  }

  /** Values whose words widen to themselves. */
  predicate AllCarried(w: Widening, fs: seq<Filter>, vs: seq<Value>)
    requires |vs| == |fs|
  {
    forall i :: 0 <= i < |fs| && vs[i].Num? ==> WidensRight(w, fs[i], Wrap32(vs[i].n))
  }

  /** Both sides of the fast path produce what the field-by-field filters produce, for values that fit 32 bits. */
  lemma EitherWayEncodes(m: Message, inlined: bool, vs: seq<Value>)
    requires HasTypes(Fields(m), vs)
    ensures EncodeMessage(m, inlined, vs) == Encode(Fields(m), vs) <==>
            (inlined && MayInline(m) ==> AllEncodable(Fields(m), vs))
  {
    if inlined && MayInline(m) {
      InlineIsNumeric(m);
      AllNumbers(Fields(m), vs);
      FastPutIsEncodeIff(Fields(m), vs, 0);
    }
  }

  lemma {:induction false} CarriedWordsWiden(w: Widening, fs: seq<Filter>, vs: seq<Value>,
                                             s: seq<byte>, at: nat, i: nat)
    requires Numeric(fs) && HasTypes(fs, vs) && AllCarried(w, fs, vs) && i <= |fs|
    requires forall j :: 0 <= j < |vs| ==> vs[j].Num?
    requires HoldsAt(s, at, FastPut(vs, i))
    ensures AllWidenRight(w, fs, s, at, i)
    decreases |fs| - i
  {
    hide HasType, WidensRight, Word;
    if i < |fs| {
      HoldsBoth(s, at, PutWord(vs[i].n), FastPut(vs, i + 1));
      WordPut(s, at, vs[i].n);
      CarriedWordsWiden(w, fs, vs, s, at + 4, i + 1);
    }
  }

  /**
   A message crosses the wire whichever way either side codes it: encoded
   inline or field by field, decoded inline or field by field.
   */
  lemma MessageRoundTrip(m: Message, w: Widening, out: bool, back: bool, vs: seq<Value>,
                         before: seq<byte>, after: seq<byte>)
    requires HasTypes(Fields(m), vs) && AllEncodable(Fields(m), vs)
    requires back && MayInline(m) ==> AllCarried(w, Fields(m), vs)
    ensures var bs := EncodeMessage(m, out, vs);
            && bs == Encode(Fields(m), vs) && bs.Some?
            && (MayInline(m) ==> |bs.value| == 4 * |Fields(m)|)
            && DecodeMessage(m, back, w, before + bs.value + after, |before|) == Some((vs, |before| + |bs.value|))
  {
    hide Fields, MayInline, HasTypes, AllCarried, AllEncodable, Encode, Decode;
    EitherWayEncodes(m, out, vs);
    RoundTrip(Fields(m), vs, before, after);
    if MayInline(m) {
      InlineRoundTrip(m, w, vs, before, after);
    }
  }

  lemma InlineRoundTrip(m: Message, w: Widening, vs: seq<Value>, before: seq<byte>, after: seq<byte>)
    requires HasTypes(Fields(m), vs) && AllEncodable(Fields(m), vs) && MayInline(m)
    ensures Encode(Fields(m), vs).Some?
    ensures var bs := Encode(Fields(m), vs).value;
            && |bs| == 4 * |Fields(m)|
            && (AllCarried(w, Fields(m), vs) ==>
                  DecodeMessage(m, true, w, before + bs + after, |before|) == Some((vs, |before| + |bs|)))
  {
    hide Fields, AllEncodable, HasType;
    InlineIsNumeric(m);
    AllNumbers(Fields(m), vs);
    FastPutIsEncodeIff(Fields(m), vs, 0);
    RoundTrip(Fields(m), vs, before, after);
    var bs := FastPut(vs, 0);
    var s := before + bs + after;
    forall i | 0 <= i < |bs|
      ensures s[|before| + i] == bs[i]
    {
    }
    if AllCarried(w, Fields(m), vs) {
      CarriedWordsWiden(w, Fields(m), vs, s, |before|, 0);
      FastGetIsDecodeIff(w, Fields(m), s, |before|, 0);
    }
  }

  // ------------------------------------------------ a forwarded copy

  /**
   The forwarded requests that start with the client's address and the identity
   of the sender. init_rootdir is forwarded too, but its message starts with
   the identity and its handler is not part of this model.
   */
  predicate IsForwarded(m: Message) {
    || m == MkdirArg || m == RmdirArg || m == RenameArg || m == SymlinkArg || m == LinkArg || m == MknodArg
    || m == UtimeArg || m == TruncateArg || m == ChmodArg || m == ChownArg || m == UnlinkArg || m == WriteArg
  }

  lemma {:induction false} SameTail(fs: seq<Filter>, vs: seq<Value>, ws: seq<Value>, i: nat)
    requires HasTypes(fs, vs) && HasTypes(fs, ws) && i <= |fs|
    requires forall j :: i <= j < |fs| ==> vs[j] == ws[j]
    ensures EncodeFrom(fs, vs, i) == EncodeFrom(fs, ws, i)
    decreases |fs| - i
  {
    hide HasType, EncodeField;
    if i < |fs| {
      SameTail(fs, vs, ws, i + 1);
    }
  }

  /** Two encodings of one length that agree outside the word at k. */
  ghost predicate SameButWord(a: seq<byte>, b: seq<byte>, k: nat) {
    && k + 4 <= |a| == |b|
    && forall i :: 0 <= i < |a| && !(k <= i < k + 4) ==> a[i] == b[i]
  }

  /**
   Clearing is_master, the second field, changes one word on the wire and
   nothing else, and that word is what the secondary tells a copy by.
   */
  lemma CopyOnTheWire(m: Message, vs: seq<Value>)
    requires IsForwarded(m) && HasTypes(Fields(m), vs) && AllEncodable(Fields(m), vs)
    ensures HasTypes(Fields(m), vs[1 := Num(0)]) && AllEncodable(Fields(m), vs[1 := Num(0)])
    ensures var a, b := Encode(Fields(m), vs), Encode(Fields(m), vs[1 := Num(0)]);
            && a.Some? && b.Some? && HasType(FString, vs[0]) && Encodable(FString, vs[0])
            && var k := |EncodeField(FString, vs[0]).value|;
               && SameButWord(a.value, b.value, k)
               && Word(a.value, k) == Wrap32(vs[1].n) && Word(b.value, k) == 0
  {
    var fs, ws := Fields(m), vs[1 := Num(0)];
    assert fs[0] == FString && fs[1] == FInt && |fs| >= 4;
    OneWordChanged(fs, vs, ws);
  }

  lemma OneWordChanged(fs: seq<Filter>, vs: seq<Value>, ws: seq<Value>)
    requires |fs| >= 2 && fs[0] == FString && fs[1] == FInt
    requires HasTypes(fs, vs) && AllEncodable(fs, vs) && ws == vs[1 := Num(0)]
    ensures HasTypes(fs, ws) && AllEncodable(fs, ws)
    ensures HasType(fs[0], vs[0]) && Encodable(fs[0], vs[0]) && HasType(fs[1], vs[1])
    ensures var a, b := Encode(fs, vs), Encode(fs, ws);
            && a.Some? && b.Some?
            && var k := |EncodeField(fs[0], vs[0]).value|;
               && SameButWord(a.value, b.value, k)
               && Word(a.value, k) == Wrap32(vs[1].n) && Word(b.value, k) == 0
  {
    EncodesIff(fs, vs, 0);
    EncodesIff(fs, ws, 0);
    EncodesIff(fs, vs, 2);
    SameTail(fs, vs, ws, 2);
    var head, tail := EncodeField(fs[0], vs[0]).value, EncodeFrom(fs, vs, 2).value;
    hide EncodeField, HasType, Encodable;
    SecondWord(head, PutWord(vs[1].n), PutWord(0), tail);
    WordPut(head + (PutWord(vs[1].n) + tail), |head|, vs[1].n);
    WordPut(head + (PutWord(0) + tail), |head|, 0);
  }

  lemma SecondWord(head: seq<byte>, x: seq<byte>, y: seq<byte>, tail: seq<byte>)
    requires |x| == 4 == |y|
    ensures SameButWord(head + (x + tail), head + (y + tail), |head|)
    ensures HoldsAt(head + (x + tail), |head|, x) && HoldsAt(head + (y + tail), |head|, y)
  {
  }
}
