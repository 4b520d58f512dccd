/**
 The wire format: XDR (RFC 4506) filters for every message, the in-memory
 stream they run on, and the inline fast path of two of them.
 */
module Xdr {
  import opened Base

  // ---------------------------------------------------------------- values

  /** The library filters the generated code is made of. */
  datatype Filter = FInt | FUInt | FLong | FULong | FString | FOpaque

  datatype Value = Num(n: int) | Bytes(s: seq<byte>)

  const TWO31: int := 0x8000_0000
  const TWO63: int := 0x8000_0000_0000_0000
  const TWO64: int := 0x1_0000_0000_0000_0000

  /** What a C variable of the filter's type can hold; long has 64 bits. */
  ghost predicate HasType(f: Filter, v: Value) {
    match f
    case FInt => v.Num? && -TWO31 <= v.n < TWO31
    case FUInt => v.Num? && 0 <= v.n < TWO32
    case FLong => v.Num? && -TWO63 <= v.n < TWO63
    case FULong => v.Num? && 0 <= v.n < TWO64
    case FString => v.Bytes? && NulFreeBytes(v.s) && |v.s| < TWO32
    case FOpaque => v.Bytes? && |v.s| == MAX_SIZE
  }

  /** What 32 bits and a length word can carry. */
  predicate Encodable(f: Filter, v: Value) {
    match f
    case FLong => v.Num? && -TWO31 <= v.n < TWO31
    case FULong => v.Num? && 0 <= v.n < TWO32
    case FString => v.Bytes? && |v.s| < TWO32 - 1
    case _ => true
  }

  ghost predicate HasTypes(fs: seq<Filter>, vs: seq<Value>) {
    |vs| == |fs| && forall i :: 0 <= i < |fs| ==> HasType(fs[i], vs[i])
  }

  predicate AllEncodable(fs: seq<Filter>, vs: seq<Value>)
    requires |vs| == |fs|
  {
    forall i :: 0 <= i < |fs| ==> Encodable(fs[i], vs[i])
  }

  // ----------------------------------------------------------------- words

  /** The low 32 bits of a number, most significant byte first. */
  function PutWord(n: int): (bs: seq<byte>)
    ensures |bs| == 4
  {
    var w := Wrap32(n);
    [w / 0x100_0000, w / 0x1_0000 % 0x100, w / 0x100 % 0x100, w % 0x100]
  }

  function Word(s: seq<byte>, at: nat): (w: nat)
    requires at + 4 <= |s|
    ensures w < TWO32
  {
    0x100_0000 * (s[at] as int) + 0x1_0000 * (s[at + 1] as int) + 0x100 * (s[at + 2] as int) + s[at + 3] as int
  }

  function Signed(w: nat): int {
    if w < TWO31 then w else w - TWO32
  }

  /** From at on, the bytes are bs. */
  ghost predicate HoldsAt(s: seq<byte>, at: nat, bs: seq<byte>) {
    at + |bs| <= |s| && forall i :: 0 <= i < |bs| ==> s[at + i] == bs[i]
  }

  lemma Digit(q: nat, d: nat)
    requires d < 256
    ensures (256 * q + d) / 256 == q && (256 * q + d) % 256 == d
  {
  }

  lemma Split(w: nat)
    ensures w == 256 * (w / 0x100) + w % 0x100
  {
  }

  lemma Shifted(w: nat)
    ensures w / 0x1_0000 == w / 0x100 / 0x100 && w / 0x100_0000 == w / 0x100 / 0x100 / 0x100
  {
  }

  lemma WordPut(s: seq<byte>, at: nat, n: int)
    requires HoldsAt(s, at, PutWord(n))
    ensures Word(s, at) == Wrap32(n)
  {
    var w := Wrap32(n);
    var bs := PutWord(n);
    assert s[at + 0] == bs[0] && s[at + 1] == bs[1] && s[at + 2] == bs[2] && s[at + 3] == bs[3];
    Shifted(w);
    Split(w);
    Split(w / 0x100);
    Split(w / 0x100 / 0x100);
  }

  /** The byte that counts most comes first. */
  lemma BigEndian(a: byte, b: byte, c: byte, d: byte)
    ensures var w: nat := 256 * (256 * (256 * (a as int) + b as int) + c as int) + d as int;
            PutWord(w) == [a, b, c, d] && Word([a, b, c, d], 0) == w
  {
    var x: nat := a as int;
    var y: nat := 256 * x + b as int;
    var z: nat := 256 * y + c as int;
    var w: nat := 256 * z + d as int;
    Digit(z, d as int);
    Digit(y, c as int);
    Digit(x, b as int);
    Shifted(w);
    assert Wrap32(w) == w;
  }

  /** Negative numbers travel in two's complement. */
  lemma NegativeWord(n: int)
    requires 0 <= n < TWO31
    ensures forall i :: 0 <= i < 4 ==> PutWord(-1 - n)[i] as int == 255 - PutWord(n)[i] as int
  {
    var bs := PutWord(n);
    WordPut(bs, 0, n);
    assert n == Word(bs, 0);
    hide PutWord;
    var m := [255 - bs[0] as int, 255 - bs[1] as int, 255 - bs[2] as int, 255 - bs[3] as int];
    BigEndian(m[0], m[1], m[2], m[3]);
    SameWord(-1 - n, TWO32 - 1 - n);
  }

  lemma SameWord(m: int, n: int)
    requires m + TWO32 == n && 0 <= n < TWO32
    ensures PutWord(m) == PutWord(n)
  {
    assert Wrap32(m) == n;
  }

  lemma WrapSigned(n: int)
    requires -TWO31 <= n < TWO31
    ensures Signed(Wrap32(n)) == n
  {
  }

  lemma HoldsBoth(s: seq<byte>, at: nat, a: seq<byte>, b: seq<byte>)
    requires HoldsAt(s, at, a + b)
    ensures HoldsAt(s, at, a) && HoldsAt(s, at + |a|, b)
  {
    forall i | 0 <= i < |a|
      ensures s[at + i] == a[i]
    {
      assert (a + b)[i] == a[i];
    }
    forall i | 0 <= i < |b|
      ensures s[at + |a| + i] == b[i]
    {
      assert (a + b)[|a| + i] == b[i] && s[at + (|a| + i)] == (a + b)[|a| + i];
    }
  }

  // ---------------------------------------------------------------- fields

  /** Bytes to the next multiple of four. */
  function Padding(n: nat): (p: nat)
    ensures p < 4 && (n + p) % 4 == 0
  {
    (4 - n % 4) % 4
  }

  function Padded(s: seq<byte>): (bs: seq<byte>)
    ensures |bs| == |s| + Padding(|s|)
  {
    s + Fill(Padding(|s|), 0)
  }

  /** The bytes a filter writes, or None when it refuses the value. */
  function EncodeField(f: Filter, v: Value): (bs: Option<seq<byte>>)
    requires HasType(f, v)
    ensures bs.Some? <==> Encodable(f, v)
    ensures bs.Some? ==> |bs.value| % 4 == 0
  {
    if !Encodable(f, v) then None
    else match f
      case FString => Some(PutWord(|v.s|) + Padded(v.s))
      case FOpaque => Some(Padded(v.s))
      case _ => Some(PutWord(v.n))
  }

  /** RFC 4506, section 4.11: a length word, the bytes, and up to three zeros that fill the last word. */
  lemma StringLayout(s: seq<byte>)
    requires NulFreeBytes(s) && |s| < TWO32 - 1
    ensures var bs := EncodeField(FString, Bytes(s)).value;
            && |bs| % 4 == 0 && |s| + 4 <= |bs| < |s| + 8
            && Word(bs, 0) == |s| && bs[4..4 + |s|] == s
            && forall i :: 4 + |s| <= i < |bs| ==> bs[i] == 0
  {
    WordPut(EncodeField(FString, Bytes(s)).value, 0, |s|);
  }

  /** A C string in memory ends at its first NUL. */
  function CString(s: seq<byte>): (c: seq<byte>)
    ensures NulFreeBytes(c) && |c| <= |s| && (NulFreeBytes(s) ==> c == s)
  {
    s[..StringEnd(s, 0)]
  }

  function DecodeOpaque(s: seq<byte>, at: nat, len: nat): (r: Option<(seq<byte>, nat)>)
    requires at <= |s|
    ensures r.Some? ==> r.value.1 <= |s|
  {
    if at + len + Padding(len) > |s| then None else Some((s[at..at + len], at + len + Padding(len)))
  }

  /** The value a filter reads and where the next one starts, or None. */
  function DecodeField(f: Filter, s: seq<byte>, at: nat): (r: Option<(Value, nat)>)
    requires at <= |s|
    ensures r.Some? ==> at <= r.value.1 <= |s|
  {
    if f == FOpaque then
      match DecodeOpaque(s, at, MAX_SIZE)
      case None => None
      case Some((bs, next)) => Some((Bytes(bs), next))
    else if at + 4 > |s| then None
    else
      var w := Word(s, at);
      if f == FString then
        if w == TWO32 - 1 then None
        else
          match DecodeOpaque(s, at + 4, w)
          case None => None
          case Some((bs, next)) => Some((Bytes(CString(bs)), next))
      else Some((Num(if f == FInt || f == FLong then Signed(w) else w), at + 4))
  }

  lemma OpaqueRoundTrip(s: seq<byte>, at: nat, d: seq<byte>)
    requires HoldsAt(s, at, Padded(d))
    ensures DecodeOpaque(s, at, |d|) == Some((d, at + |Padded(d)|))
  {
    HoldsBoth(s, at, d, Fill(Padding(|d|), 0));
    assert s[at..at + |d|] == d;
  }

  /** Reading back what one filter wrote gives the value and stops right behind it. */
  lemma FieldRoundTrip(f: Filter, v: Value, s: seq<byte>, at: nat)
    requires HasType(f, v) && Encodable(f, v) && HoldsAt(s, at, EncodeField(f, v).value)
    ensures DecodeField(f, s, at) == Some((v, at + |EncodeField(f, v).value|))
  {
    match f
    case FString =>
      HoldsBoth(s, at, PutWord(|v.s|), Padded(v.s));
      WordPut(s, at, |v.s|);
      OpaqueRoundTrip(s, at + 4, v.s);
    case FOpaque =>
      OpaqueRoundTrip(s, at, v.s);
    case FInt =>
      WordPut(s, at, v.n);
      WrapSigned(v.n);
    case FLong =>
      WordPut(s, at, v.n);
      WrapSigned(v.n);
    case _ =>
      WordPut(s, at, v.n);
  }

  /** Whatever a filter reads is a value of its type that it would also write. */
  lemma DecodedIsEncodable(f: Filter, s: seq<byte>, at: nat)
    requires at <= |s| && DecodeField(f, s, at).Some?
    ensures HasType(f, DecodeField(f, s, at).value.0) && Encodable(f, DecodeField(f, s, at).value.0)
  {
  }

  // --------------------------------------------------------------- structs

  /** Fields i.. in order, the first refusal refusing all. */
  function EncodeFrom(fs: seq<Filter>, vs: seq<Value>, i: nat): (bs: Option<seq<byte>>)
    requires HasTypes(fs, vs) && i <= |fs|
    decreases |fs| - i
  {
    if i == |fs| then Some([])
    else match EncodeField(fs[i], vs[i])
      case None => None
      case Some(head) =>
        match EncodeFrom(fs, vs, i + 1)
        case None => None
        case Some(rest) => Some(head + rest)
  }

  function DecodeFrom(fs: seq<Filter>, s: seq<byte>, at: nat, i: nat): (r: Option<(seq<Value>, nat)>)
    requires at <= |s| && i <= |fs|
    ensures r.Some? ==> |r.value.0| == |fs| - i && at <= r.value.1 <= |s|
    decreases |fs| - i
  {
    if i == |fs| then Some(([], at))
    else match DecodeField(fs[i], s, at)
      case None => None
      case Some((v, next)) =>
        match DecodeFrom(fs, s, next, i + 1)
        case None => None
        case Some((rest, end)) => Some(([v] + rest, end))
  }

  /** A message is refused exactly when one of its fields does not fit; it fills whole words. */
  lemma {:induction false} EncodesIff(fs: seq<Filter>, vs: seq<Value>, i: nat)
    requires HasTypes(fs, vs) && i <= |fs|
    ensures EncodeFrom(fs, vs, i).Some? <==> forall j :: i <= j < |fs| ==> Encodable(fs[j], vs[j])
    ensures EncodeFrom(fs, vs, i).Some? ==> |EncodeFrom(fs, vs, i).value| % 4 == 0
    decreases |fs| - i
  {
    hide EncodeField, Encodable, HasType;
    if i < |fs| {
      EncodesIff(fs, vs, i + 1);
    }
  }

  lemma {:induction false} StructRoundTrip(fs: seq<Filter>, vs: seq<Value>, i: nat, s: seq<byte>, at: nat)
    requires HasTypes(fs, vs) && i <= |fs| && EncodeFrom(fs, vs, i).Some?
    requires HoldsAt(s, at, EncodeFrom(fs, vs, i).value)
    ensures DecodeFrom(fs, s, at, i) == Some((vs[i..], at + |EncodeFrom(fs, vs, i).value|))
    decreases |fs| - i
  {
    hide EncodeField, DecodeField, Encodable, HasType;
    if i < |fs| {
      var head, rest := EncodeField(fs[i], vs[i]).value, EncodeFrom(fs, vs, i + 1).value;
      HoldsBoth(s, at, head, rest);
      FieldRoundTrip(fs[i], vs[i], s, at);
      StructRoundTrip(fs, vs, i + 1, s, at + |head|);
      assert vs[i..] == [vs[i]] + vs[i + 1..];
    }
  }

  lemma {:induction false} DecodedIsInRange(fs: seq<Filter>, s: seq<byte>, at: nat, i: nat)
    requires at <= |s| && i <= |fs| && DecodeFrom(fs, s, at, i).Some?
    ensures var vs := DecodeFrom(fs, s, at, i).value.0;
            forall j :: i <= j < |fs| ==> HasType(fs[j], vs[j - i]) && Encodable(fs[j], vs[j - i])
    decreases |fs| - i
  {
    hide DecodeField, Encodable, HasType;
    if i < |fs| {
      var (v, next) := DecodeField(fs[i], s, at).value;
      DecodedIsEncodable(fs[i], s, at);
      DecodedIsInRange(fs, s, next, i + 1);
      var vs, rest := DecodeFrom(fs, s, at, i).value.0, DecodeFrom(fs, s, next, i + 1).value.0;
      assert vs == [v] + rest;
      forall j | i <= j < |fs|
        ensures HasType(fs[j], vs[j - i]) && Encodable(fs[j], vs[j - i])
      {
        assert j > i ==> vs[j - i] == rest[j - (i + 1)];
      }
    }
  }

  function Encode(fs: seq<Filter>, vs: seq<Value>): Option<seq<byte>>
    requires HasTypes(fs, vs)
  {
    EncodeFrom(fs, vs, 0)
  }

  function Decode(fs: seq<Filter>, s: seq<byte>, at: nat): (r: Option<(seq<Value>, nat)>)
    requires at <= |s|
    ensures r.Some? ==> |r.value.0| == |fs| && at <= r.value.1 <= |s|
  {
    DecodeFrom(fs, s, at, 0)
  }

  /** Round trip and self-delimitation, for any message and whatever follows it. */
  lemma RoundTrip(fs: seq<Filter>, vs: seq<Value>, before: seq<byte>, after: seq<byte>)
    requires HasTypes(fs, vs)
    ensures Encode(fs, vs).Some? <==> AllEncodable(fs, vs)
    ensures AllEncodable(fs, vs) ==>
      var m := Encode(fs, vs).value;
      && |m| % 4 == 0
      && Decode(fs, before + m + after, |before|) == Some((vs, |before| + |m|))
  {
    hide EncodeFrom, DecodeFrom;
    EncodesIff(fs, vs, 0);
    if AllEncodable(fs, vs) {
      var m := Encode(fs, vs).value;
      var s := before + m + after;
      forall i | 0 <= i < |m|
        ensures s[|before| + i] == m[i]
      {
      }
      StructRoundTrip(fs, vs, 0, s, |before|);
      assert vs[0..] == vs;
    }
  }

  /** No encoding of a message is a prefix of another one's: what follows cannot change the reading. */
  lemma PrefixFree(fs: seq<Filter>, vs: seq<Value>, ws: seq<Value>, x: seq<byte>, y: seq<byte>)
    requires HasTypes(fs, vs) && HasTypes(fs, ws) && AllEncodable(fs, vs) && AllEncodable(fs, ws)
    requires Encode(fs, vs).Some? && Encode(fs, ws).Some?
    requires Encode(fs, vs).value + x == Encode(fs, ws).value + y
    ensures vs == ws && x == y
  {
    hide EncodeFrom, DecodeFrom;
    var m, n := Encode(fs, vs).value, Encode(fs, ws).value;
    RoundTrip(fs, vs, [], x);
    RoundTrip(fs, ws, [], y);
    assert [] + m + x == m + x == [] + n + y;
    assert (m + x)[|m|..] == x && (n + y)[|n|..] == y;
  }

  // ------------------------------------------------------------- fast path

  /**
   How IXDR_GET_LONG widens a word to 64 bits, a choice of the C library.
   IXDR_GET_U_LONG is a cast of it, except ByType, which tells the two apart.
   */
  datatype Widening = ZeroExtend | SignExtend | ByType

  predicate Numeric(fs: seq<Filter>) {
    forall i :: 0 <= i < |fs| ==> fs[i] == FInt || fs[i] == FLong || fs[i] == FULong
  }

  /** IXDR_PUT for fields i.. : the low 32 bits of each, unchecked. */
  function FastPut(vs: seq<Value>, i: nat): (bs: seq<byte>)
    requires i <= |vs| && forall j :: 0 <= j < |vs| ==> vs[j].Num?
    ensures |bs| == 4 * (|vs| - i)
    decreases |vs| - i
  {
    if i == |vs| then [] else PutWord(vs[i].n) + FastPut(vs, i + 1)
  }

  /** IXDR_GET and the assignment to a field of the filter's type. */
  function FastGetField(w: Widening, f: Filter, word: nat): Value
    requires word < TWO32
  {
    match f
    case FLong => Num(if w == ZeroExtend then word else Signed(word))
    case FULong => Num(if w == SignExtend && word >= TWO31 then word - TWO32 + TWO64 else word)
    case _ => Num(Signed(word))
  }

  function FastGet(w: Widening, fs: seq<Filter>, s: seq<byte>, at: nat, i: nat): (vs: seq<Value>)
    requires i <= |fs| && at + 4 * (|fs| - i) <= |s|
    ensures |vs| == |fs| - i
    decreases |fs| - i
  {
    if i == |fs| then [] else [FastGetField(w, fs[i], Word(s, at))] + FastGet(w, fs, s, at + 4, i + 1)
  }

  /** A word whose widening to the field's type is the one the field-by-field filter makes. */
  predicate WidensRight(w: Widening, f: Filter, word: nat) {
    word < TWO31 || w == ByType || f == FInt || w == if f == FLong then SignExtend else ZeroExtend
  }

  /** The same for the words of fields i.. of a message. */
  predicate AllWidenRight(w: Widening, fs: seq<Filter>, s: seq<byte>, at: nat, i: nat)
    requires i <= |fs| && at + 4 * (|fs| - i) <= |s|
    decreases |fs| - i
  {
    i < |fs| ==> WidensRight(w, fs[i], Word(s, at)) && AllWidenRight(w, fs, s, at + 4, i + 1)
  }

  /** The two encodings are the same exactly when no long is cut; then the slow path refuses instead. */
  lemma {:induction false} FastPutIsEncodeIff(fs: seq<Filter>, vs: seq<Value>, i: nat)
    requires HasTypes(fs, vs) && Numeric(fs) && i <= |fs|
    ensures forall j :: 0 <= j < |vs| ==> vs[j].Num?
    ensures EncodeFrom(fs, vs, i) ==
            if forall j :: i <= j < |fs| ==> Encodable(fs[j], vs[j]) then Some(FastPut(vs, i)) else None
    decreases |fs| - i
  {
    assert forall j :: 0 <= j < |vs| ==> HasType(fs[j], vs[j]);
    if i < |fs| {
      FastPutIsEncodeIff(fs, vs, i + 1);
    }
  }

  lemma FieldWidensIff(w: Widening, f: Filter, s: seq<byte>, at: nat)
    requires f == FInt || f == FLong || f == FULong
    requires at + 4 <= |s|
    ensures DecodeField(f, s, at).Some? && DecodeField(f, s, at).value.1 == at + 4
    ensures FastGetField(w, f, Word(s, at)) == DecodeField(f, s, at).value.0 <==> WidensRight(w, f, Word(s, at))
  {
  }

  /** The two decodings give the same fields and the same cursor exactly when every word widens right. */
  lemma {:induction false} FastGetIsDecodeIff(w: Widening, fs: seq<Filter>, s: seq<byte>, at: nat, i: nat)
    requires Numeric(fs) && i <= |fs| && at + 4 * (|fs| - i) <= |s|
    ensures DecodeFrom(fs, s, at, i).Some? && DecodeFrom(fs, s, at, i).value.1 == at + 4 * (|fs| - i)
    ensures FastGet(w, fs, s, at, i) == DecodeFrom(fs, s, at, i).value.0 <==>
            AllWidenRight(w, fs, s, at, i)
    decreases |fs| - i
  {
    if i < |fs| {
      FieldWidensIff(w, fs[i], s, at);
      FastGetIsDecodeIff(w, fs, s, at + 4, i + 1);
      var slow, fast := DecodeFrom(fs, s, at, i).value.0, FastGet(w, fs, s, at, i);
      var slowRest, fastRest := DecodeFrom(fs, s, at + 4, i + 1).value.0, FastGet(w, fs, s, at + 4, i + 1);
      assert slow[1..] == slowRest && fast[1..] == fastRest;
      assert slow == fast <==> slow[0] == fast[0] && slow[1..] == fast[1..];
    }
  }
}
