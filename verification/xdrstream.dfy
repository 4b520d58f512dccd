/** The in-memory XDR stream and the generated filters running on it. */
module XdrStreams {
  import opened Base
  import opened Xdr
  import opened Messages

  /** The direction of a filter; the same code serves both. */
  datatype Op = XdrEncode | XdrDecode

  /** The bytes bs were stored at a position and nothing else changed. */
  ghost predicate Wrote(before: seq<byte>, at: nat, bs: seq<byte>, after: seq<byte>) {
    && |after| == |before| && HoldsAt(after, at, bs)
    && forall k :: 0 <= k < |before| && !(at <= k < at + |bs|) ==> after[k] == before[k]
  }

  ghost predicate KeptBefore(before: seq<byte>, at: nat, after: seq<byte>) {
    |after| == |before| && forall k :: 0 <= k < |before| && k < at ==> after[k] == before[k]
  }

  lemma WroteBoth(a: seq<byte>, at: nat, x: seq<byte>, b: seq<byte>, y: seq<byte>, c: seq<byte>)
    requires Wrote(a, at, x, b) && Wrote(b, at + |x|, y, c)
    ensures Wrote(a, at, x + y, c)
  {
    forall i | 0 <= i < |x + y|
      ensures c[at + i] == (x + y)[i]
    {
      assert i < |x| ==> b[at + i] == x[i];
      assert i >= |x| ==> c[at + |x| + (i - |x|)] == y[i - |x|];
    }
  }

  lemma WroteNothing(a: seq<byte>, at: nat)
    requires at <= |a|
    ensures Wrote(a, at, [], a)
  {
  }

  lemma Reassociate<T>(a: seq<T>, b: seq<T>, c: seq<T>)
    ensures a + (b + c) == a + b + c
  {
  }

  lemma WroteKeeps(a: seq<byte>, at: nat, x: seq<byte>, b: seq<byte>, n: nat, c: seq<byte>)
    requires Wrote(a, at, x, b) && KeptBefore(b, n, c) && at <= n
    ensures KeptBefore(a, at, c)
  {
  }

  class XdrStream {
    const data: array<byte>
    /** Whether XDR_INLINE ever gives out a pointer; streams in fragments may not. */
    const inlines: bool
    var pos: nat

    ghost predicate Valid()
      reads this
    {
      pos <= data.Length
    }

    constructor (data: array<byte>, inlines: bool)
      ensures Valid() && this.data == data && this.inlines == inlines && pos == 0
    {
      this.data, this.inlines, pos := data, inlines, 0;
    }

    method PutBytes(bs: seq<byte>) returns (ok: bool)
      requires Valid()
      modifies this`pos, data
      ensures Valid() && (ok <==> old(pos) + |bs| <= data.Length)
      ensures ok ==> pos == old(pos) + |bs| && Wrote(old(data[..]), old(pos), bs, data[..])
      ensures !ok ==> pos == old(pos) && data[..] == old(data[..])
    {
      if data.Length - pos < |bs| {
        return false;
      }
      Store(pos, bs);
      pos := pos + |bs|;
      ok := true;
    }

    /** memcpy into the buffer, and each IXDR_PUT. */
    method Store(at: nat, bs: seq<byte>)
      requires at + |bs| <= data.Length
      modifies data
      ensures Wrote(old(data[..]), at, bs, data[..])
    {
      for i := 0 to |bs|
        invariant forall k :: 0 <= k < i ==> data[at + k] == bs[k]
        invariant forall k :: 0 <= k < data.Length && !(at <= k < at + i) ==> data[k] == old(data[k])
      {
        data[at + i] := bs[i];
      }
    }

    /** xdr_opaque when encoding: the bytes, then zeros up to a whole word. */
    method PutOpaque(bs: seq<byte>) returns (ok: bool)
      requires Valid()
      modifies this`pos, data
      ensures Valid() && (ok <==> old(pos) + |Padded(bs)| <= data.Length)
      ensures ok ==> pos == old(pos) + |Padded(bs)| && Wrote(old(data[..]), old(pos), Padded(bs), data[..])
      ensures !ok ==> KeptBefore(old(data[..]), old(pos), data[..])
    {
      ok := PutBytes(bs);
      if ok {
        ghost var written := data[..];
        ok := PutBytes(Fill(Padding(|bs|), 0));
        if ok {
          WroteBoth(old(data[..]), old(pos), bs, written, Fill(Padding(|bs|), 0), data[..]);
        }
      }
    }

    /** xdr_opaque when decoding: the bytes, and the padding thrown away whatever it is. */
    method GetOpaque(n: nat) returns (r: Option<seq<byte>>)
      requires Valid()
      modifies this`pos
      ensures Valid()
      ensures match DecodeOpaque(data[..], old(pos), n)
              case None => r == None
              case Some((bs, next)) => r == Some(bs) && pos == next
    {
      if data.Length - pos < n {
        return None;
      }
      var bs := data[pos..pos + n];
      assert bs == data[..][pos..pos + n];
      pos := pos + n;
      if data.Length - pos < Padding(n) {
        return None;
      }
      pos := pos + Padding(n);
      r := Some(bs);
    }

    /** XDR_GETLONG. */
    method GetWord() returns (r: Option<nat>)
      requires Valid()
      modifies this`pos
      ensures Valid()
      ensures r == if old(pos) + 4 <= data.Length then Some(Word(data[..], old(pos))) else None
      ensures pos == if r == None then old(pos) else old(pos) + 4
    {
      if data.Length - pos < 4 {
        return None;
      }
      r := Some(Word(data[..], pos));
      pos := pos + 4;
    }

    /** One library filter, in the direction asked for. */
    method Field(op: Op, f: Filter, v: Value) returns (ok: bool, v': Value)
      requires Valid() && (op == XdrEncode ==> HasType(f, v))
      modifies this`pos, data
      ensures Valid()
      ensures op == XdrEncode ==> v' == v && Encoded(EncodeField(f, v), ok, old(pos), old(data[..]), pos, data[..])
      ensures op == XdrDecode ==> data[..] == old(data[..])
      ensures op == XdrDecode ==> (ok <==> DecodeField(f, data[..], old(pos)).Some?)
      ensures op == XdrDecode && ok ==> DecodeField(f, data[..], old(pos)) == Some((v', pos))
    {
      if op == XdrEncode {
        v' := v;
        ok := WriteField(f, v);
      } else {
        v' := v;
        var r := ReadField(f);
        match r
        case None => ok := false;
        case Some(x) => ok, v' := true, x;
      }
    }

    method WriteField(f: Filter, v: Value) returns (ok: bool)
      requires Valid() && HasType(f, v)
      modifies this`pos, data
      ensures Valid() && Encoded(EncodeField(f, v), ok, old(pos), old(data[..]), pos, data[..])
    {
      if !Encodable(f, v) {
        return false;
      }
      if f == FString {
        ok := PutBytes(PutWord(|v.s|));
        if ok {
          ghost var written := data[..];
          ok := PutOpaque(v.s);
          if ok {
            WroteBoth(old(data[..]), old(pos), PutWord(|v.s|), written, Padded(v.s), data[..]);
          }
        }
      } else if f == FOpaque {
        ok := PutOpaque(v.s);
      } else {
        ok := PutBytes(PutWord(v.n));
      }
    }

    method ReadField(f: Filter) returns (r: Option<Value>)
      requires Valid()
      modifies this`pos
      ensures Valid()
      ensures match DecodeField(f, data[..], old(pos))
              case None => r == None
              case Some((v, next)) => r == Some(v) && pos == next
    {
      if f == FOpaque {
        var bs := GetOpaque(MAX_SIZE);
        return if bs == None then None else Some(Bytes(bs.value));
      }
      var w := GetWord();
      if w == None {
        return None;
      }
      if f == FString {
        if w.value == TWO32 - 1 {
          return None;
        }
        var bs := GetOpaque(w.value);
        return if bs == None then None else Some(Bytes(CString(bs.value)));
      }
      r := Some(Num(if f == FInt || f == FLong then Signed(w.value) else w.value));
    }

    /** XDR_INLINE: a place for n bytes with the cursor moved behind it, or NULL. */
    method Inline(n: nat) returns (at: Option<nat>)
      requires Valid()
      modifies this`pos
      ensures Valid()
      ensures at == if inlines && old(pos) + n <= data.Length then Some(old(pos)) else None
      ensures pos == if at == None then old(pos) else old(pos) + n
    {
      if !inlines || data.Length - pos < n {
        return None;
      }
      at := Some(pos);
      pos := pos + n;
    }

    /** A generated filter: its fields in order, leaving at the first that fails. */
    method Struct(op: Op, fs: seq<Filter>, vs: seq<Value>) returns (ok: bool, vs': seq<Value>)
      requires Valid() && |vs| == |fs| && (op == XdrEncode ==> HasTypes(fs, vs))
      modifies this`pos, data
      ensures Valid() && |vs'| == |fs|
      ensures op == XdrEncode ==> vs' == vs && Encoded(Encode(fs, vs), ok, old(pos), old(data[..]), pos, data[..])
      ensures op == XdrDecode ==> data[..] == old(data[..])
      ensures op == XdrDecode ==> (ok <==> Decode(fs, data[..], old(pos)).Some?)
      ensures op == XdrDecode && ok ==> Decode(fs, data[..], old(pos)) == Some((vs', pos))
    {
      if op == XdrEncode {
        vs' := vs;
        ok := EncodeFields(fs, vs);
      } else {
        ok, vs' := DecodeFields(fs, vs);
      }
    }

    method EncodeFields(fs: seq<Filter>, vs: seq<Value>) returns (ok: bool)
      requires Valid() && HasTypes(fs, vs)
      modifies this`pos, data
      ensures Valid() && Encoded(Encode(fs, vs), ok, old(pos), old(data[..]), pos, data[..])
    {
      hide HasType, EncodeField, Wrote, KeptBefore;
      ghost var whole := Encode(fs, vs);
      ghost var done: seq<byte> := [];
      WroteNothing(data[..], pos);
      assert whole.Some? ==> whole.value == done + whole.value;
      var i := 0;
      while i < |fs|
        invariant Valid() && i <= |fs| && pos == old(pos) + |done|
        invariant Wrote(old(data[..]), old(pos), done, data[..])
        invariant whole.Some? <==> EncodeFrom(fs, vs, i).Some?
        invariant whole.Some? ==> whole.value == done + EncodeFrom(fs, vs, i).value
        decreases |fs| - i
      {
        ghost var before, at := data[..], pos;
        var v;
        ok, v := Field(XdrEncode, fs[i], vs[i]);
        if !ok {
          WroteKeeps(old(data[..]), old(pos), done, before, at, data[..]);
          return;
        }
        ghost var bs := EncodeField(fs[i], vs[i]).value;
        WroteBoth(old(data[..]), old(pos), done, before, bs, data[..]);
        if whole.Some? {
          Reassociate(done, bs, EncodeFrom(fs, vs, i + 1).value);
        }
        done := done + bs;
        i := i + 1;
      }
      assert done + [] == done;
      ok := true;
    }

    method DecodeFields(fs: seq<Filter>, vs: seq<Value>) returns (ok: bool, vs': seq<Value>)
      requires Valid() && |vs| == |fs|
      modifies this`pos, data
      ensures Valid() && |vs'| == |fs| && data[..] == old(data[..])
      ensures ok <==> Decode(fs, data[..], old(pos)).Some?
      ensures ok ==> Decode(fs, data[..], old(pos)) == Some((vs', pos))
    {
      hide DecodeField;
      vs' := vs;
      ghost var whole := Decode(fs, data[..], pos);
      assert whole.Some? ==> whole.value.0 == vs'[..0] + whole.value.0;
      var i := 0;
      while i < |fs|
        invariant Valid() && i <= |fs| == |vs'| && data[..] == old(data[..])
        invariant whole.Some? <==> DecodeFrom(fs, data[..], pos, i).Some?
        invariant whole.Some? ==> whole.value.0 == vs'[..i] + DecodeFrom(fs, data[..], pos, i).value.0
        invariant whole.Some? ==> whole.value.1 == DecodeFrom(fs, data[..], pos, i).value.1
        decreases |fs| - i
      {
        ghost var at := pos;
        var v;
        ok, v := Field(XdrDecode, fs[i], vs'[i]);
        if !ok {
          return;
        }
        assert vs'[i := v][..i + 1] == vs'[..i] + [v];
        if whole.Some? {
          Reassociate(vs'[..i], [v], DecodeFrom(fs, data[..], pos, i + 1).value.0);
        }
        vs' := vs'[i := v];
        i := i + 1;
      }
      assert vs'[..i] + [] == vs';
      ok := true;
    }

    /** The run of IXDR_PUTs at a pointer XDR_INLINE gave. */
    method PutInline(at: nat, vs: seq<Value>)
      requires at + 4 * |vs| <= data.Length && forall j :: 0 <= j < |vs| ==> vs[j].Num?
      modifies data
      ensures Wrote(old(data[..]), at, FastPut(vs, 0), data[..])
    {
      hide Wrote;
      ghost var done: seq<byte> := [];
      WroteNothing(data[..], at);
      assert FastPut(vs, 0) == done + FastPut(vs, 0);
      var i := 0;
      while i < |vs|
        invariant i <= |vs| && |done| == 4 * i
        invariant FastPut(vs, 0) == done + FastPut(vs, i)
        invariant Wrote(old(data[..]), at, done, data[..])
      {
        ghost var before := data[..];
        Store(at + 4 * i, PutWord(vs[i].n));
        WroteBoth(old(data[..]), at, done, before, PutWord(vs[i].n), data[..]);
        Reassociate(done, PutWord(vs[i].n), FastPut(vs, i + 1));
        done := done + PutWord(vs[i].n);
        i := i + 1;
      }
      assert done + [] == done;
    }

    /** The run of IXDR_GETs. */
    method GetInline(at: nat, fs: seq<Filter>, w: Widening) returns (vs: seq<Value>)
      requires at + 4 * |fs| <= data.Length
      ensures vs == FastGet(w, fs, data[..], at, 0)
    {
      hide FastGetField;
      vs := [];
      var i := 0;
      while i < |fs|
        invariant i <= |fs|
        invariant FastGet(w, fs, data[..], at, 0) == vs + FastGet(w, fs, data[..], at + 4 * i, i)
      {
        var v := FastGetField(w, fs[i], Word(data[..], at + 4 * i));
        Reassociate(vs, [v], FastGet(w, fs, data[..], at + 4 * (i + 1), i + 1));
        vs := vs + [v];
        i := i + 1;
      }
    }

    /** The filter of a message, with the fast path where it has one. */
    method Run(op: Op, m: Message, w: Widening, vs: seq<Value>) returns (ok: bool, vs': seq<Value>)
      requires Valid() && |vs| == |Fields(m)| && (op == XdrEncode ==> HasTypes(Fields(m), vs))
      modifies this`pos, data
      ensures Valid() && |vs'| == |Fields(m)|
      ensures op == XdrEncode ==> vs' == vs
      ensures op == XdrEncode ==>
        Encoded(EncodeMessage(m, Inlines(m, old(pos)), vs), ok, old(pos), old(data[..]), pos, data[..])
      ensures op == XdrDecode ==> data[..] == old(data[..])
      ensures op == XdrDecode ==> (ok <==> DecodeMessage(m, Inlines(m, old(pos)), w, data[..], old(pos)).Some?)
      ensures op == XdrDecode && ok ==>
        DecodeMessage(m, Inlines(m, old(pos)), w, data[..], old(pos)) == Some((vs', pos))
    {
      hide Fields, HasType, Wrote, KeptBefore;
      if MayInline(m) {
        var at := Inline(4 * |Fields(m)|);
        if at.Some? {
          ok := true;
          if op == XdrEncode {
            InlineIsNumeric(m);
            AllNumbers(Fields(m), vs);
            PutInline(at.value, vs);
            vs' := vs;
          } else {
            vs' := GetInline(at.value, Fields(m), w);
          }
          return;
        }
      }
      ok, vs' := Struct(op, Fields(m), vs);
    }

    /** Whether XDR_INLINE gives the message's filter a pointer at this cursor. */
    predicate Inlines(m: Message, at: nat) {
      inlines && MayInline(m) && at + 4 * |Fields(m)| <= data.Length
    }
  }

  /** The outcome of an encoding: it fails on a refused value or a full buffer, else appends the bytes. */
  ghost predicate Encoded(bs: Option<seq<byte>>, ok: bool, at: nat, before: seq<byte>, at': nat, after: seq<byte>) {
    && (ok <==> bs.Some? && at + |bs.value| <= |before|)
    && (ok ==> at' == at + |bs.value| && Wrote(before, at, bs.value, after))
    && (!ok ==> KeptBefore(before, at, after))
  }
}
