/**
 The client's read and write loops against a server that may answer short,
 and the packing of directory listings into one fixed buffer.
 */
module ByteMovement {
  import opened Base
  import opened Kernel

  // ---------------------------------------------------------------- read

  /** A read reply: failed, or a zero-filled buffer of MAX_SIZE bytes of which len are file data. */
  datatype ReadReply = ReadFailed | Got(buffer: seq<byte>, len: nat)

  /** What the server does with one request; it returns at least one byte unless it is at the end of the file. */
  function ReadReplyFor(file: seq<byte>, size: nat, offset: nat, extra: nat): (r: ReadReply)
    requires size <= MAX_SIZE
    ensures r.Got? && |r.buffer| == MAX_SIZE && r.len <= size
    ensures r.len == 0 <==> size == 0 || offset >= |file|
    ensures offset + r.len <= |file| || r.len == 0
    ensures r.len > 0 ==> r.buffer[..r.len] == file[offset..offset + r.len]
  {
    var data := PRead(file, Min(size, extra + 1), offset);
    assert (data + Fill(MAX_SIZE - |data|, 0))[..|data|] == data;
    Got(data + Fill(MAX_SIZE - |data|, 0), |data|)
  }

  /** memmove of a whole reply buffer to the cursor, however few of its bytes are data. */
  method CopyReply(buf: array<byte>, at: nat, reply: seq<byte>)
    requires |reply| == MAX_SIZE && at + MAX_SIZE <= buf.Length
    modifies buf
    ensures buf[..] == old(buf[..at]) + reply + old(buf[at + MAX_SIZE..])
  {
    for j := 0 to MAX_SIZE
      invariant forall k :: 0 <= k < buf.Length && !(at <= k < at + j) ==> buf[k] == old(buf[k])
      invariant forall k :: 0 <= k < j ==> buf[at + k] == reply[k]
    {
      buf[at + j] := reply[j];
    }
  }

  /** How many bytes a read of size bytes at offset can get. */
  function Available(file: seq<byte>, size: nat, offset: nat): nat {
    if offset >= |file| then 0 else Min(size, |file| - offset)
  }

  /** The first total bytes of the buffer are the file's bytes from offset on. */
  ghost predicate HoldsSlice(buf: seq<byte>, file: seq<byte>, offset: nat, total: nat) {
    total <= |buf| && forall k :: 0 <= k < total ==> offset + k < |file| && buf[k] == file[offset + k]
  }

  ghost predicate SameFrom(a: seq<byte>, b: seq<byte>, n: nat) {
    |a| == |b| && forall k :: n <= k < |a| ==> a[k] == b[k]
  }

  lemma SameFromTrans(a: seq<byte>, b: seq<byte>, c: seq<byte>, n: nat, m: nat)
    requires SameFrom(a, b, n) && SameFrom(b, c, m) && m <= n
    ensures forall k :: k >= n ==> SameFrom(a, c, k)
  {
  }

  /** One reply moved to the cursor; only one that answers the last request is known to fit there. */
  method TakeReply(buf: array<byte>, total: nat, reply: ReadReply, ghost file: seq<byte>, ghost offset: nat,
                   ghost fits: bool)
    requires reply.Got? && |reply.buffer| == MAX_SIZE && 0 < reply.len <= MAX_SIZE && total + MAX_SIZE <= buf.Length
    requires fits ==>
               && offset + total + reply.len <= |file|
               && reply.buffer[..reply.len] == file[offset + total..offset + total + reply.len]
               && HoldsSlice(buf[..], file, offset, total)
    modifies buf
    ensures fits ==> HoldsSlice(buf[..], file, offset, total + reply.len)
    ensures SameFrom(buf[..], old(buf[..]), total + MAX_SIZE)
  {
    CopyReply(buf, total, reply.buffer);
    ghost var len := reply.len;
    if fits {
      forall k | 0 <= k < total + len
        ensures buf[..][k] == file[offset + k]
      {
        assert k < total ==> old(buf[..])[k] == file[offset + k];
        assert k >= total ==> reply.buffer[..len][k - total] == file[offset + total..offset + total + len][k - total];
      }
    }
  }

  /** One call of bb_read_6: answered, short or not; answered with a negative ret; or failed in the transport. */
  datatype ReadCall = Answers(extra: nat) | Refuses | Unanswered

  ghost predicate AllAnswered(calls: nat -> ReadCall, rounds: nat) {
    forall k :: 0 <= k < rounds ==> !calls(k).Unanswered?
  }

  /**
   bb_read against any pattern of calls: extra + 1 bounds an answer. A call that
   fails in the transport is only logged, and the loop goes on with the reply of
   an earlier call, or, in the first round, with a variable that nothing has
   set: then ret is None. The buffer needs slack behind the requested bytes,
   because every round copies a full reply.
   */
  method BbRead(buf: array<byte>, size: nat, offset: nat, file: seq<byte>, calls: nat -> ReadCall)
    returns (ret: Option<int>, ghost rounds: nat, ghost largest: nat)
    requires size < 0x8000_0000 && offset + size < TWO32
    requires size > 0 ==> size - 1 + MAX_SIZE <= buf.Length
    modifies buf
    ensures largest <= MAX_SIZE && rounds <= size
    ensures ret == None <==> rounds > 0 && calls(0).Unanswered?
    ensures ret == Some(-1) <==> rounds > 0 && !calls(0).Unanswered? && calls(rounds - 1).Refuses?
    ensures AllAnswered(calls, rounds) && ret != Some(-1) ==>
              && ret == Some(Available(file, size, offset))
              && HoldsSlice(buf[..], file, offset, Available(file, size, offset))
              && SameFrom(buf[..], old(buf[..]), Available(file, size, offset) + MAX_SIZE)
  {
    var total := 0;
    var argSize := if size <= MAX_SIZE then size else MAX_SIZE;
    var argOffset := offset;
    rounds, largest := 0, 0;
    var round, reply := 0, ReadFailed;
    while total < size
      invariant total >= 0 && rounds == round <= total && rounds <= size && largest <= MAX_SIZE
      invariant reply.Got? <==> round > 0
      invariant reply.Got? ==> |reply.buffer| == MAX_SIZE && 0 < reply.len <= MAX_SIZE
      invariant round > 0 ==> !calls(0).Unanswered? && !calls(round - 1).Refuses?
      invariant total < size ==> argOffset == offset + total && argSize == Min(size - total, MAX_SIZE)
      invariant AllAnswered(calls, rounds) ==>
        && total <= Available(file, size, offset)
        && HoldsSlice(buf[..], file, offset, total)
        && SameFrom(buf[..], old(buf[..]), total + MAX_SIZE)
      decreases size - total
    {
      rounds, largest := rounds + 1, if argSize > largest then argSize else largest;
      match calls(round) {
        case Refuses => return Some(-1), rounds, largest;
        case Answers(extra) => reply := ReadReplyFor(file, argSize, argOffset, extra);
        case Unanswered =>
          if reply == ReadFailed {
            return None, rounds, largest;
          }
      }
      round := round + 1;
      var len := reply.len;
      if len == 0 {
        break;
      }
      ghost var before := buf[..];
      TakeReply(buf, total, reply, file, offset, AllAnswered(calls, rounds));
      if AllAnswered(calls, rounds) {
        SameFromTrans(buf[..], before, old(buf[..]), total + MAX_SIZE, total + MAX_SIZE);
      }
      total := total + len;
      argOffset := Wrap32(argOffset + len);
      var left := size - total;
      argSize := if left <= MAX_SIZE then left else MAX_SIZE;
    }
    ret := Some(total);
  }

  // --------------------------------------------------------------- write

  /** Writing in two pieces, the second behind the first, is writing at once. */
  lemma PWriteSplit(file: seq<byte>, d: seq<byte>, offset: nat, k: nat)
    requires k <= |d|
    ensures PWrite(PWrite(file, d[..k], offset), d[k..], offset + k) == PWrite(file, d, offset)
  {
    if 0 < k < |d| {
      var one := PWrite(file, d[..k], offset);
      var two, whole := PWrite(one, d[k..], offset + k), PWrite(file, d, offset);
      assert |one| >= offset + k;
      forall i | 0 <= i < |whole|
        ensures i < |two| && two[i] == whole[i]
      {
        PWriteAt(file, d[..k], offset, i);
        PWriteAt(one, d[k..], offset + k, i);
        PWriteAt(file, d, offset, i);
      }
      assert |two| == |whole|;
    } else {
      assert d[..|d|] == d && d[0..] == d;
    }
  }

  lemma PWriteAt(file: seq<byte>, d: seq<byte>, offset: nat, i: nat)
    requires d != []
    ensures |PWrite(file, d, offset)| == (if offset + |d| <= |file| then |file| else offset + |d|)
    ensures i < |PWrite(file, d, offset)| ==>
      PWrite(file, d, offset)[i] ==
        if offset <= i < offset + |d| then d[i - offset] else if i < |file| then file[i] else 0
  {
  }

  lemma PWriteLength(file: seq<byte>, d: seq<byte>, offset: nat)
    ensures |PWrite(file, d, offset)| == if d == [] || offset + |d| <= |file| then |file| else offset + |d|
  {
  }

  /** n bytes of the caller's memory from a position on; what lies behind the buffer is unknown and stands as zeros. */
  function Slice(buf: seq<byte>, at: nat, n: nat): (s: seq<byte>)
    ensures |s| == n && (at + n <= |buf| ==> s == buf[at..at + n])
  {
    seq(n, i requires 0 <= i < n => if at + i < |buf| then buf[at + i] else 0)
  }

  lemma SlicePrefix(buf: seq<byte>, at: nat, n: nat, k: nat)
    requires k <= n
    ensures Slice(buf, at, n)[..k] == Slice(buf, at, k)
  {
  }

  /**
   One call of bb_write_6: answered with a negative ret, answered with what was
   written, at most count bytes, or failed in the transport, after the server
   wrote at most count bytes of it.
   */
  datatype WriteReply = WriteFailed | Took(count: nat) | Lost(count: nat)

  predicate NoneLost(replies: seq<WriteReply>) {
    forall i :: 0 <= i < |replies| ==> !replies[i].Lost?
  }

  /** The loop between two calls: the file, what is counted as written, the next request, and len in the reply. */
  datatype Sending = Sending(file: seq<byte>, total: nat, argSize: nat, argOffset: nat, last: Option<nat>)

  /**
   How the loop ends on a sequence of replies: Unfinished if it would go on
   asking, Undefined if it looks at a reply that nothing has set.
   */
  datatype WriteEnd = Unfinished | Undefined | GaveUp(file: seq<byte>) | Finished(file: seq<byte>)

  predicate Asking(s: Sending, size: nat) {
    s.argSize <= size && (s.last.Some? ==> s.last.value <= size)
  }

  /**
   One round as it is written: the server takes n bytes from the running total
   on, the reply says len, and the next request is computed from that len alone.
   */
  function WriteRound(s: Sending, buf: seq<byte>, size: nat, offset: nat, n: nat, len: nat): (s': Sending)
    requires len <= size
    ensures Asking(s', size)
  {
    Sending(PWrite(s.file, Slice(buf, s.total, n), s.argOffset), s.total + len, size - len, offset + len, Some(len))
  }

  function WriteRun(s: Sending, buf: seq<byte>, size: nat, offset: nat, replies: seq<WriteReply>): WriteEnd
    requires Asking(s, size)
    decreases |replies|
  {
    if replies == [] then Unfinished
    else if replies[0].WriteFailed? then GaveUp(s.file)
    else
      var n := Min(s.argSize, replies[0].count);
      var len := if replies[0].Lost? then s.last else Some(n);
      if len == None then Undefined
      else
        var s' := WriteRound(s, buf, size, offset, n, len.value);
        if s'.total == size then Finished(s'.file) else WriteRun(s', buf, size, offset, replies[1..])
  }

  function FirstRequest(file: seq<byte>, size: nat, offset: nat): Sending {
    Sending(file, 0, size, offset, None)
  }

  /** bb_write against any replies; ret stays 0 while the loop is still asking. */
  method BbWrite(buf: seq<byte>, size: nat, offset: nat, file: seq<byte>, replies: seq<WriteReply>)
    returns (ret: int, file': seq<byte>, ghost end: WriteEnd)
    requires size <= MAX_SIZE && offset + size < TWO32
    ensures end == WriteRun(FirstRequest(file, size, offset), buf, size, offset, replies)
    ensures end.Finished? ==> ret == size && file' == end.file
    ensures end.GaveUp? ==> ret == -1 && file' == end.file
    ensures end.Unfinished? || end.Undefined? ==> ret == 0
    ensures size <= |buf| && OneShortAtMost(size, replies) ==>
              ret == size && file' == PWrite(file, buf[..size], offset)
  {
    hide PWrite, Slice, OneShortAtMost;
    if size <= |buf| && OneShortAtMost(size, replies) {
      OneShortIsRight(file, buf, size, offset, replies, None);
    }
    var argSize, argOffset := size, offset;
    var argBuffer := Slice(buf, 0, MAX_SIZE);
    var total := 0;
    var retLen: Option<nat> := None;
    file' := file;
    end := WriteRun(FirstRequest(file, size, offset), buf, size, offset, replies);
    var round := 0;
    assert replies[0..] == replies;
    while round < |replies|
      invariant round <= |replies| && 0 <= argSize <= size && 0 <= total && argBuffer == Slice(buf, total, MAX_SIZE)
      invariant retLen.Some? ==> retLen.value <= size
      invariant end ==
        WriteRun(Sending(file', total, argSize, argOffset, retLen), buf, size, offset, replies[round..])
    {
      assert replies[round..][0] == replies[round] && replies[round..][1..] == replies[round + 1..];
      if replies[round].WriteFailed? {
        return -1, file', end;
      }
      var n := Min(argSize, replies[round].count);
      SlicePrefix(buf, total, MAX_SIZE, n);
      var sent := PWrite(file', argBuffer[..n], argOffset);
      if replies[round].Took? {
        retLen := Some(n);
      } else if retLen == None {
        return 0, sent, end;
      }
      file' := sent;
      var len := retLen.value;
      total := total + len;
      if total == size {
        return total, file', end;
      }
      argSize := size - len;
      argOffset := Wrap32(offset + len);
      argBuffer := Slice(buf, total, MAX_SIZE);
      round := round + 1;
    }
    ret := 0;
  }

  /** Leading empty replies aside, the first reply is full, or the second one completes it. */
  predicate OneShortAtMost(size: nat, replies: seq<WriteReply>)
    decreases |replies|
  {
    && replies != [] && replies[0].Took?
    && (|| replies[0].count >= size
        || (replies[0].count == 0 && OneShortAtMost(size, replies[1..]))
        || (replies[0].count > 0 && |replies| > 1 && replies[1].Took? && replies[1].count >= size - replies[0].count))
  }

  /** A run that is short at most once finishes, with the file as after one write of all the data. */
  lemma {:induction false} OneShortIsRight(file: seq<byte>, buf: seq<byte>, size: nat, offset: nat,
                                           replies: seq<WriteReply>, last: Option<nat>)
    requires size <= |buf| && OneShortAtMost(size, replies) && (last.Some? ==> last.value <= size)
    ensures WriteRun(FirstRequest(file, size, offset).(last := last), buf, size, offset, replies) ==
            Finished(PWrite(file, buf[..size], offset))
    decreases |replies|
  {
    hide Slice, PWrite;
    var s0 := FirstRequest(file, size, offset).(last := last);
    var a := Min(size, replies[0].count);
    var s1 := WriteRound(s0, buf, size, offset, a, a);
    TwoPieces(file, buf, size, offset, a);
    if 0 < a < size {
      assert replies[1..][0] == replies[1];
    } else if a == 0 && size > 0 {
      assert s1 == s0.(last := Some(0));
      OneShortIsRight(file, buf, size, offset, replies[1..], Some(0));
    }
  }

  lemma TwoPieces(file: seq<byte>, buf: seq<byte>, size: nat, offset: nat, a: nat)
    requires a <= size <= |buf|
    ensures PWrite(PWrite(file, Slice(buf, 0, a), offset), Slice(buf, a, size - a), offset + a) ==
            PWrite(file, buf[..size], offset)
    ensures a == size ==> Slice(buf, 0, a) == buf[..size]
    ensures a == 0 ==> PWrite(file, Slice(buf, 0, a), offset) == file
  {
    assert Slice(buf, 0, a) == buf[..size][..a] && Slice(buf, a, size - a) == buf[..size][a..];
    PWriteSplit(file, buf[..size], offset, a);
  }

  /** Once more than size bytes are counted, the loop never ends in success. */
  lemma {:induction false} OvershootNeverFinishes(s: Sending, buf: seq<byte>, size: nat, offset: nat,
                                                  replies: seq<WriteReply>)
    requires Asking(s, size) && size < s.total
    ensures !WriteRun(s, buf, size, offset, replies).Finished?
    decreases |replies|
  {
    hide PWrite, Slice;
    if replies != [] && !replies[0].WriteFailed? {
      var n := Min(s.argSize, replies[0].count);
      var len := if replies[0].Lost? then s.last else Some(n);
      if len.Some? {
        OvershootNeverFinishes(WriteRound(s, buf, size, offset, n, len.value), buf, size, offset, replies[1..]);
      }
    }
  }

  /** The last byte of the range is not what it should become. */
  ghost predicate LastMissing(file: seq<byte>, buf: seq<byte>, size: nat, offset: nat)
    requires 0 < size <= |buf|
  {
    |file| < offset + size || file[offset + size - 1] != buf[size - 1]
  }

  /** A write that ends before the last byte of the range does not supply it. */
  lemma LastStaysMissing(file: seq<byte>, d: seq<byte>, at: nat, buf: seq<byte>, size: nat, offset: nat)
    requires 0 < size <= |buf| && LastMissing(file, buf, size, offset) && at + |d| < offset + size
    ensures LastMissing(PWrite(file, d, at), buf, size, offset)
  {
    PWriteLength(file, d, at);
    if d != [] {
      PWriteAt(file, d, at, offset + size - 1);
    }
  }

  /** After one write of all the data the last byte is there. */
  lemma LastIsThere(file: seq<byte>, buf: seq<byte>, size: nat, offset: nat)
    requires 0 < size <= |buf|
    ensures !LastMissing(PWrite(file, buf[..size], offset), buf, size, offset)
  {
    PWriteLength(file, buf[..size], offset);
    PWriteAt(file, buf[..size], offset, offset + size - 1);
  }

  /**
   A state from which the data can no longer be completed: the last byte is
   missing, and no request that makes the count come out reaches it.
   */
  ghost predicate Spoiled(s: Sending, buf: seq<byte>, size: nat, offset: nat)
    requires 0 < size <= |buf|
  {
    && LastMissing(s.file, buf, size, offset) && Asking(s, size) && s.total > 0
    && offset <= s.argOffset < offset + s.total
  }

  lemma SpoiledRound(s: Sending, buf: seq<byte>, size: nat, offset: nat, n: nat)
    requires 0 < size <= |buf| && Spoiled(s, buf, size, offset) && n <= s.argSize && s.total + n <= size
    ensures var s' := WriteRound(s, buf, size, offset, n, n);
            LastMissing(s'.file, buf, size, offset) && Spoiled(s', buf, size, offset)
  {
    hide PWrite, Slice, LastMissing;
    LastStaysMissing(s.file, Slice(buf, s.total, n), s.argOffset, buf, size, offset);
  }

  lemma {:induction false} SpoiledStaysSo(s: Sending, buf: seq<byte>, size: nat, offset: nat, replies: seq<WriteReply>)
    requires 0 < size <= |buf| && Spoiled(s, buf, size, offset) && NoneLost(replies)
    ensures var end := WriteRun(s, buf, size, offset, replies);
            end.Finished? ==> LastMissing(end.file, buf, size, offset)
    decreases |replies|
  {
    hide PWrite, Slice, LastMissing;
    if replies != [] && replies[0].Took? {
      var n := Min(s.argSize, replies[0].count);
      var s' := WriteRound(s, buf, size, offset, n, n);
      if s'.total <= size {
        SpoiledRound(s, buf, size, offset, n);
        SpoiledStaysSo(s', buf, size, offset, replies[1..]);
      } else {
        OvershootNeverFinishes(s', buf, size, offset, replies[1..]);
      }
    }
  }

  /**
   A second short reply, or an empty one behind a short one, is fatal: whatever
   replies follow, the loop does not finish with the last byte in place, if it
   was not there before.
   */
  lemma {:induction false} SecondShortNeverCompletes(file: seq<byte>, buf: seq<byte>, size: nat, offset: nat,
                                                     replies: seq<WriteReply>, last: Option<nat>)
    requires 0 < size <= |buf| && LastMissing(file, buf, size, offset) && (last.Some? ==> last.value <= size)
    requires NoneLost(replies) && !OneShortAtMost(size, replies)
    ensures var end := WriteRun(FirstRequest(file, size, offset).(last := last), buf, size, offset, replies);
            end.Finished? ==> LastMissing(end.file, buf, size, offset)
    decreases |replies|
  {
    hide Slice, LastMissing, PWrite;
    if replies != [] && replies[0].Took? {
      var s0, a := FirstRequest(file, size, offset).(last := last), replies[0].count;
      var s1 := WriteRound(s0, buf, size, offset, a, a);
      LastStaysMissing(file, Slice(buf, 0, a), offset, buf, size, offset);
      if a == 0 {
        assert s1 == s0.(last := Some(0)) by { assert Slice(buf, 0, 0) == []; EmptyWrite(file, offset); }
        SecondShortNeverCompletes(file, buf, size, offset, replies[1..], Some(0));
      } else if |replies| > 1 && replies[1].Took? {
        assert replies[1..][0] == replies[1];
        var b := replies[1].count;
        LastStaysMissing(s1.file, Slice(buf, a, b), offset + a, buf, size, offset);
        SpoiledStaysSo(WriteRound(s1, buf, size, offset, b, b), buf, size, offset, replies[1..][1..]);
      }
    }
  }

  lemma EmptyWrite(file: seq<byte>, offset: nat)
    ensures PWrite(file, [], offset) == file
  {
  }

  /** The loop ends in success, with the file as after one write of all the data. */
  ghost predicate WritesAll(file: seq<byte>, buf: seq<byte>, size: nat, offset: nat, replies: seq<WriteReply>)
    requires size <= |buf|
  {
    WriteRun(FirstRequest(file, size, offset), buf, size, offset, replies) ==
    Finished(PWrite(file, buf[..size], offset))
  }

  /** Exactly when the loop does its job on a file that does not have the last byte already. */
  lemma WritesAllIff(file: seq<byte>, buf: seq<byte>, size: nat, offset: nat, replies: seq<WriteReply>)
    requires 0 < size <= |buf| && LastMissing(file, buf, size, offset) && NoneLost(replies)
    ensures WritesAll(file, buf, size, offset, replies) <==> OneShortAtMost(size, replies)
  {
    hide PWrite, WriteRun, OneShortAtMost, LastMissing;
    if OneShortAtMost(size, replies) {
      OneShortIsRight(file, buf, size, offset, replies, None);
    } else {
      SecondShortNeverCompletes(file, buf, size, offset, replies, None);
      LastIsThere(file, buf, size, offset);
    }
  }

  /**
   Exactly when the loop can be trusted: it writes all the data, whatever a
   file of a given length holds, if and only if the replies are short at most
   once before they add up.
   */
  lemma WriteLoopIff(length: nat, buf: seq<byte>, size: nat, offset: nat, replies: seq<WriteReply>)
    requires 0 < size <= |buf| && NoneLost(replies)
    ensures (forall file: seq<byte> | |file| == length :: WritesAll(file, buf, size, offset, replies)) <==>
            OneShortAtMost(size, replies)
  {
    hide WritesAll, OneShortAtMost;
    if OneShortAtMost(size, replies) {
      forall file: seq<byte> | |file| == length
        ensures WritesAll(file, buf, size, offset, replies)
      {
        OneShortWritesAll(file, buf, size, offset, replies);
      }
    } else {
      var file: seq<byte> := Fill(length, if buf[size - 1] == 0 then 1 else 0);
      WritesAllIff(file, buf, size, offset, replies);
    }
  }

  lemma OneShortWritesAll(file: seq<byte>, buf: seq<byte>, size: nat, offset: nat, replies: seq<WriteReply>)
    requires size <= |buf| && OneShortAtMost(size, replies)
    ensures WritesAll(file, buf, size, offset, replies)
  {
    hide OneShortAtMost;
    OneShortIsRight(file, buf, size, offset, replies, None);
  }

  /**
   What the third round makes of two short replies: if the server takes all it
   is asked for, the count overshoots and the loop never finishes.
   */
  lemma FullThirdReplyOvershoots(file: seq<byte>, buf: seq<byte>, size: nat, offset: nat, a: nat, b: nat, c: nat,
                                 more: seq<WriteReply>)
    requires a > 0 && b > 0 && a + b < size && c >= size - b
    ensures !WriteRun(FirstRequest(file, size, offset), buf, size, offset, [Took(a), Took(b), Took(c)] + more).Finished?
  {
    hide PWrite, Slice;
    var replies := [Took(a), Took(b), Took(c)] + more;
    var two, three := [Took(b), Took(c)] + more, [Took(c)] + more;
    assert replies[1..] == two && two[1..] == three && three[1..] == more;
    var s1 := WriteRound(FirstRequest(file, size, offset), buf, size, offset, a, a);
    var s2 := WriteRound(s1, buf, size, offset, b, b);
    var s3 := WriteRound(s2, buf, size, offset, size - b, size - b);
    OvershootNeverFinishes(s3, buf, size, offset, more);
    assert !WriteRun(s2, buf, size, offset, three).Finished?;
    assert !WriteRun(s1, buf, size, offset, two).Finished?;
  }

  /**
   A call lost in the transport can pass for an answer: after half of the data,
   the loop takes the stale reply for the other half and reports success.
   */
  lemma LostCallPasses(file: seq<byte>, buf: seq<byte>, half: nat, offset: nat)
    requires 0 < half && 2 * half <= |buf| && LastMissing(file, buf, 2 * half, offset)
    ensures var end := WriteRun(FirstRequest(file, 2 * half, offset), buf, 2 * half, offset, [Took(half), Lost(0)]);
            end.Finished? && LastMissing(end.file, buf, 2 * half, offset)
  {
    hide PWrite, Slice, LastMissing;
    var size, replies := 2 * half, [Took(half), Lost(0)];
    var s1 := WriteRound(FirstRequest(file, size, offset), buf, size, offset, half, half);
    LastStaysMissing(file, Slice(buf, 0, half), offset, buf, size, offset);
    LastStaysMissing(s1.file, Slice(buf, half, 0), offset + half, buf, size, offset);
    assert replies[1..] == [Lost(0)];
    assert WriteRun(s1, buf, size, offset, [Lost(0)]) == Finished(WriteRound(s1, buf, size, offset, 0, half).file);
  }

  // -------------------------------------------------------- directory listing

  type FileName = seq<byte>

  ghost predicate NulFreeNames(names: seq<FileName>) {
    forall i :: 0 <= i < |names| ==> NulFreeBytes(names[i])
  }

  /** The names, each with its terminator. */
  function Packed(names: seq<FileName>): seq<byte> {
    if names == [] then [] else names[0] + [0] + Packed(names[1..])
  }

  lemma {:induction false} PackedAppend(names: seq<FileName>, n: FileName)
    ensures Packed(names + [n]) == Packed(names) + n + [0]
  {
    if names == [] {
      assert [n][1..] == [];
    } else {
      PackedAppend(names[1..], n);
      assert (names + [n])[1..] == names[1..] + [n];
    }
  }

  lemma {:induction false} PackedPrefix(names: seq<FileName>, k: nat)
    requires k <= |names|
    ensures |Packed(names[..k])| <= |Packed(names)|
    decreases |names| - k
  {
    if k == |names| {
      assert names[..k] == names;
    } else {
      PackedPrefix(names, k + 1);
      PackedAppend(names[..k], names[k]);
      assert names[..k + 1] == names[..k] + [names[k]];
    }
  }

  /** The buffer the server fills: the packed names, cut or zero-filled to MAX_SIZE. */
  function Listing(names: seq<FileName>): seq<byte> {
    Resize(Packed(names), MAX_SIZE)
  }

  /** The server's readdir loop. Terminators are not written: they are left over from the memset. */
  method PackEntries(names: seq<FileName>) returns (buf: array<byte>, count: nat)
    requires |Packed(names)| <= MAX_SIZE + 1
    ensures fresh(buf) && buf.Length == MAX_SIZE && buf[..] == Listing(names) && count == |names|
  {
    buf := new byte[MAX_SIZE](_ => 0);
    var offset := 0;
    count := 0;
    while count < |names|
      invariant count <= |names| && offset == |Packed(names[..count])| <= MAX_SIZE + 1
      invariant forall k :: 0 <= k < MAX_SIZE ==> buf[k] == if k < offset then Packed(names[..count])[k] else 0
    {
      var name := names[count];
      ghost var done := Packed(names[..count]);
      PackedAppend(names[..count], name);
      assert names[..count + 1] == names[..count] + [name];
      PackedPrefix(names, count + 1);
      for j := 0 to |name|
        invariant forall k :: 0 <= k < MAX_SIZE ==>
          buf[k] == if k < offset then done[k] else if k < offset + j then name[k - offset] else 0
      {
        buf[offset + j] := name[j];
      }
      offset := offset + |name| + 1;
      count := count + 1;
    }
    assert names[..|names|] == names;
    assert buf[..] == Listing(names);
  }

  /** Reading count names off a buffer; None when a name runs past its end. */
  function Unpack(e: seq<byte>, at: nat, count: nat): (r: Option<seq<FileName>>)
    requires at <= |e|
    ensures r.Some? ==> |r.value| == count
    decreases count
  {
    if count == 0 then Some([])
    else
      var end := StringEnd(e, at);
      if end == |e| then None
      else match Unpack(e, end + 1, count - 1)
        case None => None
        case Some(rest) => Some([e[at..end]] + rest)
  }

  /** From at on, the buffer holds s, or as much of it as fits. */
  ghost predicate HoldsOrEnds(e: seq<byte>, at: nat, s: seq<byte>) {
    at <= |e| && forall i :: 0 <= i < |s| && at + i < |e| ==> e[at + i] == s[i]
  }

  lemma HoldsOrEndsSplit(e: seq<byte>, at: nat, n: FileName, tail: seq<byte>)
    requires HoldsOrEnds(e, at, n + [0] + tail) && NulFreeBytes(n) && at + |n| <= |e|
    ensures StringEnd(e, at) == at + |n| && e[at..at + |n|] == n
    ensures at + |n| < |e| ==> HoldsOrEnds(e, at + |n| + 1, tail)
  {
    var s := n + [0] + tail;
    forall i | at <= i < at + |n|
      ensures e[i] == n[i - at]
    {
      assert s[i - at] == n[i - at] && e[at + (i - at)] == s[i - at];
    }
    assert s[|n|] == 0;
    forall i | 0 <= i < |tail| && at + |n| + 1 + i < |e|
      ensures e[at + |n| + 1 + i] == tail[i]
    {
      assert s[|n| + 1 + i] == tail[i] && e[at + (|n| + 1 + i)] == s[|n| + 1 + i];
    }
  }

  /** The names come back unless the last terminator is missing. */
  lemma {:induction false} UnpackPacked(e: seq<byte>, at: nat, names: seq<FileName>)
    requires NulFreeNames(names) && HoldsOrEnds(e, at, Packed(names)) && at + |Packed(names)| <= |e| + 1
    ensures Unpack(e, at, |names|) == if at + |Packed(names)| <= |e| then Some(names) else None
    decreases names
  {
    if names != [] {
      var n := names[0];
      HoldsOrEndsSplit(e, at, n, Packed(names[1..]));
      if at + |n| < |e| {
        UnpackPacked(e, at + |n| + 1, names[1..]);
        assert [n] + names[1..] == names;
      }
    }
  }

  /**
   A listing comes back as it was exactly when all names with their
   terminators fit the buffer. One byte more, and the last name still fits but
   its terminator does not: the client reads past the buffer.
   */
  lemma ListingRoundTripIff(names: seq<FileName>)
    requires NulFreeNames(names) && |Packed(names)| <= MAX_SIZE + 1
    ensures Unpack(Listing(names), 0, |names|) == Some(names) <==> |Packed(names)| <= MAX_SIZE
    ensures |Packed(names)| == MAX_SIZE + 1 ==> Unpack(Listing(names), 0, |names|) == None
  {
    UnpackPacked(Listing(names), 0, names);
  }

  const ENOMEM: int := 12

  lemma TakeFirst<T>(a: seq<T>, b: seq<T>)
    ensures b != [] ==> a + b == a + [b[0]] + b[1..]
    ensures (a + b)[..|a|] == a
  {
  }

  lemma UnpackNext(e: seq<byte>, at: nat, left: seq<FileName>)
    requires at <= |e| && left != [] && Unpack(e, at, |left|) == Some(left)
    ensures var end := StringEnd(e, at);
            end < |e| && e[at..end] == left[0] && Unpack(e, end + 1, |left| - 1) == Some(left[1..])
  {
    var rest := Unpack(e, StringEnd(e, at) + 1, |left| - 1).value;
    assert left == [e[at..StringEnd(e, at)]] + rest;
  }

  /** The client's strlen, from a position where a terminator is in reach. */
  method FindStringEnd(entries: array<byte>, at: nat) returns (end: nat)
    requires at <= entries.Length && StringEnd(entries[..], at) < entries.Length
    ensures end == StringEnd(entries[..], at)
  {
    end := at;
    while entries[end] != 0
      invariant at <= end <= StringEnd(entries[..], at)
      decreases entries.Length - end
    {
      end := end + 1;
    }
  }

  /** bb_readdir's loop; the filler takes room entries and then refuses. */
  method UnpackEntries(entries: array<byte>, count: nat, room: nat) returns (ret: int, filled: seq<FileName>)
    requires Unpack(entries[..], 0, count).Some?
    ensures count <= room ==> ret == 0 && filled == Unpack(entries[..], 0, count).value
    ensures count > room ==> ret == -ENOMEM && filled == Unpack(entries[..], 0, count).value[..room]
  {
    filled := [];
    var at := 0;
    ghost var e, all := entries[..], Unpack(entries[..], 0, count).value;
    ghost var left := all;
    hide Unpack;
    for ii := 0 to count
      invariant ii == |filled| <= room && at <= entries.Length
      invariant |left| == count - ii && Unpack(e, at, |left|) == Some(left) && all == filled + left
    {
      UnpackNext(e, at, left);
      var end := FindStringEnd(entries, at);
      TakeFirst(filled, left);
      if |filled| == room {
        return -ENOMEM, filled;
      }
      assert entries[at..end] == e[at..end] == left[0];
      filled, left := filled + [entries[at..end]], left[1..];
      at := end + 1;
    }
    ret := 0;
  }
}
