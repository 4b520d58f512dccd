/** Shared vocabulary: results, bytes and the two buffer sizes of the protocol. */
module Base {
  datatype Option<+T> = None | Some(value: T)

  /** A system call either yields a value or fails with an errno. */
  datatype Result<+T> = Ok(value: T) | Err(errno: int)

  type byte = b: int | 0 <= b < 256

  const MAX_SIZE: nat := 4096
  const MAX_PATH_LEN: nat := 200

  const TWO32: nat := 0x1_0000_0000

  /** The value an unsigned 32-bit variable keeps of n. */
  function Wrap32(n: int): (r: nat)
    ensures r < TWO32 && (0 <= n < TWO32 ==> r == n)
  {
    n % TWO32
  }

  function Min(a: int, b: int): int {
    if a <= b then a else b
  }

  /** A run of n equal elements. */
  function Fill<T>(n: nat, x: T): (s: seq<T>)
    ensures |s| == n && forall i :: 0 <= i < n ==> s[i] == x
  {
    seq(n, i => x)
  }

  ghost predicate NulFreeBytes(s: seq<byte>) {
    forall i :: 0 <= i < |s| ==> s[i] != 0
  }

  /** Where the string at a position ends: its terminator, or the end of the buffer. */
  function StringEnd(e: seq<byte>, at: nat): (end: nat)
    requires at <= |e|
    ensures at <= end <= |e| && (forall i :: at <= i < end ==> e[i] != 0) && (end < |e| ==> e[end] == 0)
    decreases |e| - at
  {
    if at == |e| || e[at] == 0 then at else StringEnd(e, at + 1)
  }
}
