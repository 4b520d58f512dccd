/**
 How a client is identified: its dotted address is folded to a number, printed
 in decimal into every request, and read back by the server with atoi.
 */
module Identity {
  import opened Base

  predicate IsDigit(c: char) {
    '0' <= c <= '9'
  }

  function Digit(d: nat): (c: char)
    requires d < 10
    ensures IsDigit(c) && (c as int) - ('0' as int) == d
  {
    ('0' as int + d) as char
  }

  /** sprintf "%u". */
  function Decimal(n: nat): (s: string)
    ensures s != "" && forall i :: 0 <= i < |s| ==> IsDigit(s[i])
  {
    if n < 10 then [Digit(n)] else Decimal(n / 10) + [Digit(n % 10)]
  }

  function DottedQuad(a: nat, b: nat, c: nat, d: nat): string {
    Decimal(a) + ("." + (Decimal(b) + ("." + (Decimal(c) + ("." + Decimal(d))))))
  }

  /** One character of ip_to_int on the pair (cur_val, res_val), in 32-bit unsigned arithmetic. */
  function FoldChar(ch: char, cur: nat, res: nat): (nat, nat) {
    if ch == '.' then (0, (res * 256 + cur) % TWO32)
    else ((cur * 10 + (ch as int) - ('0' as int)) % TWO32, res)
  }

  function Fold(s: string, cur: nat, res: nat): (nat, nat) {
    if s == "" then (cur, res)
    else
      var next := FoldChar(s[0], cur, res);
      Fold(s[1..], next.0, next.1)
  }

  lemma {:induction false} FoldAppend(s: string, t: string, cur: nat, res: nat)
    ensures Fold(s + t, cur, res) == Fold(t, Fold(s, cur, res).0, Fold(s, cur, res).1)
  {
    if s == "" {
      assert s + t == t;
    } else {
      var next := FoldChar(s[0], cur, res);
      FoldAppend(s[1..], t, next.0, next.1);
      assert (s + t)[1..] == s[1..] + t;
    }
  }

  method IpToInt(ip: string) returns (res: nat)
    ensures res == Fold(ip, 0, 0).1
  {
    var cur := 0;
    res := 0;
    for ptr := 0 to |ip|
      invariant (cur, res) == Fold(ip[..ptr], 0, 0)
    {
      FoldAppend(ip[..ptr], [ip[ptr]], 0, 0);
      assert ip[..ptr + 1] == ip[..ptr] + [ip[ptr]];
      if ip[ptr] == '.' {
        res := (res * 256 + cur) % TWO32;
        cur := 0;
      } else {
        cur := (cur * 10 + (ip[ptr] as int) - ('0' as int)) % TWO32;
      }
    }
    assert ip[..|ip|] == ip;
  }

  lemma {:induction false} FoldDecimal(n: nat, res: nat)
    requires n < TWO32
    ensures Fold(Decimal(n), 0, res) == (n, res)
  {
    if n >= 10 {
      FoldDecimal(n / 10, res);
      FoldAppend(Decimal(n / 10), [Digit(n % 10)], 0, res);
    }
  }

  /** A printed octet and its dot shift the result by one byte. */
  lemma FoldOctet(n: nat, res: nat, rest: string)
    requires res * 256 + n < TWO32
    ensures Fold(Decimal(n) + ("." + rest), 0, res) == Fold(rest, 0, res * 256 + n)
  {
    hide Decimal;
    FoldDecimal(n, res);
    FoldAppend(Decimal(n), "." + rest, 0, res);
    assert ("." + rest)[1..] == rest;
  }

  /** The loop yields a*65536 + b*256 + c: the last octet is never folded in. */
  lemma QuadValue(a: nat, b: nat, c: nat, d: nat)
    requires a < 256 && b < 256 && c < 256 && d < 256
    ensures Fold(DottedQuad(a, b, c, d), 0, 0) == (d, a * 65536 + b * 256 + c)
    ensures a * 65536 + b * 256 + c < 0x100_0000
  {
    FoldDecimal(d, a * 65536 + b * 256 + c);
    FoldOctet(c, a * 256 + b, Decimal(d));
    FoldOctet(b, a, Decimal(c) + ("." + Decimal(d)));
    FoldOctet(a, 0, Decimal(b) + ("." + (Decimal(c) + ("." + Decimal(d)))));
  }

  /** atoi: leading blanks, a sign, then digits up to the first other character. */
  function Atoi(s: string): int
  {
    if s == "" then 0
    else if s[0] in " \t\n\r" then Atoi(s[1..])
    else if s[0] == '-' then 0 - Digits(s[1..], 0)
    else if s[0] == '+' then Digits(s[1..], 0)
    else Digits(s, 0)
  }

  function Digits(s: string, acc: nat): nat {
    if s == "" || !IsDigit(s[0]) then acc
    else Digits(s[1..], acc * 10 + (s[0] as int) - ('0' as int))
  }

  lemma {:induction false} DigitsAppend(s: string, t: string, acc: nat)
    requires forall i :: 0 <= i < |s| ==> IsDigit(s[i])
    ensures Digits(s + t, acc) == Digits(t, Digits(s, acc))
  {
    if s == "" {
      assert s + t == t;
    } else {
      DigitsAppend(s[1..], t, acc * 10 + (s[0] as int) - ('0' as int));
      assert (s + t)[1..] == s[1..] + t;
    }
  }

  /** atoi reads back exactly what "%u" printed. */
  lemma {:induction false} AtoiDecimal(n: nat)
    ensures Digits(Decimal(n), 0) == n && Atoi(Decimal(n)) == n
  {
    if n >= 10 {
      AtoiDecimal(n / 10);
      DigitsAppend(Decimal(n / 10), [Digit(n % 10)], 0);
    }
    assert IsDigit(Decimal(n)[0]);
  }

  /** The user id a server uses for the ip field of a request (a C int seen as uid_t). */
  function UserId(ip: string): nat {
    Atoi(ip) % TWO32
  }

  /** The ip field a client on the given address sends: ip_to_int, then "%u". */
  function IpField(address: string): string {
    Decimal(Fold(address, 0, 0).1)
  }

  lemma OwnerValue(a: nat, b: nat, c: nat, d: nat)
    requires a < 256 && b < 256 && c < 256 && d < 256
    ensures UserId(IpField(DottedQuad(a, b, c, d))) == a * 65536 + b * 256 + c
  {
    hide Fold, Decimal, Atoi, DottedQuad;
    QuadValue(a, b, c, d);
    AtoiDecimal(a * 65536 + b * 256 + c);
  }

  /** Two clients are one owner exactly when their first three octets agree. */
  lemma SameOwnerIff(a: nat, b: nat, c: nat, d: nat, a': nat, b': nat, c': nat, d': nat)
    requires a < 256 && b < 256 && c < 256 && d < 256
    requires a' < 256 && b' < 256 && c' < 256 && d' < 256
    ensures UserId(IpField(DottedQuad(a, b, c, d))) == a * 65536 + b * 256 + c
    ensures UserId(IpField(DottedQuad(a, b, c, d))) == UserId(IpField(DottedQuad(a', b', c', d')))
       <==> a == a' && b == b' && c == c'
  {
    OwnerValue(a, b, c, d);
    OwnerValue(a', b', c', d');
  }
}
