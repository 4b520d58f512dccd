/**
 The permission bits as octal digits: what a caller may do is the owner's digit
 if the caller owns the entry, else the digit for others.
 */
module Permissions {
  import opened Base
  import opened Paths
  import opened Identity
  import opened Kernel
  import opened Handlers

  /** The three digits of a mode, with whatever stands above them. */
  ghost predicate Digits(perm: nat, s: nat, u: nat, g: nat, o: nat) {
    u < 8 && g < 8 && o < 8 && perm == 512 * s + 64 * u + 8 * g + o
  }

  lemma OwnerBits(perm: nat, s: nat, u: nat, rest: nat)
    requires u < 8 && rest < 64 && perm == 512 * s + 64 * u + rest
    ensures Bit(perm, 256) <==> u >= 4
    ensures Bit(perm, 128) <==> u % 4 >= 2
    ensures Bit(perm, 64) <==> u % 2 == 1
  {
    assert perm / 64 == 8 * s + u;
    assert perm / 128 == perm / 64 / 2 && perm / 256 == perm / 64 / 4;
  }

  lemma OtherBits(perm: nat, high: nat, o: nat)
    requires o < 8 && perm == 8 * high + o
    ensures Bit(perm, 4) <==> o >= 4
    ensures Bit(perm, 2) <==> o % 4 >= 2
    ensures Bit(perm, 1) <==> o % 2 == 1
  {
    var a, b, c := o / 4, o / 2 % 2, o % 2;
    assert o == 4 * a + 2 * b + c;
    Halved(4 * high + 2 * a + b, c);
    Halved(2 * high + a, b);
    Halved(high, a);
    Quartered(perm);
    assert perm / 1 == perm;
  }

  lemma Halved(q: nat, r: nat)
    requires r < 2
    ensures (2 * q + r) / 2 == q && (2 * q + r) % 2 == r
  {
  }

  lemma Quartered(n: nat)
    ensures n / 4 == n / 2 / 2
  {
  }

  /** Read is 4, write is 2, execute is 1, in the digit that counts for the caller. */
  lemma MayIff(n: Inode, id: nat, s: nat, u: nat, g: nat, o: nat)
    requires Digits(n.perm, s, u, g, o)
    ensures var d := if n.uid == id then u else o;
            && (MayRead(n, id) <==> d >= 4)
            && (MayWrite(n, id) <==> d % 4 >= 2)
            && (MayExecute(n, id) <==> d % 2 == 1)
  {
    OwnerBits(n.perm, s, u, 8 * g + o);
    OtherBits(n.perm, 64 * s + 8 * u + g, o);
  }

  /** All three exactly when the digit is 7. */
  lemma MayAllIff(n: Inode, id: nat, s: nat, u: nat, g: nat, o: nat)
    requires Digits(n.perm, s, u, g, o)
    ensures MayRead(n, id) && MayWrite(n, id) && MayExecute(n, id) <==> (if n.uid == id then u else o) == 7
  {
    hide MayRead, MayWrite, MayExecute;
    MayIff(n, id, s, u, g, o);
  }

  /** In "/DFS" the check fails exactly for a deletion of an entry that is there and belongs to somebody else. */
  lemma DeniedInRootIff(t: FileStore, f: string, ip: string, opName: string)
    requires '/' in f && ParentPath(f) == "/DFS"
    ensures Denied(t, f, ip, opName) <==>
              && (opName == "rmdir" || opName == "unlink")
              && LstatPath(t, f).Ok? && Node(t, LstatPath(t, f).value).uid != UserId(ip)
  {
  }

  /** Elsewhere it fails if lstat does not find the parent, and else exactly if the caller's digit there is not 7. */
  lemma DeniedByDigit(t: FileStore, f: string, ip: string, opName: string, s: nat, u: nat, g: nat, o: nat)
    requires '/' in f && ParentPath(f) != "/DFS"
    requires var r := LstatPath(t, ParentPath(f)); r.Ok? ==> Digits(Node(t, r.value).perm, s, u, g, o)
    ensures var r := LstatPath(t, ParentPath(f));
            Denied(t, f, ip, opName) <==>
              r.Err? || (if Node(t, r.value).uid == UserId(ip) then u else o) != 7
  {
    hide MayRead, MayWrite, MayExecute, LstatPath;
    var r := LstatPath(t, ParentPath(f));
    if r.Ok? {
      MayAllIff(Node(t, r.value), UserId(ip), s, u, g, o);
    }
  }

  /** The check of an open: every right asked for must be in the caller's digit. */
  lemma OpIsValidByDigit(t: FileStore, f: string, ip: string, r: bool, w: bool, x: bool, s: nat, u: nat, g: nat, o: nat)
    requires LstatPath(t, f).Ok? && Digits(Node(t, LstatPath(t, f).value).perm, s, u, g, o)
    ensures var n := Node(t, LstatPath(t, f).value); var d := if n.uid == UserId(ip) then u else o;
            IsOpValid(t, f, ip, r, w, x) ==
              if (r ==> d >= 4) && (w ==> d % 4 >= 2) && (x ==> d % 2 == 1) then 1 else 0
  {
    hide MayRead, MayWrite, MayExecute, LstatPath;
    MayIff(Node(t, LstatPath(t, f).value), UserId(ip), s, u, g, o);
  }

  /** In a directory of mode 0755 its owner may create, and nobody else may. */
  lemma OwnerMayCreate(t: FileStore, f: string, ip: string)
    requires '/' in f && ParentPath(f) != "/DFS" && LstatPath(t, ParentPath(f)).Ok?
    requires Node(t, LstatPath(t, ParentPath(f)).value).perm == 493
    ensures Denied(t, f, ip, "mkdir") <==> !IsOwner(t, ParentPath(f), ip)
  {
    hide LstatPath;
    DeniedByDigit(t, f, ip, "mkdir", 0, 7, 5, 5);
  }
}
