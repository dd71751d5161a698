/** Bytes, 32-bit words of either byte order, and alignment to 8 bytes. */
module Bytes {
  type Byte = c: char | c as int < 256 witness '\0'

  // the identity of a non-empty set of file descriptors
  type FdSet = nat

  function ToByte(n: nat): Byte
    requires n < 256
  {
    n as char
  }

  // le32toh() or be32toh()
  function Word(s: seq<Byte>, big: bool): (w: nat)
    requires |s| == 4
    ensures w < 0x1_0000_0000
  {
    var (a, b, c, d) := (s[0] as int, s[1] as int, s[2] as int, s[3] as int);
    if big then a * 0x100_0000 + b * 0x1_0000 + c * 0x100 + d
    else d * 0x100_0000 + c * 0x1_0000 + b * 0x100 + a
  }

  // The first byte counts most in a big-endian word, and least in a little-endian one.
  lemma WordIs(s: seq<Byte>)
    requires |s| == 4
    ensures Word(s, true) == ((s[0] as int * 256 + s[1] as int) * 256 + s[2] as int) * 256 + s[3] as int
    ensures Word(s, false) == ((s[3] as int * 256 + s[2] as int) * 256 + s[1] as int) * 256 + s[0] as int
  {
  }

  // htole32() or htobe32()
  function WordBytes(n: nat, big: bool): (s: seq<Byte>)
    requires n < 0x1_0000_0000
    ensures |s| == 4 && Word(s, big) == n
  {
    var (a, x) := (n / 0x100_0000, n % 0x100_0000);
    var (b, y) := (x / 0x1_0000, x % 0x1_0000);
    var (c, d) := (y / 0x100, y % 0x100);
    if big then [ToByte(a), ToByte(b), ToByte(c), ToByte(d)] else [ToByte(d), ToByte(c), ToByte(b), ToByte(a)]
  }

  // c_align_to(n, 8)
  function Align8(n: nat): (a: nat)
    ensures n <= a < n + 8 && a % 8 == 0
  {
    (n + 7) / 8 * 8
  }

  lemma AlignMore(m: nat, n: nat)
    requires m % 8 == 0
    ensures Align8(m + n) == m + Align8(n) && Align8(m) == m
  {
  }

  function Zeros(n: nat): (s: seq<Byte>)
    ensures |s| == n && forall i :: 0 <= i < n ==> s[i] == '\0'
  {
    seq(n, _ => '\0')
  }

  function Padded(s: seq<Byte>): (p: seq<Byte>)
    ensures |p| == Align8(|s|) && s <= p
  {
    s + Zeros(Align8(|s|) - |s|)
  }

  lemma PaddedAfter(s: seq<Byte>, t: seq<Byte>)
    requires |s| % 8 == 0
    ensures Padded(s + t) == s + Padded(t)
  {
    AlignMore(|s|, |t|);
  }

  // ---------------------------------------------------------------- memory

  // memcpy() of bytes from outside
  method Fill(a: array<Byte>, at: nat, chunk: seq<Byte>)
    requires at + |chunk| <= a.Length
    modifies a
    ensures a[at..at + |chunk|] == chunk
    ensures a[..at] == old(a[..at]) && a[at + |chunk|..] == old(a[at + |chunk|..])
  {
    forall i | 0 <= i < |chunk| {
      a[at + i] := chunk[i];
    }
  }

  // memmove() towards the front
  method MoveDown(a: array<Byte>, from: nat, n: nat)
    requires from + n <= a.Length
    modifies a
    ensures a[..n] == old(a[from..from + n])
  {
    forall i | 0 <= i < n {
      a[i] := a[from + i];
    }
  }

  // memcpy() between different objects
  method CopyInto(to: array<Byte>, at: nat, from: array<Byte>, start: nat, n: nat)
    requires to != from && at + n <= to.Length && start + n <= from.Length
    modifies to
    ensures to[..] == old(to[..at]) + from[start..start + n] + old(to[at + n..])
  {
    forall i | 0 <= i < n {
      to[at + i] := from[start + i];
    }
  }
}
