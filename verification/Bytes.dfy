/** Bytes, and what storing some of them makes of a buffer. */
module Bytes {

  type Byte = b: int | 0 <= b < 256

  /** A 16-bit number stored low byte first. */
  function Pair(low: Byte, high: Byte): (w: nat)
    ensures w < 0x1_0000
  {
    var l: nat, h: nat := low, high;
    l + 0x100 * h
  }

  lemma PairIs(low: Byte, high: Byte)
    ensures Pair(low, high) % 0x100 == low && Pair(low, high) / 0x100 == high
  {
  }

  // Quotients and remainders, from the sum they come from.

  lemma Split8(x: nat, q: nat, r: nat)
    requires x == 0x100 * q + r && r < 0x100
    ensures x / 0x100 == q && x % 0x100 == r
  {
  }

  lemma Split16(x: nat, q: nat, r: nat)
    requires x == 0x1_0000 * q + r && r < 0x1_0000
    ensures x / 0x1_0000 == q && x % 0x1_0000 == r
  {
  }

  lemma Split24(x: nat, q: nat, r: nat)
    requires x == 0x100_0000 * q + r && r < 0x100_0000
    ensures x / 0x100_0000 == q && x % 0x100_0000 == r
  {
  }

  /** Four bytes of a number, by dividing by 256 again and again. */
  lemma FourBytes(x: nat)
    requires x < 0x1_0000_0000
    ensures var a, b, c, d := x % 0x100, x / 0x100 % 0x100, x / 0x1_0000 % 0x100, x / 0x100_0000;
      d < 0x100 && x == a + 0x100 * b + 0x1_0000 * c + 0x100_0000 * d
  {
    var x1 := x / 0x100;
    var x2 := x1 / 0x100;
    var x3 := x2 / 0x100;
    Split16(x, x2, 0x100 * (x1 % 0x100) + x % 0x100);
    Split24(x, x3, 0x1_0000 * (x2 % 0x100) + 0x100 * (x1 % 0x100) + x % 0x100);
  }

  /** A number in n bytes, low byte first. */
  function LittleEndian(w: nat, n: nat): (s: seq<Byte>)
    ensures |s| == n
  {
    if n == 0 then [] else [w % 0x100] + LittleEndian(w / 0x100, n - 1)
  }

  lemma TwoBytes(w: nat)
    requires w < 0x1_0000
    ensures LittleEndian(w, 2) == [w % 0x100, w / 0x100] && Pair(w % 0x100, w / 0x100) == w
  {
    assert LittleEndian(w / 0x100 / 0x100, 0) == [];
    assert LittleEndian(w / 0x100, 1) == [w / 0x100];
  }

  function ZeroBytes(n: nat): (z: seq<Byte>)
    ensures |z| == n && (forall i | 0 <= i < n :: z[i] == 0)
  {
    seq<Byte>(n, _ => 0)
  }

  predicate IsDigit(c: Byte) {
    48 <= c <= 57
  }

  /** The first n characters of a text, or all of it. */
  function Clipped<T>(s: seq<T>, n: nat): seq<T> {
    if n < |s| then s[..n] else s
  }

  /** The buffer after `bytes` were stored from index at. */
  function Stored(out: seq<Byte>, at: nat, bytes: seq<Byte>): (r: seq<Byte>)
    requires at + |bytes| <= |out|
    ensures |r| == |out|
  {
    out[..at] + bytes + out[at + |bytes|..]
  }

  lemma StoredTwice(out: seq<Byte>, at: nat, a: seq<Byte>, b: seq<Byte>)
    requires at + |a| + |b| <= |out|
    ensures Stored(Stored(out, at, a), at + |a|, b) == Stored(out, at, a + b)
  {
  }

  /** One more byte stored right behind the others. */
  lemma StoreNext(out: seq<Byte>, at: nat, bytes: seq<Byte>, b: Byte)
    requires at + |bytes| < |out|
    ensures Stored(out, at, bytes)[at + |bytes| := b] == Stored(out, at, bytes + [b])
  {
  }

  lemma StoredAll(out: seq<Byte>, bytes: seq<Byte>)
    requires |bytes| == |out|
    ensures Stored(out, 0, bytes) == bytes
  {
  }

  lemma StoreNothing(out: seq<Byte>, at: nat, bytes: seq<Byte>)
    requires at <= |out| && bytes == []
    ensures Stored(out, at, bytes) == out
  {
  }

  lemma StoredInZeros(zeros: seq<Byte>, text: seq<Byte>)
    requires |text| < |zeros| && zeros == ZeroBytes(|zeros|)
    ensures Stored(zeros, 0, text + [0]) == text + ZeroBytes(|zeros| - |text|)
  {
  }
}
