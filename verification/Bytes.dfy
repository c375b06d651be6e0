/** Bytes, and the 16- and 32-bit fields that packets store in network byte order. */
module Bytes {

  type byte = x: int | 0 <= x < 0x100
  type u16 = x: int | 0 <= x < 0x1_0000
  type u32 = x: int | 0 <= x < 0x1_0000_0000

  /** ntohs of the two bytes at offset i. */
  function Be16(s: seq<byte>, i: nat): u16
    requires i + 2 <= |s|
  {
    s[i] as int * 0x100 + s[i + 1]
  }

  /** ntohl of the four bytes at offset i. */
  function Be32(s: seq<byte>, i: nat): u32
    requires i + 4 <= |s|
  {
    Be16(s, i) * 0x1_0000 + Be16(s, i + 2)
  }

  /** The memory image of htons(v). */
  function Be16Bytes(v: u16): (r: seq<byte>)
    ensures |r| == 2 && Be16(r, 0) == v
  {
    [v / 0x100, v % 0x100]
  }

  /** The memory image of htonl(v). */
  function Be32Bytes(v: u32): (r: seq<byte>)
    ensures |r| == 4 && Be32(r, 0) == v
  {
    Be16Bytes(v / 0x1_0000) + Be16Bytes(v % 0x1_0000)
  }

  /** A 16-bit load on a host of either byte order. */
  function Load16(a: byte, b: byte, little: bool): u16 {
    if little then a + 0x100 * b else 0x100 * a + b
  }

  /** A 32-bit load. */
  function Load32(p: seq<byte>, i: nat, little: bool): u32
    requires i + 4 <= |p|
  {
    var x, y := Load16(p[i], p[i + 1], little), Load16(p[i + 2], p[i + 3], little);
    if little then x + 0x1_0000 * y else 0x1_0000 * x + y
  }

  /** The bytes of s with those at offset i replaced by v. */
  function Splice(s: seq<byte>, i: nat, v: seq<byte>): (r: seq<byte>)
    requires i + |v| <= |s|
    ensures |r| == |s| && r[i..i + |v|] == v
    ensures forall k :: 0 <= k < |s| && !(i <= k < i + |v|) ==> r[k] == s[k]
  {
    s[..i] + v + s[i + |v|..]
  }

  function Zeros(n: nat): (r: seq<byte>)
    ensures |r| == n
  {
    seq(n, i => 0)
  }

  /** Fields with equal values have equal bytes. */
  lemma Be32Injective(s: seq<byte>, i: nat, t: seq<byte>, j: nat)
    requires i + 4 <= |s| && j + 4 <= |t| && Be32(s, i) == Be32(t, j)
    ensures s[i..i + 4] == t[j..j + 4]
  {
    assert Be16(s, i) == Be16(t, j) && Be16(s, i + 2) == Be16(t, j + 2);
  }

  /** Storing the value of a field stores its bytes. */
  lemma Be32OfBytes(s: seq<byte>, i: nat)
    requires i + 4 <= |s|
    ensures Be32Bytes(Be32(s, i)) == s[i..i + 4]
  {
    Be32Injective(s, i, Be32Bytes(Be32(s, i)), 0);
  }

  lemma Be16OfBytes(s: seq<byte>, i: nat)
    requires i + 2 <= |s|
    ensures Be16Bytes(Be16(s, i)) == s[i..i + 2]
  {
  }

  lemma Be16Moved(s: seq<byte>, at: nat)
    requires at + 2 <= |s|
    ensures Be16(s[at..at + 2], 0) == Be16(s, at)
  {
  }

  /** Writing into a window of a buffer. */
  lemma SpliceWindow(s: seq<byte>, p: nat, n: nat, at: nat, v: seq<byte>)
    requires p + n <= |s| && at + |v| <= n
    ensures Splice(s, p + at, v)[p..p + n] == Splice(s[p..p + n], at, v)
  {
  }

  /** Writing back what was there. */
  lemma SpliceBack(s: seq<byte>, at: nat, v: seq<byte>)
    requires at + |v| <= |s|
    ensures Splice(Splice(s, at, v), at, s[at..at + |v|]) == s
  {
  }

  /** The second of two writes to the same place. */
  lemma SpliceTwice(w: seq<byte>, at: nat, u: seq<byte>, v: seq<byte>)
    requires |u| == |v| && at + |v| <= |w|
    ensures Splice(Splice(w, at, u), at, v) == Splice(w, at, v)
  {
  }

  /** Writing into a window that has been written before. */
  lemma SpliceInto(s: seq<byte>, p: nat, w: seq<byte>, at: nat, v: seq<byte>)
    requires p + |w| <= |s| && at + |v| <= |w|
    ensures Splice(Splice(s, p, w), p + at, v) == Splice(s, p, Splice(w, at, v))
  {
  }

  lemma SpliceWhole(s: seq<byte>, p: nat, n: nat)
    requires p + n <= |s|
    ensures Splice(s, p, s[p..p + n]) == s
  {
  }

  lemma SpliceRead(s: seq<byte>, p: nat, w: seq<byte>)
    requires p + |w| <= |s|
    ensures Splice(s, p, w)[p..p + |w|] == w
  {
  }
}
