/**
 The Internet checksum of RFC 1071 as the program computes it: 32 bits at a time into a
 64-bit accumulator, in the byte order of the host, and folded at the end.

 `little` says whether the host is little-endian. The reference definition is the sum of
 the big-endian 16-bit words, and the results are proved for both byte orders.
 */
module Checksum {
  import opened Bytes

  type u64 = x: int | 0 <= x < 0x1_0000_0000_0000_0000

  // ---------------------------------------------------------------- reference definition

  /** The sum of the 16-bit words of p, the last byte padded with zero. */
  function Sum16(p: seq<byte>, little: bool): nat {
    if |p| == 0 then 0
    else if |p| == 1 then Load16(p[0], 0, little)
    else Load16(p[0], p[1], little) + Sum16(p[2..], little)
  }

  /** One's-complement normal form: zero only for an empty sum. */
  function Norm(n: nat): u16 {
    if n == 0 then 0 else (n - 1) % 0xffff + 1
  }

  /** The checksum of p as a number in network byte order. */
  function InternetChecksum(p: seq<byte>): u16 {
    0xffff - Norm(Sum16(p, false))
  }

  // ---------------------------------------------------------------- the program

  /** What the loads of ip_checksum_partial add up to. */
  function Sum32(p: seq<byte>, little: bool): nat {
    if |p| >= 4 then Load32(p, 0, little) + Sum32(p[4..], little) else Sum16(p, little)
  }

  function Wrap(n: nat): u64 { n % 0x1_0000_0000_0000_0000 }

  lemma WrapAdd(a: nat, b: nat)
    ensures Wrap(Wrap(a) + b) == Wrap(a + b)
  {
  }

  lemma NextWord32(p: seq<byte>, i: nat, little: bool)
    requires i + 4 <= |p|
    ensures Sum32(p[i..], little) == Load32(p, i, little) + Sum32(p[i + 4..], little)
  {
    assert p[i..][4..] == p[i + 4..];
  }

  /** What is left when no 32-bit word is left. */
  lemma TailWords(p: seq<byte>, i: nat, little: bool)
    requires i <= |p| < i + 4
    ensures Sum32(p[i..], little) == Sum16(p[i..], little)
  {
  }

  /** The words of a tail. */
  lemma TailSum(p: seq<byte>, little: bool)
    requires |p| < 4
    ensures Sum16(p, little) ==
      (if |p| >= 2 then Load16(p[0], p[1], little) else 0) +
      (if |p| % 2 == 1 then Load16(p[|p| - 1], 0, little) else 0)
  {
    hide Load16;
  }

  /** The end of ip_checksum_partial: at most three bytes that fill no 32-bit word. */
  method AddTrailingBytes(p: seq<byte>, sum: u64, little: bool) returns (s: u64)
    requires |p| < 4
    ensures s == Wrap(sum + Sum16(p, little))
  {
    TailSum(p, little);
    s := sum;
    assert s == Wrap(sum);
    hide Wrap, Load16, Sum16;
    var i := 0;
    ghost var done: nat := 0;
    if |p| >= 2 {
      done := Load16(p[0], p[1], little);
      WrapAdd(sum, done);
      s := Wrap(s + Load16(p[0], p[1], little));
      i := 2;
    }
    if |p| - i > 0 {
      WrapAdd(sum + done, Load16(p[i], 0, little));
      s := Wrap(s + Load16(p[i], 0, little));
    }
  }

  /** After the words before offset i the accumulator holds `done` more than it started with. */
  ghost predicate Partial(p: seq<byte>, i: nat, sum: u64, done: nat, s: u64, little: bool) {
    i <= |p| && s == Wrap(sum + done) && done + Sum32(p[i..], little) == Sum32(p, little)
  }

  lemma PartialStart(p: seq<byte>, sum: u64, little: bool)
    ensures Partial(p, 0, sum, 0, sum, little)
  {
    assert p[0..] == p;
  }

  lemma PartialNext(p: seq<byte>, i: nat, sum: u64, done: nat, s: u64, little: bool)
    requires Partial(p, i, sum, done, s, little) && i + 4 <= |p|
    ensures var w := Load32(p, i, little); Partial(p, i + 4, sum, done + w, Wrap(s + w), little)
  {
    hide Wrap, Load32, Sum32;
    NextWord32(p, i, little);
    WrapAdd(sum + done, Load32(p, i, little));
  }

  lemma PartialEnd(p: seq<byte>, i: nat, sum: u64, done: nat, s: u64, little: bool)
    requires Partial(p, i, sum, done, s, little) && |p| < i + 4
    ensures Wrap(s + Sum16(p[i..], little)) == Wrap(sum + Sum32(p, little))
  {
    hide Wrap, Sum16, Sum32;
    TailWords(p, i, little);
    WrapAdd(sum + done, Sum16(p[i..], little));
  }

  /** ip_checksum_partial. */
  method IpChecksumPartial(p: seq<byte>, sum: u64, little: bool) returns (s: u64)
    ensures s == Wrap(sum + Sum32(p, little))
  {
    hide Wrap, Load32, Sum32, Sum16, Partial;
    s := sum;
    PartialStart(p, sum, little);
    var i := 0;
    ghost var done: nat := 0;
    while |p| - i >= 4
      invariant 0 <= i <= |p| && Partial(p, i, sum, done, s, little)
    {
      PartialNext(p, i, sum, done, s, little);
      s := Wrap(s + Load32(p, i, little));
      done := done + Load32(p, i, little);
      i := i + 4;
    }
    PartialEnd(p, i, sum, done, s, little);
    s := AddTrailingBytes(p[i..], s, little);
  }

  /** ip_checksum_fold: both loops end, and the result is the complement of the normal form. */
  method IpChecksumFold(sum: u64) returns (c: u16)
    ensures c == 0xffff - Norm(sum)
  {
    var s := sum;
    while s / 0x1_0000_0000 != 0
      invariant 0 <= s
      invariant Norm(s) == Norm(sum)
      decreases s
    {
      FoldKeepsNorm(s, 0x1_0000_0000);
      s := s / 0x1_0000_0000 + s % 0x1_0000_0000;
    }
    while s / 0x1_0000 != 0
      invariant 0 <= s < 0x1_0000_0000
      invariant Norm(s) == Norm(sum)
      decreases s
    {
      FoldKeepsNorm(s, 0x1_0000);
      s := s / 0x1_0000 + s % 0x1_0000;
    }
    NormOfSmall(s);
    c := 0xffff - s;
  }

  // ---------------------------------------------------------------- arithmetic modulo 65535

  lemma NormOfSmall(n: nat)
    requires n < 0x1_0000
    ensures Norm(n) == n
  {
  }

  lemma FoldKeepsNorm(s: nat, k: nat)
    requires k == 0x1_0000_0000 || k == 0x1_0000
    ensures Norm(s / k + s % k) == Norm(s)
  {
    var q, r := s / k, s % k;
    if k == 0x1_0000 {
      assert s == q + r + 0xffff * q;
      NormShift(q + r, q);
    } else {
      assert s == q + r + 0xffff * (0x1_0001 * q);
      NormShift(q + r, 0x1_0001 * q);
    }
  }

  /** How often 65535 goes into what the 32-bit loads add on top of the 16-bit ones. */
  function HighHalves(p: seq<byte>, little: bool): nat {
    if |p| < 4 then 0
    else (if little then Load16(p[2], p[3], little) else Load16(p[0], p[1], little)) + HighHalves(p[4..], little)
  }

  lemma {:induction false} Sum32IsSum16(p: seq<byte>, little: bool)
    ensures Sum32(p, little) == Sum16(p, little) + 0xffff * HighHalves(p, little)
    ensures Sum32(p, little) == 0 <==> Sum16(p, little) == 0
    decreases |p|
  {
    if |p| >= 4 {
      Sum32IsSum16(p[4..], little);
      assert p[2..][2..] == p[4..];
    }
  }

  /** The sum of the bytes at even offsets. */
  function EvenBytes(p: seq<byte>): nat {
    if |p| == 0 then 0 else if |p| == 1 then p[0] else p[0] + EvenBytes(p[2..])
  }

  /** Loading words in the other byte order multiplies the sum by 256 modulo 65535. */
  lemma {:induction false} ByteOrder(p: seq<byte>)
    ensures 0x100 * Sum16(p, false) == Sum16(p, true) + 0xffff * EvenBytes(p)
    ensures Sum16(p, true) == 0 <==> Sum16(p, false) == 0
    decreases |p|
  {
    if |p| >= 2 { ByteOrder(p[2..]); }
  }

  lemma {:induction false} Sum32Bound(p: seq<byte>, little: bool)
    ensures Sum32(p, little) <= 0x4000_0000 * |p| + 0x1_0000_0000
    decreases |p|
  {
    if |p| >= 4 { Sum32Bound(p[4..], little); }
    else if |p| >= 2 { assert Sum16(p[2..], little) <= 0xffff; }
  }

  // ---------------------------------------------------------------- what is stored

  /** The two bytes that storing v leaves in memory. */
  function HostBytes(v: u16, little: bool): seq<byte> {
    if little then [v % 0x100, v / 0x100] else [v / 0x100, v % 0x100]
  }

  lemma ComplementBytes(hi: byte, lo: byte)
    ensures HostBytes(0xffff - (hi + 0x100 * lo), true) == [0xff - hi, 0xff - lo]
    ensures HostBytes(0xffff - (0x100 * hi + lo), false) == [0xff - hi, 0xff - lo]
  {
    assert 0xffff - (hi + 0x100 * lo) == (0xff - hi) + 0x100 * (0xff - lo);
    assert 0xffff - (0x100 * hi + lo) == 0x100 * (0xff - hi) + (0xff - lo);
  }

  /** Normal forms of byte-swapped sums are byte-swapped. */
  lemma NormSwapped(big: nat, small: nat, k: nat)
    requires 0x100 * big == small + 0xffff * k && (big == 0 <==> small == 0)
    ensures HostBytes(0xffff - Norm(small), true) == HostBytes(0xffff - Norm(big), false)
  {
    if big == 0 {
      ComplementBytes(0, 0);
    } else {
      var n: int := Norm(big);
      var j := (big - 1) / 0xffff;
      assert big == n + 0xffff * j;
      var hi, lo := n / 0x100, n % 0x100;
      assert n == 0x100 * hi + lo;
      SwapResidue(big, small, k, hi, lo, j);
      SameNorm(small, hi + 0x100 * lo, hi + 0x100 * j - k);
      ComplementBytes(hi, lo);
    }
  }

  lemma SwapResidue(big: nat, small: nat, k: nat, hi: int, lo: int, j: int)
    requires 0x100 * big == small + 0xffff * k && big == 0x100 * hi + lo + 0xffff * j
    ensures small == hi + 0x100 * lo + 0xffff * (hi + 0x100 * j - k)
  {
  }

  lemma Residue(a: int, k: int, r: int)
    requires a == r + 0xffff * k && 0 <= r < 0xffff
    ensures a % 0xffff == r
  {
  }

  lemma SameNorm(m: nat, n: nat, k: int)
    requires m == n + 0xffff * k && 0 < n < 0x1_0000 && 0 < m
    ensures Norm(m) == n
  {
    Residue(m - 1, k, n - 1);
  }

  lemma NormShift(m: nat, k: nat)
    requires m == 0 ==> k == 0
    ensures Norm(m + 0xffff * k) == Norm(m)
  {
    if m > 0 {
      var j: int := (m - 1) / 0xffff;
      var n: int := Norm(m);
      assert m == n + 0xffff * j;
      hide Norm;
      SameNorm(m + 0xffff * k, n, j + k);
    }
  }

  /** Folding the accumulator and storing it yields the RFC 1071 checksum in network byte
      order, whatever the byte order of the host. */
  method FoldAndStore(ghost p: seq<byte>, sum: u64, little: bool) returns (field: seq<byte>)
    requires sum == Sum32(p, little)
    ensures field == Be16Bytes(InternetChecksum(p))
  {
    Sum32IsSum16(p, little);
    NormShift(Sum16(p, little), HighHalves(p, little));
    var c := IpChecksumFold(sum);
    assert c == 0xffff - Norm(Sum16(p, little));
    ByteOrder(p);
    NormSwapped(Sum16(p, false), Sum16(p, true), EvenBytes(p));
    field := HostBytes(c, little);
  }

  /** ipv4_checksum. For every byte string shorter than 2^32 bytes, of any length, the
      accumulator does not overflow and what is stored is the RFC 1071 checksum. */
  method Ipv4Checksum(header: seq<byte>, little: bool) returns (field: seq<byte>)
    requires |header| < 0x1_0000_0000
    ensures field == Be16Bytes(InternetChecksum(header))
  {
    var s := IpChecksumPartial(header, 0, little);
    Sum32Bound(header, little);
    field := FoldAndStore(header, s, little);
  }

  lemma {:induction false} Sum32Concat(x: seq<byte>, y: seq<byte>, little: bool)
    requires |x| % 4 == 0
    ensures Sum32(x + y, little) == Sum32(x, little) + Sum32(y, little)
    decreases |x|
  {
    if x == [] {
      assert x + y == y;
    } else {
      assert (x + y)[4..] == x[4..] + y;
      Sum32Concat(x[4..], y, little);
    }
  }

  /** tcp_udp_v4_checksum and tcp_udp_v6_checksum: the pseudo-header (12 or 40 bytes) is added
      up first and the payload on top of it. The result is the checksum of the two laid end
      to end. */
  method TransportChecksum(pseudo: seq<byte>, payload: seq<byte>, little: bool) returns (field: seq<byte>)
    requires |pseudo| % 4 == 0 && |pseudo| <= 40 && |payload| < 0x1_0000_0000
    ensures field == Be16Bytes(InternetChecksum(pseudo + payload))
  {
    var s := IpChecksumPartial(pseudo, 0, little);
    Sum32Bound(pseudo, little);
    s := IpChecksumPartial(payload, s, little);
    Sum32Bound(payload, little);
    Sum32Concat(pseudo, payload, little);
    field := FoldAndStore(pseudo + payload, s, little);
  }

  // ---------------------------------------------------------------- verification

  lemma {:induction false} Sum16Splice(p: seq<byte>, at: nat, v: u16)
    requires at % 2 == 0 && at + 2 <= |p|
    ensures Sum16(Splice(p, at, Be16Bytes(v)), false) + Be16(p, at) == Sum16(p, false) + v
    decreases |p|
  {
    var q := Splice(p, at, Be16Bytes(v));
    if at == 0 {
      assert q[2..] == p[2..];
      assert q[..2] == Be16Bytes(v);
      assert q[0] == Be16Bytes(v)[0] && q[1] == Be16Bytes(v)[1];
    } else {
      assert q[2..] == Splice(p[2..], at - 2, Be16Bytes(v));
      assert Be16(p[2..], at - 2) == Be16(p, at);
      Sum16Splice(p[2..], at - 2, v);
    }
  }

  /** Zero the field, compute, store, recompute: the result is exactly zero. */
  lemma ChecksumVerifies(p: seq<byte>, at: nat)
    requires at % 2 == 0 && at + 2 <= |p|
    ensures var zeroed := Splice(p, at, Be16Bytes(0));
            InternetChecksum(Splice(p, at, Be16Bytes(InternetChecksum(zeroed)))) == 0
  {
    var zeroed := Splice(p, at, Be16Bytes(0));
    var c := InternetChecksum(zeroed);
    Sum16Splice(p, at, 0);
    Sum16Splice(p, at, c);
    var n := Sum16(zeroed, false);
    assert Sum16(Splice(p, at, Be16Bytes(c)), false) == n + c;
    if n > 0 {
      var j := (n - 1) / 0xffff;
      assert n + c == 0xffff + 0xffff * j;
      SameNorm(n + c, 0xffff, j);
    }
  }

  lemma SumResidue(n: nat)
    ensures Norm(n) == 0xffff <==> n > 0 && n % 0xffff == 0
  {
  }

  /** A message that verifies still does after a word is changed if and only if the new value is
      congruent to the old one, unless nothing but zeros is left. */
  lemma WordChanged(p: seq<byte>, at: nat, v: u16)
    requires at % 2 == 0 && at + 2 <= |p| && Norm(Sum16(p, false)) == 0xffff
    ensures var q := Splice(p, at, Be16Bytes(v));
            Norm(Sum16(q, false)) == 0xffff <==> Sum16(q, false) > 0 && v % 0xffff == Be16(p, at) % 0xffff
  {
    hide Norm, Sum16, Be16, Be16Bytes;
    var q := Splice(p, at, Be16Bytes(v));
    Sum16Splice(p, at, v);
    SumResidue(Sum16(p, false));
    SumResidue(Sum16(q, false));
    SameResidue(Sum16(p, false), Sum16(q, false), Be16(p, at), v);
  }

  lemma SameResidue(m: nat, n: nat, a: nat, b: nat)
    requires n + a == m + b && m % 0xffff == 0
    ensures n % 0xffff == 0 <==> b % 0xffff == a % 0xffff
  {
    assert (n + a) % 0xffff == b % 0xffff;
  }

  /** Sums add up over parts of even length. */
  lemma {:induction false} Sum16Concat(x: seq<byte>, y: seq<byte>, little: bool)
    requires |x| % 2 == 0
    ensures Sum16(x + y, little) == Sum16(x, little) + Sum16(y, little)
    decreases |x|
  {
    if x == [] {
      assert x + y == y;
    } else {
      assert (x + y)[2..] == x[2..] + y;
      Sum16Concat(x[2..], y, little);
    }
  }

  /** An odd byte at the end counts as if a zero followed it. */
  lemma {:induction false} PaddedSum(p: seq<byte>, little: bool)
    requires |p| % 2 == 1
    ensures Sum16(p + [0], little) == Sum16(p, little)
    decreases |p|
  {
    if |p| > 1 {
      assert (p + [0])[2..] == p[2..] + [0];
      PaddedSum(p[2..], little);
    }
  }

  /** What the verifying side accepts: recomputing over a message, field included, gives zero
      exactly when the field holds the checksum of the message with the field zeroed, or
      when both are the two representations of zero in one's-complement arithmetic. */
  lemma VerifiesIff(p: seq<byte>, at: nat)
    requires at % 2 == 0 && at + 2 <= |p|
    ensures var c := InternetChecksum(Splice(p, at, Be16Bytes(0)));
            InternetChecksum(p) == 0 <==> (Be16(p, at) == c || (c == 0 && Be16(p, at) == 0xffff))
  {
    var zeroed := Splice(p, at, Be16Bytes(0));
    Sum16Splice(p, at, 0);
    var n, f := Sum16(zeroed, false), Be16(p, at);
    assert Sum16(p, false) == n + f;
    if n > 0 {
      var j := (n - 1) / 0xffff;
      var r: int := Norm(n);
      assert n == r + 0xffff * j;
      if r + f > 0xffff { SameNorm(n + f, r + f - 0xffff, j + 1); } else { SameNorm(n + f, r + f, j); }
    } else {
      NormOfSmall(f);
    }
  }
}
