/**
 Changing bytes of a header that the parser has accepted: what it makes of the whole packet
 then.
 */
module Corruption {
  import opened Bytes
  import opened Checksum
  import opened Layers
  import opened Chains
  import opened PacketChecksum

  // ---------------------------------------------------------------- reading up to a header

  /** The same packet before p. */
  predicate SameBefore(i: Input, j: Input, p: nat) {
    && j == i.(bytes := j.bytes) && |i.bytes| == |j.bytes|
    && forall k :: 0 <= k < |i.bytes| && k < p ==> i.bytes[k] == j.bytes[k]
  }

  lemma {:induction false} StackAgrees(i: Input, j: Input, p: nat)
    requires Sound(i) && Sound(j) && p <= i.end && StackBytes(i, p) > 0 && SameBefore(i, j, p + StackBytes(i, p))
    ensures StackBytes(j, p) == StackBytes(i, p)
    decreases i.end - p
  {
    if !(IsStackBottom(i.bytes, p) || p + 4 == i.end) { StackAgrees(i, j, p + 4); }
  }

  /** A header with something behind it depends on its own bytes only. */
  lemma HeaderAgrees(i: Input, j: Input, kind: Kind, p: nat, bytes: nat)
    requires Sound(i) && Sound(j) && p + bytes <= i.end && HeaderAt(i, kind, p, bytes).Whole?
    requires !HeaderAt(i, kind, p, bytes).next.Payload?
    requires SameBefore(i, j, p + HeaderAt(i, kind, p, bytes).headerBytes)
    ensures HeaderAt(j, kind, p, bytes) == HeaderAt(i, kind, p, bytes)
  {
    hide CrcMatches, InternetChecksum, StackBytes, Fragmented;
    HeaderAtFits(i, kind, p, bytes);
    var n := HeaderAt(i, kind, p, bytes).headerBytes;
    assert i.bytes[p..p + n] == j.bytes[p..p + n];
    if kind.MPLS? { StackAgrees(i, j, p); }
  }

  /** Of the bytes ahead only the version of an IP header decides what comes next. */
  lemma DispatchAgrees(i: Input, j: Input, next: Next, p: nat)
    requires Sound(i) && Sound(j) && p <= i.end && SameBefore(i, j, p) && Dispatch(i, next, p).Go?
    requires IsIp(Dispatch(i, next, p).kind) && p < i.end ==> i.bytes[p] == j.bytes[p]
    ensures Dispatch(j, next, p) == Dispatch(i, next, p)
  {
  }

  /** What the reader does first. */
  lemma RunUnfold(i: Input, next: Next, p: nat, count: nat)
    requires Sound(i) && p <= i.end && Allotted(i, next, p)
    ensures var d := Dispatch(i, next, p);
            if !d.Go? then Run(i, next, p, count).headers == []
            else p + d.bytes <= i.end && Run(i, next, p, count) == RunHeader(i, d.kind, p, d.bytes, count)
  {
    hide RunHeader;
    DispatchFits(i, next, p);
  }

  lemma HeaderUnfold(i: Input, kind: Kind, p: nat, bytes: nat, count: nat)
    requires Sound(i) && p + bytes <= i.end
    ensures var f, r := HeaderAt(i, kind, p, bytes), RunHeader(i, kind, p, bytes, count);
            if f.Broken? || count >= PACKET_MAX_HEADERS then r.headers == []
            else
              var q := p + f.headerBytes;
              && 4 <= f.headerBytes && q <= i.end && Allotted(i, f.next, q)
              && var h := Header(kind, p, f.headerBytes, f.totalBytes);
              if f.next.Payload? then r.headers == [h]
              else r == Parsed(Run(i, f.next, q, count + 1).outcome, [h] + Run(i, f.next, q, count + 1).headers)
  {
    hide HeaderAt, Run, Allotted;
    HeaderAtFits(i, kind, p, bytes);
  }

  lemma {:induction false} OffsetsFrom(i: Input, next: Next, p: nat, count: nat, k: nat)
    requires Sound(i) && p <= i.end && Allotted(i, next, p) && k < |Run(i, next, p, count).headers|
    ensures Run(i, next, p, count).headers[k].offset >= p
    decreases k
  {
    hide *;
    RunUnfold(i, next, p, count);
    var d := Dispatch(i, next, p);
    HeaderUnfold(i, d.kind, p, d.bytes, count);
    var f := HeaderAt(i, d.kind, p, d.bytes);
    if k > 0 { OffsetsFrom(i, f.next, p + f.headerBytes, count + 1, k - 1); }
  }

  /** The bytes that the header below allots to h. */
  function Allotment(h: Header): nat {
    if IsIp(h.kind) || h.kind.MPLS? then 0 else h.totalBytes
  }

  lemma FirstHeader(i: Input, next: Next, p: nat, count: nat)
    requires Sound(i) && p <= i.end && Allotted(i, next, p) && Run(i, next, p, count).headers != []
    requires next.Inside? ==> IsLayer4(next.kind)
    ensures var d, h := Dispatch(i, next, p), Run(i, next, p, count).headers[0];
            d.Go? && d.kind == h.kind && d.bytes == Allotment(h) && h.offset == p
  {
    hide Run, HeaderAt, Dispatch, RunHeader;
    RunUnfold(i, next, p, count);
    var d := Dispatch(i, next, p);
    HeaderUnfold(i, d.kind, p, d.bytes, count);
    DispatchSpans(i, next, p);
    TotalIsAllotted(i, d.kind, p, d.bytes);
  }

  lemma TotalIsAllotted(i: Input, kind: Kind, p: nat, bytes: nat)
    requires Sound(i) && p + bytes <= i.end && HeaderAt(i, kind, p, bytes).Whole?
    ensures IsIp(kind) || kind.MPLS? || HeaderAt(i, kind, p, bytes).totalBytes == bytes
    ensures HeaderAt(i, kind, p, bytes).next.Inside? ==> IsLayer4(HeaderAt(i, kind, p, bytes).next.kind)
  {
    hide CrcMatches, StackBytes, Ipv4Fields, GreBytes;
  }

  /** A packet is bad if one of its headers, reached over the same bytes, is. */
  lemma {:induction false} Derails(i: Input, j: Input, next: Next, p: nat, count: nat, k: nat)
    requires Sound(i) && Sound(j) && p <= i.end && Allotted(i, next, p) && k < |Run(i, next, p, count).headers|
    requires next.Inside? ==> IsLayer4(next.kind)
    requires var h := Run(i, next, p, count).headers[k];
             && SameBefore(i, j, if IsIp(h.kind) then h.offset + 1 else h.offset)
             && h.offset + Allotment(h) <= j.end
             && RunHeader(j, h.kind, h.offset, Allotment(h), count + k) == Parsed(PacketBad, [])
    ensures Allotted(j, next, p) && Run(j, next, p, count).outcome.PacketBad?
    decreases k
  {
    hide Run, RunHeader, HeaderAt, Dispatch, Allotted;
    var h := Run(i, next, p, count).headers[k];
    AllottedSame(i, j, next, p);
    FirstHeader(i, next, p, count);
    OffsetsFrom(i, next, p, count, k);
    var d := Dispatch(i, next, p);
    RunUnfold(i, next, p, count);
    if k == 0 {
      DispatchAgrees(i, j, next, p);
      RunUnfold(j, next, p, count);
    } else {
      HeaderUnfold(i, d.kind, p, d.bytes, count);
      TotalIsAllotted(i, d.kind, p, d.bytes);
      var f := HeaderAt(i, d.kind, p, d.bytes);
      var q := p + f.headerBytes;
      OffsetsFrom(i, f.next, q, count + 1, k - 1);
      DispatchAgrees(i, j, next, p);
      HeaderAgrees(i, j, d.kind, p, d.bytes);
      Derails(i, j, f.next, q, count + 1, k - 1);
      RunUnfold(j, next, p, count);
      HeaderUnfold(j, d.kind, p, d.bytes, count);
    }
  }

  lemma AllottedSame(i: Input, j: Input, next: Next, p: nat)
    requires i.end == j.end
    ensures Allotted(j, next, p) == Allotted(i, next, p)
  {
  }

  // ---------------------------------------------------------------- IPv4 headers

  /** The headers of a packet that is not rejected are there. */
  lemma {:induction false} LinksAt(i: Input, hs: seq<Header>, unknown: bool, k: nat)
    requires Sound(i) && Links(i, hs, unknown) && k < |hs|
    ensures HeaderOk(i, hs[k])
    decreases k
  {
    hide HeaderOk, Carries, Ends, EndsUnknown;
    if k > 0 { LinksAt(i, hs[1..], unknown, k - 1); }
  }

  lemma HeadersThere(i: Input, proto: u16, k: nat)
    requires Sound(i) && !Run(i, Ether(proto), 0, 0).outcome.PacketBad?
    requires k < |Run(i, Ether(proto), 0, 0).headers|
    ensures HeaderOk(i, Run(i, Ether(proto), 0, 0).headers[k])
  {
    hide Run, HeaderOk, Links;
    var r := Run(i, Ether(proto), 0, 0);
    LinkedIff(i, proto, r.headers, r.outcome.PacketUnknownL4?);
    LinksAt(i, r.headers, r.outcome.PacketUnknownL4?, k);
  }

  /** Every IPv4 header of a packet that is not rejected: its lengths, no fragment, and a header
      checksum that verifies. */
  lemma Ipv4HeadersValid(i: Input, proto: u16, k: nat)
    requires Sound(i) && !Run(i, Ether(proto), 0, 0).outcome.PacketBad?
    requires k < |Run(i, Ether(proto), 0, 0).headers| && Run(i, Ether(proto), 0, 0).headers[k].kind.IPv4?
    ensures var s, h := i.bytes, Run(i, Ether(proto), 0, 0).headers[k];
            && 20 <= h.headerBytes <= h.totalBytes && h.offset + h.totalBytes <= i.end
            && h.headerBytes == 4 * (s[h.offset] % 16) && h.totalBytes == Be16(s, h.offset + 2)
            && Be16(s, h.offset + 6) / 0x2000 % 2 == 0 && Be16(s, h.offset + 6) % 0x2000 == 0
            && Norm(Sum16(s[h.offset..h.offset + h.headerBytes], false)) == 0xffff
  {
    hide Run, Norm, Sum16;
    HeadersThere(i, proto, k);
  }

  /** A header whose checksum does not verify is rejected. */
  lemma BadSumRejected(i: Input, p: nat, n: nat, count: nat)
    requires Sound(i) && 20 <= n && p + n <= i.end && i.bytes[p] % 16 == n / 4 && n % 4 == 0
    requires Norm(Sum16(i.bytes[p..p + n], false)) != 0xffff
    ensures RunHeader(i, IPv4, p, 0, count) == Parsed(PacketBad, [])
  {
    hide Norm, Sum16, Run, Fragmented;
  }

  /** A packet that is not rejected is, once a word of one of its IPv4 headers is changed to a value
      that is not congruent modulo 65535; the version and header length stay. */
  lemma Ipv4WordRejected(i: Input, proto: u16, k: nat, at: nat, v: u16)
    requires Sound(i) && !Run(i, Ether(proto), 0, 0).outcome.PacketBad?
    requires k < |Run(i, Ether(proto), 0, 0).headers| && Run(i, Ether(proto), 0, 0).headers[k].kind.IPv4?
    requires var h := Run(i, Ether(proto), 0, 0).headers[k];
             && at % 2 == 0 && at + 2 <= h.headerBytes && h.offset + h.headerBytes <= |i.bytes|
             && v % 0xffff != Be16(i.bytes, h.offset + at) % 0xffff
             && (at == 0 ==> v / 0x100 == i.bytes[h.offset])
    ensures var h := Run(i, Ether(proto), 0, 0).headers[k];
            Run(i.(bytes := Splice(i.bytes, h.offset + at, Be16Bytes(v))), Ether(proto), 0, 0).outcome.PacketBad?
  {
    hide Run, RunHeader, Norm, Sum16, Splice, Be16, Be16Bytes;
    var h := Run(i, Ether(proto), 0, 0).headers[k];
    var p, n := h.offset, h.headerBytes;
    var j := i.(bytes := Splice(i.bytes, p + at, Be16Bytes(v)));
    Ipv4HeadersValid(i, proto, k);
    var w := i.bytes[p..p + n];
    SpliceWindow(i.bytes, p, n, at, Be16Bytes(v));
    WordAt(i.bytes, p, n, at);
    WordChanged(w, at, v);
    FirstByteStays(i.bytes, p, at, v);
    BadSumRejected(j, p, n, k);
    Derails(i, j, Ether(proto), 0, 0, k);
  }

  lemma WordAt(s: seq<byte>, p: nat, n: nat, at: nat)
    requires p + n <= |s| && at + 2 <= n
    ensures Be16(s[p..p + n], at) == Be16(s, p + at)
  {
  }

  lemma FirstByteStays(s: seq<byte>, p: nat, at: nat, v: u16)
    requires p + at + 2 <= |s| && (at == 0 ==> v / 0x100 == s[p])
    ensures Splice(s, p + at, Be16Bytes(v))[p] == s[p]
  {
  }

  // ---------------------------------------------------------------- SCTP packets

  /** A packet that is not rejected is, once its SCTP packet is changed within four consecutive
      bytes, all of them inside or all of them outside the checksum field. */
  lemma SctpBurstRejected(i: Input, j: Input, proto: u16, k: nat, a: nat, n: nat)
    requires Sound(i) && Sound(j) && !Run(i, Ether(proto), 0, 0).outcome.PacketBad?
    requires k < |Run(i, Ether(proto), 0, 0).headers| && Run(i, Ether(proto), 0, 0).headers[k].kind.SCTP?
    requires var h := Run(i, Ether(proto), 0, 0).headers[k];
             && a + n <= h.totalBytes && n <= 4 && (a + n <= 8 || 12 <= a || (8 <= a && a + n <= 12))
             && h.offset + h.totalBytes <= |i.bytes|
             && SameBefore(i, j, h.offset)
             && SameOutside(i.bytes[h.offset..h.offset + h.totalBytes], j.bytes[h.offset..h.offset + h.totalBytes], a, n)
             && i.bytes[h.offset..h.offset + h.totalBytes] != j.bytes[h.offset..h.offset + h.totalBytes]
    ensures Run(j, Ether(proto), 0, 0).outcome.PacketBad?
  {
    hide Run, RunHeader, CrcMatches, SameOutside;
    var h := Run(i, Ether(proto), 0, 0).headers[k];
    HeadersThere(i, proto, k);
    BurstBreaksCrc(i.bytes[h.offset..h.offset + h.totalBytes], j.bytes[h.offset..h.offset + h.totalBytes], a, n);
    BadCrcRejected(j, h.offset, h.totalBytes, k);
    Derails(i, j, Ether(proto), 0, 0, k);
  }

  lemma BadCrcRejected(i: Input, p: nat, bytes: nat, count: nat)
    requires Sound(i) && 12 <= bytes && p + bytes <= i.end && !CrcMatches(i.bytes[p..p + bytes])
    ensures RunHeader(i, SCTP, p, bytes, count) == Parsed(PacketBad, [])
  {
    hide CrcMatches;
  }
}
