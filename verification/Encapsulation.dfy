/**
 Encapsulation: what finishing the headers of a packet, from the innermost to the outermost,
 writes into the buffer and into the header list, and the proof that the parser reads back
 exactly the headers that were built.
 */
module Encapsulation {
  import opened Bytes
  import opened Checksum
  import opened Layers
  import opened Chains

  /** The bytes that a finish function leaves of a header with next inside it. */
  function FinishWindow(kind: Kind, w: seq<byte>, next: Header): (r: seq<byte>)
    requires (kind.IPv4? ==> |w| == 20) && (kind.IPv6? ==> |w| == 40) && (kind.GRE? ==> |w| == 4)
    ensures |r| == |w|
  {
    match kind
    case IPv4 =>
      var a := Splice(Splice(w, 2, Be16Bytes((20 + next.totalBytes) % 0x1_0000)), 9, [IpProto(next.kind)]);
      Splice(a, 10, Be16Bytes(InternetChecksum(Splice(a, 10, Be16Bytes(0)))))
    case IPv6 => Splice(Splice(w, 4, Be16Bytes(next.totalBytes % 0x1_0000)), 6, [IpProto(next.kind)])
    case GRE => Splice(w, 2, Be16Bytes(EthProto(next.kind)))
    case _ => w
  }

  /** The total length that a finish function records. */
  function FinishHeader(h: Header, next: Header): Header {
    match h.kind
    case IPv4 => h.(totalBytes := 20 + next.totalBytes)
    case IPv6 => h.(totalBytes := 40 + next.totalBytes)
    case GRE => h.(totalBytes := 4 + next.totalBytes)
    case MPLS => h.(totalBytes := h.headerBytes + next.totalBytes)
    case _ => h
  }

  function FinishHeaders(hs: seq<Header>): (r: seq<Header>)
    ensures |r| == |hs|
  {
    if |hs| <= 1 then hs
    else var rest := FinishHeaders(hs[1..]); [FinishHeader(hs[0], rest[0])] + rest
  }

  /** Headers as long as their kinds say, inside s, one after the other. */
  predicate Laid(hs: seq<Header>, n: nat)
    decreases |hs|
  {
    hs == [] ||
    (&& hs[0].offset + hs[0].headerBytes <= n
     && (hs[0].kind.IPv4? ==> hs[0].headerBytes == 20)
     && (hs[0].kind.IPv6? ==> hs[0].headerBytes == 40)
     && (hs[0].kind.GRE? ==> hs[0].headerBytes == 4)
     && (|hs| > 1 ==> hs[1].offset == hs[0].offset + hs[0].headerBytes)
     && Laid(hs[1..], n))
  }

  /** packet_finish_encapsulation_headers, on the bytes. */
  function FinishBytes(s: seq<byte>, hs: seq<Header>): (r: seq<byte>)
    requires Laid(hs, |s|)
    ensures |r| == |s|
    decreases |hs|
  {
    if |hs| <= 1 then s
    else FinishOne(FinishBytes(s, hs[1..]), hs[0], FinishHeaders(hs[1..])[0])
  }

  function FinishOne(s: seq<byte>, h: Header, next: Header): (r: seq<byte>)
    requires Laid([h], |s|)
    ensures |r| == |s|
  {
    Splice(s, h.offset, FinishWindow(h.kind, s[h.offset..h.offset + h.headerBytes], next))
  }

  // ---------------------------------------------------------------- what may be built

  /** Which kinds of header may carry which. */
  predicate MayCarry(encaps: byte, outer: Kind, inner: Kind) {
    match outer
    case IPv4 => !inner.MPLS? && !inner.ICMPv6?
    case IPv6 => !inner.MPLS? && !inner.ICMPv4?
    case GRE => IsIp(inner) || inner.MPLS?
    case MPLS => IsIp(inner)
    case UDP => (inner.SCTP? || inner.TCP?) && encaps == IpProto(inner)
    case _ => false
  }

  /** A header as the append functions leave it, before it is finished; of a GRE header they
      write nothing. Layer-4 headers are not finished. */
  predicate Shaped(i: Input, h: Header)
    requires Sound(i)
  {
    var s, p := i.bytes, h.offset;
    && p + h.headerBytes <= i.end
    && match h.kind
       case IPv4 => h.headerBytes == 20 && s[p] == 0x45 && Be16(s, p + 6) % 0x4000 == 0
       case IPv6 => h.headerBytes == 40 && s[p] / 16 == 6
       case GRE => h.headerBytes == 4
       case MPLS => StackOk(s, h)
       case _ => HeaderOk(i, h) && p + h.totalBytes == i.end
  }

  /** A header that can be finished into one that the parser accepts. */
  predicate Built(i: Input, h: Header)
    requires Sound(i)
  {
    && Shaped(i, h)
    && (h.kind.GRE? ==> GreSupported(i.bytes[h.offset], i.bytes[h.offset + 1]) && GreBytes(i.bytes[h.offset]) == 4)
  }

  /** A stack of headers, each followed by one that it may carry, around a well-formed layer-4
      packet. */
  predicate Stacked(i: Input, hs: seq<Header>)
    requires Sound(i)
    decreases |hs|
  {
    && hs != [] && Shaped(i, hs[0])
    && if |hs| == 1 then Ends(i, hs[0])
       else hs[1].offset == hs[0].offset + hs[0].headerBytes && MayCarry(i.encaps, hs[0].kind, hs[1].kind)
            && Stacked(i, hs[1..])
  }

  /** A legally nested stack of headers around a well-formed layer-4 packet. */
  predicate Legal(i: Input, hs: seq<Header>)
    requires Sound(i)
    decreases |hs|
  {
    && hs != [] && Built(i, hs[0])
    && if |hs| == 1 then Ends(i, hs[0])
       else hs[1].offset == hs[0].offset + hs[0].headerBytes && MayCarry(i.encaps, hs[0].kind, hs[1].kind)
            && Legal(i, hs[1..])
  }

  lemma {:induction false} LegalLaid(i: Input, hs: seq<Header>)
    requires Sound(i) && Legal(i, hs)
    ensures Laid(hs, |i.bytes|)
    decreases |hs|
  {
    if |hs| > 1 { LegalLaid(i, hs[1..]); }
  }

  // ---------------------------------------------------------------- finishing one header

  /** The bytes of a header that finishing it changes. */
  predicate Rewritten(kind: Kind, k: int) {
    match kind
    case IPv4 => 2 <= k < 4 || 9 <= k < 12
    case IPv6 => 4 <= k < 7
    case GRE => 2 <= k < 4
    case _ => false
  }

  /** Finishing keeps addresses, TTL, flags, versions and everything else. */
  lemma WindowKeeps(kind: Kind, w: seq<byte>, next: Header, k: nat)
    requires (kind.IPv4? ==> |w| == 20) && (kind.IPv6? ==> |w| == 40) && (kind.GRE? ==> |w| == 4)
    requires k < |w| && !Rewritten(kind, k)
    ensures FinishWindow(kind, w, next)[k] == w[k]
  {
    hide InternetChecksum, Be16Bytes, IpProto, EthProto;
  }

  /** A finished IPv4 header: its length, its protocol and a checksum that verifies. */
  lemma Ipv4Window(w: seq<byte>, next: Header)
    requires |w| == 20 && 20 + next.totalBytes < 0x1_0000
    ensures var r := FinishWindow(IPv4, w, next);
            && r[9] == IpProto(next.kind) && (next.kind.MPLS? || IpNames(r[9], next.kind))
            && Be16(r, 2) == 20 + next.totalBytes && Norm(Sum16(r, false)) == 0xffff
  {
    hide Norm, Sum16;
    var a := Splice(Splice(w, 2, Be16Bytes((20 + next.totalBytes) % 0x1_0000)), 9, [IpProto(next.kind)]);
    assert a[2..4] == Be16Bytes(20 + next.totalBytes);
    Be16Moved(a, 2);
    ChecksumVerifies(a, 10);
  }

  lemma Ipv6Window(w: seq<byte>, next: Header)
    requires |w| == 40 && next.totalBytes < 0x1_0000
    ensures var r := FinishWindow(IPv6, w, next);
            && r[6] == IpProto(next.kind) && (next.kind.MPLS? || IpNames(r[6], next.kind)) && Be16(r, 4) == next.totalBytes
  {
    var a := Splice(w, 4, Be16Bytes(next.totalBytes));
    assert a[4..6] == Be16Bytes(next.totalBytes);
    Be16Moved(a, 4);
  }

  lemma GreWindow(w: seq<byte>, next: Header)
    requires |w| == 4
    ensures var r := FinishWindow(GRE, w, next);
            && r[0] == w[0] && r[1] == w[1] && Be16(r, 2) == EthProto(next.kind)
            && (IsIp(next.kind) || next.kind.MPLS? ==> EtherNames(Be16(r, 2), next.kind))
  {
    var r := FinishWindow(GRE, w, next);
    assert r[2..4] == Be16Bytes(EthProto(next.kind));
    Be16Moved(r, 2);
  }

  /** Reading a field of a window of the buffer. */
  lemma WindowField(s: seq<byte>, p: nat, n: nat, k: nat)
    requires p + n <= |s| && k + 2 <= n
    ensures Be16(s, p + k) == Be16(s[p..p + n], k)
  {
  }

  lemma WindowByte(s: seq<byte>, p: nat, n: nat, k: nat)
    requires p + n <= |s| && k < n
    ensures s[p + k] == s[p..p + n][k]
  {
  }

  predicate IsWindow(s: seq<byte>, h: Header, w: seq<byte>) {
    h.offset + h.headerBytes <= |s| && s[h.offset..h.offset + h.headerBytes] == w
  }

  /** A header is finished as its window is. */
  lemma FinishedWindow(s: seq<byte>, h: Header, next: Header)
    requires Laid([h], |s|)
    ensures IsWindow(FinishOne(s, h, next), h, FinishWindow(h.kind, s[h.offset..h.offset + h.headerBytes], next))
  {
    hide FinishWindow;
  }

  /** The header of a finished tunnel is there. */
  lemma FinishedHeaderOk(i: Input, j: Input, h: Header, next: Header)
    requires Sound(i) && Built(i, h) && IsTunnel(h.kind) && Laid([h], |i.bytes|)
    requires j == i.(bytes := FinishOne(i.bytes, h, next))
    requires h.offset + h.headerBytes + next.totalBytes == i.end && h.headerBytes + next.totalBytes < 0x1_0000
    ensures HeaderOk(j, FinishHeader(h, next))
  {
    hide FinishOne, FinishWindow, InternetChecksum, Splice;
    var p, n := h.offset, h.headerBytes;
    var w := i.bytes[p..p + n];
    FinishedWindow(i.bytes, h, next);
    var r := FinishWindow(h.kind, w, next);
    var t := j.bytes;
    match h.kind
    case IPv4 =>
      FinishedIpv4(i, j, h, next);
    case IPv6 =>
      Ipv6Window(w, next);
      WindowField(t, p, n, 4);
    case GRE =>
      GreWindow(w, next);
      WindowByte(i.bytes, p, n, 0);
      WindowByte(i.bytes, p, n, 1);
      WindowByte(t, p, n, 0);
      WindowByte(t, p, n, 1);
    case MPLS =>
      MplsWindow(i.bytes, h, next);
      StackSame(i.bytes, t, h);
  }

  lemma FinishedIpv4(i: Input, j: Input, h: Header, next: Header)
    requires Sound(i) && Built(i, h) && h.kind.IPv4? && Laid([h], |i.bytes|)
    requires j == i.(bytes := FinishOne(i.bytes, h, next))
    requires h.offset + h.headerBytes + next.totalBytes == i.end && h.headerBytes + next.totalBytes < 0x1_0000
    ensures HeaderOk(j, FinishHeader(h, next))
  {
    hide FinishOne, FinishWindow, Norm, Sum16, Splice, Be16;
    var p := h.offset;
    var w, t := i.bytes[p..p + 20], j.bytes;
    FinishedWindow(i.bytes, h, next);
    var r := FinishWindow(h.kind, w, next);
    Ipv4Window(w, next);
    WindowKeeps(IPv4, w, next, 0);
    WindowKeeps(IPv4, w, next, 6);
    WindowKeeps(IPv4, w, next, 7);
    assert t[p..p + 20] == r;
    assert t[p] == r[0];
    WindowField(t, p, 20, 2);
    WindowField(t, p, 20, 6);
    WindowField(i.bytes, p, 20, 6);
    SameWord(w, r, 6);
  }

  lemma SameWord(w: seq<byte>, r: seq<byte>, at: nat)
    requires at + 2 <= |w| == |r| && w[at] == r[at] && w[at + 1] == r[at + 1]
    ensures Be16(w, at) == Be16(r, at)
  {
  }

  lemma StackSame(s: seq<byte>, t: seq<byte>, h: Header)
    requires h.offset + h.headerBytes <= |s| && h.offset + h.headerBytes <= |t|
    requires forall k :: h.offset <= k < h.offset + h.headerBytes ==> s[k] == t[k]
    ensures StackOk(s, h) == StackOk(t, h)
  {
  }

  lemma MplsWindow(s: seq<byte>, h: Header, next: Header)
    requires h.kind.MPLS? && Laid([h], |s|)
    ensures FinishOne(s, h, next) == s
  {
  }

  // ---------------------------------------------------------------- frames

  /** The same packet from p on; the buffers may differ before p and behind the packet. */
  predicate SameFrom(i: Input, j: Input, p: nat) {
    && j == i.(bytes := j.bytes) && i.end <= |i.bytes| && i.end <= |j.bytes|
    && forall k :: p <= k < i.end ==> i.bytes[k] == j.bytes[k]
  }

  /** Headers from p on do not depend on the bytes before p. */
  lemma HeaderOkSame(i: Input, j: Input, h: Header)
    requires Sound(i) && Sound(j) && SameFrom(i, j, h.offset) && HeaderOk(i, h)
    ensures HeaderOk(j, h)
  {
    hide CrcMatches, InternetChecksum, Fragmented, GreSupported, StackOk;
    var p := h.offset;
    assert forall k :: p <= k <= p + h.totalBytes ==> i.bytes[p..k] == j.bytes[p..k];
    if h.kind.MPLS? { StackSame(i.bytes, j.bytes, h); }
  }

  lemma BuiltIsSame(i: Input, j: Input, h: Header)
    requires Sound(i) && Sound(j) && SameFrom(i, j, h.offset) && Built(i, h)
    ensures Built(j, h)
  {
    hide HeaderOk, Fragmented, StackOk;
    if h.kind.MPLS? { StackSame(i.bytes, j.bytes, h); }
    if IsLayer4(h.kind) { HeaderOkSame(i, j, h); }
  }

  lemma {:induction false} LegalSame(i: Input, j: Input, hs: seq<Header>)
    requires Sound(i) && Sound(j) && hs != [] && Legal(i, hs) && SameFrom(i, j, hs[0].offset)
    ensures Legal(j, hs)
    decreases |hs|
  {
    hide Built;
    BuiltIsSame(i, j, hs[0]);
    if |hs| > 1 { LegalSame(i, j, hs[1..]); }
  }

  lemma CarriesSame(i: Input, j: Input, h: Header, g: Header)
    requires Sound(i) && Sound(j) && SameFrom(i, j, h.offset) && HeaderOk(i, h) && HeaderOk(j, h) && Carries(i, h, g)
    ensures Carries(j, h, g)
  {
    hide CrcMatches, InternetChecksum, Fragmented, GreSupported, StackOk, Ipv4Fields;
  }

  lemma {:induction false} ChainSame(i: Input, j: Input, hs: seq<Header>)
    requires Sound(i) && Sound(j) && Chain(i, hs) && SameFrom(i, j, hs[0].offset)
    ensures Chain(j, hs)
    decreases |hs|
  {
    hide HeaderOk, Carries;
    HeaderOkSame(i, j, hs[0]);
    if |hs| > 1 {
      CarriesSame(i, j, hs[0], hs[1]);
      CarriedStarts(i, hs[0], hs[1]);
      ChainSame(i, j, hs[1..]);
    }
  }

  // ---------------------------------------------------------------- the whole stack

  lemma ChainOfOne(i: Input, h: Header)
    requires Sound(i) && HeaderOk(i, h) && Ends(i, h)
    ensures Chain(i, [h])
  {
    hide HeaderOk, Ends, Carries;
  }

  lemma ChainOfMore(i: Input, h: Header, rest: seq<Header>)
    requires Sound(i) && HeaderOk(i, h) && rest != [] && Carries(i, h, rest[0]) && Chain(i, rest)
    ensures Chain(i, [h] + rest)
  {
    hide HeaderOk, Ends, Carries;
    assert ([h] + rest)[1..] == rest;
  }

  /** A finished tunnel carries what it was finished with. */
  lemma FinishedCarries(i: Input, j: Input, h: Header, g: Header)
    requires Sound(i) && Built(i, h) && IsTunnel(h.kind) && Laid([h], |i.bytes|)
    requires j == i.(bytes := FinishOne(i.bytes, h, g))
    requires h.offset + h.headerBytes + g.totalBytes == i.end && h.headerBytes + g.totalBytes < 0x1_0000
    requires MayCarry(i.encaps, h.kind, g.kind) && g.offset == h.offset + h.headerBytes && (IsIp(g.kind) ==> StartsIp(j, g))
    requires HeaderOk(j, FinishHeader(h, g))
    ensures Carries(j, FinishHeader(h, g), g)
  {
    hide FinishOne, FinishWindow, InternetChecksum, Fragmented, Splice, HeaderOk, StackOk;
    var p, n := h.offset, h.headerBytes;
    var w := i.bytes[p..p + n];
    FinishedWindow(i.bytes, h, g);
    match h.kind
    case IPv4 =>
      Ipv4Window(w, g);
      WindowByte(j.bytes, p, n, 9);
    case IPv6 =>
      Ipv6Window(w, g);
      WindowByte(j.bytes, p, n, 6);
    case GRE =>
      GreWindow(w, g);
      WindowField(j.bytes, p, n, 2);
    case MPLS =>
  }

  /** The bytes up to the first one of the header at p are the same. */
  predicate SameUpTo(i: Input, j: Input, p: nat) {
    && j == i.(bytes := j.bytes) && |i.bytes| == |j.bytes|
    && forall k :: 0 <= k < |i.bytes| && k <= p ==> i.bytes[k] == j.bytes[k]
  }

  /** A header keeps what was built when headers behind it are finished. */
  lemma BuiltSame(i: Input, j: Input, h: Header)
    requires Sound(i) && Sound(j) && SameUpTo(i, j, h.offset + h.headerBytes) && Built(i, h)
    requires IsTunnel(h.kind) || h.kind.UDP?
    ensures Built(j, h)
  {
    hide CrcMatches, InternetChecksum, Fragmented, GreSupported, StackOk;
    if h.kind.MPLS? { StackSame(i.bytes, j.bytes, h); }
  }

  /** Headers without a finish function. */
  lemma NotFinished(s: seq<byte>, h: Header, next: Header)
    requires Laid([h], |s|) && !IsTunnel(h.kind)
    ensures FinishOne(s, h, next) == s && FinishHeader(h, next) == h
  {
  }

  lemma FinishedElsewhere(s: seq<byte>, h: Header, next: Header)
    requires Laid([h], |s|)
    ensures var r := FinishOne(s, h, next);
            forall k :: 0 <= k < |s| && (k < h.offset || k >= h.offset + h.headerBytes) ==> r[k] == s[k]
  {
    hide FinishWindow;
  }

  /** Finishing leaves the version of an IP header, and the flags of a GRE header. */
  lemma FirstByteKept(s: seq<byte>, h: Header, next: Header)
    requires Laid([h], |s|) && (IsTunnel(h.kind) ==> h.headerBytes >= 4)
    ensures h.offset < |s| ==> FinishOne(s, h, next)[h.offset] == s[h.offset]
  {
    hide FinishWindow;
    if IsTunnel(h.kind) {
      WindowStart(h.kind, s[h.offset..h.offset + h.headerBytes], next);
      FinishedWindow(s, h, next);
    } else {
      NotFinished(s, h, next);
    }
  }

  lemma WindowStart(kind: Kind, w: seq<byte>, next: Header)
    requires (kind.IPv4? ==> |w| == 20) && (kind.IPv6? ==> |w| == 40) && (kind.GRE? ==> |w| == 4) && |w| >= 4
    ensures FinishWindow(kind, w, next)[0] == w[0]
  {
    hide InternetChecksum;
  }

  lemma LegalOne(i: Input, hs: seq<Header>)
    requires Sound(i) && Legal(i, hs)
    ensures Laid([hs[0]], |i.bytes|) && Built(i, hs[0]) && (IsTunnel(hs[0].kind) ==> hs[0].headerBytes >= 4)
    ensures |hs| == 1 ==> HeaderOk(i, hs[0]) && Ends(i, hs[0]) && hs[0].offset + hs[0].totalBytes == i.end
    ensures |hs| > 1 ==> IsTunnel(hs[0].kind) || hs[0].kind.UDP?
    ensures |hs| > 1 ==> hs[1].offset == hs[0].offset + hs[0].headerBytes && MayCarry(i.encaps, hs[0].kind, hs[1].kind)
    ensures |hs| > 1 ==> Legal(i, hs[1..]) && hs[1..][0] == hs[1]
    ensures IsIp(hs[0].kind) ==> StartsIp(i, hs[0])
  {
    hide HeaderOk, Fragmented;
  }

  lemma StartsIpSame(i: Input, j: Input, h: Header, g: Header)
    requires Sound(i) && StartsIp(i, h) && j == i.(bytes := j.bytes) && |i.bytes| == |j.bytes|
    requires g.kind == h.kind && g.offset == h.offset && i.bytes[h.offset] == j.bytes[h.offset]
    ensures Sound(j) && StartsIp(j, g)
  {
  }

  /** The rest of a stack, when the header in front of it is finished. */
  lemma {:induction false} FinishStack(i: Input, j: Input, hs: seq<Header>)
    requires Sound(i) && hs != [] && Legal(i, hs) && Laid(hs, |i.bytes|) && i.end < hs[0].offset + 0x1_0000
    requires j == i.(bytes := FinishBytes(i.bytes, hs))
    ensures var t := FinishHeaders(hs);
            && Chain(j, t) && SameUpTo(i, j, hs[0].offset)
            && t[0] == hs[0].(totalBytes := i.end - hs[0].offset) && hs[0].offset <= i.end
    decreases |hs|
  {
    hide *;
    var h := hs[0];
    LegalOne(i, hs);
    FinishUnfold(i.bytes, hs);
    if |hs| == 1 {
      ChainOfOne(i, h);
      NothingFinished(i, j, h);
    } else {
      var rest, t := hs[1..], FinishHeaders(hs[1..]);
      var j1 := i.(bytes := FinishBytes(i.bytes, rest));
      LegalOne(i, rest);
      FinishStack(i, j1, rest);
      FinishFront(i, j1, j, h, hs[1], t);
      ChainOfMore(j, FinishHeader(h, t[0]), t);
      SameThrough(i, j1, j, h, t[0]);
    }
  }

  lemma FinishUnfold(s: seq<byte>, hs: seq<Header>)
    requires hs != [] && Laid(hs, |s|)
    ensures Laid(hs[1..], |s|) && Laid([hs[0]], |s|)
    ensures |hs| == 1 ==> FinishBytes(s, hs) == s && FinishHeaders(hs) == hs == [hs[0]]
    ensures |hs| > 1 ==>
      var t := FinishHeaders(hs[1..]);
      && FinishBytes(s, hs) == FinishOne(FinishBytes(s, hs[1..]), hs[0], t[0])
      && FinishHeaders(hs) == [FinishHeader(hs[0], t[0])] + t
  {
    hide FinishOne, FinishHeader;
  }

  lemma OneKeeps(s: seq<byte>, h: Header, next: Header, k: nat)
    requires Laid([h], |s|) && k < |s| && !Rewritten(h.kind, k - h.offset)
    ensures FinishOne(s, h, next)[k] == s[k]
  {
    hide FinishWindow, Rewritten;
    var p, n := h.offset, h.headerBytes;
    var w := s[p..p + n];
    if p <= k < p + n {
      WindowKeeps(h.kind, w, next, k - p);
      assert w[k - p] == s[k];
      assert FinishOne(s, h, next)[p..p + n][k - p] == FinishOne(s, h, next)[k];
    }
  }

  /** Finishing a stack changes lengths, protocols and checksums of its tunnels, and no other
      byte of the packet. */
  lemma {:induction false} FinishKeeps(s: seq<byte>, hs: seq<Header>, k: nat)
    requires Laid(hs, |s|) && k < |s|
    requires forall j :: 0 <= j < |hs| - 1 ==> !Rewritten(hs[j].kind, k - hs[j].offset)
    ensures FinishBytes(s, hs)[k] == s[k]
    decreases |hs|
  {
    hide FinishOne, Rewritten, FinishHeaders;
    if |hs| > 1 {
      FinishUnfold(s, hs);
      var rest := hs[1..];
      assert forall j :: 0 <= j < |rest| - 1 ==> rest[j] == hs[j + 1];
      FinishKeeps(s, rest, k);
      OneKeeps(FinishBytes(s, rest), hs[0], FinishHeaders(rest)[0], k);
    }
  }

  lemma NothingFinished(i: Input, j: Input, h: Header)
    requires Sound(i) && Built(i, h) && j == i
    ensures SameUpTo(i, j, h.offset) && h.offset <= i.end
  {
    hide HeaderOk, StackOk, Fragmented;
  }

  lemma SameThrough(i: Input, j1: Input, j: Input, h: Header, next: Header)
    requires Sound(i) && Built(i, h) && Laid([h], |i.bytes|) && (IsTunnel(h.kind) ==> h.headerBytes >= 4)
    requires SameUpTo(i, j1, h.offset + h.headerBytes) && j == j1.(bytes := FinishOne(j1.bytes, h, next))
    ensures SameUpTo(i, j, h.offset) && h.offset <= i.end
  {
    hide FinishOne, HeaderOk, StackOk, Fragmented;
    FinishedElsewhere(j1.bytes, h, next);
    FirstByteKept(j1.bytes, h, next);
  }

  /** One more header in front of a finished stack. */
  lemma FinishFront(i: Input, j1: Input, j: Input, h: Header, g: Header, t: seq<Header>)
    requires Sound(i) && Built(i, h) && Laid([h], |i.bytes|) && (IsTunnel(h.kind) || h.kind.UDP?)
    requires SameUpTo(i, j1, g.offset) && g.offset == h.offset + h.headerBytes && MayCarry(i.encaps, h.kind, g.kind)
    requires t != [] && g.offset <= i.end && t[0] == g.(totalBytes := i.end - g.offset) && Chain(j1, t)
    requires IsIp(g.kind) ==> StartsIp(i, g)
    requires i.end < h.offset + 0x1_0000 && j == j1.(bytes := FinishOne(j1.bytes, h, t[0]))
    ensures Sound(j) && Chain(j, t) && HeaderOk(j, FinishHeader(h, t[0])) && Carries(j, FinishHeader(h, t[0]), t[0])
    ensures FinishHeader(h, t[0]) == h.(totalBytes := i.end - h.offset)
  {
    hide HeaderOk, FinishOne, Chain, Built, Carries, MayCarry, StartsIp;
    BuiltSame(i, j1, h);
    FinishedElsewhere(j1.bytes, h, t[0]);
    ChainSame(j1, j, t);
    if IsTunnel(h.kind) {
      BuiltLength(j1, h);
      FinishedHeaderOk(j1, j, h, t[0]);
      if IsIp(g.kind) {
        IpInside(i, g);
        StartsIpSame(i, j, g, t[0]);
      }
      FinishedCarries(j1, j, h, t[0]);
    } else {
      NotFinished(j1.bytes, h, t[0]);
      UdpCarries(j, h, t[0]);
    }
  }

  lemma BuiltLength(i: Input, h: Header)
    requires Sound(i) && Built(i, h) && IsTunnel(h.kind)
    ensures h.kind.IPv4? ==> h.headerBytes == 20
    ensures h.kind.IPv6? ==> h.headerBytes == 40
    ensures h.kind.GRE? ==> h.headerBytes == 4
  {
    hide StackOk, Fragmented;
  }

  lemma IpInside(i: Input, g: Header)
    requires Sound(i) && StartsIp(i, g)
    ensures g.offset < i.end
  {
  }

  lemma UdpCarries(j: Input, h: Header, g: Header)
    requires Sound(j) && Built(j, h) && h.kind.UDP? && MayCarry(j.encaps, UDP, g.kind)
    requires g.offset == h.offset + h.headerBytes && g.offset + g.totalBytes == j.end
    ensures HeaderOk(j, h) && Carries(j, h, g) && h.totalBytes == j.end - h.offset
  {
  }

  /** Encapsulate, then parse: for every legal stack of at most six headers around a
      well-formed packet, outermost IP or MPLS, at most 65535 bytes in all, parsing the finished
      bytes accepts them and reports the finished headers. Each has the kind, offset and
      length it was built with, and spans the rest of the packet. */
  lemma EncapsulateThenParse(i: Input, hs: seq<Header>)
    requires Sound(i) && hs != [] && Legal(i, hs) && |hs| <= PACKET_MAX_HEADERS
    requires hs[0].offset == 0 && (IsIp(hs[0].kind) || hs[0].kind.MPLS?) && i.end < 0x1_0000
    ensures Laid(hs, |i.bytes|)
    ensures var j := i.(bytes := FinishBytes(i.bytes, hs));
            Run(j, Ether(EthProto(hs[0].kind)), 0, 0) == Parsed(PacketOk, FinishHeaders(hs))
    ensures FinishHeaders(hs)[0].totalBytes == i.end
  {
    hide HeaderOk, FinishOne, Chain, Built, Carries, MayCarry, StartsIp, Legal, Run;
    LegalLaid(i, hs);
    var j := i.(bytes := FinishBytes(i.bytes, hs));
    LegalOne(i, hs);
    FinishStack(i, j, hs);
    if IsIp(hs[0].kind) {
      IpInside(i, hs[0]);
      StartsIpSame(i, j, hs[0], FinishHeaders(hs)[0]);
    }
    RunIff(j, EthProto(hs[0].kind), FinishHeaders(hs));
  }

  // ---------------------------------------------------------------- GRE flags

  /** Finishing headers leaves the bytes before them. */
  lemma {:induction false} FinishBehind(s: seq<byte>, hs: seq<Header>)
    requires hs != [] && Laid(hs, |s|)
    ensures forall k :: 0 <= k < |s| && k < hs[0].offset ==> FinishBytes(s, hs)[k] == s[k]
    decreases |hs|
  {
    hide FinishOne;
    if |hs| > 1 {
      FinishBehind(s, hs[1..]);
      FinishedElsewhere(FinishBytes(s, hs[1..]), hs[0], FinishHeaders(hs[1..])[0]);
    }
  }

  /** Checksum, routing, key and sequence bits and the version are zero; the reserved bits may
      be anything. */
  predicate GreClear(flags: byte, versions: byte) {
    flags < 0x10 && versions % 8 == 0
  }

  lemma GreClearIff(flags: byte, versions: byte)
    ensures GreSupported(flags, versions) && GreBytes(flags) == 4 <==> GreClear(flags, versions)
  {
  }

  /** Every GRE header of the stack is clear. */
  predicate AllClear(s: seq<byte>, hs: seq<Header>)
    requires Laid(hs, |s|)
    decreases |hs|
  {
    hs == [] || ((hs[0].kind.GRE? ==> GreClear(s[hs[0].offset], s[hs[0].offset + 1])) && AllClear(s, hs[1..]))
  }

  lemma {:induction false} StackedLaid(i: Input, hs: seq<Header>)
    requires Sound(i) && Stacked(i, hs)
    ensures Laid(hs, |i.bytes|)
    decreases |hs|
  {
    hide HeaderOk, Fragmented, StackOk;
    if |hs| > 1 { StackedLaid(i, hs[1..]); }
  }

  lemma {:induction false} LegalIff(i: Input, hs: seq<Header>)
    requires Sound(i) && Stacked(i, hs) && Laid(hs, |i.bytes|)
    ensures Legal(i, hs) <==> AllClear(i.bytes, hs)
    decreases |hs|
  {
    hide Shaped, GreClear, GreSupported, GreBytes;
    if hs[0].kind.GRE? { GreClearIff(i.bytes[hs[0].offset], i.bytes[hs[0].offset + 1]); }
    if |hs| > 1 { LegalIff(i, hs[1..]); }
  }

  /** Finishing keeps the flags of the first header of a stack, if that is GRE. */
  lemma FlagsKept(s: seq<byte>, hs: seq<Header>)
    requires hs != [] && hs[0].kind.GRE? && Laid(hs, |s|)
    ensures var r := FinishBytes(s, hs);
            r[hs[0].offset] == s[hs[0].offset] && r[hs[0].offset + 1] == s[hs[0].offset + 1]
  {
    hide FinishWindow, FinishBytes, FinishHeaders;
    FinishUnfold(s, hs);
    if |hs| > 1 {
      var h, p := hs[0], hs[0].offset;
      var t, next := FinishBytes(s, hs[1..]), FinishHeaders(hs[1..])[0];
      FinishBehind(s, hs[1..]);
      var w := t[p..p + 4];
      GreWindow(w, next);
      FinishedWindow(t, h, next);
      var r := FinishWindow(GRE, w, next);
      assert FinishOne(t, h, next)[p..p + 4] == r;
      assert FinishOne(t, h, next)[p] == r[0] && FinishOne(t, h, next)[p + 1] == r[1];
    }
  }

  /** What the parser reads as a chain has clear GRE headers wherever they are four bytes long. */
  lemma {:induction false} ChainClear(i: Input, j: Input, hs: seq<Header>)
    requires Sound(i) && Laid(hs, |i.bytes|) && hs != []
    requires j.bytes == FinishBytes(i.bytes, hs) && Sound(j) && Chain(j, FinishHeaders(hs))
    ensures AllClear(i.bytes, hs)
    decreases |hs|
  {
    hide HeaderOk, Carries, FinishOne, FinishHeader, GreClear, FinishBytes, FinishHeaders;
    FinishUnfold(i.bytes, hs);
    var t := FinishHeaders(hs);
    FinishKeepsShape(hs);
    if hs[0].kind.GRE? {
      FlagsKept(i.bytes, hs);
      GreHeaderClear(j, t[0]);
    }
    if |hs| > 1 {
      var rest := hs[1..];
      var k := j.(bytes := FinishBytes(i.bytes, rest));
      assert t[1..] == FinishHeaders(rest);
      FinishedElsewhere(k.bytes, hs[0], FinishHeaders(rest)[0]);
      FinishKeepsShape(rest);
      ChainSame(j, k, t[1..]);
      ChainClear(i, k, rest);
    } else {
      assert hs[1..] == [];
    }
  }

  lemma FinishKeepsShape(hs: seq<Header>)
    requires hs != []
    ensures var t := FinishHeaders(hs);
            t[0].kind == hs[0].kind && t[0].offset == hs[0].offset && t[0].headerBytes == hs[0].headerBytes
  {
  }

  lemma GreHeaderClear(j: Input, h: Header)
    requires Sound(j) && HeaderOk(j, h) && h.kind.GRE? && h.headerBytes == 4
    ensures GreClear(j.bytes[h.offset], j.bytes[h.offset + 1])
  {
    GreClearIff(j.bytes[h.offset], j.bytes[h.offset + 1]);
  }

  /** A stack of headers is read back as it was finished if and only if the checksum, routing,
      key, sequence and version bits of every GRE header in it are zero. The builder writes
      none of them. */
  lemma ReadBackIff(i: Input, hs: seq<Header>)
    requires Sound(i) && hs != [] && Stacked(i, hs) && |hs| <= PACKET_MAX_HEADERS
    requires hs[0].offset == 0 && (IsIp(hs[0].kind) || hs[0].kind.MPLS?) && i.end < 0x1_0000
    ensures Laid(hs, |i.bytes|)
    ensures var j := i.(bytes := FinishBytes(i.bytes, hs));
            Run(j, Ether(EthProto(hs[0].kind)), 0, 0) == Parsed(PacketOk, FinishHeaders(hs)) <==> AllClear(i.bytes, hs)
  {
    hide Stacked, Legal, Run, Chain, AllClear, FinishBytes, FinishHeaders, Laid;
    StackedLaid(i, hs);
    LegalIff(i, hs);
    var j := i.(bytes := FinishBytes(i.bytes, hs));
    if AllClear(i.bytes, hs) {
      EncapsulateThenParse(i, hs);
    } else {
      RunIff(j, EthProto(hs[0].kind), FinishHeaders(hs));
      if Chain(j, FinishHeaders(hs)) { ChainClear(i, j, hs); }
    }
  }
}
