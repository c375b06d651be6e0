/**
 Which sequences of headers a buffer holds, said declaratively, and the proof that reading
 headers one after the other finds exactly those.

 The formats are those of RFC 791, RFC 8200, RFC 2784 with RFC 2890, RFC 3032, RFC 4960, RFC 793,
 RFC 768 and RFC 3828. They are said in numbers here, independently of the names and functions
 that the reader uses.
 */
module Chains {
  import opened Bytes
  import opened Checksum
  import opened Layers

  /** The label stack h has the bottom bit on its last entry and on no other. */
  predicate StackOk(s: seq<byte>, h: Header)
    requires h.offset + h.headerBytes <= |s|
  {
    && h.headerBytes >= 4 && h.headerBytes % 4 == 0
    && forall k: nat :: k < h.headerBytes / 4 ==>
         (s[h.offset + 4 * k + 2] % 2 == 1 <==> k == h.headerBytes / 4 - 1)
  }

  /** The bytes of h are a header of its kind, of its length and with its total length. */
  predicate HeaderOk(i: Input, h: Header)
    requires Sound(i)
  {
    var s, p := i.bytes, h.offset;
    && h.headerBytes <= h.totalBytes && p + h.totalBytes <= i.end
    && match h.kind
       case IPv4 =>
         // no fragment, and a header checksum that verifies
         && h.headerBytes >= 20 && h.headerBytes == 4 * (s[p] % 16) && h.totalBytes == Be16(s, p + 2)
         && Be16(s, p + 6) % 0x4000 == 0
         && Norm(Sum16(s[p..p + h.headerBytes], false)) == 0xffff
       case IPv6 => h.headerBytes == 40 && h.totalBytes == 40 + Be16(s, p + 4)
       case GRE =>
         // version zero, no routing; four bytes each for checksum, key and sequence number
         && h.headerBytes >= 4 && s[p + 1] % 8 == 0 && s[p] / 0x40 % 2 == 0
         && h.headerBytes == 4 + 4 * (s[p] / 0x80) + 4 * (s[p] / 0x20 % 2) + 4 * (s[p] / 0x10 % 2)
       case MPLS => StackOk(s, h) && p + h.totalBytes == i.end
       case SCTP => h.headerBytes == 12 && CrcMatches(s[p..p + h.totalBytes])
       case TCP => h.headerBytes >= 20 && h.headerBytes == 4 * (s[p + 12] / 16)
       case UDP => h.headerBytes == 8 && h.totalBytes == Be16(s, p + 4)
       case UDPLite => h.headerBytes == 8
       case ICMPv4 => h.headerBytes == 8
       case ICMPv6 => h.headerBytes == 8
  }

  /** An IP header of the right version starts at g. */
  predicate StartsIp(i: Input, g: Header)
    requires Sound(i)
  {
    || (g.kind.IPv4? && g.offset + 20 <= i.end && i.bytes[g.offset] / 16 == 4)
    || (g.kind.IPv6? && g.offset + 40 <= i.end && i.bytes[g.offset] / 16 == 6)
  }

  /** The kind of header that a protocol number of IP names. */
  predicate IpNames(protocol: byte, kind: Kind) {
    match kind
    case IPv4 => protocol == 4
    case IPv6 => protocol == 41
    case GRE => protocol == 47
    case MPLS => false
    case SCTP => protocol == 132
    case TCP => protocol == 6
    case UDP => protocol == 17
    case UDPLite => protocol == 136
    case ICMPv4 => protocol == 1
    case ICMPv6 => protocol == 58
  }

  /** The kind of header that an Ethernet type names. */
  predicate EtherNames(proto: u16, kind: Kind) {
    match kind
    case IPv4 => proto == 0x0800
    case IPv6 => proto == 0x86dd
    case MPLS => proto == 0x8847 || proto == 0x8848
    case _ => false
  }

  predicate UnknownIp(protocol: byte) {
    forall kind :: !IpNames(protocol, kind)
  }

  predicate UnknownEther(proto: u16) {
    forall kind :: !EtherNames(proto, kind)
  }

  /** The payload of h is everything that g spans. */
  predicate Fills(h: Header, g: Header) {
    h.totalBytes == h.headerBytes + g.totalBytes
  }

  /** The header h says that g is what comes next. */
  predicate Carries(i: Input, h: Header, g: Header)
    requires Sound(i) && HeaderOk(i, h)
  {
    && g.offset == h.offset + h.headerBytes
    && match h.kind
       case IPv4 => IpNames(i.bytes[h.offset + 9], g.kind) && CarriedByIp(h, g)
       case IPv6 => IpNames(i.bytes[h.offset + 6], g.kind) && CarriedByIp(h, g)
       case GRE => EtherNames(Be16(i.bytes, h.offset + 2), g.kind) && (g.kind.MPLS? || StartsIp(i, g))
       case MPLS => StartsIp(i, g)
       case UDP => (g.kind.SCTP? || g.kind.TCP?) && IpNames(i.encaps, g.kind) && Fills(h, g)
       case _ => false
  }

  predicate CarriedByIp(h: Header, g: Header) {
    && (g.kind.ICMPv4? ==> h.kind.IPv4?)
    && (g.kind.ICMPv6? ==> h.kind.IPv6?)
    && (!IsIp(g.kind) ==> Fills(h, g))
  }

  /** Nothing has to follow. */
  predicate Ends(i: Input, h: Header) {
    IsLayer4(h.kind) && (h.kind.UDP? ==> i.encaps == 0)
  }

  predicate Chain(i: Input, hs: seq<Header>)
    requires Sound(i)
    decreases |hs|
  {
    && hs != [] && HeaderOk(i, hs[0])
    && if |hs| == 1 then Ends(i, hs[0]) else Carries(i, hs[0], hs[1]) && Chain(i, hs[1..])
  }

  /** The header h announces something that is not known. */
  predicate EndsUnknown(i: Input, h: Header)
    requires Sound(i) && HeaderOk(i, h)
  {
    var s, p := i.bytes, h.offset;
    match h.kind
    case IPv4 => UnknownIp(s[p + 9])
    case IPv6 => UnknownIp(s[p + 6])
    case GRE => UnknownEther(Be16(s, p + 2))
    case _ => false
  }

  /** Headers that carry each other; the last one ends the packet, or announces something
      unknown. */
  predicate Links(i: Input, hs: seq<Header>, unknown: bool)
    requires Sound(i)
    decreases |hs|
  {
    && hs != [] && HeaderOk(i, hs[0])
    && if |hs| == 1 then (if unknown then EndsUnknown(i, hs[0]) else Ends(i, hs[0]))
       else Carries(i, hs[0], hs[1]) && Links(i, hs[1..], unknown)
  }

  lemma {:induction false} LinksIsChain(i: Input, hs: seq<Header>)
    requires Sound(i)
    ensures Links(i, hs, false) <==> Chain(i, hs)
    decreases |hs|
  {
    hide HeaderOk, Carries, Ends;
    if |hs| > 1 { LinksIsChain(i, hs[1..]); }
  }

  /** The Ethernet type announces the first header. */
  predicate Opens(i: Input, proto: u16, h: Header)
    requires Sound(i)
  {
    h.offset == 0 && EtherNames(proto, h.kind) && (h.kind.MPLS? || StartsIp(i, h))
  }

  // ---------------------------------------------------------------- one header

  /** The rest of a label stack behind its first entry. */
  function StackTail(h: Header): Header
    requires h.headerBytes >= 4
  {
    h.(offset := h.offset + 4, headerBytes := h.headerBytes - 4)
  }

  lemma StackOkOne(s: seq<byte>, h: Header)
    requires h.offset + h.headerBytes <= |s| && h.headerBytes >= 4 && IsStackBottom(s, h.offset)
    ensures StackOk(s, h) <==> h.headerBytes == 4
  {
    if StackOk(s, h) { assert s[h.offset + 4 * 0 + 2] % 2 == 1; }
  }

  lemma StackOkDown(s: seq<byte>, h: Header)
    requires h.offset + h.headerBytes <= |s| && h.headerBytes >= 4 && !IsStackBottom(s, h.offset) && StackOk(s, h)
    ensures StackOk(s, StackTail(h))
  {
    var t := StackTail(h);
    assert s[h.offset + 4 * 0 + 2] % 2 != 1;
    forall k: nat | k < t.headerBytes / 4
      ensures s[t.offset + 4 * k + 2] % 2 == 1 <==> k == t.headerBytes / 4 - 1
    {
      assert t.offset + 4 * k == h.offset + 4 * (k + 1);
    }
  }

  lemma StackOkUp(s: seq<byte>, h: Header)
    requires h.offset + h.headerBytes <= |s| && h.headerBytes >= 4 && !IsStackBottom(s, h.offset)
    requires StackOk(s, StackTail(h))
    ensures StackOk(s, h)
  {
    var t := StackTail(h);
    forall k: nat | k < h.headerBytes / 4
      ensures s[h.offset + 4 * k + 2] % 2 == 1 <==> k == h.headerBytes / 4 - 1
    {
      if k > 0 { assert h.offset + 4 * k == t.offset + 4 * (k - 1); }
    }
  }

  lemma {:induction false} StackIff(i: Input, h: Header)
    requires Sound(i) && h.offset + h.headerBytes < i.end
    ensures h.headerBytes > 0 && StackBytes(i, h.offset) == h.headerBytes <==> StackOk(i.bytes, h)
    decreases h.headerBytes
  {
    if h.headerBytes >= 4 {
      hide StackOk, IsStackBottom;
      if IsStackBottom(i.bytes, h.offset) {
        StackOkOne(i.bytes, h);
      } else {
        StackIff(i, StackTail(h));
        if StackOk(i.bytes, h) { StackOkDown(i.bytes, h); }
        if StackOk(i.bytes, StackTail(h)) { StackOkUp(i.bytes, h); }
      }
    }
  }

  /** How many bytes h is allotted by the header below: IP headers and label stacks find
      their own lengths. */
  predicate Spans(h: Header, bytes: nat) {
    if IsIp(h.kind) || h.kind.MPLS? then bytes == 0 else bytes == h.totalBytes
  }

  /** What the reader makes of a header that is there. */
  function NextAfter(i: Input, h: Header): Next
    requires Sound(i) && HeaderOk(i, h)
  {
    var s, p := i.bytes, h.offset;
    match h.kind
    case IPv4 => Over(s[p + 9], h.totalBytes - h.headerBytes, IPv4)
    case IPv6 => Over(s[p + 6], h.totalBytes - 40, IPv6)
    case GRE => Ether(Be16(s, p + 2))
    case MPLS => AnyIp
    case UDP =>
      if i.encaps == IPPROTO_SCTP then Inside(SCTP, h.totalBytes - 8)
      else if i.encaps == IPPROTO_TCP then Inside(TCP, h.totalBytes - 8)
      else Payload
    case _ => Payload
  }

  /** The fields that the reader checks. */
  lemma Ipv4FieldsIff(i: Input, p: nat, headerBytes: nat, totalBytes: nat)
    requires Sound(i) && 20 <= headerBytes <= totalBytes && p + totalBytes <= i.end
    ensures Ipv4Fields(i, p, headerBytes, totalBytes) <==>
      && totalBytes == Be16(i.bytes, p + 2) && Be16(i.bytes, p + 6) % 0x4000 == 0
      && Norm(Sum16(i.bytes[p..p + headerBytes], false)) == 0xffff
  {
    hide Norm, Sum16;
    FragmentedIff(Be16(i.bytes, p + 6));
  }

  /** More fragments follow, or this is not the first; whether fragmenting is allowed does not
      matter. */
  lemma FragmentedIff(fragOff: u16)
    ensures Fragmented(fragOff) <==> fragOff % 0x4000 != 0
  {
  }

  /** Each of the three optional fields takes four bytes. */
  lemma GreBytesIs(flags: byte)
    ensures GreBytes(flags) == 4 + 4 * (flags / 0x80) + 4 * (flags / 0x20 % 2) + 4 * (flags / 0x10 % 2)
  {
  }

  /** A header that is there is found. */
  lemma HeaderFound(i: Input, h: Header, bytes: nat)
    requires Sound(i) && HeaderOk(i, h) && Spans(h, bytes) && h.offset + bytes <= i.end
    requires h.kind.MPLS? ==> h.offset + h.headerBytes < i.end
    ensures HeaderAt(i, h.kind, h.offset, bytes) == Whole(h.headerBytes, h.totalBytes, NextAfter(i, h))
  {
    hide CrcMatches, InternetChecksum, Norm, Sum16, StackOk, StackBytes, Ipv4Fields, GreBytes;
    if h.kind.MPLS? { StackIff(i, h); StackPositive(i, h); }
    if h.kind.IPv4? { Ipv4FieldsIff(i, h.offset, h.headerBytes, h.totalBytes); }
    if h.kind.GRE? { GreBytesIs(i.bytes[h.offset]); }
  }

  lemma StackPositive(i: Input, h: Header)
    requires Sound(i) && h.offset + h.headerBytes <= i.end && StackOk(i.bytes, h)
    ensures h.headerBytes > 0
  {
  }

  /** A header that is found is there. */
  lemma FoundIsThere(i: Input, kind: Kind, p: nat, bytes: nat)
    requires Sound(i) && p + bytes <= i.end && HeaderAt(i, kind, p, bytes).Whole?
    requires (IsIp(kind) || kind.MPLS?) ==> bytes == 0
    requires kind.MPLS? ==> p + HeaderAt(i, kind, p, bytes).headerBytes < i.end
    ensures var f := HeaderAt(i, kind, p, bytes);
            var h := Header(kind, p, f.headerBytes, f.totalBytes);
            HeaderOk(i, h) && Spans(h, bytes) && f.next == NextAfter(i, h)
  {
    hide CrcMatches, InternetChecksum, Norm, Sum16, StackOk, StackBytes, Ipv4Fields, GreBytes;
    HeaderAtFits(i, kind, p, bytes);
    var f := HeaderAt(i, kind, p, bytes);
    if kind.IPv4? {
      Ipv4FieldsIff(i, p, f.headerBytes, f.totalBytes);
    }
    if kind.GRE? { GreBytesIs(i.bytes[p]); }
    if kind.MPLS? { StackIff(i, Header(kind, p, f.headerBytes, f.totalBytes)); }
  }

  /** What a header carries is what the reader goes on with. */
  lemma CarriesIff(i: Input, h: Header, g: Header)
    requires Sound(i) && HeaderOk(i, h) && g.offset == h.offset + h.headerBytes
    ensures Carries(i, h, g) <==>
      (!NextAfter(i, h).Payload?
       && Dispatch(i, NextAfter(i, h), g.offset).Go?
       && Dispatch(i, NextAfter(i, h), g.offset).kind == g.kind
       && Spans(g, Dispatch(i, NextAfter(i, h), g.offset).bytes)
       && (g.kind.IPv6? && h.kind.MPLS? ==> g.offset + 40 <= i.end))
  {
    hide CrcMatches, Norm, Sum16, StackOk;
  }

  // ---------------------------------------------------------------- whole chains

  /** The room that NextAfter leaves. */
  lemma NextFits(i: Input, h: Header)
    requires Sound(i) && HeaderOk(i, h)
    ensures h.offset + h.headerBytes <= i.end && Allotted(i, NextAfter(i, h), h.offset + h.headerBytes)
  {
    hide CrcMatches, Norm, Sum16, StackOk;
  }

  /** What a run of the reader over linked headers ends with. */
  function Ending(unknown: bool): Outcome {
    if unknown then PacketUnknownL4 else PacketOk
  }

  /** Between a header and the next. */
  lemma MoreFollows(i: Input, hs: seq<Header>, unknown: bool)
    requires Sound(i) && Links(i, hs, unknown)
    ensures |hs| > 1 ==> Carries(i, hs[0], hs[1]) && Links(i, hs[1..], unknown) && hs[1..][0] == hs[1]
    ensures hs[0].kind.MPLS? ==> |hs| > 1 && hs[0].offset + hs[0].headerBytes < i.end
    ensures |hs| == 1 ==> if unknown then EndsUnknown(i, hs[0]) else NextAfter(i, hs[0]).Payload?
  {
    hide CrcMatches, Norm, Sum16, StackOk;
  }

  /** What is announced and not known is where the reader stops. */
  lemma EndsUnknownIff(i: Input, h: Header, p: nat)
    requires Sound(i) && HeaderOk(i, h) && p == h.offset + h.headerBytes <= i.end
    ensures EndsUnknown(i, h) <==> !NextAfter(i, h).Payload? && Dispatch(i, NextAfter(i, h), p).Unknown?
  {
    hide CrcMatches, Norm, Sum16, StackOk;
    match h.kind
    case IPv4 => IpUnknownIff(i.bytes[h.offset + 9]);
    case IPv6 => IpUnknownIff(i.bytes[h.offset + 6]);
    case GRE => EtherUnknownIff(Be16(i.bytes, h.offset + 2));
    case _ =>
  }

  lemma IpUnknownIff(protocol: byte)
    ensures UnknownIp(protocol) <==>
      !(protocol == 1 || protocol == 4 || protocol == 6 || protocol == 17 || protocol == 41 || protocol == 47 ||
        protocol == 58 || protocol == 132 || protocol == 136)
  {
    assert IpNames(1, ICMPv4) && IpNames(4, IPv4) && IpNames(6, TCP) && IpNames(17, UDP) && IpNames(41, IPv6);
    assert IpNames(47, GRE) && IpNames(58, ICMPv6) && IpNames(132, SCTP) && IpNames(136, UDPLite);
  }

  lemma EtherUnknownIff(proto: u16)
    ensures UnknownEther(proto) <==>
      !(proto == 0x0800 || proto == 0x86dd || proto == 0x8847 || proto == 0x8848)
  {
    assert EtherNames(0x0800, IPv4) && EtherNames(0x86dd, IPv6) && EtherNames(0x8847, MPLS) && EtherNames(0x8848, MPLS);
  }

  /** All linked headers are found. */
  lemma {:induction false} LinksAreFound(i: Input, hs: seq<Header>, unknown: bool, bytes: nat, count: nat)
    requires Sound(i) && Links(i, hs, unknown) && Spans(hs[0], bytes) && hs[0].offset + bytes <= i.end
    requires count + |hs| <= PACKET_MAX_HEADERS
    ensures RunHeader(i, hs[0].kind, hs[0].offset, bytes, count) == Parsed(Ending(unknown), hs)
    decreases |hs|
  {
    hide HeaderAt, Dispatch, NextAfter, HeaderOk, Carries, Ends, EndsUnknown, Allotted;
    var h := hs[0];
    MoreFollows(i, hs, unknown);
    HeaderFound(i, h, bytes);
    NextFits(i, h);
    if |hs| > 1 {
      var g, q := hs[1], hs[0].offset + hs[0].headerBytes;
      CarriedStarts(i, h, g);
      CarriesIff(i, h, g);
      DispatchFits(i, NextAfter(i, h), q);
      LinksAreFound(i, hs[1..], unknown, Dispatch(i, NextAfter(i, h), q).bytes, count + 1);
      assert hs == [h] + hs[1..];
    } else if unknown {
      EndsUnknownIff(i, h, h.offset + h.headerBytes);
    }
  }

  /** Every chain is found. */
  lemma ChainIsFound(i: Input, hs: seq<Header>, bytes: nat, count: nat)
    requires Sound(i) && Chain(i, hs) && Spans(hs[0], bytes) && hs[0].offset + bytes <= i.end
    requires count + |hs| <= PACKET_MAX_HEADERS
    ensures RunHeader(i, hs[0].kind, hs[0].offset, bytes, count) == Parsed(PacketOk, hs)
  {
    hide RunHeader, Chain, Links, Spans;
    LinksIsChain(i, hs);
    LinksAreFound(i, hs, false, bytes, count);
  }

  lemma CarriedStarts(i: Input, h: Header, g: Header)
    requires Sound(i) && HeaderOk(i, h) && Carries(i, h, g)
    ensures g.offset == h.offset + h.headerBytes
  {
  }

  lemma DispatchFits(i: Input, next: Next, p: nat)
    requires Sound(i) && p <= i.end && Allotted(i, next, p)
    ensures var d := Dispatch(i, next, p); d.Go? ==> p + d.bytes <= i.end
  {
  }

  /** Dispatch allots nothing to headers that find their own lengths. */
  lemma DispatchSpans(i: Input, next: Next, p: nat)
    requires Sound(i) && p <= i.end && (next.Inside? ==> IsLayer4(next.kind))
    ensures var d := Dispatch(i, next, p); d.Go? && (IsIp(d.kind) || d.kind.MPLS?) ==> d.bytes == 0
  {
  }

  lemma NextInside(i: Input, h: Header)
    requires Sound(i) && HeaderOk(i, h)
    ensures var next := NextAfter(i, h); next.Inside? ==> IsLayer4(next.kind)
    ensures var next := NextAfter(i, h); next.Payload? ==> Ends(i, h)
  {
    hide CrcMatches, Norm, Sum16, StackOk;
  }

  /** A label stack that runs to the end of the packet has nothing behind it. */
  lemma StackThenIp(i: Input, p: nat, bytes: nat, count: nat)
    requires Sound(i) && p + bytes <= i.end && !RunHeader(i, MPLS, p, bytes, count).outcome.PacketBad?
    ensures HeaderAt(i, MPLS, p, bytes).Whole? && p + HeaderAt(i, MPLS, p, bytes).headerBytes < i.end
  {
    hide CrcMatches, InternetChecksum, StackBytes, Ipv4Fields, Version;
    HeaderAtFits(i, MPLS, p, bytes);
  }

  /** Everything found is linked. */
  lemma {:induction false} FoundIsLinked(i: Input, kind: Kind, p: nat, bytes: nat, count: nat)
    requires Sound(i) && p + bytes <= i.end && !RunHeader(i, kind, p, bytes, count).outcome.PacketBad?
    requires (IsIp(kind) || kind.MPLS?) ==> bytes == 0
    ensures var r := RunHeader(i, kind, p, bytes, count);
            && r.headers != [] && Links(i, r.headers, r.outcome.PacketUnknownL4?) && count + |r.headers| <= PACKET_MAX_HEADERS
            && r.headers[0].kind == kind && r.headers[0].offset == p && Spans(r.headers[0], bytes)
    decreases i.end - p
  {
    hide *;
    if kind == MPLS { StackThenIp(i, p, bytes, count); }
    var f := RunHeaderOk(i, kind, p, bytes, count);
    FoundIsThere(i, kind, p, bytes);
    var h := Header(kind, p, f.headerBytes, f.totalBytes);
    NextInside(i, h);
    var q := p + f.headerBytes;
    if f.next.Payload? {
      LinkOfOne(i, h, false);
    } else {
      var d := Dispatch(i, f.next, q);
      if d.Unknown? {
        EndsUnknownIff(i, h, q);
        LinkOfOne(i, h, true);
      } else {
        DispatchSpans(i, f.next, q);
        FoundIsLinked(i, d.kind, q, d.bytes, count + 1);
        var r := RunHeader(i, d.kind, q, d.bytes, count + 1);
        LinkStart(i, r.headers, r.outcome.PacketUnknownL4?);
        CarriesIff(i, h, r.headers[0]);
        LinkOfMore(i, h, r.headers, r.outcome.PacketUnknownL4?);
      }
    }
  }

  /** Everything accepted is a chain. */
  lemma FoundIsChain(i: Input, kind: Kind, p: nat, bytes: nat, count: nat)
    requires Sound(i) && p + bytes <= i.end && RunHeader(i, kind, p, bytes, count).outcome.PacketOk?
    requires (IsIp(kind) || kind.MPLS?) ==> bytes == 0
    ensures var hs := RunHeader(i, kind, p, bytes, count).headers;
            && hs != [] && Chain(i, hs) && count + |hs| <= PACKET_MAX_HEADERS
            && hs[0].kind == kind && hs[0].offset == p && Spans(hs[0], bytes)
  {
    hide RunHeader, Links, Chain, Spans;
    FoundIsLinked(i, kind, p, bytes, count);
    LinksIsChain(i, RunHeader(i, kind, p, bytes, count).headers);
  }

  /** What a run that rejects nothing has found first. */
  lemma RunHeaderOk(i: Input, kind: Kind, p: nat, bytes: nat, count: nat) returns (f: Found)
    requires Sound(i) && p + bytes <= i.end && !RunHeader(i, kind, p, bytes, count).outcome.PacketBad?
    ensures f == HeaderAt(i, kind, p, bytes) && f.Whole? && 4 <= f.headerBytes <= f.totalBytes && p + f.totalBytes <= i.end
    ensures count < PACKET_MAX_HEADERS
    ensures var h, r := Header(kind, p, f.headerBytes, f.totalBytes), RunHeader(i, kind, p, bytes, count);
            if f.next.Payload? then r == Parsed(PacketOk, [h])
            else
              var q := p + f.headerBytes;
              var d := Dispatch(i, f.next, q);
              if d.Unknown? then r == Parsed(PacketUnknownL4, [h])
              else
                && d.Go? && q + d.bytes <= i.end
                && var rest := RunHeader(i, d.kind, q, d.bytes, count + 1);
                r == Parsed(rest.outcome, [h] + rest.headers)
  {
    hide HeaderAt, Dispatch, Allotted;
    HeaderAtFits(i, kind, p, bytes);
    f := HeaderAt(i, kind, p, bytes);
    if !f.next.Payload? { DispatchFits(i, f.next, p + f.headerBytes); }
  }

  lemma LinkOfOne(i: Input, h: Header, unknown: bool)
    requires Sound(i) && HeaderOk(i, h) && if unknown then EndsUnknown(i, h) else Ends(i, h)
    ensures Links(i, [h], unknown)
  {
    hide HeaderOk, Ends, EndsUnknown, Carries;
  }

  lemma LinkOfMore(i: Input, h: Header, rest: seq<Header>, unknown: bool)
    requires Sound(i) && HeaderOk(i, h) && rest != [] && Carries(i, h, rest[0]) && Links(i, rest, unknown)
    ensures Links(i, [h] + rest, unknown)
  {
    hide HeaderOk, Ends, EndsUnknown, Carries;
    assert ([h] + rest)[1..] == rest;
  }

  /** An IP header that is there has its bytes. */
  lemma LinkStart(i: Input, hs: seq<Header>, unknown: bool)
    requires Sound(i) && hs != [] && Links(i, hs, unknown)
    ensures hs[0].kind.IPv6? ==> hs[0].offset + 40 <= i.end
    ensures hs[0].kind.IPv4? ==> hs[0].offset + 20 <= i.end
  {
  }

  /** Whatever it says of a packet that it does not reject, parse_packet says exactly of those
      buffers that hold at most six linked headers which the Ethernet type announces, and reports
      exactly these headers. */
  lemma LinkedIff(i: Input, proto: u16, hs: seq<Header>, unknown: bool)
    requires Sound(i) && hs != []
    ensures Run(i, Ether(proto), 0, 0) == Parsed(Ending(unknown), hs) <==>
      (|hs| <= PACKET_MAX_HEADERS && Opens(i, proto, hs[0]) && Links(i, hs, unknown))
  {
    hide HeaderAt, HeaderOk, Carries, Ends, EndsUnknown, Links, RunHeader;
    var d := Dispatch(i, Ether(proto), 0);
    if |hs| <= PACKET_MAX_HEADERS && Opens(i, proto, hs[0]) && Links(i, hs, unknown) {
      LinksAreFound(i, hs, unknown, 0, 0);
    }
    if Run(i, Ether(proto), 0, 0) == Parsed(Ending(unknown), hs) {
      FoundIsLinked(i, d.kind, 0, 0, 0);
      LinkStart(i, hs, unknown);
    }
  }

  /** parse_packet accepts exactly the buffers that hold a chain of at most six headers which
      the Ethernet type announces, and reports exactly that chain. */
  lemma RunIff(i: Input, proto: u16, hs: seq<Header>)
    requires Sound(i)
    ensures Run(i, Ether(proto), 0, 0) == Parsed(PacketOk, hs) <==>
      (hs != [] && |hs| <= 6 && Opens(i, proto, hs[0]) && Chain(i, hs))
  {
    hide RunHeader, Opens, Links, Chain;
    if hs != [] {
      LinkedIff(i, proto, hs, false);
      LinksIsChain(i, hs);
    } else {
      SomethingRead(i, proto);
    }
  }

  lemma SomethingRead(i: Input, proto: u16)
    requires Sound(i)
    ensures Run(i, Ether(proto), 0, 0).headers == [] ==> !Run(i, Ether(proto), 0, 0).outcome.PacketOk?
    ensures Run(i, Ether(proto), 0, 0) == Parsed(PacketUnknownL4, []) <==> UnknownEther(proto)
  {
    EtherUnknownIff(proto);
    hide HeaderAt;
  }

  /** parse_packet calls a packet unknown exactly when its headers are right as far as they go, and
      the last of them, or the Ethernet type, announces something that it does not know. All other
      packets are bad. */
  lemma UnknownIff(i: Input, proto: u16, hs: seq<Header>)
    requires Sound(i)
    ensures Run(i, Ether(proto), 0, 0) == Parsed(PacketUnknownL4, hs) <==>
      if hs == [] then UnknownEther(proto)
      else |hs| <= 6 && Opens(i, proto, hs[0]) && Links(i, hs, true)
  {
    hide RunHeader, Opens, Links, UnknownEther;
    if hs != [] {
      LinkedIff(i, proto, hs, true);
    } else {
      SomethingRead(i, proto);
    }
  }
}
