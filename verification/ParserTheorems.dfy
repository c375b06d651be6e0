/**
 What holds of every parse, accepted or not, and of every chain of headers.
 */
module ParserTheorems {
  import opened Bytes
  import opened Checksum
  import opened Layers
  import opened Chains

  /** Each header starts where the one before it ends, the first one at p. */
  predicate Tiled(hs: seq<Header>, p: nat) {
    && (hs != [] ==> hs[0].offset == p)
    && forall k :: 0 < k < |hs| ==> hs[k].offset == hs[k - 1].offset + hs[k - 1].headerBytes
  }

  /** Each header has at least four bytes, and with its payload it stays in the packet. */
  predicate Contained(hs: seq<Header>, end: nat) {
    forall k :: 0 <= k < |hs| ==> 4 <= hs[k].headerBytes <= hs[k].totalBytes && hs[k].offset + hs[k].totalBytes <= end
  }

  lemma TiledCons(h: Header, rest: seq<Header>)
    requires Tiled(rest, h.offset + h.headerBytes)
    ensures Tiled([h] + rest, h.offset)
  {
    var hs := [h] + rest;
    forall k | 0 < k < |hs|
      ensures hs[k].offset == hs[k - 1].offset + hs[k - 1].headerBytes
    {
      if k > 1 { assert rest[k - 1].offset == rest[k - 2].offset + rest[k - 2].headerBytes; }
    }
  }

  /** For every input, whatever the outcome: the headers reported tile the buffer, stay in the
      packet, and are at most six with those read before. */
  lemma {:induction false} RunTiles(i: Input, next: Next, p: nat, count: nat)
    requires Sound(i) && p <= i.end && Allotted(i, next, p) && count <= PACKET_MAX_HEADERS
    ensures var hs := Run(i, next, p, count).headers;
            Tiled(hs, p) && Contained(hs, i.end) && count + |hs| <= PACKET_MAX_HEADERS
    decreases i.end - p
  {
    hide Dispatch, HeaderAt, Allotted, Tiled;
    DispatchFits(i, next, p);
    var d := Dispatch(i, next, p);
    TiledNone(p);
    if d.Go? {
      HeaderAtFits(i, d.kind, p, d.bytes);
      var f := HeaderAt(i, d.kind, p, d.bytes);
      if f.Whole? && count < PACKET_MAX_HEADERS {
        var h := Header(d.kind, p, f.headerBytes, f.totalBytes);
        if f.next.Payload? {
          TiledNone(p + f.headerBytes);
          TiledCons(h, []);
          assert [h] + [] == [h];
        } else {
          RunTiles(i, f.next, p + f.headerBytes, count + 1);
          TiledCons(h, Run(i, f.next, p + f.headerBytes, count + 1).headers);
        }
      }
    }
  }

  lemma TiledNone(p: nat)
    ensures Tiled([], p)
  {
  }

  /** The byte behind the end of the packet makes no difference. */
  lemma {:induction false} SlackIgnored(i: Input, slack: byte, next: Next, p: nat, count: nat)
    requires Sound(i) && p <= i.end && Allotted(i, next, p)
    ensures Run(i.(slack := slack), next, p, count) == Run(i, next, p, count)
    decreases i.end - p
  {
    hide Allotted, Dispatch, HeaderAt;
    var j := i.(slack := slack);
    AllottedSame(i, j, next, p);
    DispatchSame(i, j, next, p);
    DispatchFits(i, next, p);
    var d := Dispatch(i, next, p);
    if d.Go? {
      HeaderAtFits(i, d.kind, p, d.bytes);
      HeaderAtSame(i, j, d.kind, p, d.bytes);
      var f := HeaderAt(i, d.kind, p, d.bytes);
      if f.Whole? && count < PACKET_MAX_HEADERS && !f.next.Payload? {
        SlackIgnored(i, slack, f.next, p + f.headerBytes, count + 1);
        AllottedSame(i, j, f.next, p + f.headerBytes);
      }
    }
  }

  lemma AllottedSame(i: Input, j: Input, next: Next, p: nat)
    requires i.end == j.end
    ensures Allotted(i, next, p) == Allotted(j, next, p)
  {
  }

  lemma DispatchSame(i: Input, j: Input, next: Next, p: nat)
    requires Sound(i) && p <= i.end && j == i.(slack := j.slack)
    ensures Dispatch(j, next, p) == Dispatch(i, next, p)
  {
  }

  lemma HeaderAtSame(i: Input, j: Input, kind: Kind, p: nat, bytes: nat)
    requires Sound(i) && p + bytes <= i.end && j == i.(slack := j.slack)
    ensures HeaderAt(j, kind, p, bytes) == HeaderAt(i, kind, p, bytes)
  {
    hide CrcMatches, InternetChecksum, StackBytes;
    StackBytesSame(i, j, p);
  }

  lemma {:induction false} StackBytesSame(i: Input, j: Input, p: nat)
    requires Sound(i) && p <= i.end && j == i.(slack := j.slack)
    ensures StackBytes(j, p) == StackBytes(i, p)
    decreases i.end - p
  {
    if p + 4 <= i.end { StackBytesSame(i, j, p + 4); }
  }

  /** The headers that are not last are tunnels, or the UDP header around encapsulated SCTP or
      TCP; the last one is layer 4, and the one below layer 4 is IP. */
  predicate Nested(i: Input, hs: seq<Header>) {
    && hs != [] && IsLayer4(hs[|hs| - 1].kind)
    && (forall k :: 0 <= k < |hs| - 1 ==>
         IsTunnel(hs[k].kind) || (hs[k].kind.UDP? && k == |hs| - 2 && i.encaps == IpProto(hs[k + 1].kind)))
    && (forall k :: 0 < k < |hs| && IsLayer4(hs[k].kind) && !hs[k - 1].kind.UDP? ==> IsIp(hs[k - 1].kind))
  }

  lemma {:induction false} ChainNested(i: Input, hs: seq<Header>)
    requires Sound(i) && Chain(i, hs)
    ensures Nested(i, hs)
    decreases |hs|
  {
    hide HeaderOk;
    if |hs| > 1 {
      var rest := hs[1..];
      ChainNested(i, rest);
      CarriesFacts(i, hs[0], hs[1]);
      if |rest| > 1 { CarriesFacts(i, rest[0], rest[1]); }
      hide Carries;
      forall k | 0 <= k < |hs| - 1
        ensures IsTunnel(hs[k].kind) || (hs[k].kind.UDP? && k == |hs| - 2 && i.encaps == IpProto(hs[k + 1].kind))
      {
        if k > 0 { assert rest[k - 1] == hs[k] && rest[k] == hs[k + 1]; }
      }
    }
  }

  lemma CarriesFacts(i: Input, h: Header, g: Header)
    requires Sound(i) && HeaderOk(i, h) && Carries(i, h, g)
    ensures IsTunnel(h.kind) || (h.kind.UDP? && (g.kind.SCTP? || g.kind.TCP?) && i.encaps == IpProto(g.kind))
    ensures IsLayer4(g.kind) && !h.kind.UDP? ==> IsIp(h.kind)
  {
    hide HeaderOk;
  }
}
