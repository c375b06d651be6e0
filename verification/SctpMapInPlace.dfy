/**
 The loops of map_inbound_sctp_packet and map_outbound_live_sctp_packet, which map a packet in
 place. They are proved to do to every buffer what SctpRaw says, whatever the lengths in it.
 */
module SctpMapInPlace {
  import opened Bytes
  import opened Arithmetic
  import opened SctpMap
  import opened SctpRaw
  import opened SctpRefine
  import SctpIterator

  /** One store, or the end if it would be behind the buffer. */
  method StoreAt(a: array<byte>, w: Write, ghost rest: seq<Write>) returns (ok: bool)
    modifies a
    ensures ok <==> w.at + 4 <= a.Length
    ensures ok ==> a[..] == Store(old(a[..]), w) && Apply(old(a[..]), [w] + rest) == Apply(a[..], rest)
    ensures !ok ==> a[..] == old(a[..]) && Apply(old(a[..]), [w] + rest) == Memory(a[..], Overrun)
  {
    hide Apply, Splice, Be32, Be32Bytes, Add;
    ghost var s := a[..];
    ok := w.at + 4 <= a.Length;
    if ok {
      ApplyMore(s, w, rest);
      match w {
        case AddTo(at, d) =>
          FieldAt(s, at);
          assert a[at..at + 4] == s[at..at + 4];
          PutWord(a, at, Add(Be32(a[at..at + 4], 0), d));
        case Put(at, v) =>
          PutWord(a, at, v);
      }
    } else {
      ApplyOverrun(s, w, rest);
    }
  }

  lemma FieldAt(s: seq<byte>, at: nat)
    requires at + 4 <= |s|
    ensures Be32(s[at..at + 4], 0) == Be32(s, at)
  {
  }

  lemma ApplyOverrun(s: seq<byte>, w: Write, rest: seq<Write>)
    requires w.at + 4 > |s|
    ensures Apply(s, [w] + rest) == Memory(s, Overrun)
  {
  }

  method PutWord(a: array<byte>, at: nat, v: u32)
    requires at + 4 <= a.Length
    modifies a
    ensures a[..] == Splice(old(a[..]), at, Be32Bytes(v))
  {
    var b := Be32Bytes(v);
    a[at], a[at + 1], a[at + 2], a[at + 3] := b[0], b[1], b[2], b[3];
    assert a[at..at + 4] == b;
  }

  // ---------------------------------------------------------------- parameters

  lemma Conditional(test: bool, w: Write, rest: seq<Write>)
    ensures test ==> WriteIf(test, w) + rest == [w] + rest
    ensures !test ==> WriteIf(test, w) + rest == rest
  {
  }

  lemma Three(x: seq<Write>, y: seq<Write>, z: seq<Write>)
    ensures x + y + z == x + (y + z) && z + [] == z
  {
  }

  /** An optional store. */
  method StoreIf(a: array<byte>, test: bool, w: Write, ghost rest: seq<Write>) returns (ok: bool)
    modifies a
    ensures ok ==> Apply(old(a[..]), WriteIf(test, w) + rest) == Apply(a[..], rest)
    ensures !ok ==> Apply(old(a[..]), WriteIf(test, w) + rest) == Memory(a[..], Overrun)
  {
    Conditional(test, w, rest);
    ok := true;
    if test {
      ok := StoreAt(a, w, rest);
    }
  }

  /** Up to three optional stores, one after the other. */
  method StoreThree(a: array<byte>, t1: bool, x: Write, t2: bool, y: Write, t3: bool, z: Write) returns (status: Status)
    modifies a
    ensures Memory(a[..], status) == Apply(old(a[..]), WriteIf(t1, x) + WriteIf(t2, y) + WriteIf(t3, z))
  {
    hide Apply, WriteIf;
    ghost var ws2, ws3 := WriteIf(t2, y), WriteIf(t3, z);
    Three(WriteIf(t1, x), ws2, ws3);
    var ok := StoreIf(a, t1, x, ws2 + ws3);
    if !ok {
      return Overrun;
    }
    ok := StoreIf(a, t2, y, ws3);
    if !ok {
      return Overrun;
    }
    ok := StoreIf(a, t3, z, []);
    if !ok {
      return Overrun;
    }
    ApplyNone(a[..]);
    return Finished;
  }

  lemma OneOf(test: bool, w: Write)
    ensures WriteIf(test, w) + WriteIf(false, w) + WriteIf(false, w) == WriteIf(test, w)
    ensures WriteIf(true, w) == [w]
  {
  }

  /** The parameter of length n at p. */
  method MapParam(a: array<byte>, p: nat, n: nat, d: Diffs, inbound: bool) returns (status: Status)
    requires p + 4 <= a.Length
    modifies a
    ensures var kind := Be16(old(a[..]), p);
            Memory(a[..], status) ==
              Apply(old(a[..]), if inbound then ParamWritesIn(kind, p, n, d) else ParamWritesOut(kind, p, n, d))
  {
    ghost var s := a[..];
    Be16Moved(s, p);
    var kind := Be16(a[p..p + 2], 0);
    hide Apply, WriteIf, Be16;
    var x := AddTo(p + 4, if inbound then d.remote else d.local);
    if kind == OUTGOING_SSN_RESET {
      var y := AddTo(p + 8, if inbound then d.local else d.remote);
      var z := AddTo(p + 12, x.d);
      OutgoingWrites(x, y, z);
      status := StoreThree(a, !inbound || n >= 8, x, !inbound || n >= 12, y, !inbound || n >= 16, z);
    } else if IsRequest(kind) {
      OneOf(!inbound || n >= 8, x);
      status := StoreThree(a, !inbound || n >= 8, x, false, x, false, x);
    } else if kind == RECONFIG_RESPONSE {
      var u := AddTo(p + 4, if inbound then d.local else d.remote);
      OneOf(true, u);
      status := StoreThree(a, true, u,
                           if inbound then n >= 16 else n == 20, AddTo(p + 16, u.d),
                           if inbound then n >= 20 else n == 20, AddTo(p + 12, x.d));
    } else {
      ApplyNone(s);
      status := Finished;
    }
  }

  lemma OutgoingWrites(x: Write, y: Write, z: Write)
    ensures WriteIf(true, x) + WriteIf(true, y) + WriteIf(true, z) == [x, y, z]
  {
  }

  /** Where an iterator goes from an item of length n at q, in a list that ends at e. */
  method Advance(q: nat, n: nat, e: nat) returns (next: nat)
    requires q + n <= e
    ensures next == SctpIterator.After(q, n, e)
  {
    var padding := n % 4;
    if padding > 0 {
      padding := 4 - padding;
    }
    next := q + n;
    if e - next < padding {
      next := e;
    } else {
      next := next + padding;
    }
  }

  /** The loops over the parameters of a RE-CONFIG chunk, from p to e. */
  method MapParams(a: array<byte>, p: nat, e: nat, d: Diffs, inbound: bool) returns (status: Status)
    requires p <= e
    modifies a
    ensures Memory(a[..], status) == RawParams(old(a[..]), p, e, d, inbound)
  {
    hide Apply, Be16, ParamWritesIn, ParamWritesOut;
    var q := p;
    while q < e
      invariant p <= q <= e
      invariant RawParams(a[..], q, e, d, inbound) == RawParams(old(a[..]), p, e, d, inbound)
      decreases e - q
    {
      if q + 4 > e {
        return if inbound then Finished else Failed;
      }
      if q + 4 > a.Length {
        return Overrun;
      }
      Be16Moved(a[..], q + 2);
      assert a[q + 2..q + 4] == a[..][q + 2..q + 4];
      var n := Be16(a[q + 2..q + 4], 0);
      if q + n > e {
        return if inbound then Finished else Failed;
      }
      status := MapParam(a, q, n, d, inbound);
      if status != Finished {
        return;
      }
      if n < 4 {
        return Aborted;
      }
      q := Advance(q, n, e);
    }
    return Finished;
  }

  // ---------------------------------------------------------------- chunks

  /** The loop over the duplicate TSNs of a SACK. */
  method MapDuplicates(a: array<byte>, at: nat, n: nat, d: u32) returns (status: Status)
    modifies a
    ensures Memory(a[..], status) == Apply(old(a[..]), RunWrites(at, n, d))
  {
    hide Apply;
    var i := 0;
    while i < n
      invariant 0 <= i <= n
      invariant Apply(a[..], RunWrites(at + 4 * i, n - i, d)) == Apply(old(a[..]), RunWrites(at, n, d))
    {
      ghost var rest := RunWrites(at + 4 * (i + 1), n - i - 1, d);
      assert RunWrites(at + 4 * i, n - i, d) == [AddTo(at + 4 * i, d)] + rest;
      var ok := StoreAt(a, AddTo(at + 4 * i, d), rest);
      if !ok {
        return Overrun;
      }
      i := i + 1;
    }
    ApplyNone(a[..]);
    return Finished;
  }

  /** A 16-bit count in a chunk. */
  method Count(a: array<byte>, at: nat) returns (v: nat)
    requires at + 2 <= a.Length
    ensures v == Field16(a[..], at)
  {
    Be16Moved(a[..], at);
    assert a[at..at + 2] == a[..][at..at + 2];
    v := Be16(a[at..at + 2], 0);
  }

  /** The gap and duplicate counts of a SACK or NR-SACK. */
  method SackCounts(a: array<byte>, p: nat, kind: byte) returns (gaps: nat, start: nat, dups: nat)
    requires IsSack(kind) && p + SackHeader(kind) <= a.Length
    ensures gaps == Field16(a[..], p + 12)
    ensures start == DupStart(a[..], p, kind) && dups == DupCount(a[..], p, kind)
  {
    hide Field16;
    gaps := Count(a, p + 12);
    if kind == SACK {
      start := p + 16 + 4 * gaps;
      dups := Count(a, p + 14);
    } else {
      var nrGaps := Count(a, p + 14);
      start := p + 20 + 4 * ((gaps + nrGaps) % 0x1_0000);
      dups := Count(a, p + 16);
    }
  }

  /** The cumulative TSN and the duplicates. */
  method MapSack(a: array<byte>, p: nat, start: nat, dups: nat, d: u32) returns (status: Status)
    modifies a
    ensures Memory(a[..], status) == Apply(old(a[..]), [AddTo(p + 4, d)] + RunWrites(start, dups, d))
  {
    hide Apply, RunWrites;
    var ok := StoreAt(a, AddTo(p + 4, d), RunWrites(start, dups, d));
    if !ok {
      return Overrun;
    }
    status := MapDuplicates(a, start, dups, d);
  }

  /** The initial TSN, and the initiate tag if it is the one to be replaced. */
  method MapInit(a: array<byte>, p: nat, d: u32, m: Mapping) returns (status: Status)
    requires p < a.Length
    modifies a
    ensures Memory(a[..], status) ==
              Apply(old(a[..]), [AddTo(p + 16, d)] + WriteIf(Field32(old(a[..]), p + 4) == m.tagFrom, Put(p + 4, m.tagTo)))
  {
    hide Apply, WriteIf;
    ghost var s := a[..];
    ghost var rest := WriteIf(Field32(s, p + 4) == m.tagFrom, Put(p + 4, m.tagTo));
    var ok := StoreAt(a, AddTo(p + 16, d), rest);
    if !ok {
      return Overrun;
    }
    var tag := Be32(a[p + 4..p + 8], 0);
    TagKept(s, a[..], p);
    assert tag == Field32(s, p + 4);
    assert rest + [] == rest;
    ok := StoreIf(a, tag == m.tagFrom, Put(p + 4, m.tagTo), []);
    if !ok {
      return Overrun;
    }
    ApplyNone(a[..]);
    return Finished;
  }

  lemma TagKept(s: seq<byte>, t: seq<byte>, p: nat)
    requires p + 20 <= |s| == |t| && forall k :: 0 <= k < p + 16 ==> s[k] == t[k]
    ensures Be32(t[p + 4..p + 8], 0) == Be32(s, p + 4) == Field32(s, p + 4)
  {
  }

  /** One turn of the inbound loop, RE-CONFIG aside. */
  method MapChunkIn(a: array<byte>, p: nat, n: nat, m: Mapping) returns (status: Status)
    requires p + 4 <= a.Length && p + n <= a.Length
    modifies a
    ensures Memory(a[..], status) == Apply(old(a[..]), ChunkWritesIn(old(a[..]), p, n, m))
  {
    hide Apply, RunWrites, WriteIf, DupStart, DupCount, Field16, Field32, CarriesOwnTsn;
    ghost var s := a[..];
    var kind := a[p];
    ApplyNone(s);
    if HasPlainTsn(kind) {
      var w := AddTo(p + 4, if CarriesOwnTsn(kind) then m.d.remote else m.d.local);
      OneOf(n >= MinimumIn(kind), w);
      status := StoreThree(a, n >= MinimumIn(kind), w, false, w, false, w);
    } else if IsInit(kind) {
      NoInit(s, p, n, m);
      if n >= 20 {
        status := MapInit(a, p, m.d.remote, m);
      } else {
        status := Finished;
      }
    } else if IsSack(kind) && n >= SackHeader(kind) {
      var gaps, start, dups := SackCounts(a, p, kind);
      NoDuplicates(p, m.d.local);
      if n == SackHeader(kind) + 4 * (dups + gaps) {
        status := MapSack(a, p, start, dups, m.d.local);
      } else {
        status := MapSack(a, p, p, 0, m.d.local);
      }
    } else {
      status := Finished;
    }
  }

  lemma NoDuplicates(p: nat, d: u32)
    ensures RunWrites(p, 0, d) == []
  {
  }

  /** One turn of the outbound loop, RE-CONFIG aside. */
  method MapChunkOut(a: array<byte>, p: nat, m: Mapping) returns (status: Status)
    requires p < a.Length
    modifies a
    ensures var s := old(a[..]);
            Memory(a[..], status) == if CountsReadable(s, p) then Apply(s, ChunkWritesOut(s, p, m)) else Memory(s, Overrun)
  {
    hide Apply, RunWrites, WriteIf, DupStart, DupCount, Field16, Field32, CarriesOwnTsn;
    ghost var s := a[..];
    var kind := a[p];
    ApplyNone(s);
    if HasPlainTsn(kind) {
      var w := AddTo(p + 4, if CarriesOwnTsn(kind) then m.d.local else m.d.remote);
      OneOf(true, w);
      status := StoreThree(a, true, w, false, w, false, w);
    } else if IsInit(kind) {
      status := MapInit(a, p, m.d.local, m);
    } else if IsSack(kind) {
      if p + SackHeader(kind) > a.Length {
        return Overrun;
      }
      var gaps, start, dups := SackCounts(a, p, kind);
      status := MapSack(a, p, start, dups, m.d.remote);
    } else {
      status := Finished;
    }
  }

  /** One turn of either loop. `little` is the byte order of the host: outbound, the length of a
      RE-CONFIG chunk is compared as the host reads it. */
  method MapChunk(a: array<byte>, p: nat, n: u16, m: Mapping, inbound: bool, little: bool) returns (status: Status)
    requires p + 4 <= a.Length && p + n <= a.Length
    modifies a
    ensures Memory(a[..], status) == RawChunk(old(a[..]), p, n, m, inbound, little)
  {
    hide Apply, RawParams, ChunkWritesIn, ChunkWritesOut, Raw;
    if a[p] == RECONFIG {
      if if inbound then n >= 8 else Raw(n, little) > 4 {
        status := MapParams(a, p + 4, p + 4 + (n as int - 4) % 0x1_0000, m.d, inbound);
      } else {
        status := Finished;
      }
    } else if inbound {
      status := MapChunkIn(a, p, n, m);
    } else {
      status := MapChunkOut(a, p, m);
    }
  }

  /** map_inbound_sctp_packet and map_outbound_live_sctp_packet on the chunks from p to e, for
      every buffer. */
  method MapPacket(a: array<byte>, p: nat, e: nat, m: Mapping, inbound: bool, little: bool) returns (status: Status)
    requires p <= e <= a.Length
    modifies a
    ensures Memory(a[..], status) == RawPacket(old(a[..]), p, e, m, inbound, little)
  {
    hide RawChunk, Be16;
    var q := p;
    while q < e
      invariant p <= q <= e
      invariant RawPacket(a[..], q, e, m, inbound, little) == RawPacket(old(a[..]), p, e, m, inbound, little)
      decreases e - q
    {
      if q + 4 > e {
        return if inbound then Finished else Failed;
      }
      Be16Moved(a[..], q + 2);
      assert a[q + 2..q + 4] == a[..][q + 2..q + 4];
      var n := Be16(a[q + 2..q + 4], 0);
      if q + n > e {
        return if inbound then Finished else Failed;
      }
      status := MapChunk(a, q, n, m, inbound, little);
      if status != Finished {
        return;
      }
      if n < 4 {
        return Aborted;
      }
      q := Advance(q, n, e);
    }
    return Finished;
  }

  /** Both mappings on one buffer, inbound and then outbound from the other end. They finish,
      and the buffer is what it was if and only if no chunk is lost. */
  method MapThereAndBack(a: array<byte>, p: nat, e: nat, x: Association, little: bool) returns (there: Status, back: Status)
    requires p <= e <= a.Length && WellFormed(a[p..e])
    modifies a
    ensures there == Finished && back == Finished
    ensures a[..] == old(a[..]) <==> !SomeLost(old(a[p..e]), x, little)
  {
    hide *;
    ghost var s := a[..];
    ghost var v := s[p..e];
    assert a[p..e] == v;
    PacketReturnsIff(v, x, little);
    there := MapPacket(a, p, e, Inbound(x), true, little);
    RawIsMapIn(s, p, e, Inbound(x), little);
    ghost var w := MapIn(v, Inbound(x));
    SpliceWindow(s, p, w);
    back := MapPacket(a, p, e, Outbound(OtherEnd(x)), false, little);
    RawIsMapOut(Splice(s, p, w), p, e, Outbound(OtherEnd(x)), little);
    BackInPlace(s, p, e, w, MapOut(w, Outbound(OtherEnd(x)), little).bytes);
    ReturnsIsBack(v, x, little);
  }

  lemma SpliceWindow(s: seq<byte>, p: nat, w: seq<byte>)
    requires p + |w| <= |s|
    ensures Splice(s, p, w)[p..p + |w|] == w
  {
  }

  lemma BackInPlace(s: seq<byte>, p: nat, e: nat, w: seq<byte>, u: seq<byte>)
    requires p <= e <= |s| && |w| == |u| == e - p
    ensures Splice(Splice(s, p, w), p, u) == s <==> u == s[p..e]
  {
    hide Splice;
    SpliceTwice(s, p, w, u);
    SpliceWindow(s, p, u);
    StopsUnchanged(s, p, e);
  }

  lemma ReturnsIsBack(v: seq<byte>, x: Association, little: bool)
    requires SafeIn(v) && SafeOut(MapIn(v, Inbound(x)), little)
    requires MapOut(MapIn(v, Inbound(x)), Outbound(OtherEnd(x)), little).ok
    ensures Returns(v, x, little) <==> MapOut(MapIn(v, Inbound(x)), Outbound(OtherEnd(x)), little).bytes == v
  {
    hide SafeIn, SafeOut, MapIn, MapOut, Inbound, Outbound;
  }
}
