/**
 Mapping SCTP packets in memory, byte for byte as the program does it: which fields of the
 buffer are rewritten, whether or not they belong to the item at hand.

 The program tests few lengths before it writes. Writes behind an item hit whatever follows
 it, possibly the header of the next item; writes behind the buffer are undefined and end
 the model with the status `Overrun`.
 */
module SctpRaw {
  import opened Bytes
  import opened Arithmetic
  import opened SctpMap
  import SctpIterator

  /** One store: a field that a difference is added to, or one that is overwritten. */
  datatype Write = AddTo(at: nat, d: u32) | Put(at: nat, v: u32)

  /** How a mapping ends: the walk is over, the packet is rejected, an assertion of an iterator
      fails, or memory behind the buffer is accessed. */
  datatype Status = Finished | Failed | Aborted | Overrun

  datatype Memory = Memory(bytes: seq<byte>, status: Status)

  function Store(s: seq<byte>, w: Write): (r: seq<byte>)
    requires w.at + 4 <= |s|
    ensures |r| == |s|
    ensures forall k :: 0 <= k < |s| && !(w.at <= k < w.at + 4) ==> r[k] == s[k]
  {
    match w
    case AddTo(at, d) => Shift(s, at, d)
    case Put(at, v) => Splice(s, at, Be32Bytes(v))
  }

  function Apply(s: seq<byte>, ws: seq<Write>): (r: Memory)
    ensures |r.bytes| == |s| && (r.status.Finished? || r.status.Overrun?)
    decreases |ws|
  {
    if ws == [] then Memory(s, Finished)
    else if ws[0].at + 4 > |s| then Memory(s, Overrun)
    else Apply(Store(s, ws[0]), ws[1..])
  }

  // ---------------------------------------------------------------- parameters

  function WriteIf(test: bool, w: Write): seq<Write> {
    if test then [w] else []
  }

  /** The stores for the parameter of a kind and length at p, inbound. */
  function ParamWritesIn(kind: u16, p: nat, n: nat, d: Diffs): seq<Write> {
    if kind == OUTGOING_SSN_RESET then
      WriteIf(n >= 8, AddTo(p + 4, d.remote)) + WriteIf(n >= 12, AddTo(p + 8, d.local)) +
      WriteIf(n >= 16, AddTo(p + 12, d.remote))
    else if IsRequest(kind) then WriteIf(n >= 8, AddTo(p + 4, d.remote))
    else if kind == RECONFIG_RESPONSE then
      [AddTo(p + 4, d.local)] + WriteIf(n >= 16, AddTo(p + 16, d.local)) + WriteIf(n >= 20, AddTo(p + 12, d.remote))
    else []
  }

  function ParamWritesOut(kind: u16, p: nat, n: nat, d: Diffs): seq<Write> {
    if kind == OUTGOING_SSN_RESET then [AddTo(p + 4, d.local), AddTo(p + 8, d.remote), AddTo(p + 12, d.local)]
    else if IsRequest(kind) then [AddTo(p + 4, d.local)]
    else if kind == RECONFIG_RESPONSE then
      [AddTo(p + 4, d.remote)] + WriteIf(n == 20, AddTo(p + 16, d.remote)) + WriteIf(n == 20, AddTo(p + 12, d.local))
    else []
  }

  /** The parameters from p to e. Inbound, an incomplete one ends the walk; outbound, it is an
      error. The stores of a parameter are made before its length is asserted. */
  function RawParams(s: seq<byte>, p: nat, e: nat, d: Diffs, inbound: bool): (r: Memory)
    requires p <= e
    ensures |r.bytes| == |s|
    decreases e - p
  {
    if p == e then Memory(s, Finished)
    else if p + 4 > e then Memory(s, if inbound then Finished else Failed)
    else if p + 4 > |s| then Memory(s, Overrun)
    else
      var n := Be16(s, p + 2);
      if p + n > e then Memory(s, if inbound then Finished else Failed)
      else
        var kind := Be16(s, p);
        var m := Apply(s, if inbound then ParamWritesIn(kind, p, n, d) else ParamWritesOut(kind, p, n, d));
        if !m.status.Finished? then m
        else if n < 4 then m.(status := Aborted)
        else RawParams(m.bytes, SctpIterator.After(p, n, e), e, d, inbound)
  }

  // ---------------------------------------------------------------- chunks

  /** The stores for n duplicate TSNs from an offset on. */
  function RunWrites(at: nat, n: nat, d: u32): (ws: seq<Write>)
    ensures |ws| == n
    ensures forall k :: 0 <= k < n ==> ws[k] == AddTo(at + 4 * k, d)
    decreases n
  {
    if n == 0 then [] else [AddTo(at, d)] + RunWrites(at + 4, n - 1, d)
  }

  function Field32(s: seq<byte>, at: nat): nat {
    if at + 4 <= |s| then Be32(s, at) else 0
  }

  /** The stores for the chunk at p, inbound, RE-CONFIG aside. */
  function ChunkWritesIn(s: seq<byte>, p: nat, n: nat, m: Mapping): seq<Write>
    requires p < |s|
  {
    var kind := s[p];
    if HasPlainTsn(kind) then
      WriteIf(n >= MinimumIn(kind), AddTo(p + 4, if CarriesOwnTsn(kind) then m.d.remote else m.d.local))
    else if IsInit(kind) then
      WriteIf(n >= 20, AddTo(p + 16, m.d.remote)) + WriteIf(n >= 20 && Field32(s, p + 4) == m.tagFrom, Put(p + 4, m.tagTo))
    else if IsSack(kind) && n >= SackHeader(kind) then
      [AddTo(p + 4, m.d.local)] +
      if Counted(s, p, n, kind)
      then RunWrites(DupStart(s, p, kind), DupCount(s, p, kind), m.d.local) else []
    else []
  }

  /** The stores for the chunk at p, outbound, RE-CONFIG aside. No length is tested. */
  function ChunkWritesOut(s: seq<byte>, p: nat, m: Mapping): seq<Write>
    requires p < |s|
  {
    var kind := s[p];
    if HasPlainTsn(kind) then [AddTo(p + 4, if CarriesOwnTsn(kind) then m.d.local else m.d.remote)]
    else if IsInit(kind) then
      [AddTo(p + 16, m.d.local)] + WriteIf(Field32(s, p + 4) == m.tagFrom, Put(p + 4, m.tagTo))
    else if IsSack(kind) then
      [AddTo(p + 4, m.d.remote)] + RunWrites(DupStart(s, p, kind), DupCount(s, p, kind), m.d.remote)
    else []
  }

  /** The counts that a SACK is mapped by lie in the buffer. */
  predicate CountsReadable(s: seq<byte>, p: nat)
    requires p < |s|
  {
    IsSack(s[p]) ==> p + SackHeader(s[p]) <= |s|
  }

  /** One turn of the loops over chunks. The length of the parameters is a 16-bit number. */
  function RawChunk(s: seq<byte>, p: nat, n: u16, m: Mapping, inbound: bool, little: bool): (r: Memory)
    requires p < |s|
    ensures |r.bytes| == |s|
  {
    if s[p] == RECONFIG then
      if (if inbound then n >= 8 else Raw(n, little) > 4)
      then RawParams(s, p + 4, p + 4 + (n as int - 4) % 0x1_0000, m.d, inbound)
      else Memory(s, Finished)
    else if inbound then Apply(s, ChunkWritesIn(s, p, n, m))
    else if !CountsReadable(s, p) then Memory(s, Overrun)
    else Apply(s, ChunkWritesOut(s, p, m))
  }

  /** map_inbound_sctp_packet and map_outbound_live_sctp_packet on the chunks from p to e. */
  function RawPacket(s: seq<byte>, p: nat, e: nat, m: Mapping, inbound: bool, little: bool): (r: Memory)
    requires p <= e <= |s|
    ensures |r.bytes| == |s|
    decreases e - p
  {
    if p == e then Memory(s, Finished)
    else if p + 4 > e || p + Be16(s, p + 2) > e then Memory(s, if inbound then Finished else Failed)
    else
      var n := Be16(s, p + 2);
      var c := RawChunk(s, p, n, m, inbound, little);
      if !c.status.Finished? then c
      else if n < 4 then c.(status := Aborted)
      else RawPacket(c.bytes, SctpIterator.After(p, n, e), e, m, inbound, little)
  }

  // ---------------------------------------------------------------- writes outside an item

  /** The bytes outside the n bytes at p are as they were. */
  ghost predicate Stays(s: seq<byte>, t: seq<byte>, p: nat, n: nat) {
    |s| == |t| && forall k :: 0 <= k < |s| && !(p <= k < p + n) ==> s[k] == t[k]
  }

  predicate AllInside(ws: seq<Write>, p: nat, n: nat) {
    forall i :: 0 <= i < |ws| ==> p <= ws[i].at && ws[i].at + 4 <= p + n
  }

  predicate AllFit(ws: seq<Write>, n: nat) {
    forall i :: 0 <= i < |ws| ==> ws[i].at + 4 <= n
  }

  predicate Disjoint(ws: seq<Write>) {
    forall i, j :: 0 <= i < j < |ws| ==> ws[i].at + 4 <= ws[j].at || ws[j].at + 4 <= ws[i].at
  }

  lemma {:induction false} InsideStays(s: seq<byte>, ws: seq<Write>, p: nat, n: nat)
    requires AllInside(ws, p, n)
    ensures Stays(s, Apply(s, ws).bytes, p, n)
    decreases |ws|
  {
    hide Store;
    if ws != [] && ws[0].at + 4 <= |s| {
      InsideStays(Store(s, ws[0]), ws[1..], p, n);
    }
  }

  /** Adding one changes the last byte of a field. */
  lemma LowByteChanges(s: seq<byte>, at: nat)
    requires at + 4 <= |s|
    ensures Shift(s, at, 1)[at + 3] != s[at + 3]
  {
    hide Be32Bytes;
    var v := Add(Be32(s, at), 1);
    var r := Shift(s, at, 1);
    FieldOf(s, at, v);
    LowByte(r, at);
    LowByte(s, at);
    NextParity(Be32(s, at));
  }

  lemma LowByte(s: seq<byte>, at: nat)
    requires at + 4 <= |s|
    ensures Be32(s, at) % 2 == s[at + 3] % 2
  {
  }

  lemma NextParity(x: u32)
    ensures Add(x, 1) % 2 != x % 2
  {
  }

  /** No store touches byte k. */
  predicate AllMiss(ws: seq<Write>, k: nat) {
    forall i :: 0 <= i < |ws| ==> !(ws[i].at <= k < ws[i].at + 4)
  }

  lemma {:induction false} ApplyElsewhere(s: seq<byte>, ws: seq<Write>, k: nat)
    requires AllFit(ws, |s|) && k < |s| && AllMiss(ws, k)
    ensures Apply(s, ws).status.Finished? && Apply(s, ws).bytes[k] == s[k]
    decreases |ws|
  {
    hide Store;
    if ws != [] { ApplyElsewhere(Store(s, ws[0]), ws[1..], k); }
  }

  lemma DisjointTail(ws: seq<Write>, n: nat, i: nat)
    requires ws != [] && AllFit(ws, n) && Disjoint(ws) && i < |ws|
    ensures AllFit(ws[1..], n) && Disjoint(ws[1..]) && ws[0].at + 4 <= n && ws[i].at + 4 <= n
    ensures i == 0 ==> AllMiss(ws[1..], ws[0].at + 3)
    ensures i > 0 ==> ws[1..][i - 1] == ws[i] && !(ws[0].at <= ws[i].at + 3 < ws[0].at + 4)
  {
    var t := ws[1..];
    assert forall k :: 0 <= k < |t| ==> t[k] == ws[k + 1];
  }

  lemma StoreOne(s: seq<byte>, w: Write)
    requires w.at + 4 <= |s| && w.AddTo? && w.d == 1
    ensures Store(s, w)[w.at + 3] != s[w.at + 3]
  {
    hide Shift;
    LowByteChanges(s, w.at);
  }

  /** Of several disjoint stores that add one, each changes the last byte of its field. */
  lemma {:induction false} EachChanges(s: seq<byte>, ws: seq<Write>, i: nat)
    requires AllFit(ws, |s|) && Disjoint(ws) && i < |ws| && ws[i].at + 4 <= |s| && ws[i].AddTo? && ws[i].d == 1
    ensures Apply(s, ws).bytes[ws[i].at + 3] != s[ws[i].at + 3]
    decreases |ws|
  {
    hide Store, AllFit, Disjoint, AllMiss;
    DisjointTail(ws, |s|, i);
    var t := Store(s, ws[0]);
    if i == 0 {
      StoreOne(s, ws[0]);
      ApplyElsewhere(t, ws[1..], ws[0].at + 3);
    } else {
      EachChanges(t, ws[1..], i - 1);
    }
  }

  lemma {:induction false} ApplyFits(s: seq<byte>, ws: seq<Write>)
    ensures Apply(s, ws).status.Finished? <==> AllFit(ws, |s|)
    decreases |ws|
  {
    hide Store;
    if ws != [] && ws[0].at + 4 <= |s| {
      ApplyFits(Store(s, ws[0]), ws[1..]);
      assert forall i :: 0 < i < |ws| ==> ws[i] == ws[1..][i - 1];
    }
  }

  /** No access is behind the buffer, and the bytes outside the n bytes at p are as they were. */
  ghost predicate Contained(s: seq<byte>, r: Memory, p: nat, n: nat) {
    r.status.Finished? && Stays(s, r.bytes, p, n)
  }

  /** Disjoint additions at p or behind. */
  predicate Regular(ws: seq<Write>, p: nat) {
    Disjoint(ws) && forall i :: 0 <= i < |ws| ==> ws[i].AddTo? && p <= ws[i].at
  }

  predicate ByOne(ws: seq<Write>) {
    forall i :: 0 <= i < |ws| ==> ws[i].AddTo? && ws[i].d == 1
  }

  lemma InsideContained(s: seq<byte>, ws: seq<Write>, p: nat, n: nat)
    requires p + n <= |s| && AllInside(ws, p, n)
    ensures Contained(s, Apply(s, ws), p, n)
  {
    hide Apply, Stays;
    ApplyFits(s, ws);
    InsideStays(s, ws, p, n);
  }

  /** Disjoint additions of one are contained in an item if and only if they are all inside. */
  lemma ContainedIffInside(s: seq<byte>, ws: seq<Write>, p: nat, n: nat)
    requires p + n <= |s| && Regular(ws, p) && ByOne(ws)
    ensures Contained(s, Apply(s, ws), p, n) <==> AllInside(ws, p, n)
  {
    hide Apply, Disjoint;
    ApplyFits(s, ws);
    if AllInside(ws, p, n) {
      InsideContained(s, ws, p, n);
    } else if AllFit(ws, |s|) {
      var i :| 0 <= i < |ws| && ws[i].at + 4 > p + n;
      EachChanges(s, ws, i);
    }
  }

  const BY_ONE: Diffs := Diffs(1, 1)

  /** The lengths at which a parameter of a kind is written inside only. */
  predicate LongIn(kind: u16, n: nat) {
    kind == RECONFIG_RESPONSE ==> n >= 20 || 8 <= n < 16
  }

  predicate LongOut(kind: u16, n: nat) {
    (kind == OUTGOING_SSN_RESET ==> n >= 16) && (IsRequest(kind) || kind == RECONFIG_RESPONSE ==> n >= 8)
  }

  lemma OutgoingWritesIn(p: nat, n: nat, d: Diffs)
    ensures var ws := ParamWritesIn(OUTGOING_SSN_RESET, p, n, d); Regular(ws, p) && (d == BY_ONE ==> ByOne(ws)) && AllInside(ws, p, n)
  {
    var ws := ParamWritesIn(OUTGOING_SSN_RESET, p, n, d);
    var x, y, z := AddTo(p + 4, d.remote), AddTo(p + 8, d.local), AddTo(p + 12, d.remote);
    assert ws == if n >= 16 then [x, y, z] else if n >= 12 then [x, y] else if n >= 8 then [x] else [];
  }

  lemma ResponseWritesIn(p: nat, n: nat, d: Diffs)
    ensures var ws := ParamWritesIn(RECONFIG_RESPONSE, p, n, d);
            Regular(ws, p) && (d == BY_ONE ==> ByOne(ws)) && (AllInside(ws, p, n) <==> n >= 20 || 8 <= n < 16)
  {
    var ws := ParamWritesIn(RECONFIG_RESPONSE, p, n, d);
    var x, y, z := AddTo(p + 4, d.local), AddTo(p + 16, d.local), AddTo(p + 12, d.remote);
    assert ws == if n >= 20 then [x, y, z] else if n >= 16 then [x, y] else [x];
    assert ws[0].at == p + 4;
    if n >= 16 { assert ws[1].at == p + 16; }
  }

  lemma ParamWritesInAre(kind: u16, p: nat, n: nat, d: Diffs)
    ensures var ws := ParamWritesIn(kind, p, n, d); Regular(ws, p) && (d == BY_ONE ==> ByOne(ws)) && (AllInside(ws, p, n) <==> LongIn(kind, n))
  {
    if kind == OUTGOING_SSN_RESET { OutgoingWritesIn(p, n, d); }
    else if kind == RECONFIG_RESPONSE { ResponseWritesIn(p, n, d); }
  }

  lemma ResponseWritesOut(p: nat, n: nat, d: Diffs)
    ensures var ws := ParamWritesOut(RECONFIG_RESPONSE, p, n, d); Regular(ws, p) && (d == BY_ONE ==> ByOne(ws)) && (AllInside(ws, p, n) <==> n >= 8)
  {
    var ws := ParamWritesOut(RECONFIG_RESPONSE, p, n, d);
    var x, y, z := AddTo(p + 4, d.remote), AddTo(p + 16, d.remote), AddTo(p + 12, d.local);
    assert ws == if n == 20 then [x, y, z] else [x];
    assert ws[0].at == p + 4;
  }

  lemma ParamWritesOutAre(kind: u16, p: nat, n: nat, d: Diffs)
    ensures var ws := ParamWritesOut(kind, p, n, d); Regular(ws, p) && (d == BY_ONE ==> ByOne(ws)) && (AllInside(ws, p, n) <==> LongOut(kind, n))
  {
    if kind == RECONFIG_RESPONSE {
      ResponseWritesOut(p, n, d);
    } else {
      var ws := ParamWritesOut(kind, p, n, d);
      if kind == OUTGOING_SSN_RESET { assert ws[2].at == p + 12; }
      if IsRequest(kind) { assert ws[0].at == p + 4; }
    }
  }

  lemma SafetyIsLength(s: seq<byte>, p: nat, n: nat)
    requires 4 <= n && p + n <= |s|
    ensures ParamSafeIn(s[p..p + n]) <==> LongIn(Be16(s, p), n)
    ensures ParamSafeOut(s[p..p + n]) <==> LongOut(Be16(s, p), n)
  {
    Be16Moved(s, p);
    Be16Moved(s[p..p + n], 0);
    assert s[p..p + n][0..2] == s[p..p + 2];
    hide Be16;
  }

  /** Inbound, mapping the parameter at p touches nothing outside it, in the buffer or behind the
      buffer, for all differences, if and only if it is not a response of less than eight or of
      sixteen to nineteen bytes. This is the length that SctpMap asks of a parameter. */
  lemma InboundParamStaysIff(s: seq<byte>, p: nat, n: nat)
    requires p + 4 <= |s| && p + n <= |s|
    ensures (forall d :: Contained(s, Apply(s, ParamWritesIn(Be16(s, p), p, n, d)), p, n)) <==> LongIn(Be16(s, p), n)
    ensures n >= 4 ==> (ParamSafeIn(s[p..p + n]) <==> LongIn(Be16(s, p), n))
  {
    hide Apply, Contained, Be16, ParamWritesIn, Regular, ByOne, ParamSafeIn, LongIn, AllInside;
    var kind := Be16(s, p);
    if n >= 4 { SafetyIsLength(s, p, n); }
    ParamWritesInAre(kind, p, n, BY_ONE);
    ContainedIffInside(s, ParamWritesIn(kind, p, n, BY_ONE), p, n);
    if LongIn(kind, n) {
      forall d
        ensures Contained(s, Apply(s, ParamWritesIn(kind, p, n, d)), p, n)
      {
        ParamWritesInAre(kind, p, n, d);
        InsideContained(s, ParamWritesIn(kind, p, n, d), p, n);
      }
    }
  }

  /** Outbound, if and only if the parameter is long enough for the fields of its kind. */
  lemma OutboundParamStaysIff(s: seq<byte>, p: nat, n: nat)
    requires p + 4 <= |s| && p + n <= |s|
    ensures (forall d :: Contained(s, Apply(s, ParamWritesOut(Be16(s, p), p, n, d)), p, n)) <==> LongOut(Be16(s, p), n)
    ensures n >= 4 ==> (ParamSafeOut(s[p..p + n]) <==> LongOut(Be16(s, p), n))
  {
    hide Apply, Contained, Be16, ParamWritesOut, Regular, ByOne, ParamSafeOut, LongOut, AllInside;
    var kind := Be16(s, p);
    if n >= 4 { SafetyIsLength(s, p, n); }
    ParamWritesOutAre(kind, p, n, BY_ONE);
    ContainedIffInside(s, ParamWritesOut(kind, p, n, BY_ONE), p, n);
    if LongOut(kind, n) {
      forall d
        ensures Contained(s, Apply(s, ParamWritesOut(kind, p, n, d)), p, n)
      {
        ParamWritesOutAre(kind, p, n, d);
        InsideContained(s, ParamWritesOut(kind, p, n, d), p, n);
      }
    }
  }

  // ---------------------------------------------------------------- chunks

  /** An inbound chunk is written inside only: NR-SACK indexes its duplicates behind the NR gap
      blocks, which its length test does not count. */
  predicate ChunkInsideIn(s: seq<byte>, p: nat, n: nat)
    requires p < |s|
  {
    s[p] == NR_SACK && n >= 20 && n == 20 + 4 * (DupCount(s, p, NR_SACK) + Field16(s, p + 12)) && DupCount(s, p, NR_SACK) > 0
    ==> (Field16(s, p + 12) + Field16(s, p + 14)) % 0x1_0000 <= Field16(s, p + 12)
  }

  /** An outbound chunk is written inside only: it is long enough for the fields of its kind. */
  predicate ChunkInsideOut(s: seq<byte>, p: nat, n: nat)
    requires p < |s|
  {
    && (HasPlainTsn(s[p]) ==> n >= 8)
    && (IsInit(s[p]) ==> n >= 20)
    && (IsSack(s[p]) ==> n >= 8 && (DupCount(s, p, s[p]) > 0 ==> DupStart(s, p, s[p]) + 4 * DupCount(s, p, s[p]) <= p + n))
  }

  /** The TSN field and a run of duplicates behind it. */
  lemma RunIsRegular(p: nat, at: nat, n: nat, d: u32)
    requires p + 8 <= at
    ensures var ws := [AddTo(p + 4, d)] + RunWrites(at, n, d); Regular(ws, p) && (d == 1 ==> ByOne(ws))
  {
    var ws := [AddTo(p + 4, d)] + RunWrites(at, n, d);
    assert forall i :: 0 < i < |ws| ==> ws[i] == AddTo(at + 4 * (i - 1), d);
  }

  lemma RunInside(p: nat, n: nat, at: nat, count: nat, d: u32)
    requires p + 8 <= at
    ensures AllInside([AddTo(p + 4, d)] + RunWrites(at, count, d), p, n) <==> n >= 8 && (count > 0 ==> at + 4 * count <= p + n)
  {
    var ws := [AddTo(p + 4, d)] + RunWrites(at, count, d);
    assert forall i :: 0 < i < |ws| ==> ws[i] == AddTo(at + 4 * (i - 1), d);
    assert ws[0].at == p + 4;
    if count > 0 { assert ws[count].at == at + 4 * (count - 1); }
  }

  lemma DupsBehind(s: seq<byte>, p: nat, kind: byte)
    ensures DupStart(s, p, kind) >= p + 16
  {
  }

  lemma ChunkWritesOutInside(s: seq<byte>, p: nat, n: nat, m: Mapping)
    requires p < |s| && s[p] != RECONFIG && (ChunkInsideOut(s, p, n) || m.tagFrom != Field32(s, p + 4))
    ensures AllInside(ChunkWritesOut(s, p, m), p, n) <==> ChunkInsideOut(s, p, n)
  {
    hide RunWrites, DupStart, DupCount, Field32, CarriesOwnTsn;
    var kind, ws := s[p], ChunkWritesOut(s, p, m);
    if IsSack(kind) {
      DupsBehind(s, p, kind);
      RunInside(p, n, DupStart(s, p, kind), DupCount(s, p, kind), m.d.remote);
    } else if IsInit(kind) {
      assert ws[0].at == p + 16;
    } else if HasPlainTsn(kind) {
      assert ws[0].at == p + 4;
    }
  }

  lemma ChunkWritesOutRegular(s: seq<byte>, p: nat, m: Mapping)
    requires p < |s| && m.d == BY_ONE && m.tagFrom != Field32(s, p + 4)
    ensures var ws := ChunkWritesOut(s, p, m); Regular(ws, p) && ByOne(ws)
  {
    hide RunWrites, DupStart, DupCount, Field32, CarriesOwnTsn;
    var kind := s[p];
    if IsSack(kind) {
      DupsBehind(s, p, kind);
      RunIsRegular(p, DupStart(s, p, kind), DupCount(s, p, kind), 1);
    }
  }

  /** A tag that is not at p. */
  function OtherTag(s: seq<byte>, p: nat): u32 {
    if Field32(s, p + 4) == 0 then 1 else 0
  }

  lemma PlainChunkOut(s: seq<byte>, p: nat, n: u16, m: Mapping, little: bool)
    requires p < |s| && s[p] != RECONFIG
    ensures RawChunk(s, p, n, m, false, little) ==
              if CountsReadable(s, p) then Apply(s, ChunkWritesOut(s, p, m)) else Memory(s, Overrun)
  {
    hide Apply, ChunkWritesOut, CountsReadable;
  }

  lemma PlainChunkIn(s: seq<byte>, p: nat, n: u16, m: Mapping, little: bool)
    requires p < |s| && s[p] != RECONFIG
    ensures RawChunk(s, p, n, m, true, little) == Apply(s, ChunkWritesIn(s, p, n, m))
  {
    hide Apply, ChunkWritesIn;
  }

  /** Outbound, mapping a chunk other than RE-CONFIG touches nothing outside it, in the buffer or
      behind the buffer, for all differences and tags, if and only if the chunk is long enough
      for the fields of its kind, all duplicates of a SACK included, and the counts of a SACK
      are in the buffer. */
  lemma OutboundChunkStaysIff(s: seq<byte>, p: nat, n: u16, little: bool)
    requires p < |s| && s[p] != RECONFIG && p + n <= |s|
    ensures (forall m :: Contained(s, RawChunk(s, p, n, m, false, little), p, n)) <==>
            CountsReadable(s, p) && ChunkInsideOut(s, p, n)
  {
    hide Apply, Stays, ChunkWritesOut, Regular, ByOne, ChunkInsideOut, AllInside, Field32, RawChunk, CountsReadable;
    var one := Mapping(BY_ONE, OtherTag(s, p), 0);
    OtherTagIs(s, p);
    PlainChunkOut(s, p, n, one, little);
    ChunkWritesOutRegular(s, p, one);
    ChunkWritesOutInside(s, p, n, one);
    ContainedIffInside(s, ChunkWritesOut(s, p, one), p, n);
    if CountsReadable(s, p) && ChunkInsideOut(s, p, n) {
      forall m
        ensures Contained(s, RawChunk(s, p, n, m, false, little), p, n)
      {
        PlainChunkOut(s, p, n, m, little);
        ChunkWritesOutInside(s, p, n, m);
        InsideContained(s, ChunkWritesOut(s, p, m), p, n);
      }
    }
  }

  lemma OtherTagIs(s: seq<byte>, p: nat)
    ensures OtherTag(s, p) != Field32(s, p + 4)
  {
  }

  lemma ChunkWritesInInside(s: seq<byte>, p: nat, n: nat, m: Mapping)
    requires p < |s| && s[p] != RECONFIG
    ensures AllInside(ChunkWritesIn(s, p, n, m), p, n) <==> ChunkInsideIn(s, p, n)
  {
    hide RunWrites, Field32, CarriesOwnTsn, Field16;
    var kind := s[p];
    if IsSack(kind) && n >= SackHeader(kind) {
      RunInside(p, n, DupStart(s, p, kind), DupCount(s, p, kind), m.d.local);
      assert ChunkWritesIn(s, p, n, m) == [AddTo(p + 4, m.d.local)] +
        if Counted(s, p, n, kind)
        then RunWrites(DupStart(s, p, kind), DupCount(s, p, kind), m.d.local) else [];
    }
  }

  lemma ChunkWritesInRegular(s: seq<byte>, p: nat, n: nat, m: Mapping)
    requires p < |s| && m.d == BY_ONE && m.tagFrom != Field32(s, p + 4)
    ensures var ws := ChunkWritesIn(s, p, n, m); Regular(ws, p) && ByOne(ws)
  {
    hide RunWrites, DupStart, DupCount, Field32, Field16, CarriesOwnTsn;
    var kind := s[p];
    if IsSack(kind) {
      DupsBehind(s, p, kind);
      RunIsRegular(p, DupStart(s, p, kind), DupCount(s, p, kind), 1);
    }
  }

  /** Inbound, if and only if the chunk is not an NR-SACK whose length leaves out the NR gap
      blocks behind which its duplicates are looked for. */
  lemma InboundChunkStaysIff(s: seq<byte>, p: nat, n: u16, little: bool)
    requires p < |s| && s[p] != RECONFIG && p + n <= |s|
    ensures (forall m :: Contained(s, RawChunk(s, p, n, m, true, little), p, n)) <==> ChunkInsideIn(s, p, n)
  {
    hide Apply, Stays, ChunkWritesIn, Regular, ByOne, ChunkInsideIn, AllInside, Field32, RawChunk;
    var one := Mapping(BY_ONE, OtherTag(s, p), 0);
    OtherTagIs(s, p);
    PlainChunkIn(s, p, n, one, little);
    ChunkWritesInRegular(s, p, n, one);
    ChunkWritesInInside(s, p, n, one);
    ContainedIffInside(s, ChunkWritesIn(s, p, n, one), p, n);
    if ChunkInsideIn(s, p, n) {
      forall m
        ensures Contained(s, RawChunk(s, p, n, m, true, little), p, n)
      {
        PlainChunkIn(s, p, n, m, little);
        ChunkWritesInInside(s, p, n, m);
        InsideContained(s, ChunkWritesIn(s, p, n, m), p, n);
      }
    }
  }

  // ---------------------------------------------------------------- inputs that are written past

  /** A response of 16 bytes followed by an add-streams request: mapping the response inbound
      by one turns the length of the request from 12 into 13. */
  function ShortResponse(): (s: seq<byte>)
    ensures |s| == 28
  {
    [0, 0x10, 0, 16] + Zeros(12) + [0, 0x11, 0, 12] + Zeros(8)
  }

  lemma ShortResponseSpills()
    ensures var s := ShortResponse();
            var t := Apply(s, ParamWritesIn(Be16(s, 0), 0, Be16(s, 2), BY_ONE));
            t.status.Finished? && Be16(s, 18) == 12 && t.bytes[19] != s[19] && !Stays(s, t.bytes, 0, Be16(s, 2))
  {
    var s := ShortResponse();
    assert Be16(s, 0) == RECONFIG_RESPONSE && Be16(s, 2) == 16 && Be16(s, 18) == 12;
    var ws := ParamWritesIn(RECONFIG_RESPONSE, 0, 16, BY_ONE);
    assert ws == [AddTo(4, 1), AddTo(16, 1)];
    hide Apply, ShortResponse;
    EachChanges(s, ws, 1);
    ApplyFits(s, ws);
  }

  /** The same response as the last bytes of the buffer is written behind the buffer, whatever
      the differences. */
  lemma LastResponseOverruns(d: Diffs)
    ensures var s := ShortResponse()[..16];
            Apply(s, ParamWritesIn(Be16(s, 0), 0, Be16(s, 2), d)).status.Overrun?
  {
    var s := ShortResponse()[..16];
    assert Be16(s, 0) == RECONFIG_RESPONSE && Be16(s, 2) == 16;
    var ws := ParamWritesIn(RECONFIG_RESPONSE, 0, 16, d);
    assert ws[1] == AddTo(16, d.local);
    hide Apply, ShortResponse;
    ApplyFits(s, ws);
  }

  /** An outbound request of four bytes followed by another parameter, whose type and length are
      taken for the sequence number. */
  function ShortRequest(): (s: seq<byte>)
    ensures |s| == 8
  {
    [0, 0x11, 0, 4] + [0, 0x12, 0, 4]
  }

  lemma ShortRequestSpills()
    ensures var s := ShortRequest();
            var t := Apply(s, ParamWritesOut(Be16(s, 0), 0, Be16(s, 2), BY_ONE));
            t.status.Finished? && t.bytes[7] != s[7] && !Stays(s, t.bytes, 0, Be16(s, 2))
  {
    var s := ShortRequest();
    assert Be16(s, 0) == ADD_OUTGOING_STREAMS && Be16(s, 2) == 4;
    var ws := ParamWritesOut(ADD_OUTGOING_STREAMS, 0, 4, BY_ONE);
    assert ws == [AddTo(4, 1)];
    hide Apply, ShortRequest;
    EachChanges(s, ws, 0);
    ApplyFits(s, ws);
  }

  /** An outbound SACK without duplicates in its 16 bytes that announces one: the header of the
      chunk behind it is taken for a TSN. */
  function ShortSack(): (s: seq<byte>)
    ensures |s| == 20
  {
    [SACK, 0, 0, 16] + Zeros(8) + [0, 0, 0, 1] + [SHUTDOWN, 0, 0, 8]
  }

  lemma ShortSackSpills(little: bool)
    ensures var s := ShortSack();
            var t := RawChunk(s, 0, 16, Mapping(BY_ONE, 1, 1), false, little);
            t.status.Finished? && t.bytes[19] != s[19] && !Stays(s, t.bytes, 0, 16)
  {
    var s, m := ShortSack(), Mapping(BY_ONE, 1, 1);
    assert s[0] == SACK && Be16(s, 12) == 0 && Be16(s, 14) == 1;
    var ws := ChunkWritesOut(s, 0, m);
    assert ws == [AddTo(4, 1), AddTo(16, 1)];
    PlainChunkOut(s, 0, 16, m, little);
    hide Apply, ShortSack, RawChunk;
    EachChanges(s, ws, 1);
    ApplyFits(s, ws);
  }

  /** A SACK of eight bytes at the end of the buffer: its counts are read behind the buffer. */
  lemma LastSackOverruns(m: Mapping, little: bool)
    ensures var s: seq<byte> := [SACK, 0, 0, 8] + Zeros(4);
            ChunkInsideOut(s, 0, 8) && RawChunk(s, 0, 8, m, false, little).status.Overrun?
  {
    var s: seq<byte> := [SACK, 0, 0, 8] + Zeros(4);
    assert s[0] == SACK;
    PlainChunkOut(s, 0, 8, m, little);
    hide RawChunk, Apply;
  }

  /** An inbound NR-SACK with one NR gap block and one duplicate, and the length that the test
      asks for: the duplicate is looked for behind the chunk. */
  function NrSack(): (s: seq<byte>)
    ensures |s| == 28
  {
    [NR_SACK, 0, 0, 24] + Zeros(8) + [0, 0, 0, 1, 0, 1, 0, 0] + Zeros(4) + [SHUTDOWN, 0, 0, 8]
  }

  lemma NrSackSpills(little: bool)
    ensures var s := NrSack();
            var t := RawChunk(s, 0, 24, Mapping(BY_ONE, 1, 1), true, little);
            t.status.Finished? && t.bytes[27] != s[27] && !Stays(s, t.bytes, 0, 24)
  {
    var s, m := NrSack(), Mapping(BY_ONE, 1, 1);
    assert s[0] == NR_SACK && Be16(s, 12) == 0 && Be16(s, 14) == 1 && Be16(s, 16) == 1;
    var ws := ChunkWritesIn(s, 0, 24, m);
    assert ws == [AddTo(4, 1), AddTo(24, 1)];
    PlainChunkIn(s, 0, 24, m, little);
    hide Apply, NrSack, RawChunk;
    EachChanges(s, ws, 1);
    ApplyFits(s, ws);
  }
}
