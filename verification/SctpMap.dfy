/**
 Mapping the TSNs of SCTP packets between the numbers of the script and those of the live
 connection, modulo 2^32.

 A packet is the list of its chunks, as bytes. Chunks and the parameters of RE-CONFIG chunks
 are walked as the iterators walk them.
 */
module SctpMap {
  import opened Bytes
  import opened Arithmetic
  import SctpIterator

  const DATA: byte := 0x00
  const INIT: byte := 0x01
  const INIT_ACK: byte := 0x02
  const SACK: byte := 0x03
  const SHUTDOWN: byte := 0x07
  const ECNE: byte := 0x0c
  const CWR: byte := 0x0d
  const NR_SACK: byte := 0x10
  const I_DATA: byte := 0x40
  const RECONFIG: byte := 0x82
  const FORWARD_TSN: byte := 0xc0
  const I_FORWARD_TSN: byte := 0xc2

  const OUTGOING_SSN_RESET: u16 := 0x000d
  const INCOMING_SSN_RESET: u16 := 0x000e
  const SSN_TSN_RESET: u16 := 0x000f
  const RECONFIG_RESPONSE: u16 := 0x0010
  const ADD_OUTGOING_STREAMS: u16 := 0x0011
  const ADD_INCOMING_STREAMS: u16 := 0x0012

  /** The initial TSNs, or the initiate tags, that a socket records. */
  datatype Numbers = Numbers(scriptLocal: u32, scriptRemote: u32, liveLocal: u32, liveRemote: u32)

  /** The same connection seen from the other end. */
  function Swap(t: Numbers): Numbers {
    Numbers(t.scriptRemote, t.scriptLocal, t.liveRemote, t.liveLocal)
  }

  /** The two differences that a mapping adds to TSNs. */
  datatype Diffs = Diffs(local: u32, remote: u32)

  function DiffsIn(t: Numbers): Diffs {
    Diffs(Sub(t.liveLocal, t.scriptLocal), Sub(t.liveRemote, t.scriptRemote))
  }

  function DiffsOut(t: Numbers): Diffs {
    Diffs(Sub(t.scriptLocal, t.liveLocal), Sub(t.scriptRemote, t.liveRemote))
  }

  /** What a socket records of an association. */
  datatype Association = Association(tsn: Numbers, tag: Numbers)

  function OtherEnd(x: Association): Association {
    Association(Swap(x.tsn), Swap(x.tag))
  }

  /** The differences, and the initiate tag that is replaced. */
  datatype Mapping = Mapping(d: Diffs, tagFrom: u32, tagTo: u32)

  function Inbound(x: Association): Mapping {
    Mapping(DiffsIn(x.tsn), x.tag.scriptLocal, x.tag.liveLocal)
  }

  function Outbound(x: Association): Mapping {
    Mapping(DiffsOut(x.tsn), x.tag.liveLocal, x.tag.scriptLocal)
  }

  // ---------------------------------------------------------------- fields

  /** Add d to the 32-bit field at an offset. */
  function Shift(w: seq<byte>, at: nat, d: u32): (r: seq<byte>)
    requires at + 4 <= |w|
    ensures |r| == |w|
    ensures forall k :: 0 <= k < |w| && !(at <= k < at + 4) ==> r[k] == w[k]
  {
    Splice(w, at, Be32Bytes(Add(Be32(w, at), d)))
  }

  /** Add d to each of the n 32-bit fields from an offset on. */
  function ShiftRun(w: seq<byte>, at: nat, n: nat, d: u32): (r: seq<byte>)
    requires n == 0 || at + 4 * n <= |w|
    ensures |r| == |w|
    ensures forall k :: 0 <= k < |w| && !(at <= k < at + 4 * n) ==> r[k] == w[k]
    decreases n
  {
    if n == 0 then w else ShiftRun(Shift(w, at, d), at + 4, n - 1, d)
  }

  lemma ShiftBack(w: seq<byte>, at: nat, a: u32, b: u32)
    requires at + 4 <= |w|
    ensures Shift(Shift(w, at, Sub(a, b)), at, Sub(b, a)) == w
  {
    var d, e := Sub(a, b), Sub(b, a);
    var v := Be32Bytes(Add(Be32(w, at), d));
    FieldOf(w, at, Add(Be32(w, at), d));
    AddBack(Be32(w, at), a, b);
    SpliceTwice(w, at, v, Be32Bytes(Be32(w, at)));
    Be32OfBytes(w, at);
  }

  lemma FieldOf(w: seq<byte>, at: nat, f: u32)
    requires at + 4 <= |w|
    ensures Be32(Splice(w, at, Be32Bytes(f)), at) == f
  {
    hide Be32Bytes;
    var r := Splice(w, at, Be32Bytes(f));
    assert r[at..at + 4] == Be32Bytes(f);
    assert Be32(r, at) == Be32(r[at..at + 4], 0);
  }

  /** Fields that do not overlap can be shifted in any order. */
  lemma ShiftCommutes(w: seq<byte>, i: nat, a: u32, j: nat, b: u32)
    requires i + 4 <= |w| && j + 4 <= |w| && (i + 4 <= j || j + 4 <= i)
    ensures Shift(Shift(w, i, a), j, b) == Shift(Shift(w, j, b), i, a)
  {
    hide Add;
    assert Be32(Shift(w, i, a), j) == Be32(w, j);
    assert Be32(Shift(w, j, b), i) == Be32(w, i);
  }

  lemma {:induction false} RunCommutes(w: seq<byte>, i: nat, a: u32, at: nat, n: nat, b: u32)
    requires i + 4 <= at && at + 4 * n <= |w|
    ensures ShiftRun(Shift(w, i, a), at, n, b) == Shift(ShiftRun(w, at, n, b), i, a)
    decreases n
  {
    hide Shift;
    if n > 0 {
      ShiftCommutes(w, i, a, at, b);
      RunCommutes(Shift(w, at, b), i, a, at + 4, n - 1, b);
    }
  }

  lemma {:induction false} RunBack(w: seq<byte>, at: nat, n: nat, a: u32, b: u32)
    requires at + 4 * n <= |w|
    ensures ShiftRun(ShiftRun(w, at, n, Sub(a, b)), at, n, Sub(b, a)) == w
    decreases n
  {
    hide Shift, Sub;
    if n > 0 {
      var d, e := Sub(a, b), Sub(b, a);
      var v := Shift(w, at, d);
      RunCommutes(v, at, e, at + 4, n - 1, d);
      ShiftBack(w, at, a, b);
      RunBack(w, at + 4, n - 1, a, b);
    }
  }

  // ---------------------------------------------------------------- walking

  /** The length field of the item that s starts with. */
  function Length(s: seq<byte>): u16
    requires |s| >= 4
  {
    Be16(s, 2)
  }

  /** The walk finds no complete item at the start of s. */
  predicate Stops(s: seq<byte>) {
    |s| < 4 || Length(s) > |s|
  }

  /** What the next function of an iterator asserts of the item. */
  predicate Whole(s: seq<byte>) {
    |s| >= 4 && 4 <= Length(s) <= |s|
  }

  /** Where the walk goes on. */
  function Next(s: seq<byte>): (n: nat)
    requires Whole(s)
    ensures Length(s) <= n <= |s| && n >= 4
  {
    SctpIterator.After(0, Length(s), |s|)
  }

  /** A buffer after an outbound mapping, and whether the mapping succeeded. */
  datatype Mapped = Mapped(bytes: seq<byte>, ok: bool)

  // ---------------------------------------------------------------- parameters of RE-CONFIG

  predicate IsRequest(kind: u16) {
    kind == INCOMING_SSN_RESET || kind == SSN_TSN_RESET || kind == ADD_OUTGOING_STREAMS || kind == ADD_INCOMING_STREAMS
  }

  /** The mapping of a response writes without looking whether the fields are there. */
  predicate ParamSafeIn(w: seq<byte>) {
    |w| >= 4 && (Be16(w, 0) == RECONFIG_RESPONSE ==> |w| >= 20 || 8 <= |w| < 16)
  }

  function ShiftIf(w: seq<byte>, minimum: nat, at: nat, d: u32): (r: seq<byte>)
    requires at + 4 <= minimum
    ensures |r| == |w|
    ensures forall k :: 0 <= k < |w| && !(at <= k < at + 4) ==> r[k] == w[k]
  {
    if |w| >= minimum then Shift(w, at, d) else w
  }

  function ParamIn(w: seq<byte>, d: Diffs): (r: seq<byte>)
    requires ParamSafeIn(w)
    ensures |r| == |w| && r[..4] == w[..4]
  {
    var kind := Be16(w, 0);
    if kind == OUTGOING_SSN_RESET then
      ShiftIf(ShiftIf(ShiftIf(w, 8, 4, d.remote), 12, 8, d.local), 16, 12, d.remote)
    else if IsRequest(kind) then ShiftIf(w, 8, 4, d.remote)
    else if kind == RECONFIG_RESPONSE then
      var x := Shift(w, 4, d.local);
      if |w| >= 20 then Shift(Shift(x, 16, d.local), 12, d.remote) else x
    else w
  }

  predicate ParamSafeOut(w: seq<byte>) {
    && |w| >= 4
    && (Be16(w, 0) == OUTGOING_SSN_RESET ==> |w| >= 16)
    && (IsRequest(Be16(w, 0)) || Be16(w, 0) == RECONFIG_RESPONSE ==> |w| >= 8)
  }

  function ParamOut(w: seq<byte>, d: Diffs): (r: seq<byte>)
    requires ParamSafeOut(w)
    ensures |r| == |w| && r[..4] == w[..4]
  {
    var kind := Be16(w, 0);
    if kind == OUTGOING_SSN_RESET then Shift(Shift(Shift(w, 4, d.local), 8, d.remote), 12, d.local)
    else if IsRequest(kind) then Shift(w, 4, d.local)
    else if kind == RECONFIG_RESPONSE then
      var x := Shift(w, 4, d.remote);
      if |w| == 20 then Shift(Shift(x, 16, d.remote), 12, d.local) else x
    else w
  }

  predicate ParamsSafeIn(v: seq<byte>) {
    Stops(v) || (Whole(v) && ParamSafeIn(v[..Length(v)]) && ParamsSafeIn(v[Next(v)..]))
  }

  /** Inbound, an incomplete parameter ends the walk. */
  function ParamsIn(v: seq<byte>, d: Diffs): (r: seq<byte>)
    requires ParamsSafeIn(v)
    ensures |r| == |v|
  {
    if Stops(v) then v
    else ParamIn(v[..Length(v)], d) + v[Length(v)..Next(v)] + ParamsIn(v[Next(v)..], d)
  }

  predicate ParamsSafeOut(v: seq<byte>) {
    Stops(v) || (Whole(v) && ParamSafeOut(v[..Length(v)]) && ParamsSafeOut(v[Next(v)..]))
  }

  /** Outbound, an incomplete parameter is an error. */
  function ParamsOut(v: seq<byte>, d: Diffs): (r: Mapped)
    requires ParamsSafeOut(v)
    ensures |r.bytes| == |v|
  {
    if v == [] then Mapped(v, true)
    else if Stops(v) then Mapped(v, false)
    else
      var rest := ParamsOut(v[Next(v)..], d);
      Mapped(ParamOut(v[..Length(v)], d) + v[Length(v)..Next(v)] + rest.bytes, rest.ok)
  }

  /** Parameters as RFC 6525 defines them. */
  predicate ParamOk(w: seq<byte>) {
    && |w| >= 4
    && (Be16(w, 0) == OUTGOING_SSN_RESET ==> |w| >= 16)
    && (IsRequest(Be16(w, 0)) ==> |w| >= 8)
    && (Be16(w, 0) == RECONFIG_RESPONSE ==> |w| == 12 || |w| == 20)
  }

  predicate ParamsOk(v: seq<byte>) {
    v == [] || (Whole(v) && ParamOk(v[..Length(v)]) && ParamsOk(v[Next(v)..]))
  }

  // ---------------------------------------------------------------- chunks

  /** The TSNs of the sender, which is the remote end of an inbound packet. */
  predicate CarriesOwnTsn(kind: byte) {
    kind == DATA || kind == INIT || kind == INIT_ACK || kind == I_DATA || kind == FORWARD_TSN || kind == I_FORWARD_TSN
  }

  /** The TSNs of the receiver, which the packet acknowledges or reports. */
  predicate CarriesPeerTsn(kind: byte) {
    kind == SACK || kind == NR_SACK || kind == SHUTDOWN || kind == ECNE || kind == CWR
  }

  predicate IsSack(kind: byte) { kind == SACK || kind == NR_SACK }

  predicate IsInit(kind: byte) { kind == INIT || kind == INIT_ACK }

  /** One TSN behind the header, and no other number. */
  predicate HasPlainTsn(kind: byte) {
    kind == DATA || kind == I_DATA || kind == FORWARD_TSN || kind == I_FORWARD_TSN ||
    kind == SHUTDOWN || kind == ECNE || kind == CWR
  }

  /** The end of the header that an inbound chunk must have before its TSN is mapped. */
  function MinimumIn(kind: byte): nat {
    if kind == DATA then 16 else if kind == I_DATA then 20 else 8
  }

  function Field16(s: seq<byte>, at: nat): nat {
    if at + 2 <= |s| then Be16(s, at) else 0
  }

  function SackHeader(kind: byte): nat {
    if kind == SACK then 16 else 20
  }

  /** Where the duplicate TSNs of a SACK or NR-SACK at p start, as the program computes it, and
      how many there are. */
  function DupStart(s: seq<byte>, p: nat, kind: byte): nat {
    if kind == SACK then p + 16 + 4 * Field16(s, p + 12)
    else p + 20 + 4 * ((Field16(s, p + 12) + Field16(s, p + 14)) % 0x1_0000)
  }

  function DupCount(s: seq<byte>, p: nat, kind: byte): nat {
    Field16(s, if kind == SACK then p + 14 else p + 16)
  }

  /** The test of the inbound mapping before it maps the duplicates of a chunk at p. For an
      NR-SACK it leaves out the NR gap blocks. */
  predicate Counted(s: seq<byte>, p: nat, n: nat, kind: byte) {
    n == SackHeader(kind) + 4 * (DupCount(s, p, kind) + Field16(s, p + 12))
  }

  /** The duplicates lie in the chunk. */
  predicate DuplicatesFit(c: seq<byte>)
    requires |c| >= 4
  {
    DupCount(c, 0, c[0]) == 0 || DupStart(c, 0, c[0]) + 4 * DupCount(c, 0, c[0]) <= |c|
  }

  function ShiftDuplicates(w: seq<byte>, c: seq<byte>, d: u32): (r: seq<byte>)
    requires |w| == |c| >= 4 && DuplicatesFit(c)
    ensures |r| == |c|
  {
    ShiftRun(w, DupStart(c, 0, c[0]), DupCount(c, 0, c[0]), d)
  }

  function Rename(tag: u32, m: Mapping): u32 {
    if tag == m.tagFrom then m.tagTo else tag
  }

  /** Rename the initiate tag of an INIT or INIT-ACK. */
  function Retag(c: seq<byte>, m: Mapping): (r: seq<byte>)
    requires |c| >= 20
    ensures |r| == |c|
    ensures forall k :: 0 <= k < |c| && !(4 <= k < 8) ==> r[k] == c[k]
  {
    Splice(c, 4, Be32Bytes(Rename(Be32(c, 4), m)))
  }

  predicate ChunkSafeIn(c: seq<byte>) {
    && |c| >= 4
    && (IsSack(c[0]) && |c| >= SackHeader(c[0]) && Counted(c, 0, |c|, c[0]) ==> DuplicatesFit(c))
    && (c[0] == RECONFIG && |c| >= 8 ==> ParamsSafeIn(c[4..]))
  }

  /** One turn of the loop of map_inbound_sctp_packet. */
  function ChunkIn(c: seq<byte>, m: Mapping): (r: seq<byte>)
    requires ChunkSafeIn(c)
    ensures |r| == |c|
  {
    var kind := c[0];
    if HasPlainTsn(kind) then ShiftIf(c, MinimumIn(kind), 4, if CarriesOwnTsn(kind) then m.d.remote else m.d.local)
    else if IsInit(kind) then if |c| >= 20 then Retag(Shift(c, 16, m.d.remote), m) else c
    else if IsSack(kind) then
      if |c| < SackHeader(kind) then c
      else
        var x := Shift(c, 4, m.d.local);
        if Counted(c, 0, |c|, kind) then ShiftDuplicates(x, c, m.d.local) else x
    else if kind == RECONFIG && |c| >= 8 then c[..4] + ParamsIn(c[4..], m.d)
    else c
  }

  /** A 16-bit field as the host reads it without ntohs. */
  function Raw(n: u16, little: bool): u16 {
    if little then n % 0x100 * 0x100 + n / 0x100 else n
  }

  predicate ChunkSafeOut(c: seq<byte>, little: bool) {
    && |c| >= 4
    && var kind := c[0];
       if HasPlainTsn(kind) then |c| >= 8
       else if IsInit(kind) then |c| >= 20
       else if IsSack(kind) then |c| >= SackHeader(kind) && DuplicatesFit(c)
       else kind == RECONFIG && Raw(Length(c), little) > 4 ==> ParamsSafeOut(c[4..])
  }

  /** One turn of the loop of map_outbound_live_sctp_packet. For RE-CONFIG it compares the
      length with the size of the header before converting it from network byte order. */
  function ChunkOut(c: seq<byte>, m: Mapping, little: bool): (r: Mapped)
    requires ChunkSafeOut(c, little)
    ensures |r.bytes| == |c|
  {
    var kind := c[0];
    if HasPlainTsn(kind) then Mapped(Shift(c, 4, if CarriesOwnTsn(kind) then m.d.local else m.d.remote), true)
    else if IsInit(kind) then Mapped(Retag(Shift(c, 16, m.d.local), m), true)
    else if IsSack(kind) then Mapped(ShiftDuplicates(Shift(c, 4, m.d.remote), c, m.d.remote), true)
    else if kind == RECONFIG && Raw(Length(c), little) > 4 then
      var p := ParamsOut(c[4..], m.d);
      Mapped(c[..4] + p.bytes, p.ok)
    else Mapped(c, true)
  }

  /** The gap blocks of a SACK, or the two lists of gap blocks of an NR-SACK. */
  function Gaps(c: seq<byte>): nat
    requires |c| >= 4
  {
    Field16(c, 12) + if c[0] == SACK then 0 else Field16(c, 14)
  }

  /** Chunks as RFC 4960, RFC 3758, RFC 8260 and RFC 6525 define them, and the NR-SACK chunk. */
  predicate ChunkOk(c: seq<byte>) {
    && |c| >= 4 && Length(c) == |c|
    && var kind := c[0];
       if HasPlainTsn(kind) then |c| >= MinimumIn(kind)
       else if IsInit(kind) then |c| >= 20
       else if IsSack(kind) then
         |c| >= SackHeader(kind) && |c| == SackHeader(kind) + 4 * (Gaps(c) + DupCount(c, 0, kind))
       else kind == RECONFIG ==> ParamsOk(c[4..])
  }

  // ---------------------------------------------------------------- packets

  predicate SafeIn(s: seq<byte>) {
    Stops(s) || (Whole(s) && ChunkSafeIn(s[..Length(s)]) && SafeIn(s[Next(s)..]))
  }

  /** map_inbound_sctp_packet on the chunks of a packet. */
  function MapIn(s: seq<byte>, m: Mapping): (r: seq<byte>)
    requires SafeIn(s)
    ensures |r| == |s|
  {
    if Stops(s) then s
    else ChunkIn(s[..Length(s)], m) + s[Length(s)..Next(s)] + MapIn(s[Next(s)..], m)
  }

  predicate SafeOut(s: seq<byte>, little: bool) {
    Stops(s) || (Whole(s) && ChunkSafeOut(s[..Length(s)], little) && SafeOut(s[Next(s)..], little))
  }

  /** map_outbound_live_sctp_packet on the chunks of a packet. */
  function MapOut(s: seq<byte>, m: Mapping, little: bool): (r: Mapped)
    requires SafeOut(s, little)
    ensures |r.bytes| == |s|
  {
    if s == [] then Mapped(s, true)
    else if Stops(s) then Mapped(s, false)
    else
      var c := ChunkOut(s[..Length(s)], m, little);
      if !c.ok then Mapped(c.bytes + s[Length(s)..], false)
      else
        var rest := MapOut(s[Next(s)..], m, little);
        Mapped(c.bytes + s[Length(s)..Next(s)] + rest.bytes, rest.ok)
  }

  predicate WellFormed(s: seq<byte>) {
    s == [] || (Whole(s) && ChunkOk(s[..Length(s)]) && WellFormed(s[Next(s)..]))
  }

  // ---------------------------------------------------------------- the round trip

  /** The difference from b to a, one way and back. */
  datatype Pair = Pair(a: u32, b: u32)

  function There(x: Pair): u32 { Sub(x.a, x.b) }

  function Back(x: Pair): u32 { Sub(x.b, x.a) }

  lemma Undo1(w: seq<byte>, i: nat, x: Pair)
    requires i + 4 <= |w|
    ensures Shift(Shift(w, i, There(x)), i, Back(x)) == w
  {
    ShiftBack(w, i, x.a, x.b);
  }

  lemma Undo3(w: seq<byte>, i: nat, x: Pair, j: nat, y: Pair, k: nat, z: Pair)
    requires i + 4 <= |w| && j + 4 <= |w| && k + 4 <= |w|
    requires i + 4 <= j && i + 4 <= k && (j + 4 <= k || k + 4 <= j)
    ensures var v := Shift(Shift(Shift(w, i, There(x)), j, There(y)), k, There(z));
            Shift(Shift(Shift(v, i, Back(x)), j, Back(y)), k, Back(z)) == w
  {
    hide Shift, There, Back;
    var w1 := Shift(w, i, There(x));
    var w2 := Shift(w1, j, There(y));
    ShiftCommutes(w2, k, There(z), i, Back(x));
    ShiftCommutes(w1, j, There(y), i, Back(x));
    Undo1(w, i, x);
    var v1 := Shift(w, j, There(y));
    ShiftCommutes(v1, k, There(z), j, Back(y));
    Undo1(w, j, y);
    Undo1(w, k, z);
  }

  function LocalPair(t: Numbers): Pair { Pair(t.liveLocal, t.scriptLocal) }

  function RemotePair(t: Numbers): Pair { Pair(t.liveRemote, t.scriptRemote) }

  lemma DiffsArePairs(t: Numbers)
    ensures DiffsIn(t) == Diffs(There(LocalPair(t)), There(RemotePair(t)))
    ensures DiffsOut(Swap(t)) == Diffs(Back(RemotePair(t)), Back(LocalPair(t)))
  {
  }

  lemma ParamBack(w: seq<byte>, t: Numbers)
    requires ParamOk(w)
    ensures ParamSafeIn(w) && ParamSafeOut(ParamIn(w, DiffsIn(t)))
    ensures ParamOut(ParamIn(w, DiffsIn(t)), DiffsOut(Swap(t))) == w
  {
    hide Shift, DiffsIn, DiffsOut, There, Back;
    DiffsArePairs(t);
    var d, kind := DiffsIn(t), Be16(w, 0);
    var x, y := LocalPair(t), RemotePair(t);
    var v := ParamIn(w, d);
    KindKept(w, v);
    if kind == OUTGOING_SSN_RESET {
      Undo3(w, 4, y, 8, x, 12, y);
    } else if IsRequest(kind) {
      Undo1(w, 4, y);
    } else if kind == RECONFIG_RESPONSE {
      if |w| == 20 { Undo3(w, 4, x, 16, x, 12, y); } else { Undo1(w, 4, x); }
    }
  }

  lemma KindKept(w: seq<byte>, v: seq<byte>)
    requires |w| == |v| >= 4 && w[..4] == v[..4]
    ensures Be16(w, 0) == Be16(v, 0) && Be16(w, 2) == Be16(v, 2) && w[0] == v[0]
  {
    assert forall k :: 0 <= k < 4 ==> w[k] == w[..4][k] && v[k] == v[..4][k];
  }

  /** The first item of a mapped list is where it was. */
  lemma SameItem(s: seq<byte>, c: seq<byte>, rest: seq<byte>)
    requires Whole(s) && |c| == Length(s) && c[..4] == s[..4] && |rest| == |s| - Next(s)
    ensures var r := c + s[Length(s)..Next(s)] + rest;
            && Whole(r) && Length(r) == Length(s) && Next(r) == Next(s)
            && r[..Length(r)] == c && r[Length(r)..Next(r)] == s[Length(s)..Next(s)] && r[Next(r)..] == rest
  {
    var r := c + s[Length(s)..Next(s)] + rest;
    assert r[..4] == c[..4];
    KindKept(s, r);
  }

  lemma Rejoin(s: seq<byte>)
    requires Whole(s)
    ensures s[..Length(s)] + s[Length(s)..Next(s)] + s[Next(s)..] == s && s[..Length(s)][..4] == s[..4]
  {
  }

  lemma {:induction false} ParamsBack(v: seq<byte>, t: Numbers)
    requires ParamsOk(v)
    ensures ParamsSafeIn(v) && ParamsSafeOut(ParamsIn(v, DiffsIn(t)))
    ensures ParamsOut(ParamsIn(v, DiffsIn(t)), DiffsOut(Swap(t))) == Mapped(v, true)
    decreases |v|
  {
    hide ParamIn, ParamOut, ParamSafeIn, ParamSafeOut, ParamOk, DiffsIn, DiffsOut, Next, Length;
    if v != [] {
      var n, m := Length(v), Next(v);
      ParamBack(v[..n], t);
      ParamsBack(v[m..], t);
      var c, rest := ParamIn(v[..n], DiffsIn(t)), ParamsIn(v[m..], DiffsIn(t));
      Rejoin(v);
      SameItem(v, c, rest);
    }
  }

  /** The outbound mapping takes the chunk for one without parameters: on a little-endian host
      these are the lengths 256, 512, 768 and 1024. */
  predicate Skipped(c: seq<byte>, little: bool) {
    |c| >= 8 && c[0] == RECONFIG && Raw(Length(c), little) <= 4
  }

  lemma SkippedLengths(c: seq<byte>, little: bool)
    requires |c| >= 8 && c[0] == RECONFIG && Length(c) == |c|
    ensures Skipped(c, little) <==> little && (|c| == 256 || |c| == 512 || |c| == 768 || |c| == 1024)
  {
    hide Length;
    var n: int := |c|;
    assert n == n / 0x100 * 0x100 + n % 0x100;
  }

  /** Mapping leaves the header of a SACK as it is, and with it where the duplicates are. */
  lemma CountsKept(c: seq<byte>, v: seq<byte>)
    requires |v| == |c| >= 16 && IsSack(c[0]) && |c| >= SackHeader(c[0])
    requires forall k :: 0 <= k < SackHeader(c[0]) && !(4 <= k < 8) ==> v[k] == c[k]
    ensures v[0] == c[0] && v[..4] == c[..4]
    ensures DupCount(v, 0, c[0]) == DupCount(c, 0, c[0]) && DupStart(v, 0, c[0]) == DupStart(c, 0, c[0])
  {
    assert Field16(v, 12) == Field16(c, 12) && Field16(v, 14) == Field16(c, 14);
    assert c[0] == NR_SACK ==> Field16(v, 16) == Field16(c, 16);
  }

  /** The duplicates of a well-formed chunk are its last fields. The inbound mapping finds them
      if there are no NR gap blocks. */
  lemma SackShape(c: seq<byte>)
    requires ChunkOk(c) && IsSack(c[0])
    ensures |c| >= SackHeader(c[0]) && DuplicatesFit(c)
    ensures SackHeader(c[0]) <= DupStart(c, 0, c[0]) && DupStart(c, 0, c[0]) + 4 * DupCount(c, 0, c[0]) == |c|
    ensures Counted(c, 0, |c|, c[0]) <==> c[0] == SACK || Field16(c, 14) == 0
  {
    hide Field16;
    assert |c| <= 0xffff;
  }

  lemma SackBack(c: seq<byte>, x: Pair)
    requires ChunkOk(c) && IsSack(c[0])
    ensures DuplicatesFit(c) && |c| >= 8
    ensures var v := ShiftDuplicates(Shift(c, 4, There(x)), c, There(x));
            && v[..4] == c[..4] && DupCount(v, 0, c[0]) == DupCount(c, 0, c[0]) && DupStart(v, 0, c[0]) == DupStart(c, 0, c[0])
            && ShiftDuplicates(Shift(v, 4, Back(x)), c, Back(x)) == c
  {
    hide Shift, ShiftRun, There, Back, DupStart, DupCount, Field16, ChunkOk;
    SackShape(c);
    var g, n := DupStart(c, 0, c[0]), DupCount(c, 0, c[0]);
    var w := Shift(c, 4, There(x));
    var v := ShiftRun(w, g, n, There(x));
    CountsKept(c, v);
    RunCommutes(w, 4, Back(x), g, n, There(x));
    Undo1(c, 4, x);
    RunUndo(c, g, n, x);
  }

  /** A chunk whose duplicates are mapped on the way back only. */
  lemma SackBackOnly(c: seq<byte>, x: Pair)
    requires ChunkOk(c) && IsSack(c[0])
    ensures DuplicatesFit(c) && |c| >= 8
    ensures var v := Shift(c, 4, There(x));
            && v[..4] == c[..4] && DupCount(v, 0, c[0]) == DupCount(c, 0, c[0]) && DupStart(v, 0, c[0]) == DupStart(c, 0, c[0])
            && (ShiftDuplicates(Shift(v, 4, Back(x)), c, Back(x)) == c <==> DupCount(c, 0, c[0]) == 0 || There(x) == 0)
  {
    hide Shift, ShiftRun, There, Back, DupStart, DupCount, Field16, ChunkOk;
    SackShape(c);
    CountsKept(c, Shift(c, 4, There(x)));
    Undo1(c, 4, x);
    RunMoves(c, DupStart(c, 0, c[0]), DupCount(c, 0, c[0]), Back(x));
    BothZero(x);
  }

  lemma BothZero(x: Pair)
    ensures There(x) == 0 <==> Back(x) == 0
  {
  }

  lemma ShiftMoves(w: seq<byte>, at: nat, d: u32)
    requires at + 4 <= |w|
    ensures d == 0 ==> Shift(w, at, d) == w
    ensures d != 0 ==> Be32(Shift(w, at, d), at) != Be32(w, at)
  {
    hide Add, Be32Bytes, Be32;
    var f := Be32(w, at);
    AddIs(f, d);
    FieldOf(w, at, Add(f, d));
    Be32OfBytes(w, at);
  }

  lemma {:induction false} RunMoves(w: seq<byte>, at: nat, n: nat, d: u32)
    requires n == 0 || at + 4 * n <= |w|
    ensures ShiftRun(w, at, n, d) == w <==> n == 0 || d == 0
    decreases n
  {
    hide Shift;
    if n > 0 {
      var v := Shift(w, at, d);
      ShiftMoves(w, at, d);
      RunMoves(v, at + 4, n - 1, d);
      assert Be32(ShiftRun(v, at + 4, n - 1, d), at) == Be32(v, at);
    }
  }

  lemma RetagCommutes(c: seq<byte>, m: Mapping, d: u32)
    requires |c| >= 20
    ensures Shift(Retag(c, m), 16, d) == Retag(Shift(c, 16, d), m)
  {
    hide Add, Be32Bytes, Rename;
    assert Be32(Retag(c, m), 16) == Be32(c, 16);
    assert Be32(Shift(c, 16, d), 4) == Be32(c, 4);
  }

  lemma RetagBack(c: seq<byte>, m: Mapping, back: Mapping)
    requires |c| >= 20
    ensures Retag(Retag(c, m), back) == c <==> Rename(Rename(Be32(c, 4), m), back) == Be32(c, 4)
  {
    hide Be32Bytes, Be32, Rename;
    var tag := Be32(c, 4);
    FieldOf(c, 4, Rename(tag, m));
    SpliceTwice(c, 4, Be32Bytes(Rename(tag, m)), Be32Bytes(Rename(Rename(tag, m), back)));
    FieldOf(c, 4, Rename(Rename(tag, m), back));
    Be32OfBytes(c, 4);
  }

  /** The tag that inbound and outbound mapping from the other end make of one. */
  function TagAfter(tag: u32, x: Association): u32 {
    Rename(Rename(tag, Inbound(x)), Outbound(OtherEnd(x)))
  }

  lemma InitBack(c: seq<byte>, x: Association)
    requires |c| >= 20
    ensures var v := Retag(Shift(c, 16, Inbound(x).d.remote), Inbound(x));
            && v[..4] == c[..4]
            && (Retag(Shift(v, 16, Outbound(OtherEnd(x)).d.local), Outbound(OtherEnd(x))) == c <==> TagAfter(Be32(c, 4), x) == Be32(c, 4))
  {
    hide Shift, Retag, Rename, There, Back;
    DiffsArePairs(x.tsn);
    var y := RemotePair(x.tsn);
    RetagCommutes(Shift(c, 16, There(y)), Inbound(x), Back(y));
    Undo1(c, 16, y);
    RetagBack(c, Inbound(x), Outbound(OtherEnd(x)));
  }

  lemma RunUndo(w: seq<byte>, at: nat, n: nat, x: Pair)
    requires at + 4 * n <= |w|
    ensures ShiftRun(ShiftRun(w, at, n, There(x)), at, n, Back(x)) == w
  {
    RunBack(w, at, n, x.a, x.b);
  }

  lemma ReconfigBack(c: seq<byte>, t: Numbers)
    requires ChunkOk(c) && c[0] == RECONFIG
    ensures ParamsSafeIn(c[4..])
    ensures var v := c[..4] + ParamsIn(c[4..], DiffsIn(t));
            && |v| == |c| && v[..4] == c[..4] && ParamsSafeOut(v[4..])
            && ParamsOut(v[4..], DiffsOut(Swap(t))) == Mapped(c[4..], true)
  {
    hide ParamsOk, ParamsIn, ParamsOut, ParamsSafeIn, ParamsSafeOut, DiffsIn, DiffsOut;
    ParamsBack(c[4..], t);
    var v := c[..4] + ParamsIn(c[4..], DiffsIn(t));
    assert v[4..] == ParamsIn(c[4..], DiffsIn(t));
  }

  /** Mapping keeps the header of a chunk, and a well-formed one can be mapped back. */
  lemma ChunkSafe(c: seq<byte>, x: Association, little: bool)
    requires ChunkOk(c)
    ensures ChunkSafeIn(c) && ChunkIn(c, Inbound(x))[..4] == c[..4]
    ensures ChunkSafeOut(ChunkIn(c, Inbound(x)), little)
  {
    hide Shift, Retag, ShiftRun, ParamsIn, ParamsSafeIn, ParamsSafeOut, ParamsOk, DiffsIn, There, Back, Raw, DupStart, DupCount, Field16;
    DiffsArePairs(x.tsn);
    if IsSack(c[0]) {
      SackBack(c, LocalPair(x.tsn));
      SackBackOnly(c, LocalPair(x.tsn));
    } else if c[0] == RECONFIG {
      ReconfigBack(c, x.tsn);
    } else if IsInit(c[0]) {
      InitBack(c, x);
    }
    var v := ChunkIn(c, Inbound(x));
    assert v[..4] == c[..4];
    KindKept(c, v);
  }

  // ---------------------------------------------------------------- what the numbers mean

  function TsnOffset(kind: byte): nat {
    if kind == INIT || kind == INIT_ACK then 16 else 4
  }

  lemma ShiftedField(w: seq<byte>, at: nat, a: u32, b: u32)
    requires at + 4 <= |w|
    ensures Sub(Be32(Shift(w, at, Sub(a, b)), at), a) == Sub(Be32(w, at), b)
  {
    hide Sub, Add, Be32Bytes;
    FieldOf(w, at, Add(Be32(w, at), Sub(a, b)));
    DistanceOfSum(Be32(w, at), a, b);
  }

  lemma {:induction false} ShiftedRun(w: seq<byte>, at: nat, n: nat, a: u32, b: u32, i: nat)
    requires at + 4 * n <= |w| && i < n
    ensures Sub(Be32(ShiftRun(w, at, n, Sub(a, b)), at + 4 * i), a) == Sub(Be32(w, at + 4 * i), b)
    decreases n
  {
    hide Sub, Be32Bytes, Shift;
    var v := Shift(w, at, Sub(a, b));
    var r := ShiftRun(v, at + 4, n - 1, Sub(a, b));
    if i == 0 {
      ShiftedField(w, at, a, b);
      assert Be32(r, at) == Be32(v, at);
    } else {
      ShiftedRun(v, at + 4, n - 1, a, b, i - 1);
      assert Be32(v, at + 4 * i) == Be32(w, at + 4 * i);
    }
  }

  /** An inbound packet keeps the distance of every TSN from the initial TSN of its owner: what
      was so far from the script's initial TSN is as far from the live one. */
  lemma InboundKeepsDistance(c: seq<byte>, x: Association)
    requires ChunkOk(c) && (CarriesOwnTsn(c[0]) || CarriesPeerTsn(c[0]))
    ensures ChunkSafeIn(c) && |c| >= TsnOffset(c[0]) + 4
    ensures var at, r, t := TsnOffset(c[0]), ChunkIn(c, Inbound(x)), x.tsn;
            if CarriesOwnTsn(c[0]) then Sub(Be32(r, at), t.liveRemote) == Sub(Be32(c, at), t.scriptRemote)
            else Sub(Be32(r, at), t.liveLocal) == Sub(Be32(c, at), t.scriptLocal)
  {
    hide Shift, ShiftRun, Retag, Sub, DupStart, DupCount, Field16;
    ChunkSafe(c, x, true);
    var at, t := TsnOffset(c[0]), x.tsn;
    ShiftedField(c, at, t.liveRemote, t.scriptRemote);
    ShiftedField(c, at, t.liveLocal, t.scriptLocal);
    if IsSack(c[0]) {
      SackShape(c);
      assert Be32(ChunkIn(c, Inbound(x)), 4) == Be32(Shift(c, 4, DiffsIn(t).local), 4);
    } else if IsInit(c[0]) {
      assert Be32(ChunkIn(c, Inbound(x)), 16) == Be32(Shift(c, 16, DiffsIn(t).remote), 16);
    }
  }

  /** ... and so do the duplicate TSNs of a SACK, every one of them. Those of an NR-SACK do if
      and only if it has no NR gap blocks, or there is nothing to map. */
  lemma DuplicatesKeepDistance(c: seq<byte>, x: Association, i: nat)
    requires ChunkOk(c) && IsSack(c[0]) && i < DupCount(c, 0, c[0])
    ensures ChunkSafeIn(c)
    ensures var at := DupStart(c, 0, c[0]) + 4 * i;
            && at + 4 <= |c|
            && (Sub(Be32(ChunkIn(c, Inbound(x)), at), x.tsn.liveLocal) == Sub(Be32(c, at), x.tsn.scriptLocal)
                <==> c[0] == SACK || Field16(c, 14) == 0 || x.tsn.liveLocal == x.tsn.scriptLocal)
  {
    hide Shift, ShiftRun, Sub, DupStart, DupCount, Field16, ChunkOk, Be32;
    SackShape(c);
    var t := x.tsn;
    var y, first := Shift(c, 4, DiffsIn(t).local), DupStart(c, 0, c[0]);
    assert Be32(y, first + 4 * i) == Be32(c, first + 4 * i) by { SameWord(y, c, first + 4 * i); }
    if Counted(c, 0, |c|, c[0]) {
      ShiftedRun(y, first, DupCount(c, 0, c[0]), t.liveLocal, t.scriptLocal, i);
    } else {
      SubInjective(Be32(c, first + 4 * i), t.liveLocal, t.scriptLocal);
    }
  }

  lemma SameWord(v: seq<byte>, w: seq<byte>, at: nat)
    requires at + 4 <= |v| == |w| && forall k :: at <= k < at + 4 ==> v[k] == w[k]
    ensures Be32(v, at) == Be32(w, at)
  {
  }

  lemma SubInjective(x: u32, a: u32, b: u32)
    ensures Sub(x, a) == Sub(x, b) <==> a == b
  {
    hide Sub;
    SubIs(x, a);
    SubIs(x, b);
  }

  // ---------------------------------------------------------------- when packets come back

  /** The parameter holds a number that these differences change. */
  predicate Moves(w: seq<byte>, d: Diffs)
    requires |w| >= 4
  {
    var kind := Be16(w, 0);
    || (kind == OUTGOING_SSN_RESET && d != Diffs(0, 0))
    || (IsRequest(kind) && d.remote != 0)
    || (kind == RECONFIG_RESPONSE && (d.local != 0 || (|w| == 20 && d.remote != 0)))
  }

  predicate SomeMoves(v: seq<byte>, d: Diffs) {
    Whole(v) && (Moves(v[..Length(v)], d) || SomeMoves(v[Next(v)..], d))
  }

  /** A number that the inbound mapping changes is not mapped back. */
  predicate SkipsNumber(c: seq<byte>, d: Diffs, little: bool) {
    Skipped(c, little) && SomeMoves(c[4..], d)
  }

  /** Duplicates behind NR gap blocks are not mapped inbound, and they are mapped back. */
  predicate MissesDuplicates(c: seq<byte>, d: Diffs)
    requires |c| >= 4
  {
    c[0] == NR_SACK && Field16(c, 14) != 0 && DupCount(c, 0, NR_SACK) != 0 && d.local != 0
  }

  /** The tag is not the one that was renamed. */
  predicate LosesTag(c: seq<byte>, x: Association)
    requires |c| >= 4
  {
    IsInit(c[0]) && |c| >= 8 && TagAfter(Be32(c, 4), x) != Be32(c, 4)
  }

  predicate Lost(c: seq<byte>, x: Association, little: bool)
    requires |c| >= 4
  {
    SkipsNumber(c, DiffsIn(x.tsn), little) || MissesDuplicates(c, DiffsIn(x.tsn)) || LosesTag(c, x)
  }

  predicate SomeLost(s: seq<byte>, x: Association, little: bool) {
    Whole(s) && (Lost(s[..Length(s)], x, little) || SomeLost(s[Next(s)..], x, little))
  }

  lemma ResponseChanges(w: seq<byte>, d: Diffs)
    requires |w| == 20
    ensures Shift(Shift(Shift(w, 4, d.local), 16, d.local), 12, d.remote) == w <==> d == Diffs(0, 0)
  {
    hide Shift;
    var x := Shift(w, 4, d.local);
    var y := Shift(x, 16, d.local);
    var z := Shift(y, 12, d.remote);
    ShiftMoves(w, 4, d.local);
    ShiftMoves(x, 16, d.local);
    ShiftMoves(y, 12, d.remote);
    assert Be32(z, 4) == Be32(x, 4) && Be32(y, 12) == Be32(w, 12);
  }

  lemma OutgoingChanges(w: seq<byte>, d: Diffs)
    requires |w| >= 16
    ensures Shift(Shift(Shift(w, 4, d.remote), 8, d.local), 12, d.remote) == w <==> d == Diffs(0, 0)
  {
    hide Shift;
    var x := Shift(w, 4, d.remote);
    var y := Shift(x, 8, d.local);
    var z := Shift(y, 12, d.remote);
    ShiftMoves(w, 4, d.remote);
    ShiftMoves(x, 8, d.local);
    ShiftMoves(y, 12, d.remote);
    assert Be32(z, 4) == Be32(x, 4) && Be32(x, 8) == Be32(w, 8) && Be32(z, 8) == Be32(y, 8);
  }

  lemma ParamChanges(w: seq<byte>, d: Diffs)
    requires ParamOk(w) && ParamSafeIn(w)
    ensures ParamIn(w, d) == w <==> !Moves(w, d)
  {
    hide Shift;
    if Be16(w, 0) == OUTGOING_SSN_RESET {
      OutgoingChanges(w, d);
    } else if IsRequest(Be16(w, 0)) {
      ShiftMoves(w, 4, d.remote);
    } else if Be16(w, 0) == RECONFIG_RESPONSE {
      ShiftMoves(w, 4, d.local);
      if |w| == 20 { ResponseChanges(w, d); }
    }
  }

  lemma {:induction false} ParamsChange(v: seq<byte>, d: Diffs)
    requires ParamsOk(v) && ParamsSafeIn(v)
    ensures ParamsIn(v, d) == v <==> !SomeMoves(v, d)
    decreases |v|
  {
    hide ParamIn, ParamOk, ParamSafeIn, Moves, Length, Next;
    if v != [] {
      var n, m := Length(v), Next(v);
      var c, rest := ParamIn(v[..n], d), ParamsIn(v[m..], d);
      var r := ParamsIn(v, d);
      assert r == c + v[n..m] + rest;
      assert r[..n] == c && r[m..] == rest;
      Rejoin(v);
      ParamChanges(v[..n], d);
      ParamsChange(v[m..], d);
    }
  }

  /** A RE-CONFIG chunk comes back unless it is skipped with a number in it that was changed. */
  lemma ReconfigReturns(c: seq<byte>, x: Association, little: bool)
    requires ChunkOk(c) && c[0] == RECONFIG
    ensures ChunkSafeIn(c) && ChunkSafeOut(ChunkIn(c, Inbound(x)), little)
    ensures var r := ChunkOut(ChunkIn(c, Inbound(x)), Outbound(OtherEnd(x)), little);
            && r.ok && r.bytes[..4] == c[..4]
            && (r.bytes == c <==> !SkipsNumber(c, DiffsIn(x.tsn), little))
  {
    hide ParamsIn, ParamsOut, ParamsSafeIn, ParamsSafeOut, ParamsOk, DiffsIn, DiffsOut, SomeMoves;
    ChunkSafe(c, x, little);
    var t := x.tsn;
    KindKept(c, ChunkIn(c, Inbound(x)));
    assert c == c[..4] + c[4..];
    ReconfigBack(c, t);
    if |c| >= 8 {
      assert ChunkIn(c, Inbound(x))[4..] == ParamsIn(c[4..], DiffsIn(t));
      ParamsChange(c[4..], DiffsIn(t));
    } else {
      NoParams(c[4..]);
      assert ParamsIn(c[4..], DiffsIn(t)) == [];
    }
  }

  lemma NoParams(v: seq<byte>)
    requires ParamsOk(v) && |v| < 4
    ensures v == []
  {
  }

  lemma SackReturns(c: seq<byte>, x: Association, little: bool)
    requires ChunkOk(c) && IsSack(c[0])
    ensures ChunkSafeIn(c) && ChunkSafeOut(ChunkIn(c, Inbound(x)), little)
    ensures var r := ChunkOut(ChunkIn(c, Inbound(x)), Outbound(OtherEnd(x)), little);
            && r.ok && r.bytes[..4] == c[..4]
            && (r.bytes == c <==> !MissesDuplicates(c, DiffsIn(x.tsn)))
  {
    hide ChunkOk, Shift, ShiftRun, DiffsIn, DiffsOut, There, Back, DupStart, DupCount, Field16;
    ChunkSafe(c, x, little);
    SackShape(c);
    DiffsArePairs(x.tsn);
    SackBack(c, LocalPair(x.tsn));
    SackBackOnly(c, LocalPair(x.tsn));
  }

  /** One chunk comes back, unless one of three things happens to it. */
  lemma ChunkReturns(c: seq<byte>, x: Association, little: bool)
    requires ChunkOk(c)
    ensures ChunkSafeIn(c) && ChunkIn(c, Inbound(x))[..4] == c[..4] && ChunkSafeOut(ChunkIn(c, Inbound(x)), little)
    ensures var r := ChunkOut(ChunkIn(c, Inbound(x)), Outbound(OtherEnd(x)), little);
            && r.ok && r.bytes[..4] == c[..4]
            && (r.bytes == c <==> !Lost(c, x, little))
  {
    hide Shift, Retag, ShiftRun, ParamsIn, ParamsOut, DiffsIn, DiffsOut, There, Back, TagAfter, DupStart, DupCount, Field16, SomeMoves;
    ChunkSafe(c, x, little);
    KindKept(c, ChunkIn(c, Inbound(x)));
    if IsSack(c[0]) {
      SackReturns(c, x, little);
    } else if c[0] == RECONFIG {
      ReconfigReturns(c, x, little);
    } else if IsInit(c[0]) {
      InitBack(c, x);
    } else if HasPlainTsn(c[0]) {
      DiffsArePairs(x.tsn);
      Undo1(c, 4, if CarriesOwnTsn(c[0]) then RemotePair(x.tsn) else LocalPair(x.tsn));
    }
  }

  /** The packet comes back byte for byte. */
  predicate Returns(s: seq<byte>, x: Association, little: bool) {
    && SafeIn(s) && SafeOut(MapIn(s, Inbound(x)), little)
    && MapOut(MapIn(s, Inbound(x)), Outbound(OtherEnd(x)), little) == Mapped(s, true)
  }

  /** Inbound and then outbound from the other end: a well-formed packet comes back if and
      only if no chunk is lost. Either way both mappings succeed. */
  lemma {:induction false} PacketReturnsIff(s: seq<byte>, x: Association, little: bool)
    requires WellFormed(s)
    ensures SafeIn(s) && SafeOut(MapIn(s, Inbound(x)), little)
    ensures MapOut(MapIn(s, Inbound(x)), Outbound(OtherEnd(x)), little).ok
    ensures Returns(s, x, little) <==> !SomeLost(s, x, little)
    decreases |s|
  {
    hide ChunkOk, ChunkIn, ChunkOut, ChunkSafeIn, ChunkSafeOut, Lost, Inbound, Outbound, Length, Next;
    if s != [] {
      var n, m := Length(s), Next(s);
      ChunkReturns(s[..n], x, little);
      PacketReturnsIff(s[m..], x, little);
      var c, rest := ChunkIn(s[..n], Inbound(x)), MapIn(s[m..], Inbound(x));
      Rejoin(s);
      SameItem(s, c, rest);
      var r := MapIn(s, Inbound(x));
      assert r == c + s[n..m] + rest;
      var back := MapOut(r, Outbound(OtherEnd(x)), little);
      var front, end := ChunkOut(c, Outbound(OtherEnd(x)), little), MapOut(rest, Outbound(OtherEnd(x)), little);
      assert back == Mapped(front.bytes + s[n..m] + end.bytes, end.ok);
      assert back.bytes[..n] == front.bytes && back.bytes[m..] == end.bytes;
    }
  }

  /** What is asked of the initiate tags where the remote ones agree, as they do once they are
      recorded: no INIT or INIT-ACK carries the script's local tag while the live one differs. */
  lemma LosesTagIff(c: seq<byte>, x: Association)
    requires |c| >= 8 && IsInit(c[0]) && x.tag.liveRemote == x.tag.scriptRemote
    ensures LosesTag(c, x) <==> Be32(c, 4) == x.tag.scriptLocal != x.tag.liveLocal
  {
  }

  /** A connection whose live numbers are one ahead of the script's. */
  const ONE_AHEAD: Numbers := Numbers(0, 0, 1, 1)

  lemma {:induction false} MostMoves(v: seq<byte>, d: Diffs)
    ensures SomeMoves(v, d) ==> SomeMoves(v, DiffsIn(ONE_AHEAD))
    decreases |v|
  {
    if Whole(v) { MostMoves(v[Next(v)..], d); }
  }

  /** The tags that come back do not depend on the TSNs. */
  lemma SameTags(tag: u32, x: Association, t: Numbers)
    ensures TagAfter(tag, x.(tsn := t)) == TagAfter(tag, x)
  {
    hide DiffsIn, DiffsOut;
  }

  lemma MostLostChunk(c: seq<byte>, x: Association, little: bool)
    requires |c| >= 4
    ensures Lost(c, x, little) ==> Lost(c, x.(tsn := ONE_AHEAD), little)
  {
    hide SomeMoves, Field16, DupCount, Be32, TagAfter, Skipped;
    if Skipped(c, little) { MostMoves(c[4..], DiffsIn(x.tsn)); }
    if IsInit(c[0]) && |c| >= 8 { SameTags(Be32(c, 4), x, ONE_AHEAD); }
  }

  lemma {:induction false} MostLost(s: seq<byte>, x: Association, little: bool)
    ensures SomeLost(s, x, little) ==> SomeLost(s, x.(tsn := ONE_AHEAD), little)
    decreases |s|
  {
    hide Lost, Length, Next, ONE_AHEAD;
    if Whole(s) {
      MostLostChunk(s[..Length(s)], x, little);
      MostLost(s[Next(s)..], x, little);
    }
  }

  /** A packet comes back for all initial TSNs if and only if it does where the live ones are
      one ahead. */
  lemma ReturnsForAll(s: seq<byte>, tag: Numbers, little: bool)
    requires WellFormed(s)
    ensures (forall t :: Returns(s, Association(t, tag), little)) <==> !SomeLost(s, Association(ONE_AHEAD, tag), little)
  {
    hide Returns, SomeLost, WellFormed, DiffsIn;
    PacketReturnsIff(s, Association(ONE_AHEAD, tag), little);
    forall t
      ensures !SomeLost(s, Association(ONE_AHEAD, tag), little) ==> Returns(s, Association(t, tag), little)
    {
      PacketReturnsIff(s, Association(t, tag), little);
      MostLost(s, Association(t, tag), little);
    }
  }

  /** A packet that does not come back on a little-endian host: one RE-CONFIG chunk of 256
      bytes with an outgoing SSN reset request for 118 streams. */
  function Example(): (s: seq<byte>)
    ensures |s| == 256
  {
    [RECONFIG, 0, 1, 0, 0, 13, 0, 252] + Zeros(248)
  }

  lemma ExampleDoesNotReturn(tag: Numbers)
    ensures WellFormed(Example()) && !Returns(Example(), Association(ONE_AHEAD, tag), true)
  {
    hide Returns, ParamIn, ChunkIn, ChunkOut, MapIn, MapOut, LosesTag, MissesDuplicates;
    var s, x := Example(), Association(ONE_AHEAD, tag);
    assert Length(s) == 256 && Next(s) == 256 && s[..256] == s && s[256..] == [];
    var v := s[4..];
    assert Length(v) == 252 && Next(v) == 252 && v[..252] == v && v[252..] == [];
    assert Be16(v, 0) == OUTGOING_SSN_RESET;
    assert ParamsOk([]) && WellFormed([]);
    assert ParamsOk(v);
    assert Raw(256, true) == 1;
    assert SkipsNumber(s, DiffsIn(ONE_AHEAD), true);
    PacketReturnsIff(s, x, true);
  }

  /** One that does not come back on any host: an NR-SACK chunk with one NR gap block and one
      duplicate TSN. */
  function NrSackExample(): (s: seq<byte>)
    ensures |s| == 28
  {
    [NR_SACK, 0, 0, 28] + Zeros(8) + [0, 0, 0, 1, 0, 1, 0, 0] + Zeros(8)
  }

  lemma NrSackDoesNotReturn(tag: Numbers, little: bool)
    ensures WellFormed(NrSackExample()) && !Returns(NrSackExample(), Association(ONE_AHEAD, tag), little)
  {
    hide Returns, ChunkIn, ChunkOut, MapIn, MapOut, LosesTag, SkipsNumber;
    var s, x := NrSackExample(), Association(ONE_AHEAD, tag);
    assert Length(s) == 28 && Next(s) == 28 && s[..28] == s && s[28..] == [];
    assert WellFormed([]);
    assert Field16(s, 12) == 0 && Field16(s, 14) == 1 && Field16(s, 16) == 1;
    assert ChunkOk(s);
    PacketReturnsIff(s, x, little);
  }
}
