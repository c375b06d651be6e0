/**
 Which numbers of an SCTP packet are translated, and from which base to which.

 The tables here say it in the numbers of section 3 of RFC 4960, RFC 3758, RFC 8260 and
 RFC 6525: type codes, offsets and owners. They are independent of the names and functions that
 the mappings use. Both directions are proved to translate exactly what the tables say.
 */
module SctpNumbers {
  import opened Bytes
  import opened Arithmetic
  import opened SctpMap

  // ---------------------------------------------------------------- the tables

  /** A TSN or request number of the end that sends the packet, one of the end that receives it,
      or an initiate tag. */
  datatype Role = Sender | Receiver | Tag

  datatype Field = Field(at: nat, role: Role)

  /** The fields of a parameter of RE-CONFIG. */
  function ParamFields(kind: u16, n: nat): seq<Field> {
    if kind == 0x000d then [Field(4, Sender), Field(8, Receiver), Field(12, Sender)]
    else if kind == 0x000e || kind == 0x000f || kind == 0x0011 || kind == 0x0012 then [Field(4, Sender)]
    else if kind == 0x0010 then
      if n == 20 then [Field(4, Receiver), Field(16, Receiver), Field(12, Sender)] else [Field(4, Receiver)]
    else []
  }

  /** Fields that are n bytes further on. */
  function Later(fields: seq<Field>, n: nat): (r: seq<Field>)
    ensures |r| == |fields| && forall i :: 0 <= i < |fields| ==> r[i] == Field(fields[i].at + n, fields[i].role)
  {
    seq(|fields|, i requires 0 <= i < |fields| => Field(fields[i].at + n, fields[i].role))
  }

  /** Where the next item of a list starts: at a multiple of four bytes, or at the end. */
  function Step(v: seq<byte>): (q: nat)
    requires |v| >= 4 && 4 <= Be16(v, 2) <= |v|
    ensures 4 <= q <= |v|
  {
    var n := (Be16(v, 2) + 3) / 4 * 4;
    if n > |v| then |v| else n
  }

  /** The fields of a list of parameters. */
  function ParamsFields(v: seq<byte>): seq<Field> {
    if |v| < 4 || Be16(v, 2) < 4 || Be16(v, 2) > |v| then []
    else
      ParamFields(Be16(v, 0), Be16(v, 2)) + Later(ParamsFields(v[Step(v)..]), Step(v))
  }

  function Duplicates(at: nat, n: nat): (r: seq<Field>)
    ensures |r| == n && forall i :: 0 <= i < n ==> r[i] == Field(at + 4 * i, Receiver)
  {
    seq(n, i requires 0 <= i < n => Field(at + 4 * i, Receiver))
  }

  /** The fields of a chunk that is long enough for them. */
  function ChunkFields(c: seq<byte>): seq<Field>
    requires |c| >= 4
  {
    var kind := c[0];
    if kind == 0x00 || kind == 0x40 || kind == 0xc0 || kind == 0xc2 then [Field(4, Sender)]
    else if kind == 0x07 || kind == 0x0c || kind == 0x0d then [Field(4, Receiver)]
    else if kind == 0x01 || kind == 0x02 then [Field(16, Sender), Field(4, Tag)]
    else if kind == 0x03 && |c| >= 16 then [Field(4, Receiver)] + Duplicates(16 + 4 * Be16(c, 12), Be16(c, 14))
    else if kind == 0x10 && |c| >= 20 then
      [Field(4, Receiver)] + Duplicates(20 + 4 * (Be16(c, 12) + Be16(c, 14)), Be16(c, 16))
    else if kind == 0x82 then Later(ParamsFields(c[4..]), 4)
    else []
  }

  // ---------------------------------------------------------------- what is done to them

  /** What the numbers of each end, and the tag, are translated from and to. */
  datatype Bases = Bases(senderFrom: u32, senderTo: u32, receiverFrom: u32, receiverTo: u32, tagFrom: u32, tagTo: u32)

  /** The remote end sends inbound packets. */
  function BasesIn(x: Association): Bases {
    Bases(x.tsn.scriptRemote, x.tsn.liveRemote, x.tsn.scriptLocal, x.tsn.liveLocal, x.tag.scriptLocal, x.tag.liveLocal)
  }

  /** The local end sends outbound packets. */
  function BasesOut(x: Association): Bases {
    Bases(x.tsn.liveLocal, x.tsn.scriptLocal, x.tsn.liveRemote, x.tsn.scriptRemote, x.tag.liveLocal, x.tag.scriptLocal)
  }

  /** A number keeps its distance from the base, modulo 2^32; a tag is replaced if it is the one. */
  predicate Obeys(role: Role, was: u32, now: u32, b: Bases) {
    match role
    case Sender => Sub(now, b.senderTo) == Sub(was, b.senderFrom)
    case Receiver => Sub(now, b.receiverTo) == Sub(was, b.receiverFrom)
    case Tag => now == if was == b.tagFrom then b.tagTo else was
  }

  predicate Within(fields: seq<Field>, n: nat) {
    forall i :: 0 <= i < |fields| ==> fields[i].at + 4 <= n
  }

  predicate Touches(fields: seq<Field>, k: int) {
    exists i :: 0 <= i < |fields| && fields[i].at <= k < fields[i].at + 4
  }

  /** Every field is translated, and no other byte is changed. */
  ghost predicate Translated(w: seq<byte>, r: seq<byte>, fields: seq<Field>, b: Bases) {
    && |w| == |r| && Within(fields, |w|)
    && (forall i :: 0 <= i < |fields| ==> Obeys(fields[i].role, Be32(w, fields[i].at), Be32(r, fields[i].at), b))
    && (forall k :: 0 <= k < |w| && !Touches(fields, k) ==> r[k] == w[k])
  }

  lemma NothingTranslated(w: seq<byte>, b: Bases)
    ensures Translated(w, w, [], b)
  {
  }

  lemma SameField(w: seq<byte>, v: seq<byte>, at: nat)
    requires at + 4 <= |w| == |v| && forall k :: at <= k < at + 4 ==> w[k] == v[k]
    ensures Be32(w, at) == Be32(v, at)
  {
  }

  predicate Apart(f: seq<Field>, g: seq<Field>) {
    forall i, j :: 0 <= i < |f| && 0 <= j < |g| ==> f[i].at + 4 <= g[j].at || g[j].at + 4 <= f[i].at
  }

  /** One translation after the other, of different fields. */
  lemma TranslatedThen(w: seq<byte>, v: seq<byte>, r: seq<byte>, f: seq<Field>, g: seq<Field>, b: Bases)
    requires Translated(w, v, f, b) && Translated(v, r, g, b) && Apart(f, g)
    ensures Translated(w, r, f + g, b)
  {
    hide Obeys, Be32;
    var h := f + g;
    forall i | 0 <= i < |h|
      ensures Obeys(h[i].role, Be32(w, h[i].at), Be32(r, h[i].at), b)
    {
      if i < |f| {
        assert forall k :: h[i].at <= k < h[i].at + 4 ==> !Touches(g, k);
        SameField(v, r, h[i].at);
      } else {
        assert forall k :: h[i].at <= k < h[i].at + 4 ==> !Touches(f, k);
        SameField(w, v, h[i].at);
      }
    }
    forall k | 0 <= k < |w| && !Touches(h, k)
      ensures r[k] == w[k]
    {
      assert forall i :: 0 <= i < |f| ==> h[i] == f[i];
      assert forall j :: 0 <= j < |g| ==> h[|f| + j] == g[j];
      assert !Touches(f, k) && !Touches(g, k);
    }
  }

  /** Two parts side by side. */
  lemma TranslatedBeside(w: seq<byte>, r: seq<byte>, f: seq<Field>, n: nat, g: seq<Field>, b: Bases)
    requires |w| == |r| && n <= |w| && Translated(w[..n], r[..n], f, b) && Translated(w[n..], r[n..], g, b)
    ensures Translated(w, r, f + Later(g, n), b)
  {
    hide Obeys, Be32;
    var h := f + Later(g, n);
    forall i | 0 <= i < |h|
      ensures h[i].at + 4 <= |w| && Obeys(h[i].role, Be32(w, h[i].at), Be32(r, h[i].at), b)
    {
      if i < |f| {
        FrontField(w, n, h[i].at);
        FrontField(r, n, h[i].at);
      } else {
        var j := i - |f|;
        BackField(w, n, g[j].at);
        BackField(r, n, g[j].at);
      }
    }
    forall k | 0 <= k < |w| && !Touches(h, k)
      ensures r[k] == w[k]
    {
      if k < n {
        assert forall i :: 0 <= i < |f| ==> h[i] == f[i];
        assert !Touches(f, k);
        assert r[k] == r[..n][k] && w[k] == w[..n][k];
      } else {
        assert forall j :: 0 <= j < |g| ==> h[|f| + j] == Field(g[j].at + n, g[j].role);
        assert !Touches(g, k - n);
        assert r[k] == r[n..][k - n] && w[k] == w[n..][k - n];
      }
    }
  }

  lemma FrontField(w: seq<byte>, n: nat, at: nat)
    requires at + 4 <= n <= |w|
    ensures Be32(w[..n], at) == Be32(w, at)
  {
  }

  lemma BackField(w: seq<byte>, n: nat, at: nat)
    requires n + at + 4 <= |w|
    ensures Be32(w[n..], at) == Be32(w, n + at)
  {
  }

  // ---------------------------------------------------------------- one field

  /** What is added to the numbers of an end. */
  function Difference(role: Role, b: Bases): u32 {
    if role.Sender? then Sub(b.senderTo, b.senderFrom) else Sub(b.receiverTo, b.receiverFrom)
  }

  lemma OneTranslated(w: seq<byte>, at: nat, role: Role, b: Bases)
    requires at + 4 <= |w| && !role.Tag?
    ensures Translated(w, Shift(w, at, Difference(role, b)), [Field(at, role)], b)
  {
    hide Sub, Shift, Be32;
    ShiftedField(w, at, if role.Sender? then b.senderTo else b.receiverTo, if role.Sender? then b.senderFrom else b.receiverFrom);
    var f := [Field(at, role)];
    forall k | 0 <= k < |w| && !Touches(f, k)
      ensures !(at <= k < at + 4)
    {
      assert f[0] == Field(at, role);
    }
  }

  /** A second field is translated. */
  lemma OneMore(w: seq<byte>, v: seq<byte>, f: seq<Field>, at: nat, role: Role, b: Bases)
    requires Translated(w, v, f, b) && at + 4 <= |w| && !role.Tag? && Apart(f, [Field(at, role)])
    ensures Translated(w, Shift(v, at, Difference(role, b)), f + [Field(at, role)], b)
  {
    hide Translated, Shift, Apart;
    assert |v| == |w| by { TranslatedLength(w, v, f, b); }
    OneTranslated(v, at, role, b);
    TranslatedThen(w, v, Shift(v, at, Difference(role, b)), f, [Field(at, role)], b);
  }

  lemma TranslatedLength(w: seq<byte>, v: seq<byte>, f: seq<Field>, b: Bases)
    requires Translated(w, v, f, b)
    ensures |v| == |w|
  {
  }

  lemma ThreeTranslated(w: seq<byte>, x: Field, y: Field, z: Field, b: Bases)
    requires x.at + 4 <= |w| && y.at + 4 <= |w| && z.at + 4 <= |w| && !x.role.Tag? && !y.role.Tag? && !z.role.Tag?
    requires Apart([x], [y]) && Apart([x, y], [z])
    ensures Translated(w, Shift(Shift(Shift(w, x.at, Difference(x.role, b)), y.at, Difference(y.role, b)), z.at, Difference(z.role, b)),
                       [x, y, z], b)
  {
    hide Translated, Shift, Apart;
    OneTranslated(w, x.at, x.role, b);
    var v := Shift(w, x.at, Difference(x.role, b));
    OneMore(w, v, [x], y.at, y.role, b);
    assert [x] + [y] == [x, y];
    OneMore(w, Shift(v, y.at, Difference(y.role, b)), [x, y], z.at, z.role, b);
    assert [x, y] + [z] == [x, y, z];
  }

  lemma {:induction false} RunTranslated(w: seq<byte>, at: nat, n: nat, b: Bases)
    requires at + 4 * n <= |w|
    ensures Translated(w, ShiftRun(w, at, n, Difference(Receiver, b)), Duplicates(at, n), b)
    decreases n
  {
    hide Translated, Shift;
    if n == 0 {
      NothingTranslated(w, b);
      assert Duplicates(at, 0) == [];
    } else {
      var v := Shift(w, at, Difference(Receiver, b));
      OneTranslated(w, at, Receiver, b);
      RunTranslated(v, at + 4, n - 1, b);
      TranslatedThen(w, v, ShiftRun(v, at + 4, n - 1, Difference(Receiver, b)), [Field(at, Receiver)], Duplicates(at + 4, n - 1), b);
      assert Duplicates(at, n) == [Field(at, Receiver)] + Duplicates(at + 4, n - 1);
    }
  }

  // ---------------------------------------------------------------- parameters

  /** The differences of a mapping add what the bases say: inbound the remote end sends. */
  predicate AddsIn(d: Diffs, b: Bases) {
    d == Diffs(Difference(Receiver, b), Difference(Sender, b))
  }

  predicate AddsOut(d: Diffs, b: Bases) {
    d == Diffs(Difference(Sender, b), Difference(Receiver, b))
  }

  lemma BothAdd(x: Association)
    ensures AddsIn(Inbound(x).d, BasesIn(x)) && AddsOut(Outbound(x).d, BasesOut(x))
  {
  }

  /** Well-formed parameters, in numbers. */
  lemma ParamOkIff(w: seq<byte>)
    requires |w| >= 4
    ensures var kind := Be16(w, 0);
            ParamOk(w) <==>
              if kind == 0x000d then |w| >= 16
              else if kind == 0x000e || kind == 0x000f || kind == 0x0011 || kind == 0x0012 then |w| >= 8
              else if kind == 0x0010 then |w| == 12 || |w| == 20
              else true
  {
    hide Be16;
  }

  lemma ParamIn3(w: seq<byte>, b: Bases)
    requires |w| >= 16
    ensures Apart([Field(4, Sender)], [Field(8, Receiver)])
    ensures Apart([Field(4, Sender), Field(8, Receiver)], [Field(12, Sender)])
    ensures Apart([Field(4, Receiver)], [Field(16, Receiver)])
    ensures Apart([Field(4, Receiver), Field(16, Receiver)], [Field(12, Sender)])
  {
  }

  /** Inbound, every number of a parameter is translated from the script's base of its end to the
      live one, and no other byte is changed. */
  lemma ParamTranslatedIn(w: seq<byte>, d: Diffs, b: Bases)
    requires ParamOk(w) && AddsIn(d, b)
    ensures ParamSafeIn(w) && Translated(w, ParamIn(w, d), ParamFields(Be16(w, 0), |w|), b)
  {
    hide Translated, Shift, Difference, Apart, Be16;
    var kind := Be16(w, 0);
    ParamOkIff(w);
    NothingTranslated(w, b);
    if kind == 0x000d {
      ParamIn3(w, b);
      ThreeTranslated(w, Field(4, Sender), Field(8, Receiver), Field(12, Sender), b);
    } else if kind == 0x0010 {
      if |w| == 20 {
        ParamIn3(w, b);
        ThreeTranslated(w, Field(4, Receiver), Field(16, Receiver), Field(12, Sender), b);
      } else {
        OneTranslated(w, 4, Receiver, b);
      }
    } else if kind == 0x000e || kind == 0x000f || kind == 0x0011 || kind == 0x0012 {
      OneTranslated(w, 4, Sender, b);
    }
  }

  /** ... and outbound back. */
  lemma ParamTranslatedOut(w: seq<byte>, d: Diffs, b: Bases)
    requires ParamOk(w) && AddsOut(d, b)
    ensures ParamSafeOut(w) && Translated(w, ParamOut(w, d), ParamFields(Be16(w, 0), |w|), b)
  {
    hide Translated, Shift, Difference, Apart, Be16;
    var kind := Be16(w, 0);
    ParamOkIff(w);
    NothingTranslated(w, b);
    if kind == 0x000d {
      ParamIn3(w, b);
      ThreeTranslated(w, Field(4, Sender), Field(8, Receiver), Field(12, Sender), b);
    } else if kind == 0x0010 {
      if |w| == 20 {
        ParamIn3(w, b);
        ThreeTranslated(w, Field(4, Receiver), Field(16, Receiver), Field(12, Sender), b);
      } else {
        OneTranslated(w, 4, Receiver, b);
      }
    } else if kind == 0x000e || kind == 0x000f || kind == 0x0011 || kind == 0x0012 {
      OneTranslated(w, 4, Sender, b);
    }
  }

  /** An item with its padding, and what is behind it. */
  lemma ItemTranslated(v: seq<byte>, c: seq<byte>, rest: seq<byte>, f: seq<Field>, g: seq<Field>, b: Bases)
    requires Whole(v) && Translated(v[..Length(v)], c, f, b) && Translated(v[Next(v)..], rest, g, b)
    ensures Translated(v, c + v[Length(v)..Next(v)] + rest, f + Later(g, Next(v)), b)
  {
    hide Translated, Length, Next;
    var n, m := Length(v), Next(v);
    TranslatedLength(v[..n], c, f, b);
    TranslatedLength(v[m..], rest, g, b);
    var front, r := c + v[n..m], c + v[n..m] + rest;
    NothingTranslated(v[..m][n..], b);
    assert v[..m][..n] == v[..n] && v[..m][n..] == v[n..m] && front[..n] == c && front[n..] == v[n..m];
    TranslatedBeside(v[..m], front, f, n, [], b);
    assert f + Later([], n) == f;
    assert r[..m] == front && r[m..] == rest;
    TranslatedBeside(v, r, f, m, g, b);
  }

  lemma ParamsUnfold(v: seq<byte>)
    requires Whole(v)
    ensures ParamsFields(v) == ParamFields(Be16(v[..Length(v)], 0), |v[..Length(v)]|) + Later(ParamsFields(v[Next(v)..]), Next(v))
  {
    hide ParamFields;
    assert Be16(v[..Length(v)], 0) == Be16(v, 0);
  }

  lemma {:induction false} ParamsTranslatedIn(v: seq<byte>, d: Diffs, b: Bases)
    requires ParamsOk(v) && AddsIn(d, b)
    ensures ParamsSafeIn(v) && Translated(v, ParamsIn(v, d), ParamsFields(v), b)
    decreases |v|
  {
    hide ParamOk, ParamIn, ParamSafeIn, ParamFields, ParamsFields, Translated, Difference, Length, Next;
    if v == [] {
      NothingTranslated(v, b);
      assert ParamsFields([]) == [] by { NoParamFields(); }
    } else {
      ParamsUnfold(v);
      ParamTranslatedIn(v[..Length(v)], d, b);
      ParamsTranslatedIn(v[Next(v)..], d, b);
      ItemTranslated(v, ParamIn(v[..Length(v)], d), ParamsIn(v[Next(v)..], d),
                     ParamFields(Be16(v[..Length(v)], 0), |v[..Length(v)]|), ParamsFields(v[Next(v)..]), b);
    }
  }

  lemma NoParamFields()
    ensures ParamsFields([]) == []
  {
  }

  lemma {:induction false} ParamsTranslatedOut(v: seq<byte>, d: Diffs, b: Bases)
    requires ParamsOk(v) && AddsOut(d, b)
    ensures ParamsSafeOut(v) && ParamsOut(v, d).ok && Translated(v, ParamsOut(v, d).bytes, ParamsFields(v), b)
    decreases |v|
  {
    hide ParamOk, ParamOut, ParamSafeOut, ParamFields, ParamsFields, Translated, Difference, Length, Next;
    if v == [] {
      NothingTranslated(v, b);
      assert ParamsFields([]) == [] by { NoParamFields(); }
    } else {
      ParamsUnfold(v);
      ParamTranslatedOut(v[..Length(v)], d, b);
      ParamsTranslatedOut(v[Next(v)..], d, b);
      ItemTranslated(v, ParamOut(v[..Length(v)], d), ParamsOut(v[Next(v)..], d).bytes,
                     ParamFields(Be16(v[..Length(v)], 0), |v[..Length(v)]|), ParamsFields(v[Next(v)..]), b);
    }
  }

  // ---------------------------------------------------------------- chunks

  /** Well-formed chunks, in numbers. */
  lemma ChunkOkIff(c: seq<byte>)
    requires |c| >= 4
    ensures var kind := c[0];
            ChunkOk(c) <==>
              && Be16(c, 2) == |c|
              && if kind == 0x00 then |c| >= 16
                 else if kind == 0x01 || kind == 0x02 || kind == 0x40 then |c| >= 20
                 else if kind == 0x07 || kind == 0x0c || kind == 0x0d || kind == 0xc0 || kind == 0xc2 then |c| >= 8
                 else if kind == 0x03 then |c| >= 16 && |c| == 16 + 4 * (Be16(c, 12) + Be16(c, 14))
                 else if kind == 0x10 then |c| >= 20 && |c| == 20 + 4 * (Be16(c, 12) + Be16(c, 14) + Be16(c, 16))
                 else kind == 0x82 ==> ParamsOk(c[4..])
  {
    hide Be16, ParamsOk;
  }

  /** The fields that are translated: inbound, not the duplicates behind NR gap blocks; outbound on
      little-endian hosts, none of a RE-CONFIG chunk of four lengths. */
  function TranslatedFields(c: seq<byte>, inbound: bool, little: bool): seq<Field>
    requires |c| >= 4
  {
    if inbound && c[0] == 0x10 && |c| >= 20 && Be16(c, 14) != 0 then [Field(4, Receiver)]
    else if !inbound && c[0] == 0x82 && little && (|c| == 256 || |c| == 512 || |c| == 768 || |c| == 1024) then []
    else ChunkFields(c)
  }

  lemma RetagTranslated(c: seq<byte>, m: Mapping, b: Bases)
    requires |c| >= 20 && m.tagFrom == b.tagFrom && m.tagTo == b.tagTo
    ensures Translated(c, Retag(c, m), [Field(4, Tag)], b)
  {
    hide Sub, Be32, Be32Bytes;
    FieldOf(c, 4, Rename(Be32(c, 4), m));
    var f := [Field(4, Tag)];
    forall k | 0 <= k < |c| && !Touches(f, k)
      ensures !(4 <= k < 8)
    {
      assert f[0] == Field(4, Tag);
    }
  }

  lemma InitTranslated(c: seq<byte>, m: Mapping, b: Bases)
    requires |c| >= 20 && m.tagFrom == b.tagFrom && m.tagTo == b.tagTo
    ensures Translated(c, Retag(Shift(c, 16, Difference(Sender, b)), m), [Field(16, Sender), Field(4, Tag)], b)
  {
    hide Translated, Shift, Retag, Difference;
    var v := Shift(c, 16, Difference(Sender, b));
    OneTranslated(c, 16, Sender, b);
    RetagTranslated(v, m, b);
    TranslatedThen(c, v, Retag(v, m), [Field(16, Sender)], [Field(4, Tag)], b);
    assert [Field(16, Sender)] + [Field(4, Tag)] == [Field(16, Sender), Field(4, Tag)];
  }

  lemma SackTranslated(c: seq<byte>, b: Bases)
    requires ChunkOk(c) && IsSack(c[0])
    ensures DuplicatesFit(c) && |c| >= 8
    ensures Translated(c, ShiftDuplicates(Shift(c, 4, Difference(Receiver, b)), c, Difference(Receiver, b)), ChunkFields(c), b)
  {
    hide Translated, Shift, ShiftRun, Difference, Be16, DupStart, DupCount, ChunkFields;
    SackShape(c);
    var v, at, n := Shift(c, 4, Difference(Receiver, b)), DupStart(c, 0, c[0]), DupCount(c, 0, c[0]);
    OneTranslated(c, 4, Receiver, b);
    RunTranslated(v, at, n, b);
    DuplicatesBehind(at, n);
    TranslatedThen(c, v, ShiftRun(v, at, n, Difference(Receiver, b)), [Field(4, Receiver)], Duplicates(at, n), b);
    SackFields(c);
  }

  lemma DuplicatesBehind(at: nat, n: nat)
    requires at >= 8
    ensures Apart([Field(4, Receiver)], Duplicates(at, n))
  {
  }

  lemma SackFields(c: seq<byte>)
    requires ChunkOk(c) && IsSack(c[0])
    ensures ChunkFields(c) == [Field(4, Receiver)] + Duplicates(DupStart(c, 0, c[0]), DupCount(c, 0, c[0]))
  {
    hide Be16, Duplicates;
    ChunkOkIff(c);
    assert |c| <= 0xffff;
  }

  lemma ReconfigTranslatedIn(c: seq<byte>, x: Association)
    requires ChunkOk(c) && c[0] == 0x82
    ensures ChunkSafeIn(c) && Translated(c, ChunkIn(c, Inbound(x)), ChunkFields(c), BasesIn(x))
  {
    hide Translated, ParamsOk, ParamsIn, ParamsSafeIn, ParamsFields, Inbound, BasesIn, Difference;
    BothAdd(x);
    var b := BasesIn(x);
    ParamsTranslatedIn(c[4..], Inbound(x).d, b);
    NothingTranslated(c[..4], b);
    var r := ChunkIn(c, Inbound(x));
    if |c| >= 8 {
      assert r[..4] == c[..4] && r[4..] == ParamsIn(c[4..], Inbound(x).d);
    } else {
      NoParams(c[4..]);
      assert ParamsIn(c[4..], Inbound(x).d) == [];
      assert r == c;
    }
    TranslatedBeside(c, r, [], 4, ParamsFields(c[4..]), b);
    assert [] + Later(ParamsFields(c[4..]), 4) == Later(ParamsFields(c[4..]), 4);
  }

  lemma ReconfigTranslatedOut(c: seq<byte>, x: Association, little: bool)
    requires ChunkOk(c) && c[0] == 0x82
    ensures ChunkSafeOut(c, little) && ChunkOut(c, Outbound(x), little).ok
    ensures Translated(c, ChunkOut(c, Outbound(x), little).bytes, TranslatedFields(c, false, little), BasesOut(x))
  {
    hide Translated, ParamsOk, ParamsOut, ParamsSafeOut, ParamsFields, Outbound, BasesOut, Difference, Raw;
    BothAdd(x);
    var b := BasesOut(x);
    ParamsTranslatedOut(c[4..], Outbound(x).d, b);
    NothingTranslated(c[..4], b);
    NothingTranslated(c, b);
    SkippedIff(c, little);
    var r := ChunkOut(c, Outbound(x), little).bytes;
    if Raw(Length(c), little) > 4 {
      assert r[..4] == c[..4] && r[4..] == ParamsOut(c[4..], Outbound(x).d).bytes;
      TranslatedBeside(c, r, [], 4, ParamsFields(c[4..]), b);
      assert [] + Later(ParamsFields(c[4..]), 4) == Later(ParamsFields(c[4..]), 4);
    } else if |c| < 8 {
      NoParams(c[4..]);
      assert ParamsFields([]) == [] by { NoParamFields(); }
      assert ChunkFields(c) == [];
    }
  }

  /** Which lengths the outbound mapping takes for an empty chunk. */
  lemma SkippedIff(c: seq<byte>, little: bool)
    requires ChunkOk(c)
    ensures Raw(Length(c), little) <= 4 <==> (|c| == 4 && !little) || (little && (|c| == 256 || |c| == 512 || |c| == 768 || |c| == 1024))
  {
    SkippedRaw(c, little);
  }

  /** Inbound, exactly the numbers of the table are translated, each from the script's base of its
      end to the live one. */
  lemma ChunkTranslatedIn(c: seq<byte>, x: Association, little: bool)
    requires ChunkOk(c)
    ensures ChunkSafeIn(c) && Translated(c, ChunkIn(c, Inbound(x)), TranslatedFields(c, true, little), BasesIn(x))
  {
    hide Translated, Shift, Retag, ShiftRun, Difference, Be16, DupStart, DupCount, ParamsIn, ParamsSafeIn, ParamsOk, Duplicates, ParamsFields;
    var b := BasesIn(x);
    BothAdd(x);
    ChunkOkIff(c);
    NothingTranslated(c, b);
    if c[0] == 0x82 {
      ReconfigTranslatedIn(c, x);
    } else if IsSack(c[0]) {
      SackShape(c);
      SackTranslated(c, b);
      OneTranslated(c, 4, Receiver, b);
    } else if IsInit(c[0]) {
      InitTranslated(c, Inbound(x), b);
    } else if HasPlainTsn(c[0]) {
      OneTranslated(c, 4, if CarriesOwnTsn(c[0]) then Sender else Receiver, b);
    }
  }

  /** ... and outbound back. */
  lemma ChunkTranslatedOut(c: seq<byte>, x: Association, little: bool)
    requires ChunkOk(c)
    ensures ChunkSafeOut(c, little) && ChunkOut(c, Outbound(x), little).ok
    ensures Translated(c, ChunkOut(c, Outbound(x), little).bytes, TranslatedFields(c, false, little), BasesOut(x))
  {
    hide Translated, Shift, Retag, ShiftRun, Difference, Be16, DupStart, DupCount, ParamsOut, ParamsSafeOut, ParamsOk, Duplicates, ParamsFields, Raw;
    var b := BasesOut(x);
    BothAdd(x);
    ChunkOkIff(c);
    NothingTranslated(c, b);
    if c[0] == 0x82 {
      ReconfigTranslatedOut(c, x, little);
    } else if IsSack(c[0]) {
      SackShape(c);
      SackTranslated(c, b);
    } else if IsInit(c[0]) {
      InitTranslated(c, Outbound(x), b);
    } else if HasPlainTsn(c[0]) {
      OneTranslated(c, 4, if CarriesOwnTsn(c[0]) then Sender else Receiver, b);
    }
  }

  // ---------------------------------------------------------------- packets

  /** The fields that are translated in a packet. */
  function PacketFields(s: seq<byte>, inbound: bool, little: bool): seq<Field> {
    if |s| < 4 || Be16(s, 2) < 4 || Be16(s, 2) > |s| then []
    else
      TranslatedFields(s[..Be16(s, 2)], inbound, little) + Later(PacketFields(s[Step(s)..], inbound, little), Step(s))
  }

  lemma PacketUnfold(s: seq<byte>, inbound: bool, little: bool)
    requires Whole(s)
    ensures PacketFields(s, inbound, little) ==
      TranslatedFields(s[..Length(s)], inbound, little) + Later(PacketFields(s[Next(s)..], inbound, little), Next(s))
  {
    hide TranslatedFields;
  }

  lemma NoFields(inbound: bool, little: bool)
    ensures PacketFields([], inbound, little) == []
  {
  }

  /** A well-formed packet, inbound: exactly the numbers that the tables list are translated. */
  lemma {:induction false} PacketTranslatedIn(s: seq<byte>, x: Association, little: bool)
    requires WellFormed(s)
    ensures SafeIn(s) && Translated(s, MapIn(s, Inbound(x)), PacketFields(s, true, little), BasesIn(x))
    decreases |s|
  {
    hide ChunkOk, ChunkIn, ChunkSafeIn, Translated, TranslatedFields, PacketFields, Inbound, BasesIn, Length, Next;
    if s == [] {
      NothingTranslated(s, BasesIn(x));
      NoFields(true, little);
    } else {
      PacketUnfold(s, true, little);
      ChunkTranslatedIn(s[..Length(s)], x, little);
      PacketTranslatedIn(s[Next(s)..], x, little);
      ItemTranslated(s, ChunkIn(s[..Length(s)], Inbound(x)), MapIn(s[Next(s)..], Inbound(x)),
                     TranslatedFields(s[..Length(s)], true, little), PacketFields(s[Next(s)..], true, little), BasesIn(x));
    }
  }

  /** ... and outbound, and the mapping succeeds. */
  lemma {:induction false} PacketTranslatedOut(s: seq<byte>, x: Association, little: bool)
    requires WellFormed(s)
    ensures SafeOut(s, little) && MapOut(s, Outbound(x), little).ok
    ensures Translated(s, MapOut(s, Outbound(x), little).bytes, PacketFields(s, false, little), BasesOut(x))
    decreases |s|
  {
    hide ChunkOk, ChunkOut, ChunkSafeOut, Translated, TranslatedFields, PacketFields, Outbound, BasesOut, Length, Next;
    if s == [] {
      NothingTranslated(s, BasesOut(x));
      NoFields(false, little);
    } else {
      PacketUnfold(s, false, little);
      ChunkTranslatedOut(s[..Length(s)], x, little);
      PacketTranslatedOut(s[Next(s)..], x, little);
      ItemTranslated(s, ChunkOut(s[..Length(s)], Outbound(x), little).bytes, MapOut(s[Next(s)..], Outbound(x), little).bytes,
                     TranslatedFields(s[..Length(s)], false, little), PacketFields(s[Next(s)..], false, little), BasesOut(x));
    }
  }

  // ---------------------------------------------------------------- partial items

  /** Only whole items follow each other, up to the end. */
  predicate OnlyWhole(v: seq<byte>) {
    v == [] || (|v| >= 4 && 4 <= Be16(v, 2) <= |v| && OnlyWhole(v[Step(v)..]))
  }

  /** The parameters of a RE-CONFIG chunk are whole, where they are looked at. */
  predicate WholeInside(c: seq<byte>, little: bool)
    requires |c| >= 4
  {
    c[0] == 0x82 && |c| > 4 && !(little && (|c| == 256 || |c| == 512 || |c| == 768 || |c| == 1024)) ==> OnlyWhole(c[4..])
  }

  predicate OnlyWholeInside(s: seq<byte>, little: bool) {
    s == [] || (|s| >= 4 && 4 <= Be16(s, 2) <= |s| && WholeInside(s[..Be16(s, 2)], little) && OnlyWholeInside(s[Step(s)..], little))
  }

  lemma StepIsNext(v: seq<byte>)
    requires Whole(v)
    ensures Step(v) == Next(v)
  {
  }

  lemma {:induction false} ParamsSucceedIff(v: seq<byte>, d: Diffs)
    requires ParamsSafeOut(v)
    ensures ParamsOut(v, d).ok <==> OnlyWhole(v)
    decreases |v|
  {
    hide ParamOut, ParamSafeOut, Next, Step;
    if !Stops(v) {
      StepIsNext(v);
      ParamsSucceedIff(v[Next(v)..], d);
    }
  }

  lemma ChunkSucceedsIff(c: seq<byte>, m: Mapping, little: bool)
    requires ChunkSafeOut(c, little) && Length(c) == |c|
    ensures ChunkOut(c, m, little).ok <==> WholeInside(c, little)
  {
    hide Shift, ShiftRun, Retag, ParamsOut, ParamsSafeOut, OnlyWhole, DupStart, DupCount, Raw;
    SkippedRaw(c, little);
    if c[0] == 0x82 && Raw(Length(c), little) > 4 {
      ParamsSucceedIff(c[4..], m.d);
      if |c| == 4 {
        assert c[4..] == [];
        NothingPartial();
      }
    }
  }

  lemma NothingPartial()
    ensures OnlyWhole([])
  {
  }

  lemma SkippedRaw(c: seq<byte>, little: bool)
    requires |c| >= 4 && Length(c) == |c|
    ensures Raw(Length(c), little) <= 4 <==> (|c| == 4 && !little) || (little && (|c| == 256 || |c| == 512 || |c| == 768 || |c| == 1024))
  {
    hide Length;
    var n: int := |c|;
    assert n == n / 0x100 * 0x100 + n % 0x100;
  }

  /** An outbound packet is rejected exactly when some chunk, or some parameter that is looked at,
      is partial. */
  lemma {:induction false} OutboundSucceedsIff(s: seq<byte>, m: Mapping, little: bool)
    requires SafeOut(s, little)
    ensures MapOut(s, m, little).ok <==> OnlyWholeInside(s, little)
    decreases |s|
  {
    hide ChunkOut, ChunkSafeOut, WholeInside, Next, Step;
    if !Stops(s) {
      StepIsNext(s);
      assert Length(s[..Length(s)]) == Length(s);
      ChunkSucceedsIff(s[..Length(s)], m, little);
      OutboundSucceedsIff(s[Next(s)..], m, little);
    }
  }
}
