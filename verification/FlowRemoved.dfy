/** The version 6 FlowRemoved message, with a match and a stat section that share one length
    (include/ofp/flowremovedv6.h, src/ofp/flowremovedv6.cpp). */
module FlowRemoved {
  import opened Bytes
  import opened Options
  import opened Framing
  import opened Oxm
  import opened Channel
  import opened Sections

  const OFPT_FLOW_REMOVED := 11

  const OXS_DURATION := OxmType(0x8002, 0, false, 8)
  const OXS_PACKET_COUNT := OxmType(0x8002, 4, false, 8)
  const OXS_BYTE_COUNT := OxmType(0x8002, 5, false, 8)

  // ---- reading ----

  /** Offset of the stat header: behind the padded match. */
  function StatOffset(m: Bytes): nat
    requires |m| >= 28
  {
    24 + PadLength(ReadBig16(m, 26))
  }

  function MatchOf(m: Bytes): Bytes
    requires |m| >= 28 && 4 <= ReadBig16(m, 26) && 24 + ReadBig16(m, 26) <= |m|
  {
    m[28..24 + ReadBig16(m, 26)]
  }

  function StatOf(m: Bytes): Bytes
    requires |m| >= 28 && StatOffset(m) + 4 <= |m|
    requires 4 <= ReadBig16(m, StatOffset(m) + 2) && StatOffset(m) + ReadBig16(m, StatOffset(m) + 2) <= |m|
  {
    m[StatOffset(m) + 4..StatOffset(m) + ReadBig16(m, StatOffset(m) + 2)]
  }

  /** FlowRemovedV6::validateInput on a message of `|m|` bytes: nothing may be left over. */
  predicate ValidFlowRemoved(m: Bytes) {
    && |m| >= 28
    && ValidMatch(m[24..], m[0] as int)
    && StatOffset(m) <= |m|
    && ValidStat(m[StatOffset(m)..])
    && |m| - StatOffset(m) == PadLength(ReadBig16(m[StatOffset(m)..], 2))
  }

  // ---- building ----

  function Layout6(version: nat, xid: nat, fixed: Bytes, oxm: Bytes, stat: Bytes): Bytes
    requires version < 256
  {
    MessageHeader(version, OFPT_FLOW_REMOVED, PadLength(PadLength(28 + |oxm|) + 4 + |stat|), xid)
    + fixed + Section(OFPMT_OXM, oxm) + Section(0, stat)
  }

  class FlowRemovedV6Builder {
    var fixed: Bytes // table, reason, priority, timeouts, cookie: bytes 8 to 24
    var oxm: Bytes   // the match
    const stat: OXMList

    ghost predicate Valid()
      reads this, stat
    {
      |fixed| == 16 && stat.Valid()
    }

    constructor (fixed: Bytes, oxm: Bytes)
      requires |fixed| == 16
      ensures Valid() && fresh(stat) && stat.Items() == [] && this.fixed == fixed && this.oxm == oxm
    {
      this.fixed := fixed;
      this.oxm := oxm;
      this.stat := new OXMList();
    }

    /** setPacketCount, setByteCount and setDuration: one more entry in the stat list. */
    method SetStat(t: OxmType, value: Bytes)
      requires Valid() && t in {OXS_DURATION, OXS_PACKET_COUNT, OXS_BYTE_COUNT} && |value| == 8
      modifies stat
      ensures Valid() && stat.Items() == old(stat.Items()) + [Entry(t, None, value, None).ToBytes()]
    {
      stat.Add(Entry(t, None, value, None));
    }

    /** The header of a section, behind whatever precedes it, and then its list with the padding. */
    method WriteSection(channel: MemoryChannel, head: Bytes, kind: nat, list: Bytes, pad: nat)
      requires pad == PadLength(4 + |list|) - (4 + |list|)
      modifies channel`buf
      ensures channel.buf == old(channel.buf) + (head + Section(kind, list))
    {
      hide Big16, PadLength, Section, Zeros;
      ghost var start := channel.buf;
      channel.Write(head + Big16(kind) + Big16(4 + |list|));
      channel.WritePadded(list, pad);
      SectionPieces(start, head, kind, list, pad);
    }

    method Send(channel: MemoryChannel) returns (xid: nat)
      requires Valid() && channel.version < 256
      modifies channel`buf, channel`nextXid, channel`flushed
      ensures xid == old(channel.nextXid)
      ensures channel.buf == old(channel.buf) + Layout6(channel.version, xid, fixed, oxm, stat.buf)
    {
      hide MessageHeader, Big16, PadLength, Section, Zeros;
      var msgMatchLen := 28 + |oxm|;
      var msgMatchLenPadded := PadLength(msgMatchLen);
      var msgStatLen := msgMatchLenPadded + 4 + |stat.buf|;
      var msgStatLenPadded := PadLength(msgStatLen);
      PadPlus24(4 + |oxm|);
      PadMore(msgMatchLenPadded, 4 + |stat.buf|);
      xid := channel.NextXid();
      ghost var start := channel.buf;
      var head := MessageHeader(channel.version, OFPT_FLOW_REMOVED, msgStatLenPadded, xid) + fixed;
      WriteSection(channel, head, OFPMT_OXM, oxm, msgMatchLenPadded - msgMatchLen);
      WriteSection(channel, [], 0, stat.buf, msgStatLenPadded - msgStatLen);
      channel.Flush();
      assert channel.buf == start + (head + Section(OFPMT_OXM, oxm) + Section(0, stat.buf));
    }
  }

  lemma PadPlus24(n: nat)
    ensures PadLength(24 + n) == 24 + PadLength(n)
  {}

  lemma PadMore(a: nat, n: nat)
    requires a % 8 == 0
    ensures PadLength(a + n) == a + PadLength(n)
  {}

  // ---- what was sent reads back ----

  lemma {:induction false} Layout6Shape(version: nat, xid: nat, fixed: Bytes, oxm: Bytes, stat: Bytes)
    requires version < 256 && |fixed| == 16 && PadLength(28 + |oxm|) + PadLength(4 + |stat|) < 0x1_0000
    ensures var m := Layout6(version, xid, fixed, oxm, stat);
      && |m| >= 28 && ReadBig16(m, 2) == |m| && m[8..24] == fixed
      && m[0] as int == version && m[1] == 11 && ReadBig32(m, 4) == xid % 0x1_0000_0000
      && m[24..] == Section(OFPMT_OXM, oxm) + Section(0, stat)
  {
    hide MessageHeader, Section, PadLength;
    var m := Layout6(version, xid, fixed, oxm, stat);
    PadPlus24(4 + |oxm|);
    PadMore(PadLength(28 + |oxm|), 4 + |stat|);
    var length := PadLength(PadLength(28 + |oxm|) + 4 + |stat|);
    var rest := fixed + Section(OFPMT_OXM, oxm) + Section(0, stat);
    assert m == MessageHeader(version, OFPT_FLOW_REMOVED, length, xid) + rest;
    MessageHeaderFields(version, OFPT_FLOW_REMOVED, length, xid, rest);
  }

  /** The header fields are those given, the length is exactly the bytes written, match and stat are
      recovered, and validation accepts the message exactly when both lists are well-formed. */
  lemma {:induction false} Layout6ReadsBack(version: nat, xid: nat, fixed: Bytes, oxm: Bytes, stat: Bytes)
    requires version < 256 && |fixed| == 16 && PadLength(28 + |oxm|) + PadLength(4 + |stat|) < 0x1_0000
    ensures var m := Layout6(version, xid, fixed, oxm, stat);
      && |m| >= 28 && ReadBig16(m, 2) == |m| && m[8..24] == fixed
      && m[0] as int == version && m[1] == 11 && ReadBig32(m, 4) == xid % 0x1_0000_0000
      && ReadBig16(m, 26) == 4 + |oxm| && MatchOf(m) == oxm
      && StatOffset(m) + 4 <= |m| && ReadBig16(m, StatOffset(m) + 2) == 4 + |stat| && StatOf(m) == stat
      && (ValidFlowRemoved(m) <==> WellFormed(Tlv, oxm) && WellFormed(Tlv, stat))
  {
    hide Layout6, Section, Parse, ValidMatch, ValidStat;
    var m := Layout6(version, xid, fixed, oxm, stat);
    Layout6Shape(version, xid, fixed, oxm, stat);
    SectionReadsBack(m, 24, OFPMT_OXM, oxm, Section(0, stat));
    var p := StatOffset(m);
    assert m[p..] == Section(0, stat) + [];
    SectionReadsBack(m, p, 0, stat, []);
    SectionAt(m, p, m[p..]);
  }

  ghost predicate TwoSections(b: Bytes, oxm: Bytes, pad: Bytes, rest: Bytes, stat: Bytes, tail: Bytes) {
    IsSection(b, 1, oxm, pad, rest) && IsSection(rest, 0, stat, tail, [])
  }

  /** From version 4 on, exactly the messages pass that consist of a header and fixed part, an OXM match
      section and a stat section, with nothing behind it. */
  lemma {:induction false} ValidFlowRemovedIff(m: Bytes)
    requires |m| >= 24 && m[0] >= 4
    ensures ValidFlowRemoved(m)
       <==> exists oxm, pad, rest, stat, tail :: TwoSections(m[24..], oxm, pad, rest, stat, tail)
  {
    hide IsSection, ReadBig16, Parse, ValidMatch, ValidStat, PadLength;
    if ValidFlowRemoved(m) { PassedHasSections(m); }
    forall oxm, pad, rest, stat, tail | TwoSections(m[24..], oxm, pad, rest, stat, tail)
      ensures ValidFlowRemoved(m)
    {
      SectionsPass(m, oxm, pad, rest, stat, tail);
    }
  }

  lemma {:induction false} PassedHasSections(m: Bytes)
    requires |m| >= 24 && m[0] >= 4 && ValidFlowRemoved(m)
    ensures exists oxm, pad, rest, stat, tail :: TwoSections(m[24..], oxm, pad, rest, stat, tail)
  {
    hide IsSection, ReadBig16, Parse, PadLength;
    var b := m[24..];
    SectionAt(m, 24, b);
    var oxm, pad, rest := ReadSection(b);
    assert rest == m[StatOffset(m)..];
    var stat, tail, none := ReadSection(rest);
    assert none == [];
    assert TwoSections(b, oxm, pad, rest, stat, tail);
  }

  lemma {:induction false} SectionsPass(m: Bytes, oxm: Bytes, pad: Bytes, rest: Bytes, stat: Bytes, tail: Bytes)
    requires |m| >= 24 && m[0] >= 4 && TwoSections(m[24..], oxm, pad, rest, stat, tail)
    ensures ValidFlowRemoved(m)
  {
    hide IsSection, ReadBig16, Parse, ValidMatch, ValidStat, PadLength;
    var b := m[24..];
    IsSectionReads(b, 1, oxm, pad, rest);
    IsSectionReads(rest, 0, stat, tail, []);
    ValidMatchIff(b, m[0] as int);
    ValidStatIff(rest);
    SectionAt(m, 24, b);
    assert m[24 + PadLength(4 + |oxm|)..] == rest;
  }

  /** duration(), packetCount() and byteCount() of a validated message. */
  method GetStat(m: Bytes, t: OxmType) returns (value: Option<Bytes>)
    requires ValidFlowRemoved(m) && t.Valid()
    ensures StatOffset(m) + 4 <= |m|
    ensures 4 <= ReadBig16(m, StatOffset(m) + 2) && StatOffset(m) + ReadBig16(m, StatOffset(m) + 2) <= |m|
    ensures WellFormed(Tlv, StatOf(m)) && FirstOfType(Parse(Tlv, StatOf(m)).value, t, value)
  {
    hide Parse;
    var p := StatOffset(m);
    SectionAt(m, p, m[p..]);
    assert m[p..][4..ReadBig16(m, p + 2)] == StatOf(m);
    value := Get(StatOf(m), t);
  }

  /** Whatever was set, in whatever order, each getter returns the value first set for its type, and
      nothing for a type that was not set. */
  lemma {:induction false} GettersReturn(version: nat, xid: nat, fixed: Bytes, oxm: Bytes, xs: seq<Entry>,
                                                 t: OxmType, k: nat, value: Option<Bytes>)
    requires version < 256 && |fixed| == 16 && WellFormed(Tlv, oxm)
    requires forall i :: 0 <= i < |xs| ==> xs[i].Valid() && xs[i].experimenter.None? && xs[i].mask.None?
    requires k <= |xs| && (forall j :: 0 <= j < k ==> xs[j].oxmType != t) && (k < |xs| ==> xs[k].oxmType == t)
    requires PadLength(28 + |oxm|) + PadLength(4 + |Join(EncodeAll(xs))|) < 0x1_0000
    ensures var m := Layout6(version, xid, fixed, oxm, Join(EncodeAll(xs)));
      && ValidFlowRemoved(m) && StatOffset(m) + 4 <= |m| && ReadBig16(m, StatOffset(m) + 2) == 4 + |Join(EncodeAll(xs))|
      && WellFormed(Tlv, StatOf(m))
      && (FirstOfType(Parse(Tlv, StatOf(m)).value, t, value)
          <==> value == if k == |xs| then None else Some(xs[k].value))
  {
    hide Layout6, FirstOfType, ValidFlowRemoved, Payload, Join, PadLength, StatOf, StatOffset;
    BuiltLookup(xs, t, k, value);
    if k < |xs| { PlainPayload(xs[k]); }
    Layout6ReadsBack(version, xid, fixed, oxm, Join(EncodeAll(xs)));
  }
}
