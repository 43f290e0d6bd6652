/** Message headers and the match and stat sections inside messages (include/ofp/header.h,
    src/ofp/matchheader.cpp, src/ofp/statheader.cpp, SafeByteRange in include/ofp/byterange.h). */
module Sections {
  import opened Bytes
  import opened Framing

  const OFPMT_STANDARD := 0
  const OFPMT_OXM := 1
  const STANDARD_MATCH_SIZE := 88

  function MessageHeader(version: nat, msgType: nat, length: nat, xid: nat): (h: Bytes)
    requires version < 256 && msgType < 256
    ensures |h| == 8
  {
    [version as UInt8, msgType as UInt8] + Big16(length) + Big32(xid)
  }

  lemma MessageHeaderFields(version: nat, msgType: nat, length: nat, xid: nat, rest: Bytes)
    requires version < 256 && msgType < 256
    ensures var m := MessageHeader(version, msgType, length, xid) + rest;
      && m[0] as int == version && m[1] as int == msgType
      && ReadBig16(m, 2) == length % 0x1_0000 && ReadBig32(m, 4) == xid % 0x1_0000_0000
  {
    var m := MessageHeader(version, msgType, length, xid) + rest;
    assert m[2..4] == Big16(length) && m[4..8] == Big32(xid);
    Big16RoundTrip(length, m, 2);
    Big32RoundTrip(xid, m, 4);
  }

  /** Bytes from `offset` up to `length`, or none when the offset is past the length. */
  function SafeByteRange(m: Bytes, length: nat, offset: nat): Bytes
    requires length <= |m|
  {
    if length >= offset then m[offset..length] else []
  }

  /** A 4-byte header holding a type (or a reserved zero) and a length, an OXM list, padding. */
  function Section(kind: nat, oxm: Bytes): (b: Bytes)
    ensures |b| == PadLength(4 + |oxm|)
  {
    Big16(kind) + Big16(4 + |oxm|) + oxm + Zeros(PadLength(4 + |oxm|) - (4 + |oxm|))
  }

  /** A section written in three steps behind other bytes. */
  lemma {:induction false} SectionPieces(start: Bytes, head: Bytes, kind: nat, oxm: Bytes, pad: nat)
    requires pad == PadLength(4 + |oxm|) - (4 + |oxm|)
    ensures start + (head + Big16(kind) + Big16(4 + |oxm|)) + oxm + Zeros(pad) == start + (head + Section(kind, oxm))
  {
    hide Big16, Zeros, PadLength;
  }

  lemma SectionFields(kind: nat, oxm: Bytes, rest: Bytes)
    requires kind < 0x1_0000 && 4 + |oxm| < 0x1_0000
    ensures var b := Section(kind, oxm) + rest;
      && ReadBig16(b, 0) == kind && ReadBig16(b, 2) == 4 + |oxm| && b[4..4 + |oxm|] == oxm
      && b[PadLength(4 + |oxm|)..] == rest
  {
    var b := Section(kind, oxm) + rest;
    assert b[0..2] == Big16(kind) && b[2..4] == Big16(4 + |oxm|);
    Big16RoundTrip(kind, b, 0);
    Big16RoundTrip(4 + |oxm|, b, 2);
  }

  /** MatchHeader::validateInput, for the bytes from the match header to the end of the message. */
  predicate ValidMatch(b: Bytes, version: nat) {
    && |b| >= 4
    && var kind, length := ReadBig16(b, 0), ReadBig16(b, 2);
    if version < 4 && kind == OFPMT_STANDARD then length == STANDARD_MATCH_SIZE
    else kind == OFPMT_OXM && 4 <= length && PadLength(length) <= |b| && WellFormed(Tlv, b[4..length])
  }

  /** StatHeader::validateInput, likewise. */
  predicate ValidStat(b: Bytes) {
    && |b| >= 4
    && var reserved, length := ReadBig16(b, 0), ReadBig16(b, 2);
       reserved == 0 && 4 <= length && PadLength(length) <= |b| && WellFormed(Tlv, b[4..length])
  }

  lemma SectionAt(m: Bytes, at: nat, tail: Bytes)
    requires at + 4 <= |m| && tail == m[at..]
    ensures ReadBig16(m, at) == ReadBig16(tail, 0) && ReadBig16(m, at + 2) == ReadBig16(tail, 2)
  {}

  /** Where the OXM list of a section at offset `at` lies, and where the section ends. */
  lemma {:induction false} SectionReadsBack(m: Bytes, at: nat, kind: nat, oxm: Bytes, rest: Bytes)
    requires kind < 0x1_0000 && 4 + |oxm| < 0x1_0000 && at <= |m| && m[at..] == Section(kind, oxm) + rest
    ensures at + PadLength(4 + |oxm|) <= |m| && m[at + PadLength(4 + |oxm|)..] == rest
    ensures ReadBig16(m, at) == kind && ReadBig16(m, at + 2) == 4 + |oxm|
    ensures m[at + 4..at + 4 + |oxm|] == oxm
    ensures kind == OFPMT_OXM ==> forall version :: ValidMatch(m[at..], version) <==> WellFormed(Tlv, oxm)
    ensures kind == 0 ==> (ValidStat(m[at..]) <==> WellFormed(Tlv, oxm))
  {
    hide Section, Parse;
    SectionFields(kind, oxm, rest);
    var tail := m[at..];
    SectionAt(m, at, tail);
    var p := PadLength(4 + |oxm|);
    assert |tail| == p + |rest|;
    assert tail[p..] == m[at + p..];
    assert tail[4..4 + |oxm|] == m[at + 4..at + 4 + |oxm|];
  }

  /** A section as it may be received: a header, a well-formed list, any padding, and what follows. */
  ghost predicate IsSection(b: Bytes, kind: nat, list: Bytes, pad: Bytes, rest: Bytes) {
    && 4 + |list| < 0x1_0000 && |pad| == PadLength(4 + |list|) - (4 + |list|)
    && b == Big16(kind) + Big16(4 + |list|) + list + pad + rest && WellFormed(Tlv, list)
  }

  lemma {:induction false} IsSectionReads(b: Bytes, kind: nat, list: Bytes, pad: Bytes, rest: Bytes)
    requires IsSection(b, kind, list, pad, rest) && kind < 0x1_0000
    ensures |b| >= 4 && ReadBig16(b, 0) == kind && ReadBig16(b, 2) == 4 + |list|
    ensures PadLength(4 + |list|) <= |b| && b[4..4 + |list|] == list && b[PadLength(4 + |list|)..] == rest
  {
    hide Big16, ReadBig16, Parse;
    Big16RoundTrip(kind, b, 0);
    Big16RoundTrip(4 + |list|, b, 2);
  }

  lemma {:induction false} ReadSection(b: Bytes) returns (list: Bytes, pad: Bytes, rest: Bytes)
    requires |b| >= 4 && 4 <= ReadBig16(b, 2) && PadLength(ReadBig16(b, 2)) <= |b|
    requires WellFormed(Tlv, b[4..ReadBig16(b, 2)])
    ensures IsSection(b, ReadBig16(b, 0), list, pad, rest)
    ensures list == b[4..ReadBig16(b, 2)] && rest == b[PadLength(ReadBig16(b, 2))..]
  {
    hide Big16, ReadBig16, Parse;
    var length := ReadBig16(b, 2);
    list, pad, rest := b[4..length], b[length..PadLength(length)], b[PadLength(length)..];
    ReadBig16RoundTrip(b, 0);
    ReadBig16RoundTrip(b, 2);
    assert b == b[0..2] + b[2..4] + list + pad + rest;
  }

  /** From version 4 on, a match section is valid if and only if it is such an OXM section. */
  lemma {:induction false} ValidMatchIff(b: Bytes, version: nat)
    requires version >= 4
    ensures ValidMatch(b, version) <==> exists list, pad, rest :: IsSection(b, 1, list, pad, rest)
  {
    hide Big16, ReadBig16, Parse, PadLength, IsSection;
    if ValidMatch(b, version) { var list, pad, rest := ReadSection(b); }
    forall list, pad, rest | IsSection(b, 1, list, pad, rest) ensures ValidMatch(b, version) {
      IsSectionReads(b, 1, list, pad, rest);
      assert WellFormed(Tlv, list) by { SectionList(b, 1, list, pad, rest); }
    }
  }

  lemma {:induction false} ValidStatIff(b: Bytes)
    ensures ValidStat(b) <==> exists list, pad, rest :: IsSection(b, 0, list, pad, rest)
  {
    hide Big16, ReadBig16, Parse, PadLength, IsSection;
    if ValidStat(b) { var list, pad, rest := ReadSection(b); }
    forall list, pad, rest | IsSection(b, 0, list, pad, rest) ensures ValidStat(b) {
      IsSectionReads(b, 0, list, pad, rest);
      assert WellFormed(Tlv, list) by { SectionList(b, 0, list, pad, rest); }
    }
  }

  lemma SectionList(b: Bytes, kind: nat, list: Bytes, pad: Bytes, rest: Bytes)
    requires IsSection(b, kind, list, pad, rest)
    ensures WellFormed(Tlv, list) && 4 + |list| < 0x1_0000
  {
    hide Parse, Big16;
  }
}
