/** What the builders and the translations do to literal bytes. The other modules speak of types, fields
    and instructions by name; these laws name no table of theirs, so that a wrong number in one shows. */
module Wire {
  import opened Bytes
  import opened Options
  import opened Framing
  import opened Oxm
  import opened Actions
  import opened ActionWrite
  import opened Normalize
  import opened Instructions
  import opened Sections
  import opened FlowRemoved
  import opened FlowModV1

  // ---- numbers ----

  lemma {:induction false} BigEndian(a: UInt8, b: UInt8, c: UInt8, d: UInt8)
    ensures Big16(a as int * 0x100 + b as int) == [a, b] && ReadBig16([a, b], 0) == a as int * 0x100 + b as int
    ensures var n := a as int * 0x100_0000 + b as int * 0x1_0000 + c as int * 0x100 + d as int;
      Big32(n) == [a, b, c, d] && ReadBig32([a, b, c, d], 0) == n
  {
    ReadBig16RoundTrip([a, b], 0);
    ReadBig32RoundTrip([a, b, c, d], 0);
  }

  // ---- fields and their 1.0 actions ----

  /** The header of the OXM that holds a field. */
  function FieldBytes(f: Field): Bytes {
    match f
    case EthDst => [0x80, 0, 0x06, 6]
    case EthSrc => [0x80, 0, 0x08, 6]
    case VlanVid => [0x80, 0, 0x0c, 2]
    case VlanPcp => [0x80, 0, 0x0e, 1]
    case IpDscp => [0x80, 0, 0x10, 1]
    case IpEcn => [0x80, 0, 0x12, 1]
    case Ipv4Src => [0x80, 0, 0x16, 4]
    case Ipv4Dst => [0x80, 0, 0x18, 4]
    case TcpSrc => [0x80, 0, 0x1a, 2]
    case TcpDst => [0x80, 0, 0x1c, 2]
    case UdpSrc => [0x80, 0, 0x1e, 2]
    case UdpDst => [0x80, 0, 0x20, 2]
    case Icmpv4Type => [0x80, 0, 0x26, 1]
    case Icmpv4Code => [0x80, 0, 0x28, 1]
  }

  /** The 1.0 action that sets a field, or 0. */
  function CodeOnWire(f: Field): UInt8 {
    match f
    case VlanVid => 1
    case VlanPcp => 2
    case EthSrc => 4
    case EthDst => 5
    case Ipv4Src => 6
    case Ipv4Dst => 7
    case IpDscp => 8
    case TcpSrc => 9
    case UdpSrc => 9
    case Icmpv4Type => 9
    case TcpDst => 10
    case UdpDst => 10
    case Icmpv4Code => 10
    case IpEcn => 0
  }

  lemma {:induction false} FieldOnWire(f: Field)
    ensures |FieldBytes(f)| == 4 && f.Type().ToBytes() == FieldBytes(f) && f.Width() == FieldBytes(f)[3] as int
    ensures f.CodeV1() == if CodeOnWire(f) == 0 then None else Some(CodeOnWire(f) as int)
  {}

  /** The field of an action, by its bytes. */
  lemma {:induction false} FieldOfBytes(e: Bytes, f: Field)
    requires |e| >= 8
    ensures FieldOf(FieldType(e)) == Some(f) <==> e[4..8] == FieldBytes(f)
  {
    hide FieldBytes, FieldOf, Field.Type, OxmType.ToBytes;
    FieldOnWire(f);
    TypeOfBytes(e[4..]);
    assert e[4..][..4] == e[4..8];
    if e[4..8] == FieldBytes(f) {
      TypeRoundTrip(f.Type(), e[8..]);
      assert f.Type().ToBytes() + e[8..] == e[4..];
      FieldOfType(f);
    }
  }

  lemma TypeOfBytes(b: Bytes)
    requires |b| >= 4
    ensures TypeFromBytes(b).ToBytes() == b[..4]
  {
    ReadBig16RoundTrip(b, 0);
  }

  /** A SET_FIELD on a version 1 channel: the bare value under the code of the field. */
  lemma {:induction false} DowngradeOnWire(e: Bytes, f: Field)
    requires Element(ACTION, e) && ValidAction(e) && |e| >= 8 && e[..2] == [0, 25] && e[4..8] == FieldBytes(f)
    ensures var w, code := FieldBytes(f)[3] as int, CodeOnWire(f);
      && 8 + w <= |e| && w <= 6
      && WriteOne(e) == (if code == 0 then [] else if w <= 4 then [0, code, 0, 8] + e[8..8 + w] + Zeros(4 - w)
                         else [0, code, 0, 16] + e[8..8 + w] + Zeros(12 - w))
  {
    hide FieldOf, FieldBytes, CodeOnWire, Zeros, SetFieldV1, FieldType, ValidAction;
    FieldOnWire(f);
    FieldOfBytes(e, f);
    CodeBytes(e, 0, 25);
    SetFieldShape(e);
    assert e[7] == e[4..8][3];
    ValueOnWire(CodeOnWire(f), e[8..8 + f.Width()]);
  }

  lemma {:induction false} ValueOnWire(code: UInt8, v: Bytes)
    requires |v| <= 6
    ensures SetFieldV1(code as int, v) == if |v| <= 4 then [0, code, 0, 8] + v + Zeros(4 - |v|)
                                          else [0, code, 0, 16] + v + Zeros(12 - |v|)
  {
    hide Zeros;
    BigEndian(0, code, 0, 0);
    BigEndian(0, 8, 0, 0);
    BigEndian(0, 16, 0, 0);
  }

  lemma CodeBytes(e: Bytes, a: UInt8, b: UInt8)
    requires |e| >= 4
    ensures e[..2] == [a, b] <==> Code(e) == a as int * 0x100 + b as int
    ensures e[2..4] == [a, b] <==> Size(e) == a as int * 0x100 + b as int
  {}

  /** A SET_FIELD of any other field is not written. */
  lemma {:induction false} NoFormOnWire(e: Bytes)
    requires Element(ACTION, e) && ValidAction(e) && |e| >= 8 && e[..2] == [0, 25]
    requires forall f: Field :: e[4..8] != FieldBytes(f)
    ensures WriteOne(e) == []
  {
    hide FieldOf, FieldBytes, SetFieldV1, FieldType, ValidAction;
    CodeBytes(e, 0, 25);
    forall f: Field ensures FieldOf(FieldType(e)) != Some(f) { FieldOfBytes(e, f); }
    assert FieldOf(FieldType(e)) == None;
  }

  /** The other actions: an output loses the upper half of its port, the rest is sent as it is. */
  lemma {:induction false} OthersOnWire(e: Bytes)
    requires Element(ACTION, e) && ValidAction(e) && |e| >= 8 && e[..2] != [0, 25]
    ensures ReadBig16(e, 2) <= |e|
    ensures e[..4] == [0, 0, 0, 16] ==> |e| == 16 && WriteOne(e) == [0, 0, 0, 8] + e[6..10]
    ensures e[..4] != [0, 0, 0, 16] ==> WriteOne(e) == e[..ReadBig16(e, 2)]
  {
    hide ValidAction;
    ActionShape(e);
    CodeBytes(e, 0, 25);
    CodeBytes(e, 0, 0);
    CodeBytes(e, 0, 16);
    assert e[..4] == e[..2] + e[2..4];
    BigEndian(0, 0, 0, 0);
    BigEndian(0, 8, 0, 0);
  }

  // ---- upgrading ----

  /** The field that a 1.0 or 1.1 action sets, by the protocol of the match. */
  function SetOnWire(version: nat, code: nat, ipProto: nat): Option<Field> {
    match (version, code)
    case (_, 1) => Some(VlanVid)
    case (_, 2) => Some(VlanPcp)
    case (1, 4) => Some(EthSrc)
    case (1, 5) => Some(EthDst)
    case (1, 6) => Some(Ipv4Src)
    case (1, 7) => Some(Ipv4Dst)
    case (1, 8) => Some(IpDscp)
    case (2, 3) => Some(EthSrc)
    case (2, 4) => Some(EthDst)
    case (2, 5) => Some(Ipv4Src)
    case (2, 6) => Some(Ipv4Dst)
    case (2, 7) => Some(IpDscp)
    case (2, 8) => Some(IpEcn)
    case (_, 9) =>
      if ipProto == 6 then Some(TcpSrc) else if ipProto == 17 then Some(UdpSrc)
      else if ipProto == 1 then Some(Icmpv4Type) else None
    case (_, 10) =>
      if ipProto == 6 then Some(TcpDst) else if ipProto == 17 then Some(UdpDst)
      else if ipProto == 1 then Some(Icmpv4Code) else None
    case _ => None
  }

  lemma SetsOnWire(version: nat, code: nat, ipProto: nat)
    requires version == 1 || version == 2
    ensures FieldSetBy(TypeV2(code, version), ipProto) == SetOnWire(version, code, ipProto)
    ensures SetOnWire(version, code, ipProto).Some? ==> 1 <= code <= 10
  {}

  /** A little-endian host exchanges the bytes of a TCP or UDP port. */
  function Swapped(f: Field, v: Bytes, littleEndian: bool): Bytes {
    if littleEndian && |v| == 2 && f in {TcpSrc, TcpDst, UdpSrc, UdpDst} then [v[1], v[0]] else v
  }

  /** Every action of a 1.0 or 1.1 message, except outputs: a SET_FIELD of one OXM, or as it came. */
  lemma {:induction false} UpgradeOnWire(e: Bytes, c: Context)
    requires Element(ACTION, e) && |e| >= 8 && (c.version == 1 || c.version == 2) && e[..2] != [0, 0]
    ensures var size := ReadBig16(e, 2);
      match SetOnWire(c.version, ReadBig16(e, 0), c.ipProto)
      case None => NormOne(e, c) == e
      case Some(f) =>
        var w := FieldBytes(f)[3] as int;
        && (size % 8 != 0 || size < 4 + w ==> NormOne(e, c) == e)
        && (size % 8 == 0 && size >= 4 + w ==> 4 + w <= |e| && w <= 6)
        && (size % 8 == 0 && size >= 4 + w ==>
              NormOne(e, c)
              == [0, 25, 0, 16] + FieldBytes(f) + Swapped(f, e[4..4 + w], c.littleEndian) + Zeros(8 - w))
  {
    hide Zeros, FieldSetBy, TypeV2, SetOnWire, FieldBytes;
    ActionShape(e);
    CodeBytes(e, 0, 0);
    SetsOnWire(c.version, Code(e), c.ipProto);
    OutputType(Code(e), c.version);
    match SetOnWire(c.version, Code(e), c.ipProto)
    case None =>
    case Some(f) =>
      FieldOnWire(f);
      BigEndian(0, 25, 0, 0);
      BigEndian(0, 16, 0, 0);
  }

  /** Outputs: the port gets a lower half, all ones for the reserved ports. */
  lemma {:induction false} OutputOnWire(e: Bytes, c: Context)
    requires Element(ACTION, e) && |e| >= 8 && e[..2] == [0, 0]
    ensures e[2..4] != [0, 8] ==> NormOne(e, c) == e
    ensures e[2..4] == [0, 8] ==>
      NormOne(e, c)
      == [0, 0, 0, 16] + (if e[4] == 0xff && e[5] > 0 then [0xff, 0xff] else [0, 0]) + e[4..8] + Zeros(6)
  {
    hide Zeros, FieldSetBy, Extent, OutputAction, PortFromV1;
    ActionShape(e);
    CodeBytes(e, 0, 0);
    CodeBytes(e, 0, 8);
    OutputType(0, c.version);
    if e[2..4] == [0, 8] { WidenedOnWire(e[4], e[5], e[6], e[7]); }
  }

  lemma {:induction false} WidenedOnWire(a: UInt8, b: UInt8, c: UInt8, d: UInt8)
    ensures OutputAction(PortFromV1(a as int * 0x100 + b as int), c as int * 0x100 + d as int)
      == [0, 0, 0, 16] + (if a == 0xff && b > 0 then [0xff, 0xff] else [0, 0]) + [a, b, c, d] + Zeros(6)
  {
    hide Zeros, Big16, Big32;
    var hi: UInt8 := if a == 0xff && b > 0 then 0xff else 0;
    BigEndian(hi, hi, a, b);
    BigEndian(c, d, 0, 0);
    BigEndian(0, 0, 0, 0);
    BigEndian(0, 16, 0, 0);
  }

  // ---- what the builders write ----

  lemma HeaderOnWire(length: nat)
    ensures Header(0, length) == [0, 0] + Big16(length) && Header(25, length) == [0, 25] + Big16(length)
    ensures Header(0xffff, length) == [255, 255] + Big16(length)
    ensures forall code :: 1 <= code <= 6 ==> Header(code, length) == [0, code as UInt8] + Big16(length)
  {}

  /** Every action: type, length, and what follows with its padding. */
  lemma {:induction false} ActionOnWire(a: Action)
    requires a.Valid()
    ensures a.Output? ==> a.ToBytes() == [0, 0, 0, 16] + Big32(a.port) + Big16(a.maxlen) + Zeros(6)
    ensures a.Fixed? ==> a.ToBytes() == Big16(a.code) + Big16(4 + |a.body|) + a.body
    ensures a.Unknown? ==>
      var n := 4 + |a.value|;
      a.ToBytes() == Big16(a.code) + Big16(n) + a.value + Zeros(PadLength(n) - n)
    ensures a.Experimenter? ==>
      var n := 8 + |a.value|;
      a.ToBytes() == [255, 255] + Big16(PadLength(n)) + Big32(a.id) + a.value + Zeros(PadLength(n) - n)
  {
    hide Big16, Big32, PadLength, Zeros;
    HeaderOnWire(a.Length());
    BigEndian(0, 16, 0, 0);
  }

  lemma {:induction false} SetFieldOnWire(a: Action)
    requires a.Valid() && (a.SetField? || a.SetFieldCustom?)
    ensures a.SetField? ==>
      var n := PadLength(|a.value|);
      a.ToBytes() == [0, 25] + Big16(8 + n) + a.field.ToBytes() + a.value + Zeros(n - |a.value|)
    ensures a.SetFieldCustom? ==>
      var id := if a.experimenter == 0 then [] else Big32(a.experimenter);
      var n := 8 + |id| + |a.value|;
      a.ToBytes() == [0, 25] + Big16(PadLength(n)) + a.field.ToBytes() + id + a.value + Zeros(PadLength(n) - n)
  {
    hide Big16, Big32, OxmType.ToBytes, PadLength, Zeros;
    HeaderOnWire(a.Length());
  }

  /** Every instruction. */
  lemma {:induction false} InstructionOnWire(i: Instruction)
    requires i.Valid()
    ensures i.ToBytes() == match i
      case GotoTable(tableId) => [0, 1, 0, 8, tableId, 0, 0, 0]
      case WriteMetadata(metadata, mask) => [0, 2, 0, 24, 0, 0, 0, 0] + metadata + mask
      case WriteActions(actions) => [0, 3] + Big16(8 + |actions|) + [0, 0, 0, 0] + actions
      case ApplyActions(actions) => [0, 4] + Big16(8 + |actions|) + [0, 0, 0, 0] + actions
      case ClearActions => [0, 5, 0, 8, 0, 0, 0, 0]
      case Meter(meter) => [0, 6, 0, 8] + Big32(meter)
      case Experimenter(id, data) => [255, 255] + Big16(8 + |data|) + Big32(id) + data
  {
    hide Big16, Big32;
    HeaderOnWire(4 + |i.Body()|);
    BigEndian(0, 8, 0, 0);
    BigEndian(0, 24, 0, 0);
    assert Zeros(4) == [0, 0, 0, 0] && Zeros(3) == [0, 0, 0];
  }

  /** The three statistics of a FlowRemoved message. */
  lemma StatsOnWire()
    ensures OXS_DURATION.ToBytes() == [0x80, 0x02, 0, 8]
    ensures OXS_PACKET_COUNT.ToBytes() == [0x80, 0x02, 8, 8]
    ensures OXS_BYTE_COUNT.ToBytes() == [0x80, 0x02, 10, 8]
  {}

  // ---- what is rejected ----

  /** One complete action, by its bytes: a field is one padded TLV, a Nicira action has a subtype, and
      REG_MOVE and REG_LOAD have 24 bytes. */
  lemma {:induction false} ValidActionOnWire(e: Bytes)
    requires Element(ACTION, e) && |e| >= 8
    ensures var size := ReadBig16(e, 2);
      && size <= |e|
      && (e[..2] == [0, 25] ==> (ValidAction(e) <==> size >= 16 && PaddedField(e[4..size])))
      && (e[..2] == [255, 255] && e[4..8] != [0, 0, 0x23, 0x20] ==> (ValidAction(e) <==> size >= 8))
      && (e[..2] == [255, 255] && e[4..8] == [0, 0, 0x23, 0x20] && |e| < 10 ==> !ValidAction(e))
      && (e[..2] == [255, 255] && e[4..8] == [0, 0, 0x23, 0x20] && |e| >= 10 ==>
           (ValidAction(e) <==> size >= 10 && (e[8] == 0 && (e[9] == 6 || e[9] == 7) ==> size == 24)))
      && (e[..2] != [0, 25] && e[..2] != [255, 255] ==> ValidAction(e))
  {
    hide PaddedField;
    ActionShape(e);
    CodeBytes(e, 0, 25);
    CodeBytes(e, 255, 255);
    var b := e[4..8];
    assert e[4] == b[0] && e[5] == b[1] && e[6] == b[2] && e[7] == b[3];
  }

  /** One complete instruction: WRITE_ACTIONS and APPLY_ACTIONS hold valid actions. */
  lemma {:induction false} ValidInstructionOnWire(e: Bytes)
    requires Element(INSTRUCTION, e) && |e| >= 8
    ensures var size := ReadBig16(e, 2);
      && size <= |e|
      && (e[..2] == [0, 3] || e[..2] == [0, 4] ==>
           (ValidInstruction(e) <==> size >= 8 && ValidActionRange(e[8..if size >= 8 then size else 8])))
      && (e[..2] == [255, 255] ==> (ValidInstruction(e) <==> size >= 8))
      && (e[..2] != [0, 3] && e[..2] != [0, 4] && e[..2] != [255, 255] ==> ValidInstruction(e))
  {
    hide ValidActionRange;
    ActionShape(e);
    CodeBytes(e, 0, 3);
    CodeBytes(e, 0, 4);
    CodeBytes(e, 255, 255);
  }

  /** A match section: OXM, or the standard match before version 4. */
  lemma {:induction false} ValidMatchOnWire(b: Bytes, version: nat)
    requires |b| >= 4
    ensures var length := ReadBig16(b, 2);
      && (b[..2] == [0, 0] && version < 4 ==> (ValidMatch(b, version) <==> length == 88))
      && (b[..2] == [0, 0] && version >= 4 ==> !ValidMatch(b, version))
      && (b[..2] == [0, 1] && 4 <= length <= |b| ==>
           (ValidMatch(b, version) <==> PadLength(length) <= |b| && WellFormed(Tlv, b[4..length])))
      && (b[..2] == [0, 1] && !(4 <= length <= |b|) ==> !ValidMatch(b, version))
      && (b[..2] != [0, 0] && b[..2] != [0, 1] ==> !ValidMatch(b, version))
  {
    hide Parse;
    CodeBytes(b, 0, 0);
    CodeBytes(b, 0, 1);
  }

  /** The version byte of a version 1 FlowMod that could not be normalized. */
  lemma {:induction false} RejectedOnWire(m: Bytes, standard: Bytes, data: Bytes)
    requires |m| >= 8 && m[0] == 1 && Rejected(m, standard, data)
    ensures data != [] && data[0] == if |m| > 65535 - 72 then 0xe1 else 0xf1
  {
    hide BitOr;
    assert BitOr(1, 0xf0) == 0xf1 && BitOr(1, 0xe0) == 0xe1 by { OrOne(); }
  }

  /** What else is left of it: all but the version byte of a message of the wrong size; the rewritten fixed
      part and the rest of a misaligned one; and when the actions are at fault, these behind the inserted
      match and eight stray bytes. */
  lemma {:induction false} RemainsOnWire(m: Bytes, standard: Bytes, data: Bytes)
    requires |m| >= 8 && |standard| == 88 && Rejected(m, standard, data)
    ensures |m| < 72 || |m| > 65463 ==> data[1..] == m[1..]
    ensures 72 <= |m| <= 65463 && |m| % 8 != 0 ==> |data| == |m| && data[48..] == m[48..]
    ensures 72 <= |m| <= 65463 && |m| % 8 == 0 ==>
      |data| == |m| + 72 && data[48..136] == standard && data[144..] == m[72..]
    ensures 72 <= |m| <= 65463 ==> data[1..8] == m[1..8] && data[8..16] == m[48..56] && data[24..36] == m[56..68]
  {
    hide Flagged, Big32, PortFromV1, AllOnesMask, Zeros, ReadBig16;
  }

  lemma OrOne()
    ensures BitOr(1, 0xf0) == 0xf1 && BitOr(1, 0xe0) == 0xe1
  {
    OrZero(0x78);
    OrZero(0x70);
    OrCommutes(0, 0x78);
    OrCommutes(0, 0x70);
  }

  lemma {:induction false} OrCommutes(x: nat, y: nat)
    ensures BitOr(x, y) == BitOr(y, x)
    decreases x + y
  {
    if x != 0 || y != 0 { OrCommutes(x / 2, y / 2); }
  }
}
