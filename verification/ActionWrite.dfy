/** Writing an action list to a channel (src/ofp/actionrange.cpp). OpenFlow 1.0 has no SET_FIELD and
    only 16-bit ports, so on a version 1 channel every action is translated on the way out. */
module ActionWrite {
  import opened Bytes
  import opened Options
  import opened Framing
  import opened Validation
  import opened Oxm
  import opened Actions
  import opened Channel

  // ---- the fields that OpenFlow 1.0 or 1.1 has a dedicated action for (oxm/oxmfields.tab) ----

  datatype Field =
    | EthDst | EthSrc | VlanVid | VlanPcp | IpDscp | IpEcn | Ipv4Src | Ipv4Dst
    | TcpSrc | TcpDst | UdpSrc | UdpDst | Icmpv4Type | Icmpv4Code
  {
    function Number(): nat {
      match this
      case EthDst => 3 case EthSrc => 4 case VlanVid => 6 case VlanPcp => 7
      case IpDscp => 8 case IpEcn => 9 case Ipv4Src => 11 case Ipv4Dst => 12
      case TcpSrc => 13 case TcpDst => 14 case UdpSrc => 15 case UdpDst => 16
      case Icmpv4Type => 19 case Icmpv4Code => 20
    }

    /** Bytes of the value. */
    function Width(): (n: nat)
      ensures 1 <= n <= 6
    {
      match this
      case EthDst => 6 case EthSrc => 6
      case Ipv4Src => 4 case Ipv4Dst => 4
      case VlanVid => 2 case TcpSrc => 2 case TcpDst => 2 case UdpSrc => 2 case UdpDst => 2
      case _ => 1
    }

    function Type(): (t: OxmType)
      ensures t.Valid()
    {
      OxmType(0x8000, Number(), false, Width())
    }

    /** The action code that sets the field in OpenFlow 1.0. */
    function CodeV1(): Option<nat> {
      match this
      case VlanVid => Some(1)
      case VlanPcp => Some(2)
      case EthSrc => Some(4)
      case EthDst => Some(5)
      case Ipv4Src => Some(6)
      case Ipv4Dst => Some(7)
      case IpDscp => Some(8)
      case TcpSrc => Some(9)
      case UdpSrc => Some(9)
      case Icmpv4Type => Some(9)
      case TcpDst => Some(10)
      case UdpDst => Some(10)
      case Icmpv4Code => Some(10)
      case IpEcn => None
    }
  }

  function FieldOf(t: OxmType): (f: Option<Field>)
    ensures f.Some? ==> f.value.Type() == t
  {
    if t == EthDst.Type() then Some(EthDst)
    else if t == EthSrc.Type() then Some(EthSrc)
    else if t == VlanVid.Type() then Some(VlanVid)
    else if t == VlanPcp.Type() then Some(VlanPcp)
    else if t == IpDscp.Type() then Some(IpDscp)
    else if t == IpEcn.Type() then Some(IpEcn)
    else if t == Ipv4Src.Type() then Some(Ipv4Src)
    else if t == Ipv4Dst.Type() then Some(Ipv4Dst)
    else if t == TcpSrc.Type() then Some(TcpSrc)
    else if t == TcpDst.Type() then Some(TcpDst)
    else if t == UdpSrc.Type() then Some(UdpSrc)
    else if t == UdpDst.Type() then Some(UdpDst)
    else if t == Icmpv4Type.Type() then Some(Icmpv4Type)
    else if t == Icmpv4Code.Type() then Some(Icmpv4Code)
    else None
  }

  lemma FieldOfType(f: Field)
    ensures FieldOf(f.Type()) == Some(f)
  {}

  // ---- one action on a version 1 channel ----

  /** The type of the field that a SET_FIELD action sets. */
  function FieldType(e: Bytes): OxmType
    requires |e| >= 8
  {
    TypeFromBytes(e[4..])
  }

  /** The 1.0 code of a SET_FIELD action, if there is one. */
  function SetFieldCodeV1(e: Bytes): (c: Option<nat>)
    requires |e| >= 8
    ensures c.Some? ==> 1 <= c.value <= 10 && 1 <= FieldType(e).size <= 6
  {
    match FieldOf(FieldType(e))
    case None => None
    case Some(f) => f.CodeV1()
  }

  /** AT_SET_FIELD_V and AT_SET_FIELD_V_NPAD: the bare value, padded to eight bytes. */
  function SetFieldV1(code: nat, value: Bytes): Bytes {
    Header(code, PadLength(4 + |value|)) + value + Zeros(PadLength(4 + |value|) - (4 + |value|))
  }

  lemma SetFieldV1Length(code: nat, value: Bytes)
    requires |value| <= 6
    ensures |SetFieldV1(code, value)| == if |value| <= 4 then 8 else 16
  {}

  lemma SetFieldShape(e: Bytes)
    requires Element(ACTION, e) && ValidAction(e) && Code(e) == OFPAT_SET_FIELD
    ensures |e| >= 16
    ensures 16 <= Size(e) && FieldType(e).size == e[7] as int
    ensures 8 + FieldType(e).size <= Size(e) <= |e| && Size(e) <= 15 + FieldType(e).size
    ensures AllZero(e[8 + FieldType(e).size..Size(e)])
  {
    ActionShape(e);
    var oxm := e[4..Size(e)];
    assert oxm[3] == e[7];
    var n := 4 + oxm[3] as int;
    assert oxm[n..] == e[4 + n..Size(e)];
  }

  /** What ActionRange::write puts on a version 1 channel for one valid action. */
  function WriteOne(e: Bytes): Bytes
    requires Element(ACTION, e) && ValidAction(e)
  {
    ActionShape(e);
    if Code(e) == OFPAT_OUTPUT && Size(e) == 16 then Header(OFPAT_OUTPUT, 8) + e[6..8] + e[8..10]
    else if Code(e) == OFPAT_SET_FIELD then
      SetFieldShape(e);
      match SetFieldCodeV1(e)
      case None => []
      case Some(code) => SetFieldV1(code, e[8..8 + FieldType(e).size])
    else e[..Size(e)]
  }

  /** What ActionRange::writeSize takes off for one action. */
  function Saving(e: Bytes): nat
    requires Element(ACTION, e)
  {
    ActionShape(e);
    if Code(e) == OFPAT_OUTPUT && Size(e) == 16 then 8
    else if Code(e) == OFPAT_SET_FIELD && SetFieldCodeV1(e).Some? && FieldType(e).size != 6 then 8
    else 0
  }

  /** An action whose size is predicted exactly: a SET_FIELD must have a 1.0 form and its usual 16
      bytes; any other action must fill its padded length. */
  predicate Exact(e: Bytes)
    requires Element(ACTION, e)
  {
    ActionShape(e);
    if Code(e) == OFPAT_SET_FIELD then SetFieldCodeV1(e).Some? && Size(e) == 16 else Size(e) % 8 == 0
  }

  /** By how much the prediction exceeds what is written, for one action. */
  function Excess(e: Bytes): nat
    requires Element(ACTION, e)
  {
    ActionShape(e);
    if Code(e) != OFPAT_SET_FIELD then |e| - Size(e)
    else if SetFieldCodeV1(e).Some? then if |e| < 16 then 0 else |e| - 16
    else |e|
  }

  lemma {:induction false} ExcessIsError(e: Bytes)
    requires Element(ACTION, e) && ValidAction(e)
    ensures |e| == |WriteOne(e)| + Saving(e) + Excess(e)
    ensures Excess(e) == 0 <==> Exact(e)
  {
    hide SetFieldV1, SetFieldCodeV1, ValidAction;
    ActionShape(e);
    if Code(e) == OFPAT_SET_FIELD {
      SetFieldShape(e);
      match SetFieldCodeV1(e) {
        case None =>
        case Some(code) =>
          WidthOf(e);
          SetFieldV1Length(code, e[8..8 + FieldType(e).size]);
      }
    }
  }

  /** An unknown action of one data byte: five bytes are written and eight are predicted. */
  lemma {:induction false} UnpaddedIsInexact()
    ensures var e: Bytes := [0, 30, 0, 5, 1, 0, 0, 0];
      Element(ACTION, e) && ValidAction(e) && !Exact(e) && |WriteOne(e)| == 5 && Saving(e) == 0
  {
    var e: Bytes := [0, 30, 0, 5, 1, 0, 0, 0];
    assert Code(e) == 30 && Size(e) == 5;
    ActionShape(e);
  }

  /** Setting IP_ECN is valid, but 1.0 cannot: nothing is written and sixteen bytes are predicted. */
  lemma {:induction false} UntranslatableIsInexact()
    ensures var e: Bytes := [0, 25, 0, 16, 0x80, 0, 0x12, 1, 2, 0, 0, 0, 0, 0, 0, 0];
      Element(ACTION, e) && ValidAction(e) && !Exact(e) && WriteOne(e) == [] && Saving(e) == 0
  {
    var e: Bytes := [0, 25, 0, 16, 0x80, 0, 0x12, 1, 2, 0, 0, 0, 0, 0, 0, 0];
    assert Code(e) == OFPAT_SET_FIELD && Size(e) == 16;
    ActionShape(e);
    PaddedValue(e, Field.IpEcn, 1);
  }

  /** One TLV with a value of `w` bytes and zeros behind it passes as a padded field. */
  lemma {:induction false} PaddedValue(e: Bytes, f: Field, w: nat)
    requires |e| == 16 && w == f.Width() && e[4..8] == f.Type().ToBytes() && AllZero(e[8 + w..])
    ensures PaddedField(e[4..16]) && FieldType(e) == f.Type()
  {
    var b := e[4..16];
    assert b[..4] == e[4..8] && b[3] == e[7] == e[4..8][3];
    assert b[4 + w..] == e[8 + w..];
    TypeRoundTrip(f.Type(), []);
    assert f.Type().ToBytes() + [] == f.Type().ToBytes();
    assert e[4..][..4] == e[4..8];
  }

  lemma WidthOf(e: Bytes)
    requires |e| >= 8 && SetFieldCodeV1(e).Some?
    ensures FieldType(e).size in {1, 2, 4, 6}
  {}

  // ---- whole lists ----

  function WriteAll(es: seq<Bytes>): Bytes
    requires ValidActions(es)
  {
    if es == [] then [] else WriteOne(es[0]) + WriteAll(es[1..])
  }

  function SavingAll(es: seq<Bytes>): nat
    requires Elements(ACTION, es)
  {
    if es == [] then 0 else Saving(es[0]) + SavingAll(es[1..])
  }

  function ExcessAll(es: seq<Bytes>): nat
    requires Elements(ACTION, es)
  {
    if es == [] then 0 else Excess(es[0]) + ExcessAll(es[1..])
  }

  /** Conservation: the bytes of the list are those written, those saved and the excess. */
  lemma {:induction false} SizeLaw(es: seq<Bytes>)
    requires ValidActions(es)
    ensures |Join(es)| == |WriteAll(es)| + SavingAll(es) + ExcessAll(es)
    ensures ExcessAll(es) == 0 <==> forall i :: 0 <= i < |es| ==> Exact(es[i])
  {
    hide WriteOne, Saving, Excess, Exact;
    if es != [] {
      ExcessIsError(es[0]);
      SizeLaw(es[1..]);
      if forall i :: 0 <= i < |es[1..]| ==> Exact(es[1..][i]) {
        assert forall i :: 1 <= i < |es| ==> Exact(es[1..][i - 1]) && es[1..][i - 1] == es[i];
      }
    }
  }

  // ---- the loops of ActionRange ----

  lemma {:induction false} ListStep(range: Bytes, pos: nat)
    requires pos < |range| && WellFormed(ACTION, range[pos..])
    requires ValidActions(Parse(ACTION, range[pos..]).value)
    ensures pos + 4 <= |range|
    ensures var next := pos + PadLength(ElementSize(range[pos..], 2));
      && pos < next <= |range| && WellFormed(ACTION, range[next..])
      && Element(ACTION, range[pos..next]) && ValidAction(range[pos..next])
      && ValidActions(Parse(ACTION, range[next..]).value)
      && Parse(ACTION, range[pos..]).value == [range[pos..next]] + Parse(ACTION, range[next..]).value
  {
    hide Extent, ElementSize, ValidAction;
    IteratorStep(ACTION, range, pos);
    var es, next := Parse(ACTION, range[pos..]).value, pos + PadLength(ElementSize(range[pos..], 2));
    assert es[0] == range[pos..next];
    assert forall i :: 0 <= i < |es| - 1 ==> es[1..][i] == es[i + 1];
    assert es[1..] == Parse(ACTION, range[next..]).value;
  }

  function SavingSetField(t: OxmType): nat {
    match FieldOf(t)
    case Some(EthSrc) => 0
    case Some(EthDst) => 0
    case Some(IpEcn) => 0
    case None => 0
    case Some(_) => 8
  }

  /** writeSize: on a version 1 channel, the size of the list less what each translation saves. */
  method WriteSize(range: Bytes, channel: MemoryChannel) returns (newSize: nat)
    requires ValidActionRange(range)
    ensures channel.version != 1 ==> newSize == |range|
    ensures channel.version == 1 ==>
      newSize == |WriteAll(Parse(ACTION, range).value)| +
          ExcessAll((JoinParse(ACTION, range); Parse(ACTION, range).value))
  {
    hide Extent, ElementSize, ValidAction, Saving, WriteOne, Excess, SavingSetField, FieldType, PadLength;
    hide WriteAll, ExcessAll;
    if channel.version != 1 { return |range|; }
    JoinParse(ACTION, range);
    ghost var es := Parse(ACTION, range).value;
    SizeLaw(es);
    var size: int := |range|;
    var pos := 0;
    ghost var k := 0;
    while pos != |range|
      invariant 0 <= pos <= |range| && WellFormed(ACTION, range[pos..])
      invariant 0 <= k <= |es| && es[k..] == Parse(ACTION, range[pos..]).value
      invariant Elements(ACTION, es[k..])
      invariant size - SavingAll(es[k..]) == |range| - SavingAll(es)
      decreases |range| - pos
    {
      ListStep(range, pos);
      var next := pos + PadLength(ElementSize(range[pos..], 2));
      var item := range[pos..next];
      assert es[k..][0] == item && es[k..][1..] == es[k + 1..];
      ActionShape(item);
      SavingIs(item);
      if Code(item) == OFPAT_OUTPUT && Size(item) == 16 {
        size := size - 8;
      } else if Code(item) == OFPAT_SET_FIELD {
        size := size - SavingSetField(FieldType(item));
      }
      pos, k := next, k + 1;
    }
    newSize := size;
  }

  lemma SavingIs(e: Bytes)
    requires Element(ACTION, e)
    ensures |e| >= 8
    ensures Saving(e) == if Code(e) == OFPAT_OUTPUT && Size(e) == 16 then 8
                         else if Code(e) == OFPAT_SET_FIELD then SavingSetField(FieldType(e)) else 0
  {
    ActionShape(e);
  }

  /** write: on a version 1 channel, the translation of each action in turn. */
  method Write(range: Bytes, channel: MemoryChannel)
    requires ValidActionRange(range)
    modifies channel`buf
    ensures channel.version != 1 ==> channel.buf == old(channel.buf) + range
    ensures channel.version == 1 ==> channel.buf == old(channel.buf) + WriteAll(Parse(ACTION, range).value)
  {
    hide Extent, ElementSize, ValidAction, WriteOne;
    if channel.version != 1 {
      channel.Write(range);
      return;
    }
    JoinParse(ACTION, range);
    ghost var es := Parse(ACTION, range).value;
    var pos := 0;
    ghost var k := 0;
    while pos != |range|
      invariant 0 <= pos <= |range| && WellFormed(ACTION, range[pos..])
      invariant 0 <= k <= |es| && es[k..] == Parse(ACTION, range[pos..]).value
      invariant ValidActions(es[k..])
      invariant channel.buf + WriteAll(es[k..]) == old(channel.buf) + WriteAll(es)
      decreases |range| - pos
    {
      ListStep(range, pos);
      var next := pos + PadLength(ElementSize(range[pos..], 2));
      var item := range[pos..next];
      assert es[k..][0] == item && es[k..][1..] == es[k + 1..];
      ghost var was := channel.buf;
      WriteItem(item, channel);
      assert was + WriteOne(item) + WriteAll(es[k + 1..]) == was + (WriteOne(item) + WriteAll(es[k + 1..]));
      pos, k := next, k + 1;
    }
  }

  /** The body of the loop: AT_OUTPUT, SET_FIELD (writeSetFieldV1) and everything else. */
  method WriteItem(item: Bytes, channel: MemoryChannel)
    requires Element(ACTION, item) && ValidAction(item)
    modifies channel`buf
    ensures channel.buf == old(channel.buf) + WriteOne(item)
  {
    ActionShape(item);
    if Code(item) == OFPAT_OUTPUT && Size(item) == 16 {
      channel.Write(Header(OFPAT_OUTPUT, 8) + item[6..8] + item[8..10]);
    } else if Code(item) == OFPAT_SET_FIELD {
      SetFieldShape(item);
      var value := item[8..8 + FieldType(item).size];
      match FieldOf(FieldType(item)) {
        case Some(VlanVid) => channel.Write(SetFieldV1(1, value));
        case Some(VlanPcp) => channel.Write(SetFieldV1(2, value));
        case Some(EthSrc) => channel.Write(SetFieldV1(4, value));
        case Some(EthDst) => channel.Write(SetFieldV1(5, value));
        case Some(Ipv4Src) => channel.Write(SetFieldV1(6, value));
        case Some(Ipv4Dst) => channel.Write(SetFieldV1(7, value));
        case Some(IpDscp) => channel.Write(SetFieldV1(8, value));
        case Some(TcpSrc) => channel.Write(SetFieldV1(9, value));
        case Some(TcpDst) => channel.Write(SetFieldV1(10, value));
        case Some(UdpSrc) => channel.Write(SetFieldV1(9, value));
        case Some(UdpDst) => channel.Write(SetFieldV1(10, value));
        case Some(Icmpv4Type) => channel.Write(SetFieldV1(9, value));
        case Some(Icmpv4Code) => channel.Write(SetFieldV1(10, value));
        case Some(IpEcn) =>
        case None =>
      }
    } else {
      channel.Write(item[..Size(item)]);
    }
  }
}
