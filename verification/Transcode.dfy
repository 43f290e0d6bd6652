/** Downgrading an action list to OpenFlow 1.0 and normalizing the result: which lists come back. */
module Transcode {
  import opened Bytes
  import opened Options
  import opened Framing
  import opened Oxm
  import opened Actions
  import opened ActionWrite
  import opened Normalize

  /** TP_SRC and TP_DST actions carry no protocol; the message's own protocol has to tell. */
  predicate ProtocolTells(f: Field, ipProto: nat) {
    match f
    case TcpSrc => ipProto == PROTOCOL_TCP
    case TcpDst => ipProto == PROTOCOL_TCP
    case UdpSrc => ipProto == PROTOCOL_UDP
    case UdpDst => ipProto == PROTOCOL_UDP
    case Icmpv4Type => ipProto == PROTOCOL_ICMP
    case Icmpv4Code => ipProto == PROTOCOL_ICMP
    case _ => true
  }

  predicate IsPortField(f: Field) { f.TcpSrc? || f.TcpDst? || f.UdpSrc? || f.UdpDst? }

  /** The actions that survive, read off the action and the context alone.
      - The action must fill its padded length.
      - An output action needs a port that 16 bits can tell apart and zero padding.
      - A SET_FIELD needs a 1.0 form and the right protocol; a port value survives a little-endian
        host only when its two bytes are equal.
      - Any other action must not look like a 1.0 action that gets rewritten. */
  predicate Restorable(e: Bytes, c: Context)
    requires Element(ACTION, e)
  {
    ActionShape(e);
    if Size(e) % 8 != 0 then false
    else if Code(e) == OFPAT_OUTPUT && Size(e) == 16 then
      (ReadBig32(e, 4) <= 0xff00 || ReadBig32(e, 4) > 0xffff_ff00) && AllZero(e[10..16])
    else if Code(e) == OFPAT_SET_FIELD then
      match FieldOf(FieldType(e)) {
        case None => false
        case Some(f) =>
          && f.CodeV1().Some? && ProtocolTells(f, c.ipProto)
          && (c.littleEndian && IsPortField(f) && |e| >= 10 ==> e[8] == e[9])
      }
    else
      match Code(e) {
        case 0 => Size(e) != 8
        case 1 => false
        case 2 => false
        case 4 => Size(e) == 8
        case 5 => Size(e) == 8
        case 6 => false
        case 7 => false
        case 8 => false
        case 9 => c.ipProto !in {PROTOCOL_ICMP, PROTOCOL_TCP, PROTOCOL_UDP}
        case 10 => c.ipProto !in {PROTOCOL_ICMP, PROTOCOL_TCP, PROTOCOL_UDP}
        case _ => true
      }
  }

  // ---- SET_FIELD ----

  /** A valid SET_FIELD of aligned size that OpenFlow 1.0 knows has exactly 16 bytes and is the
      canonical action for its field and value. */
  lemma SetFieldCanonical(e: Bytes, f: Field)
    requires Element(ACTION, e) && ValidAction(e) && Size(e) % 8 == 0 && Code(e) == OFPAT_SET_FIELD
    requires (ActionShape(e); FieldOf(FieldType(e))) == Some(f)
    ensures |e| == Size(e) == 16 && e == SetFieldAction(f, e[8..8 + f.Width()])
  {
    ActionShape(e);
    SetFieldShape(e);
    var w := f.Width();
    assert FieldType(e) == f.Type();
    AllZeroIsZeros(e[8 + w..16]);
    TypeBytes(e[4..8]);
    assert e[4..][..4] == e[4..8];
    ReadBig16RoundTrip(e, 0);
    ReadBig16RoundTrip(e, 2);
    assert e == e[0..2] + e[2..4] + e[4..8] + e[8..8 + w] + e[8 + w..16];
  }

  lemma TypeBytes(b: Bytes)
    requires |b| == 4
    ensures TypeFromBytes(b).ToBytes() == b
  {
    ReadBig16RoundTrip(b, 0);
    assert b == b[0..2] + [b[2], b[3]];
  }

  lemma SetFieldActionInjective(f: Field, v: Bytes, g: Field, u: Bytes)
    requires |v| == f.Width() && |u| == g.Width() && SetFieldAction(f, v) == SetFieldAction(g, u)
    ensures f == g && v == u
  {
    var e := SetFieldAction(f, v);
    assert e[4..8] == f.Type().ToBytes() && e[4..8] == g.Type().ToBytes();
    TypeRoundTrip(f.Type(), []);
    TypeRoundTrip(g.Type(), []);
    assert f.Type().ToBytes() + [] == f.Type().ToBytes() && g.Type().ToBytes() + [] == g.Type().ToBytes();
    FieldOfType(f);
    FieldOfType(g);
    assert e[8..8 + |v|] == v && e[8..8 + |u|] == u;
  }

  lemma SetFieldV1IsElement(code: nat, v: Bytes)
    requires code < 0x1_0000 && 1 <= |v| <= 6
    ensures var w := SetFieldV1(code, v);
      Element(ACTION, w) && Code(w) == code && Size(w) == |w|
      && |w| == (if |v| <= 4 then 8 else 16) && w[4..4 + |v|] == v
  {
    var n := PadLength(4 + |v|);
    var body := v + Zeros(n - (4 + |v|));
    assert SetFieldV1(code, v) == Header(code, n) + body;
    PaddedAction(code, n, body);
  }

  /** The field that the 1.0 action for `f` is taken for. */
  function FieldSetByV1(f: Field, ipProto: nat): Option<Field>
    requires f.CodeV1().Some?
  {
    FieldSetBy(TypeV2(f.CodeV1().value, 1), ipProto)
  }

  lemma FieldReturns(f: Field, ipProto: nat)
    requires f.CodeV1().Some?
    ensures FieldSetByV1(f, ipProto) == Some(f) <==> ProtocolTells(f, ipProto)
    ensures match FieldSetByV1(f, ipProto)
      case None => true
      case Some(g) => g == f || (g.Width() <= 4 && f.Width() <= 4)
  {}

  lemma {:induction false} NormOfV1(f: Field, v: Bytes, c: Context)
    requires f.CodeV1().Some? && |v| == f.Width() && c.version == 1
    ensures var w := SetFieldV1(f.CodeV1().value, v);
      Element(ACTION, w) &&
      match FieldSetByV1(f, c.ipProto) {
        case None => NormOne(w, c) == w && Code(w) != OFPAT_SET_FIELD
        case Some(g) =>
          && 4 + g.Width() <= |w|
          && NormOne(w, c) == SetFieldAction(g, Reencode(g, w[4..4 + g.Width()], c.littleEndian))
      }
  {
    hide SetFieldAction, Reencode, SetFieldV1;
    SetFieldV1IsElement(f.CodeV1().value, v);
    FieldReturns(f, c.ipProto);
  }

  lemma ReencodeIff(f: Field, v: Bytes, littleEndian: bool)
    requires |v| == f.Width()
    ensures Reencode(f, v, littleEndian) == v <==> (littleEndian && IsPortField(f) ==> |v| == 2 && v[0] == v[1])
  {}

  lemma {:induction false} SetFieldReturnsIff(e: Bytes, f: Field, c: Context)
    requires Element(ACTION, e) && ValidAction(e) && Size(e) % 8 == 0 && Code(e) == OFPAT_SET_FIELD
    requires (ActionShape(e); FieldOf(FieldType(e))) == Some(f) && f.CodeV1().Some? && c.version == 1
    ensures Element(ACTION, WriteOne(e)) && (NormOne(WriteOne(e), c) == e <==> Restorable(e, c))
  {
    hide SetFieldAction, SetFieldV1, NormOne, ValidAction;
    SetFieldCanonical(e, f);
    var v := e[8..8 + f.Width()];
    var w := SetFieldV1(f.CodeV1().value, v);
    assert WriteOne(e) == w;
    NormOfV1(f, v, c);
    FieldReturns(f, c.ipProto);
    SetFieldV1IsElement(f.CodeV1().value, v);
    match FieldSetByV1(f, c.ipProto) {
      case None =>
      case Some(g) =>
        var u := Reencode(g, w[4..4 + g.Width()], c.littleEndian);
        if NormOne(w, c) == e { SetFieldActionInjective(g, u, f, v); }
        if g == f {
          ReencodeIff(f, v, c.littleEndian);
          assert v[0] == e[8] && (f.Width() > 1 ==> v[1] == e[9]);
        }
    }
  }

  /** An address survives on any host; a port comes back with its bytes exchanged on a little-endian one. */
  lemma {:induction false} FieldAfterRoundTrip(f: Field, v: Bytes, c: Context)
    requires f.CodeV1().Some? && |v| == f.Width() && c.version == 1 && ProtocolTells(f, c.ipProto)
    ensures var w := SetFieldV1(f.CodeV1().value, v);
      Element(ACTION, w) &&
      NormOne(w, c) == SetFieldAction(f, if c.littleEndian && IsPortField(f) then [v[1], v[0]] else v)
  {
    hide SetFieldAction, SetFieldV1, NormOne;
    NormOfV1(f, v, c);
    FieldReturns(f, c.ipProto);
    SetFieldV1IsElement(f.CodeV1().value, v);
  }

  // ---- OUTPUT ----

  lemma PortReturnsIff(port: nat)
    requires port < 0x1_0000_0000
    ensures PortFromV1(port % 0x1_0000) == port <==> port <= 0xff00 || port > 0xffff_ff00
  {}

  lemma {:induction false} OutputReturnsIff(e: Bytes, c: Context)
    requires Element(ACTION, e) && ValidAction(e) && Code(e) == OFPAT_OUTPUT && Size(e) == 16 && c.version == 1
    ensures Element(ACTION, WriteOne(e)) && (NormOne(WriteOne(e), c) == e <==> Restorable(e, c))
  {
    hide NormOne, OutputAction, ReadBig32, ValidAction, Extent, WriteOne, AllZero;
    ActionShape(e);
    var port := ReadBig32(e, 4);
    NormOfOutput(e, c);
    PortReturnsIff(port);
    OutputEqualIff(e, PortFromV1(port % 0x1_0000));
  }

  lemma {:induction false} NormOfOutput(e: Bytes, c: Context)
    requires Element(ACTION, e) && ValidAction(e) && Code(e) == OFPAT_OUTPUT && Size(e) == 16 && c.version == 1
    ensures |e| == 16 && Element(ACTION, WriteOne(e))
    ensures NormOne(WriteOne(e), c) == OutputAction(PortFromV1(ReadBig32(e, 4) % 0x1_0000), ReadBig16(e, 8))
  {
    hide OutputAction, PortFromV1, ValidAction, Extent, Header, PadLength, FieldSetBy;
    ActionShape(e);
    var body := e[6..8] + e[8..10];
    var w := WriteOne(e);
    assert w == Header(OFPAT_OUTPUT, 8) + body;
    assert PadLength(8) == 8 by { PadPlus8(0); PadNothing(); }
    PaddedAction(OFPAT_OUTPUT, 8, body);
    assert w[4] == e[6] && w[5] == e[7] && w[6] == e[8] && w[7] == e[9];
    assert ReadBig16(w, 4) == ReadBig32(e, 4) % 0x1_0000 && ReadBig16(w, 6) == ReadBig16(e, 8);
    OutputType(OFPAT_OUTPUT, c.version);
  }

  lemma PadNothing()
    ensures PadLength(0) == 0
  {}

  lemma {:induction false} OutputEqualIff(e: Bytes, port: nat)
    requires |e| == 16 && Code(e) == OFPAT_OUTPUT && Size(e) == 16 && port < 0x1_0000_0000
    ensures OutputAction(port, ReadBig16(e, 8)) == e <==> port == ReadBig32(e, 4) && AllZero(e[10..16])
  {
    hide Big16, Big32, ReadBig32, AllZero;
    var x := OutputAction(port, ReadBig16(e, 8));
    assert e == e[0..2] + e[2..4] + e[4..8] + e[8..10] + e[10..16];
    ReadBig16RoundTrip(e, 0);
    ReadBig16RoundTrip(e, 2);
    ReadBig16RoundTrip(e, 8);
    AllZeroIsZeros(e[10..16]);
    Big32Iff(e, 4, port);
    assert x[4..8] == Big32(port) && x[10..16] == Zeros(6);
  }

  lemma Big32Iff(b: Bytes, offset: nat, n: nat)
    requires offset + 4 <= |b| && n < 0x1_0000_0000
    ensures b[offset..offset + 4] == Big32(n) <==> n == ReadBig32(b, offset)
  {
    if b[offset..offset + 4] == Big32(n) { Big32RoundTrip(n, b, offset); }
    ReadBig32RoundTrip(b, offset);
  }

  // ---- one action ----

  /** What comes back is the action that went in, exactly for the restorable ones. An action with no
      1.0 form leaves nothing behind, an unpadded one no complete action. */
  lemma {:induction false} ActionReturnsIff(e: Bytes, c: Context)
    requires Element(ACTION, e) && ValidAction(e) && c.version == 1
    ensures Element(ACTION, WriteOne(e)) && NormOne(WriteOne(e), c) == e <==> Restorable(e, c)
  {
    hide NormOne, ValidAction, SetFieldV1, PadLength, ReadBig32;
    ActionShape(e);
    if Code(e) == OFPAT_SET_FIELD {
      match FieldOf(FieldType(e)) {
        case None => NoBytes();
        case Some(f) =>
          if f.CodeV1().None? {
            NoBytes();
          } else if Size(e) % 8 == 0 {
            SetFieldReturnsIff(e, f, c);
          } else {
            LongSetField(e, f, c);
          }
      }
    } else if Size(e) % 8 != 0 {
      ActionShape(WriteOne(e));
    } else if Code(e) == OFPAT_OUTPUT && Size(e) == 16 {
      OutputReturnsIff(e, c);
    } else {
      assert e[..Size(e)] == e;
      OtherReturnsIff(e, c);
    }
  }

  lemma NoBytes()
    ensures !Element(ACTION, [])
  {
    ActionShape([]);
  }

  /** A SET_FIELD of unaligned size has more bytes than the one that would come back. */
  lemma {:induction false} LongSetField(e: Bytes, f: Field, c: Context)
    requires Element(ACTION, e) && ValidAction(e) && Size(e) % 8 != 0 && Code(e) == OFPAT_SET_FIELD
    requires (ActionShape(e); FieldOf(FieldType(e))) == Some(f) && f.CodeV1().Some? && c.version == 1
    ensures Element(ACTION, WriteOne(e)) && NormOne(WriteOne(e), c) != e
  {
    hide SetFieldAction, SetFieldV1, NormOne, ValidAction;
    ActionShape(e);
    SetFieldShape(e);
    var v := e[8..8 + f.Width()];
    NormOfV1(f, v, c);
    SetFieldV1IsElement(f.CodeV1().value, v);
  }

  lemma {:induction false} OtherReturnsIff(e: Bytes, c: Context)
    requires Element(ACTION, e) && Size(e) % 8 == 0 && c.version == 1
    requires Code(e) != OFPAT_SET_FIELD && !(Code(e) == OFPAT_OUTPUT && Size(e) == 16)
    ensures NormOne(e, c) == e <==> Restorable(e, c)
  {
    hide SetFieldAction, OutputAction, Reencode;
    ActionShape(e);
    if Code(e) == OFPAT_OUTPUT && Size(e) == 8 {
      OutputActionIsElement(PortFromV1(ReadBig16(e, 4)), ReadBig16(e, 6));
    }
    match FieldSetBy(TypeV2(Code(e), 1), c.ipProto) {
      case None =>
      case Some(f) =>
        if Size(e) - 4 >= f.Width() {
          SetFieldActionIsElement(f, Reencode(f, e[4..4 + f.Width()], c.littleEndian));
        }
    }
  }

  /** Port 80, set for TCP on a little-endian host, comes back as port 20480. */
  lemma {:induction false} PortDoesNotReturn()
    ensures var e, c := SetFieldAction(TcpSrc, [0, 0x50]), Context(1, PROTOCOL_TCP, true);
      && Element(ACTION, e) && ValidAction(e) && Element(ACTION, WriteOne(e))
      && NormOne(WriteOne(e), c) == SetFieldAction(TcpSrc, [0x50, 0]) != e
  {
    hide NormOne, SetFieldV1;
    var v: Bytes, c := [0, 0x50], Context(1, PROTOCOL_TCP, true);
    var e := SetFieldAction(TcpSrc, v);
    SetFieldActionIsElement(TcpSrc, v);
    assert e[4..8] == TcpSrc.Type().ToBytes() && AllZero(e[10..]) && e[8..10] == v;
    PaddedValue(e, TcpSrc, 2);
    FieldOfType(TcpSrc);
    assert WriteOne(e) == SetFieldV1(9, v);
    FieldAfterRoundTrip(TcpSrc, v, c);
    assert e[8] != SetFieldAction(TcpSrc, [0x50, 0])[8];
  }

  // ---- whole lists ----

  /** Every action fills its padded length, as the ones written by this library's peers do. */
  ghost predicate AlignedActions(es: seq<Bytes>) {
    ValidActions(es) && forall i :: 0 <= i < |es| ==> (ActionShape(es[i]); Size(es[i]) % 8 == 0)
  }

  /** Bytes of the SET_FIELD actions that have no 1.0 form. */
  ghost function Untranslatable(es: seq<Bytes>): nat
    requires ValidActions(es)
  {
    if es == [] then 0
    else
      ActionShape(es[0]);
      (if Code(es[0]) == OFPAT_SET_FIELD && SetFieldCodeV1(es[0]).None? then |es[0]| else 0) + Untranslatable(es[1..])
  }

  /** For aligned lists the predicted size is off by exactly the actions that are dropped. */
  lemma {:induction false} AlignedSizeLaw(es: seq<Bytes>)
    requires AlignedActions(es)
    ensures |Join(es)| - SavingAll(es) == |WriteAll(es)| + Untranslatable(es)
  {
    SizeLaw(es);
    AlignedExcess(es);
  }

  lemma {:induction false} AlignedExcess(es: seq<Bytes>)
    requires AlignedActions(es)
    ensures ExcessAll(es) == Untranslatable(es)
  {
    hide Extent, ValidAction;
    if es != [] {
      var e := es[0];
      AlignedTail(es);
      AlignedExcess(es[1..]);
      ActionShape(e);
      if Code(e) == OFPAT_SET_FIELD && SetFieldCodeV1(e).Some? {
        SetFieldCanonical(e, FieldOf(FieldType(e)).value);
      }
    }
  }

  /** The 1.0 actions that are written: those without a 1.0 form are missing. */
  ghost function Kept(es: seq<Bytes>): seq<Bytes>
    requires ValidActions(es)
  {
    if es == [] then []
    else (if WriteOne(es[0]) == [] then [] else [WriteOne(es[0])]) + Kept(es[1..])
  }

  /** What is written is a run of complete 1.0 actions exactly when every action but the SET_FIELD ones
      fills its padded length. */
  lemma {:induction false} WrittenList(es: seq<Bytes>)
    requires ValidActions(es)
    ensures WriteAll(es) == Join(Kept(es))
    ensures Elements(ACTION, Kept(es)) <==> forall i :: 0 <= i < |es| ==> Framed(es[i])
  {
    hide WriteOne, Extent, ValidAction, Framed;
    if es != [] {
      var rest := Kept(es[1..]);
      WrittenList(es[1..]);
      WrittenIsElement(es[0]);
      var head := if WriteOne(es[0]) == [] then [] else [WriteOne(es[0])];
      assert Kept(es) == head + rest;
      JoinAppend(head, rest);
      assert Join(head) == WriteOne(es[0]);
      assert Elements(ACTION, Kept(es)) <==> Elements(ACTION, head) && Elements(ACTION, rest) by {
        forall i | 0 <= i < |rest| ensures rest[i] == Kept(es)[|head| + i] {}
      }
      assert forall i :: 1 <= i < |es| ==> es[i] == es[1..][i - 1];
      assert (forall i :: 0 <= i < |es| ==> Framed(es[i]))
        <==> Framed(es[0]) && forall i :: 0 <= i < |es[1..]| ==> Framed(es[1..][i]);
    }
  }

  predicate Framed(e: Bytes) { |e| >= 4 && (Code(e) == OFPAT_SET_FIELD || Size(e) % 8 == 0) }

  lemma {:induction false} WrittenIsElement(e: Bytes)
    requires Element(ACTION, e) && ValidAction(e)
    ensures WriteOne(e) == [] || Element(ACTION, WriteOne(e)) <==> Framed(e)
  {
    hide ValidAction, SetFieldV1;
    ActionShape(e);
    if Code(e) == OFPAT_SET_FIELD {
      SetFieldShape(e);
      if SetFieldCodeV1(e).Some? {
        WidthOf(e);
        SetFieldV1IsElement(SetFieldCodeV1(e).value, e[8..8 + FieldType(e).size]);
      }
    } else if Code(e) == OFPAT_OUTPUT && Size(e) == 16 {
      assert WriteOne(e) == Header(OFPAT_OUTPUT, 8) + (e[6..8] + e[8..10]);
      PaddedAction(OFPAT_OUTPUT, 8, e[6..8] + e[8..10]);
    } else {
      ActionShape(e[..Size(e)]);
    }
  }

  lemma AlignedTail(es: seq<Bytes>)
    requires AlignedActions(es) && es != []
    ensures AlignedActions(es[1..]) && ValidAction(es[0]) && (ActionShape(es[0]); Size(es[0]) % 8 == 0)
  {}

  lemma {:induction false} KeptCount(es: seq<Bytes>)
    requires ValidActions(es)
    ensures |Kept(es)| <= |es|
    ensures |Kept(es)| == |es| <==> forall i :: 0 <= i < |es| ==> WriteOne(es[i]) != []
    ensures |Kept(es)| == |es| ==> forall i :: 0 <= i < |es| ==> Kept(es)[i] == WriteOne(es[i])
  {
    hide WriteOne, Extent, ValidAction;
    if es != [] {
      KeptCount(es[1..]);
      var head := if WriteOne(es[0]) == [] then [] else [WriteOne(es[0])];
      assert Kept(es) == head + Kept(es[1..]);
      if |Kept(es)| == |es| {
        forall i | 0 <= i < |es|
          ensures Kept(es)[i] == WriteOne(es[i]) && WriteOne(es[i]) != []
        {
          if i > 0 { assert es[1..][i - 1] == es[i]; }
        }
      } else if WriteOne(es[0]) != [] {
        var i :| 0 <= i < |es[1..]| && WriteOne(es[1..][i]) == [];
        assert es[1..][i] == es[i + 1];
      }
    }
  }

  /** An action that normalizes to `e` is at least as long as the 1.0 form of `e`. */
  lemma {:induction false} SourceIsLonger(k: Bytes, e: Bytes, c: Context)
    requires Element(ACTION, k) && Element(ACTION, e) && ValidAction(e) && NormOne(k, c) == e
    ensures |WriteOne(e)| <= |k|
  {
    hide ValidAction, SetFieldAction, OutputAction, SetFieldV1, Reencode;
    ActionShape(k);
    ActionShape(e);
    if e == k {
      WrittenIsShorter(e);
    } else if TypeV2(Code(k), c.version) == OFPAT_OUTPUT {
      OutputActionIsElement(PortFromV1(ReadBig16(k, 4)), ReadBig16(k, 6));
      assert |WriteOne(e)| == 8;
    } else {
      var f := FieldSetBy(TypeV2(Code(k), c.version), c.ipProto).value;
      var v := Reencode(f, k[4..4 + f.Width()], c.littleEndian);
      SetFieldActionIsElement(f, v);
      SetFieldOfAction(f, v);
      if f.CodeV1().Some? { SetFieldV1Length(f.CodeV1().value, e[8..8 + f.Width()]); }
    }
  }

  lemma {:induction false} WrittenIsShorter(e: Bytes)
    requires Element(ACTION, e) && ValidAction(e)
    ensures |WriteOne(e)| <= |e|
  {
    hide ValidAction, SetFieldV1;
    ActionShape(e);
    if Code(e) == OFPAT_SET_FIELD {
      SetFieldShape(e);
      if SetFieldCodeV1(e).Some? { SetFieldV1Length(SetFieldCodeV1(e).value, e[8..8 + FieldType(e).size]); }
    }
  }

  lemma {:induction false} SetFieldOfAction(f: Field, v: Bytes)
    requires |v| == f.Width()
    ensures FieldOf(FieldType(SetFieldAction(f, v))) == Some(f)
  {
    var e := SetFieldAction(f, v);
    assert e[4..8] == f.Type().ToBytes();
    TypeRoundTrip(f.Type(), []);
    assert f.Type().ToBytes() + [] == f.Type().ToBytes();
    assert e[4..][..4] == e[4..8];
    FieldOfType(f);
  }

  /** Actions that normalize to `es` and have, together, the bytes written for `es` are the written ones. */
  lemma {:induction false} SourcesAreWritten(ks: seq<Bytes>, es: seq<Bytes>, c: Context)
    requires Elements(ACTION, ks) && ValidActions(es) && |ks| == |es| && NormAll(ks, c) == es
    ensures |WriteAll(es)| <= |Join(ks)|
    ensures Join(ks) == WriteAll(es) ==> forall i :: 0 <= i < |es| ==> ks[i] == WriteOne(es[i])
  {
    hide WriteOne, NormOne, Extent, ValidAction;
    if es != [] {
      var k, e := ks[0], es[0];
      assert NormAll(ks, c)[0] == e;
      SourceIsLonger(k, e, c);
      assert NormAll(ks[1..], c) == es[1..] by {
        forall i | 0 <= i < |ks| - 1 ensures NormAll(ks[1..], c)[i] == es[1..][i] {
          assert ks[1..][i] == ks[i + 1] && NormAll(ks, c)[i + 1] == es[i + 1];
        }
      }
      SourcesAreWritten(ks[1..], es[1..], c);
      if Join(ks) == WriteAll(es) {
        SameParts(k, Join(ks[1..]), WriteOne(e), WriteAll(es[1..]));
        forall i | 0 <= i < |es| ensures ks[i] == WriteOne(es[i]) {
          if i > 0 { assert ks[i] == ks[1..][i - 1] && es[i] == es[1..][i - 1]; }
        }
      }
    }
  }

  lemma SameParts(a: Bytes, b: Bytes, x: Bytes, y: Bytes)
    requires a + b == x + y && |a| >= |x| && |b| >= |y|
    ensures a == x && b == y
  {
    assert (a + b)[..|a|] == a && (a + b)[|a|..] == b;
    assert (x + y)[..|x|] == x && (x + y)[|x|..] == y;
  }

  /** Writing a valid action list to a version 1 channel and normalizing what was written gives the
      same bytes back if and only if every action of the list is restorable. */
  lemma {:induction false} RoundTripIff(es: seq<Bytes>, c: Context)
    requires ValidActions(es) && c.version == 1
    ensures WellFormed(ACTION, WriteAll(es)) && NormList(WriteAll(es), c) == Join(es)
       <==> forall i :: 0 <= i < |es| ==> Restorable(es[i], c)
  {
    hide WriteOne, NormOne, Restorable, Extent, ValidAction, Join;
    if WellFormed(ACTION, WriteAll(es)) && NormList(WriteAll(es), c) == Join(es) {
      ReturnedAreRestorable(es, c);
    }
    if forall i :: 0 <= i < |es| ==> Restorable(es[i], c) {
      RestorableReturn(es, c);
    }
  }

  lemma {:induction false} ReturnedAreRestorable(es: seq<Bytes>, c: Context)
    requires ValidActions(es) && c.version == 1
    requires WellFormed(ACTION, WriteAll(es)) && NormList(WriteAll(es), c) == Join(es)
    ensures forall i :: 0 <= i < |es| ==> Restorable(es[i], c)
  {
    hide WriteOne, NormOne, Restorable, Extent, ValidAction, Join, WriteAll;
    JoinParse(ACTION, WriteAll(es));
    var ks := Parse(ACTION, WriteAll(es)).value;
    NormAllElements(ks, c);
    JoinInjective(ACTION, NormAll(ks, c), es);
    SourcesAreWritten(ks, es, c);
    forall i | 0 <= i < |es| ensures Restorable(es[i], c) {
      assert NormAll(ks, c)[i] == NormOne(ks[i], c);
      ActionReturnsIff(es[i], c);
    }
  }

  lemma {:induction false} NormAllElements(ks: seq<Bytes>, c: Context)
    requires Elements(ACTION, ks)
    ensures Elements(ACTION, NormAll(ks, c))
  {
    hide NormOne, Extent;
    forall i | 0 <= i < |ks| ensures Element(ACTION, NormAll(ks, c)[i]) {
      NormOneIsElement(ks[i], c);
    }
  }

  lemma {:induction false} RestorableReturn(es: seq<Bytes>, c: Context)
    requires ValidActions(es) && c.version == 1 && forall i :: 0 <= i < |es| ==> Restorable(es[i], c)
    ensures WellFormed(ACTION, WriteAll(es)) && NormList(WriteAll(es), c) == Join(es)
  {
    hide WriteOne, NormOne, Restorable, Extent, ValidAction, Join, WriteAll;
    forall i | 0 <= i < |es|
      ensures WriteOne(es[i]) != [] && Framed(es[i])
      && Element(ACTION, WriteOne(es[i])) && NormOne(WriteOne(es[i]), c) == es[i]
    {
      ActionReturnsIff(es[i], c);
      RestorableIsFramed(es[i], c);
      NoBytes();
    }
    WrittenList(es);
    KeptCount(es);
    var ks := Kept(es);
    ParseJoin(ACTION, ks);
    assert NormAll(ks, c) == es;
  }

  lemma RestorableIsFramed(e: Bytes, c: Context)
    requires Element(ACTION, e) && Restorable(e, c)
    ensures |e| >= 8 && Size(e) % 8 == 0 && Framed(e)
  {
    ActionShape(e);
  }
}
