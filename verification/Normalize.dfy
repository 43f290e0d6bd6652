/** Rewriting OpenFlow 1.0 and 1.1 actions into the internal form, inside the message buffer
    (include/ofp/normalize.h and normActionsV1orV2 and its helpers in src/ofp/normalize.cpp). */
module Normalize {
  import opened Bytes
  import opened Options
  import opened Framing
  import opened Validation
  import opened Oxm
  import opened Actions
  import opened Channel
  import opened ActionWrite

  const PROTOCOL_ICMP := 1
  const PROTOCOL_TCP := 6
  const PROTOCOL_UDP := 17

  /** What a value undergoes in normSetField: its wire bytes are copied into the field's native type
      and encoded again. Only Big16 fields have a native type other than themselves, and there a
      little-endian host exchanges the two bytes. */
  function Reencode(f: Field, v: Bytes, littleEndian: bool): (r: Bytes)
    requires |v| == f.Width()
    ensures |r| == |v|
  {
    if littleEndian && (f.TcpSrc? || f.TcpDst? || f.UdpSrc? || f.UdpDst?) then [v[1], v[0]] else v
  }

  /** The action that sets field `f` to `v`: a header and one OXM, zero-padded to eight bytes. */
  function SetFieldAction(f: Field, v: Bytes): (e: Bytes)
    requires |v| == f.Width()
    ensures |e| == 16
  {
    Header(OFPAT_SET_FIELD, 16) + f.Type().ToBytes() + v + Zeros(8 - |v|)
  }

  lemma SetFieldParts(f: Field, v: Bytes)
    requires |v| == f.Width()
    ensures Header(OFPAT_SET_FIELD, 16) + (f.Type().ToBytes() + v + Zeros(8 - |v|)) == SetFieldAction(f, v)
  {}

  /** normPortNumberV1: the reserved 16-bit ports are sign-extended. */
  function PortFromV1(port: nat): nat
    requires port < 0x1_0000
  {
    if port > 0xff00 then 0xffff_0000 + port else port
  }

  function OutputAction(port: nat, maxlen: nat): (e: Bytes)
    ensures |e| == 16
  {
    Header(OFPAT_OUTPUT, 16) + Big32(port) + Big16(maxlen) + Zeros(6)
  }

  // ---- one action, as a function ----

  /** The action type in the numbering of version 2. */
  function TypeV2(code: nat, version: nat): nat {
    if version != 1 then code
    else if code == 3 then 0x7ff1
    else if code == 11 then 0x7ff2
    else if 4 <= code <= 8 then code - 1
    else code
  }

  lemma OutputType(code: nat, version: nat)
    ensures TypeV2(code, version) == OFPAT_OUTPUT <==> code == OFPAT_OUTPUT
  {}

  /** The field that an action of version 2 type `code` sets. */
  function FieldSetBy(code: nat, ipProto: nat): Option<Field> {
    if code == 1 then Some(VlanVid)
    else if code == 2 then Some(VlanPcp)
    else if code == 3 then Some(EthSrc)
    else if code == 4 then Some(EthDst)
    else if code == 5 then Some(Ipv4Src)
    else if code == 6 then Some(Ipv4Dst)
    else if code == 7 then Some(IpDscp)
    else if code == 8 then Some(IpEcn)
    else if code == 9 then
      if ipProto == PROTOCOL_TCP then Some(TcpSrc)
      else if ipProto == PROTOCOL_UDP then Some(UdpSrc)
      else if ipProto == PROTOCOL_ICMP then Some(Icmpv4Type)
      else None
    else if code == 10 then
      if ipProto == PROTOCOL_TCP then Some(TcpDst)
      else if ipProto == PROTOCOL_UDP then Some(UdpDst)
      else if ipProto == PROTOCOL_ICMP then Some(Icmpv4Code)
      else None
    else None
  }

  datatype Context = Context(version: nat, ipProto: nat, littleEndian: bool)

  /** normSetField on one complete action. */
  function SetFieldOne(e: Bytes, f: Field, littleEndian: bool): Bytes
    requires Element(ACTION, e)
  {
    ActionShape(e);
    if Size(e) % 8 != 0 || Size(e) - 4 < f.Width() then e
    else SetFieldAction(f, Reencode(f, e[4..4 + f.Width()], littleEndian))
  }

  /** normOutput on one complete action. */
  function OutputOne(e: Bytes): Bytes
    requires Element(ACTION, e)
  {
    ActionShape(e);
    if Size(e) != 8 then e else OutputAction(PortFromV1(ReadBig16(e, 4)), ReadBig16(e, 6))
  }

  /** The effect of normActionsV1orV2 on one complete action. */
  function NormOne(e: Bytes, c: Context): Bytes
    requires Element(ACTION, e)
  {
    ActionShape(e);
    var code := Code(e);
    if !(code <= 11 || code == 13 || code == 14) then e
    else if TypeV2(code, c.version) == OFPAT_OUTPUT then OutputOne(e)
    else
      match FieldSetBy(TypeV2(code, c.version), c.ipProto)
      case None => e
      case Some(f) => SetFieldOne(e, f, c.littleEndian)
  }

  function NormAll(es: seq<Bytes>, c: Context): seq<Bytes>
    requires Elements(ACTION, es)
  {
    seq(|es|, i requires 0 <= i < |es| => NormOne(es[i], c))
  }

  /** The effect on a whole well-formed list. */
  function NormList(b: Bytes, c: Context): Bytes
    requires WellFormed(ACTION, b)
  {
    JoinParse(ACTION, b);
    Join(NormAll(Parse(ACTION, b).value, c))
  }

  lemma SetFieldActionIsElement(f: Field, v: Bytes)
    requires |v| == f.Width()
    ensures Element(ACTION, SetFieldAction(f, v))
    ensures Code(SetFieldAction(f, v)) == OFPAT_SET_FIELD && Size(SetFieldAction(f, v)) == 16
  {
    var body := f.Type().ToBytes() + v + Zeros(8 - |v|);
    assert SetFieldAction(f, v) == Header(OFPAT_SET_FIELD, 16) + body;
    PaddedAction(OFPAT_SET_FIELD, 16, body);
  }

  lemma OutputActionIsElement(port: nat, maxlen: nat)
    ensures Element(ACTION, OutputAction(port, maxlen))
    ensures Code(OutputAction(port, maxlen)) == OFPAT_OUTPUT && Size(OutputAction(port, maxlen)) == 16
  {
    var body := Big32(port) + Big16(maxlen) + Zeros(6);
    assert OutputAction(port, maxlen) == Header(OFPAT_OUTPUT, 16) + body;
    PaddedAction(OFPAT_OUTPUT, 16, body);
  }

  lemma {:induction false} NormOneIsElement(e: Bytes, c: Context)
    requires Element(ACTION, e)
    ensures Element(ACTION, NormOne(e, c))
  {
    hide SetFieldAction, OutputAction, Reencode;
    ActionShape(e);
    OutputActionIsElement(PortFromV1(ReadBig16(e, 4)), ReadBig16(e, 6));
    match FieldSetBy(TypeV2(Code(e), c.version), c.ipProto) {
      case None =>
      case Some(f) =>
        if Size(e) - 4 >= f.Width() {
          SetFieldActionIsElement(f, Reencode(f, e[4..4 + f.Width()], c.littleEndian));
        }
    }
  }

  // ---- in the buffer ----

  /** Rewrites the message buffer it is given; iterators into it are offsets. */
  class Normalize {
    const buf: ByteList
    const littleEndian: bool

    constructor (buf: ByteList, littleEndian: bool)
      ensures this.buf == buf && this.littleEndian == littleEndian
    {
      this.buf := buf;
      this.littleEndian := littleEndian;
    }

    /** The OXM that replaces the bare value: `list.add(Type{value}); list.pad8(4)`. */
    method MakeOxm(f: Field, value: Bytes) returns (list: OXMList)
      requires |value| == f.Width()
      ensures fresh(list) && list.buf == f.Type().ToBytes() + value + Zeros(8 - |value|)
    {
      list := new OXMList();
      list.AddPlain(f.Type(), value);
      list.Pad8(4);
    }

    /** Makes the action at `iter` as long as its replacement; the bytes of the action itself are
        then unspecified. The buffer grows behind the header or shrinks in front of it. */
    method Resize(iter: nat, valueLen: nat, listLen: nat)
      requires iter + 4 + valueLen <= |buf.data|
      modifies buf
      ensures |buf.data| == old(|buf.data|) + listLen - valueLen
      ensures buf.data[..iter] == old(buf.data[..iter])
      ensures buf.data[iter + 4 + listLen..] == old(buf.data[iter + 4 + valueLen..])
    {
      ghost var was := buf.data;
      if listLen > valueLen {
        buf.InsertUninitialized(iter + 4, listLen - valueLen);
        assert buf.data[..iter] == buf.data[..iter + 4][..iter];
        assert buf.data[iter + 4 + listLen..] == buf.data[iter + 4 + listLen - valueLen..][valueLen..];
        assert was[iter + 4..][valueLen..] == was[iter + 4 + valueLen..];
      } else if listLen < valueLen {
        buf.Remove(iter, valueLen - listLen);
      }
    }

    /** Puts a SET_FIELD action holding `list` in the place of the `4 + valueLen` bytes at `iter`:
        the header and the list are copied over what the resized action holds. */
    method SpliceSetField(iter: nat, valueLen: nat, list: Bytes)
      requires iter + 4 + valueLen <= |buf.data|
      modifies buf
      ensures buf.data == old(buf.data[..iter]) + (Header(OFPAT_SET_FIELD, 4 + |list|) + list)
        + old(buf.data[iter + 4 + valueLen..])
    {
      Resize(iter, valueLen, |list|);
      ghost var mid := buf.data;
      var header := Header(OFPAT_SET_FIELD, 4 + |list|);
      buf.Overwrite(iter, header);
      buf.Overwrite(iter + 4, list);
      OverwriteTwice(mid, iter, header, list);
    }

    /** An exact splice. A complete action at `iter` that has an aligned size and holds the value
        becomes one SET_FIELD action of 16 bytes; the bytes before and behind it stay, the size of
        the buffer and the end iterator move by the returned difference. Otherwise nothing changes. */
    method NormSetField(f: Field, iter: nat, iterEnd: nat) returns (lengthChange: int, iterEnd': int)
      requires iter + 4 <= iterEnd <= |buf.data|
      requires 4 <= ReadBig16(buf.data, iter + 2) && iter + ReadBig16(buf.data, iter + 2) <= iterEnd
      modifies buf
      ensures iterEnd' == iterEnd + lengthChange
      ensures var was := old(buf.data); var size := ReadBig16(was, iter + 2);
        if size % 8 == 0 && size - 4 >= f.Width() then
          && lengthChange == 16 - size
          && buf.data == was[..iter]
            + SetFieldAction(f, Reencode(f, was[iter + 4..iter + 4 + f.Width()], littleEndian)) + was[iter + size..]
        else lengthChange == 0 && buf.data == was
    {
      hide SetFieldAction, Reencode, Header, Zeros;
      var size := ReadBig16(buf.data, iter + 2);
      if size % 8 != 0 { return 0, iterEnd; }
      var valueLen := size - 4;
      if valueLen < f.Width() { return 0, iterEnd; }
      var value := Reencode(f, buf.data[iter + 4..iter + 4 + f.Width()], littleEndian);
      var list := MakeOxm(f, value);
      lengthChange := |list.buf| - valueLen;
      SpliceSetField(iter, valueLen, list.buf);
      SetFieldParts(f, value);
      iterEnd' := iterEnd + lengthChange;
    }

    /** A 16-bit output action becomes a 32-bit one; any other action of that type stays. */
    method NormOutput(iter: nat, iterEnd: nat) returns (lengthChange: int, iterEnd': int)
      requires iter + 8 <= iterEnd <= |buf.data|
      modifies buf
      ensures iterEnd' == iterEnd + lengthChange
      ensures var was := old(buf.data);
        if was[iter..iter + 4] == Header(OFPAT_OUTPUT, 8) then
          && lengthChange == 8
          && buf.data == was[..iter] + OutputAction(PortFromV1(ReadBig16(was, iter + 4)), ReadBig16(was, iter + 6))
            + was[iter + 8..]
        else lengthChange == 0 && buf.data == was
    {
      hide OutputAction;
      if buf.data[iter..iter + 4] != Header(OFPAT_OUTPUT, 8) { return 0, iterEnd; }
      var port := PortFromV1(ReadBig16(buf.data, iter + 4));
      var maxlen := ReadBig16(buf.data, iter + 6);
      ghost var was := buf.data;
      buf.InsertUninitialized(iter + 4, 8);
      assert buf.data[..iter] == buf.data[..iter + 4][..iter] == was[..iter];
      assert buf.data[iter + 16..] == buf.data[iter + 12..][4..] == was[iter + 8..];
      buf.Overwrite(iter, OutputAction(port, maxlen));
      return 8, iterEnd + 8;
    }

    /** normActionV1orV2: the dispatch on the type of the action at `iter`, which is `e`. */
    method NormAction(ghost e: Bytes, code: nat, iter: nat, iterEnd: nat, ipProto: nat)
      returns (lengthChange: int, iterEnd': int)
      requires Element(ACTION, e) && 1 <= iter && iter + |e| <= iterEnd <= |buf.data|
      requires buf.data[iter..iter + |e|] == e && code == Code(e)
      requires code <= 11 || code == 13 || code == 14
      modifies buf
      ensures var e' := NormOne(e, Context(old(buf.data[0]) as int, ipProto, littleEndian));
        && lengthChange == |e'| - |e| && iterEnd' == iterEnd + lengthChange
        && buf.data == old(buf.data[..iter]) + e' + old(buf.data[iter + |e|..])
    {
      hide SetFieldAction, OutputAction, Reencode, TypeV2, FieldSetBy, Extent, PortFromV1, Header;
      ActionShape(e);
      AtOffset(buf.data, iter, e);
      OutputType(code, buf.data[0] as int);
      var type_ := TypeV2(code, buf.data[0] as int);
      if type_ == OFPAT_OUTPUT {
        lengthChange, iterEnd' := NormOutput(iter, iterEnd);
      } else {
        match FieldSetBy(type_, ipProto) {
          case None => lengthChange, iterEnd' := 0, iterEnd;
          case Some(f) =>
            if Size(e) % 8 == 0 && Size(e) - 4 >= f.Width() { SliceAt(buf.data, iter, e, f.Width()); }
            lengthChange, iterEnd' := NormSetField(f, iter, iterEnd);
        }
      }
    }

    /** One turn of the loop in normActionsV1orV2, at an action `e` between other bytes. */
    method NormNext(ghost pre: Bytes, ghost e: Bytes, ghost rest: Bytes, iter: nat, iterEnd: nat, ipProto: nat)
      returns (change: int, iter': nat, iterEnd': int)
      requires Element(ACTION, e) && 8 <= iter == |pre| && iter + |e| <= iterEnd <= |buf.data|
      requires buf.data == pre + e + rest
      modifies buf
      ensures var e' := NormOne(e, Context(pre[0] as int, ipProto, littleEndian));
        && buf.data == pre + e' + rest && change == |e'| - |e|
        && iter' == |pre| + |e'| && iterEnd' == iterEnd + change
    {
      hide Extent, ElementSize, NormOne;
      StepIn(pre, e, rest);
      ghost var c := Context(pre[0] as int, ipProto, littleEndian);
      var code := ReadBig16(buf.data, iter);
      change, iterEnd' := 0, iterEnd;
      if code <= 11 || code == 13 || code == 14 {
        change, iterEnd' := NormAction(e, code, iter, iterEnd, ipProto);
      } else {
        NormOther(e, c);
      }
      NormOneIsElement(e, c);
      StepIn(pre, NormOne(e, c), rest);
      iter' := iter + PadLength(ElementSize(buf.data[iter..], 2));
    }

    /** normActionsV1orV2: every action of a well-formed list that lies in the buffer behind the
        message header is replaced by its internal form; nothing else in the buffer changes. */
    method NormActions(begin: nat, end: nat, ipProto: nat) returns (lengthChange: int)
      requires 8 <= begin <= end <= |buf.data| && WellFormed(ACTION, buf.data[begin..end])
      modifies buf
      ensures var was := old(buf.data);
        var list := NormList(was[begin..end], Context(was[0] as int, ipProto, littleEndian));
        && buf.data == was[..begin] + list + was[end..]
        && lengthChange == |list| - (end - begin)
    {
      hide Extent, ElementSize, NormOne, Join, Parse;
      ghost var was := buf.data;
      ghost var c := Context(was[0] as int, ipProto, littleEndian);
      ghost var es := Parse(ACTION, was[begin..end]).value;
      JoinParse(ACTION, was[begin..end]);
      ghost var fs := NormAll(es, c);
      lengthChange := 0;
      var iter, iterEnd: int := begin, end;
      ghost var k := 0;
      ghost var done: Bytes, todo := [], Join(es);
      JoinEnds(es);
      while iter < iterEnd
        invariant 0 <= k <= |es| && done == Join(fs[..k]) && todo == Join(es[k..])
        invariant buf.data == was[..begin] + done + todo + was[end..]
        invariant iter == begin + |done| && iterEnd == iter + |todo| == end + lengthChange
        decreases |es| - k
      {
        JoinUncons(es, k);
        ghost var e, e' := es[k], fs[k];
        todo := Join(es[k + 1..]);
        assert buf.data == (was[..begin] + done) + e + (todo + was[end..]);
        var change;
        change, iter, iterEnd := NormNext(was[..begin] + done, e, todo + was[end..], iter, iterEnd, ipProto);
        lengthChange := lengthChange + change;
        assert (was[..begin] + done) + e' + (todo + was[end..]) == was[..begin] + (done + e') + todo + was[end..];
        assert fs[..k + 1] == fs[..k] + [e'];
        JoinSnoc(fs[..k], e');
        done := done + e';
        k := k + 1;
      }
      JoinUncons(es, k);
      assert fs[..|fs|] == fs;
    }
  }

  lemma JoinEnds(es: seq<Bytes>)
    ensures Join([]) == [] && Join(es[0..]) == Join(es)
  {
    assert es[0..] == es;
  }

  lemma JoinUncons(es: seq<Bytes>, k: nat)
    requires k <= |es| && Elements(ACTION, es)
    ensures k < |es| ==> Join(es[k..]) == es[k] + Join(es[k + 1..])
    ensures Join(es[k..]) == [] <==> k == |es|
  {
    if k < |es| {
      ActionShape(es[k]);
      assert es[k..][1..] == es[k + 1..];
    }
  }

  /** An action between other bytes: its place, its header and where the iterator goes next. */
  lemma StepIn(pre: Bytes, e: Bytes, rest: Bytes)
    requires Element(ACTION, e)
    ensures |e| >= 8
    ensures var b := pre + e + rest;
      && b[|pre|..|pre| + |e|] == e && b[..|pre|] == pre && b[|pre| + |e|..] == rest
      && ReadBig16(b, |pre|) == Code(e)
      && PadLength(ElementSize(b[|pre|..], 2)) == |e|
  {
    ActionShape(e);
    var b := pre + e + rest;
    assert b[|pre|..] == e + rest;
    AtOffset(b, |pre|, e);
    assert ReadBig16(b[|pre|..], 2) == ReadBig16(e, 2);
  }

  lemma NormOther(e: Bytes, c: Context)
    requires Element(ACTION, e)
    ensures |e| >= 8
    ensures !(Code(e) <= 11 || Code(e) == 13 || Code(e) == 14) ==> NormOne(e, c) == e
  {
    ActionShape(e);
  }

  lemma SliceAt(b: Bytes, iter: nat, e: Bytes, n: nat)
    requires 4 + n <= |e| && iter + |e| <= |b| && b[iter..iter + |e|] == e
    ensures b[iter + 4..iter + 4 + n] == e[4..4 + n]
  {
    assert e == b[iter..iter + 4] + b[iter + 4..iter + 4 + n] + b[iter + 4 + n..iter + |e|];
  }

  lemma OverwriteTwice(b: Bytes, pos: nat, x: Bytes, y: Bytes)
    requires pos + |x| + |y| <= |b|
    ensures var c := b[..pos] + x + b[pos + |x|..];
      c[..pos + |x|] + y + c[pos + |x| + |y|..] == b[..pos] + (x + y) + b[pos + |x| + |y|..]
  {}

  /** Reading an action at its place in the buffer. */
  lemma AtOffset(b: Bytes, iter: nat, e: Bytes)
    requires Element(ACTION, e) && iter + |e| <= |b| && b[iter..iter + |e|] == e
    ensures |e| >= 8 && b == b[..iter] + e + b[iter + |e|..]
    ensures ReadBig16(b, iter) == Code(e) && ReadBig16(b, iter + 2) == Size(e)
    ensures ReadBig16(b, iter + 4) == ReadBig16(e, 4) && ReadBig16(b, iter + 6) == ReadBig16(e, 6)
    ensures b[iter..iter + 4] == Header(OFPAT_OUTPUT, 8) <==> Code(e) == OFPAT_OUTPUT && Size(e) == 8
  {
    ActionShape(e);
    assert forall i :: 0 <= i < |e| ==> b[iter + i] == e[i];
    assert b[iter..iter + 4] == e[..4];
    HeaderFields(OFPAT_OUTPUT, 8, e[4..]);
    assert e == e[..4] + e[4..];
    ReadBig16RoundTrip(e, 0);
    ReadBig16RoundTrip(e, 2);
    assert e[..4] == e[0..2] + e[2..4] == Header(Code(e), Size(e));
  }
}
