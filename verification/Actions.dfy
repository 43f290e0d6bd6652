/** Actions on the wire (include/ofp/actions.h, actioniterator.h, actionlist.h) and the validation
    of action lists (src/ofp/actionrange.cpp). */
module Actions {
  import opened Bytes
  import opened Framing
  import opened Validation
  import opened Oxm

  const ACTION: Layout := Padded(2, 4)

  const OFPAT_OUTPUT := 0
  const OFPAT_SET_FIELD := 25
  const OFPAT_EXPERIMENTER := 0xffff
  const NICIRA := 0x2320

  function Header(code: nat, length: nat): (b: Bytes)
    ensures |b| == 4
  {
    Big16(code) + Big16(length)
  }

  function Code(e: Bytes): nat
    requires |e| >= 4
  {
    ReadBig16(e, 0)
  }

  function Size(e: Bytes): nat
    requires |e| >= 4
  {
    ReadBig16(e, 2)
  }

  lemma HeaderFields(code: nat, length: nat, rest: Bytes)
    requires code < 0x1_0000
    ensures Code(Header(code, length) + rest) == code && Size(Header(code, length) + rest) == length % 0x1_0000
  {
    var b := Header(code, length) + rest;
    assert b[0..2] == Big16(code) && b[2..4] == Big16(length);
    Big16RoundTrip(code, b, 0);
    Big16RoundTrip(length, b, 2);
  }

  lemma ActionShape(e: Bytes)
    ensures Element(ACTION, e) <==> |e| >= 8 && 4 <= Size(e) && |e| == PadLength(Size(e))
  {}

  // ---- actions as values ----

  datatype Action =
    | Output(port: nat, maxlen: nat)
    | Fixed(code: nat, body: Bytes)                                   // the other fixed-size actions
    | SetField(field: OxmType, value: Bytes)
    | SetFieldCustom(field: OxmType, experimenter: nat, value: Bytes)
    | Unknown(code: nat, value: Bytes)
    | Experimenter(id: nat, value: Bytes)
  {
    /** The number in the length field. */
    function Length(): nat {
      match this
      case Output(_, _) => 16
      case Fixed(_, body) => 4 + |body|
      case SetField(_, value) => 8 + PadLength(|value|)
      case SetFieldCustom(_, experimenter, value) => PadLength(8 + |value| + if experimenter != 0 then 4 else 0)
      case Unknown(_, value) => 4 + |value|
      case Experimenter(_, value) => PadLength(8 + |value|)
    }

    /** The length fits its 16 bits and the type is one. */
    predicate Valid() {
      && Length() < 0x1_0000
      && match this {
           case Output(_, _) => true
           case Fixed(code, body) => code < 0x1_0000 && (4 + |body|) % 8 == 0
           case SetField(field, value) => field.Valid()
           case SetFieldCustom(field, _, value) => field.Valid()
           case Unknown(code, _) => code < 0x1_0000
           case Experimenter(_, _) => true
         }
    }

    function TypeCode(): nat {
      match this
      case Output(_, _) => OFPAT_OUTPUT
      case Fixed(code, _) => code
      case SetField(_, _) => OFPAT_SET_FIELD
      case SetFieldCustom(_, _, _) => OFPAT_SET_FIELD
      case Unknown(code, _) => code
      case Experimenter(_, _) => OFPAT_EXPERIMENTER
    }

    /** What follows the type and the length, with its padding. */
    function Body(): (b: Bytes)
      requires Valid()
      ensures 4 + |b| == PadLength(Length())
    {
      match this
      case Output(port, maxlen) => Big32(port) + Big16(maxlen) + Zeros(6)
      case Fixed(_, body) => body
      case SetField(field, value) => field.ToBytes() + value + Zeros(PadLength(|value|) - |value|)
      case SetFieldCustom(field, experimenter, value) =>
        var id := if experimenter != 0 then Big32(experimenter) else [];
        field.ToBytes() + id + value + Zeros(Length() - 8 - |id| - |value|)
      case Unknown(_, value) => value + Zeros(PadLength(Length()) - Length())
      case Experimenter(id, value) => Big32(id) + value + Zeros(Length() - 8 - |value|)
    }

    function ToBytes(): Bytes
      requires Valid()
    {
      Header(TypeCode(), Length()) + Body()
    }
  }

  lemma PaddedAction(code: nat, length: nat, body: Bytes)
    requires code < 0x1_0000 && 4 <= length < 0x1_0000 && 4 + |body| == PadLength(length)
    ensures Element(ACTION, Header(code, length) + body)
    ensures Code(Header(code, length) + body) == code && Size(Header(code, length) + body) == length
  {
    HeaderFields(code, length, body);
    ActionShape(Header(code, length) + body);
  }

  /** Every action is written as one complete, padded element that carries its type and length. */
  lemma ActionIsElement(a: Action)
    requires a.Valid()
    ensures Element(ACTION, a.ToBytes())
    ensures Code(a.ToBytes()) == a.TypeCode() && Size(a.ToBytes()) == a.Length()
  {
    PaddedAction(a.TypeCode(), a.Length(), a.Body());
  }

  // ---- ActionList ----

  class ActionList {
    var buf: Bytes

    ghost predicate Valid()
      reads this
    {
      WellFormed(ACTION, buf)
    }

    ghost function Items(): seq<Bytes>
      requires Valid()
      reads this
    {
      Parse(ACTION, buf).value
    }

    constructor ()
      ensures Valid() && buf == [] && Items() == []
    {
      buf := [];
    }

    /** The template for the fixed-size actions. */
    method AddFixed(a: Action)
      requires a.Valid() && (a.Output? || a.Fixed? || a.SetField?)
      modifies this
      ensures buf == old(buf) + a.ToBytes()
    {
      buf := buf + a.ToBytes();
    }

    method AddSetFieldCustom(a: Action)
      requires a.Valid() && a.SetFieldCustom?
      modifies this
      ensures buf == old(buf) + a.ToBytes()
    {
      hide Header, Big32, Zeros, OxmType.ToBytes, PadLength;
      PadPlus8(|a.value|);
      PadPlus8(|a.value| + 4);
      var head := Header(OFPAT_SET_FIELD, a.Length()) + a.field.ToBytes();
      if a.experimenter != 0 {
        var paddedLen := PadLength(|a.value| + 4);
        buf := buf + (head + Big32(a.experimenter));
        buf := buf + a.value;
        buf := buf + Zeros(paddedLen - |a.value| - 4);
      } else {
        var paddedLen := PadLength(|a.value|);
        buf := buf + head;
        buf := buf + a.value;
        buf := buf + Zeros(paddedLen - |a.value|);
      }
    }

    method AddUnknown(a: Action)
      requires a.Valid() && a.Unknown?
      modifies this
      ensures buf == old(buf) + a.ToBytes()
    {
      var paddedLen := PadLength(4 + |a.value|);
      buf := buf + Header(a.code, a.Length());
      buf := buf + a.value;
      buf := buf + Zeros(paddedLen - (4 + |a.value|));
    }

    method AddExperimenter(a: Action)
      requires a.Valid() && a.Experimenter?
      modifies this
      ensures buf == old(buf) + a.ToBytes()
    {
      hide Header, Big32, Zeros;
      var paddedLen := PadLength(8 + |a.value|);
      buf := buf + (Header(OFPAT_EXPERIMENTER, a.Length()) + Big32(a.id));
      buf := buf + a.value;
      buf := buf + Zeros(paddedLen - (8 + |a.value|));
    }

    /** The overloads of `add`: whatever is added, iteration afterwards yields it last. */
    method Add(a: Action)
      requires Valid() && a.Valid()
      modifies this
      ensures Valid() && Items() == old(Items()) + [a.ToBytes()]
    {
      hide Extent;
      ActionIsElement(a);
      ParseSnoc(ACTION, buf, a.ToBytes());
      match a {
        case SetFieldCustom(_, _, _) => AddSetFieldCustom(a);
        case Unknown(_, _) => AddUnknown(a);
        case Experimenter(_, _) => AddExperimenter(a);
        case _ => AddFixed(a);
      }
    }
  }

  // ---- validation ----

  /** What the switch in ActionRange::validateInput asks of one complete element. */
  predicate ValidAction(e: Bytes)
    requires Element(ACTION, e)
  {
    ActionShape(e);
    var size := Size(e);
    if Code(e) == OFPAT_SET_FIELD then size >= 16 && PaddedField(e[4..size])
    else if Code(e) == OFPAT_EXPERIMENTER then
      size >= 8 &&
      (ReadBig32(e, 4) == NICIRA ==> size >= 10 && (ReadBig16(e, 8) == 6 || ReadBig16(e, 8) == 7 ==> size == 24))
    else true
  }

  ghost predicate ValidActions(es: seq<Bytes>) {
    forall i :: 0 <= i < |es| ==> Element(ACTION, es[i]) && ValidAction(es[i])
  }

  ghost predicate ValidActionRange(b: Bytes) {
    WellFormed(ACTION, b) && ValidActions(Parse(ACTION, b).value)
  }

  method ValidateSetField(e: Bytes) returns (ok: bool)
    requires Element(ACTION, e) && Code(e) == OFPAT_SET_FIELD
    ensures ok == ValidAction(e)
  {
    ActionShape(e);
    var len := Size(e);
    if len < 16 { return false; }
    ok := ValidateInputPaddedField(e[4..len]);
  }

  /** ActionRange::validateInput: the structure of the list, then each action by its type. */
  method ValidateActions(range: Bytes, rangeAligned: bool) returns (ok: bool)
    ensures ok <==> rangeAligned && ValidActionRange(range)
  {
    hide Extent, ValidAction;
    ok := IsProtocolRangeValid(4, range, 2, rangeAligned);
    if WellFormed(ACTION, range) { PaddedLength(ACTION, range); }
    if !ok { return; }
    JoinParse(ACTION, range);
    var items := Iterate(ACTION, range);
    for i := 0 to |items|
      invariant forall j :: 0 <= j < i ==> ValidAction(items[j])
    {
      var good := ValidateItem(items[i]);
      if !good { return false; }
    }
    return true;
  }

  method ValidateItem(e: Bytes) returns (ok: bool)
    requires Element(ACTION, e)
    ensures ok == ValidAction(e)
  {
    ActionShape(e);
    if Code(e) == OFPAT_SET_FIELD {
      ok := ValidateSetField(e);
    } else if Code(e) == OFPAT_EXPERIMENTER {
      if Size(e) < 8 { return false; }
      ok := true;
      if ReadBig32(e, 4) == NICIRA {
        if Size(e) < 10 { return false; }
        if ReadBig16(e, 8) == 6 || ReadBig16(e, 8) == 7 {
          ok := Size(e) == 24;
        }
      }
    } else {
      ok := true;
    }
  }

  lemma PaddedLength(l: Layout, b: Bytes)
    requires l.Padded? && WellFormed(l, b)
    ensures |b| % 8 == 0
  {
    JoinParse(l, b);
    JoinLengthMod8(Parse(l, b).value);
  }
}
