/** Property lists (include/ofp/propertylist.h). */
module Properties {
  import opened Bytes
  import opened Framing
  import opened Actions

  const PROPERTY: Layout := Padded(2, 4)

  /** A property with a fixed header of 4 or more bytes and a value, or one of fixed size. */
  datatype Property =
    | Variable(code: nat, fixed: Bytes, value: Bytes)
    | FixedSize(code: nat, body: Bytes)
  {
    /** The size field counts the header and the value but not the padding. */
    function Size(): nat {
      match this
      case Variable(_, fixed, value) => 4 + |fixed| + |value|
      case FixedSize(_, body) => 4 + |body|
    }

    predicate Valid() {
      code < 0x1_0000 && Size() < 0x1_0000 && (FixedSize? ==> Size() % 8 == 0)
    }

    function ToBytes(): Bytes
      requires Valid()
    {
      match this
      case Variable(code, fixed, value) =>
        Header(code, Size()) + fixed + value + Zeros(PadLength(Size()) - Size())
      case FixedSize(code, body) => Header(code, Size()) + body
    }
  }

  lemma PropertyIsElement(p: Property)
    requires p.Valid()
    ensures Element(PROPERTY, p.ToBytes()) && Code(p.ToBytes()) == p.code && Actions.Size(p.ToBytes()) == p.Size()
  {
    match p {
      case Variable(code, fixed, value) =>
        var body := fixed + value + Zeros(PadLength(p.Size()) - p.Size());
        assert p.ToBytes() == Header(code, p.Size()) + body;
        PaddedAction(code, p.Size(), body);
      case FixedSize(code, body) => PaddedAction(code, p.Size(), body);
    }
  }

  class PropertyList {
    var buf: Bytes

    ghost predicate Valid()
      reads this
    {
      WellFormed(PROPERTY, buf) && |buf| % 8 == 0
    }

    ghost function Items(): seq<Bytes>
      requires Valid()
      reads this
    {
      Parse(PROPERTY, buf).value
    }

    constructor ()
      ensures Valid() && buf == [] && Items() == []
    {
      buf := [];
    }

    /** Both forms of `add`, with the assertions they make before and after. */
    method Add(p: Property)
      requires Valid() && p.Valid()
      modifies this
      ensures Valid() && Items() == old(Items()) + [p.ToBytes()]
    {
      hide Extent;
      PropertyIsElement(p);
      ParseSnoc(PROPERTY, buf, p.ToBytes());
      ghost var was := buf;
      match p {
        case Variable(code, fixed, value) =>
          var propSize := 4 + |fixed| + |value|;
          buf := buf + (Header(code, propSize) + fixed);
          buf := buf + value;
          buf := buf + Zeros(PadLength(propSize) - propSize);
          assert p.Size() == propSize;
        case FixedSize(code, body) =>
          buf := buf + (Header(code, 4 + |body|) + body);
      }
      assert buf == was + p.ToBytes();
      PaddedLength(PROPERTY, buf);
    }
  }
}
