/** OXM types and lists of type-length-value entries (include/ofp/oxmtype.h, oxmlist.h,
    oxmiterator.h, oxmrange.h and src/ofp/oxmlist.cpp). */
module Oxm {
  import opened Bytes
  import opened Options
  import opened Framing

  // ---- OXMType ----

  /** The four bit-fields of an OXM header: 16, 7, 1 and 8 bits. */
  datatype OxmType = OxmType(oxmClass: nat, field: nat, hasMask: bool, size: nat)
  {
    predicate Valid() { oxmClass < 0x1_0000 && field < 128 && size < 256 }

    predicate IsExperimenter() { oxmClass == 0xffff }

    /** Size of the experimenter id. */
    function ExpSize(): nat { if IsExperimenter() then 4 else 0 }

    /** oxmNative(): the header as one 32-bit number. */
    function Native(): nat {
      oxmClass * 0x1_0000 + field * 512 + (if hasMask then 256 else 0) + size
    }

    function ToBytes(): (b: Bytes)
      requires Valid()
      ensures |b| == 4 && b[3] as int == size
    {
      Big16(oxmClass) + [(2 * field + if hasMask then 1 else 0) as UInt8, size as UInt8]
    }
  }

  function TypeFromBytes(b: Bytes): (t: OxmType)
    requires |b| >= 4
    ensures t.Valid()
  {
    OxmType(ReadBig16(b, 0), b[2] as int / 2, b[2] % 2 == 1, b[3] as int)
  }

  /** The number by which lists are ordered is the header read as one big-endian word. */
  lemma {:induction false} NativeIsWord(t: OxmType)
    requires t.Valid()
    ensures ReadBig32(t.ToBytes(), 0) == t.Native()
  {
    Big16RoundTrip(t.oxmClass, t.ToBytes(), 0);
  }

  lemma TypeRoundTrip(t: OxmType, rest: Bytes)
    requires t.Valid()
    ensures TypeFromBytes(t.ToBytes() + rest) == t
  {
    var b := t.ToBytes() + rest;
    assert b[0..2] == Big16(t.oxmClass);
    Big16RoundTrip(t.oxmClass, b, 0);
  }

  /** OXMType::make: the size is a 16-bit argument that is or-ed in, so that a size above 255
      spills into the mask bit and the field. */
  function Make(oxmClass: nat, field: nat, size: nat, mask: bool): OxmType {
    var third := BitOr(2 * (field % 128) + (if mask then 1 else 0), size / 256);
    OxmType(oxmClass, third / 2, third % 2 == 1, size % 256)
  }

  /** The length of the masked form, before it is narrowed to 16 bits. */
  function MaskedSize(t: OxmType): int { (t.size - t.ExpSize()) * 2 + t.ExpSize() }

  function WithMask(t: OxmType): OxmType {
    if t.hasMask then t else Make(t.oxmClass, t.field, MaskedSize(t) % 0x1_0000, true)
  }

  /** Integer division rounds toward zero. */
  function Half(n: int): int { if n >= 0 then n / 2 else -(-n / 2) }

  function WithoutMask(t: OxmType): OxmType {
    if !t.hasMask then t
    else Make(t.oxmClass, t.field, (Half(t.size - t.ExpSize()) + t.ExpSize()) % 0x1_0000, false)
  }

  lemma {:induction false} OrZero(x: nat)
    ensures BitOr(x, 0) == x
  {
    if x != 0 { OrZero(x / 2); }
  }

  ghost predicate AllOnes(y: nat) { y == 0 || (y % 2 == 1 && AllOnes(y / 2)) }

  lemma {:induction false} OrAllOnes(x: nat, y: nat)
    requires x <= y && AllOnes(y)
    ensures BitOr(x, y) == y
  {
    if y != 0 { OrAllOnes(x / 2, y / 2); }
  }

  lemma OrByte(x: nat)
    requires x < 256
    ensures x % 2 == 1 ==> BitOr(x, 1) == x
    ensures BitOr(x, 255) == 255
  {
    OrZero(x / 2);
    ByteIsAllOnes();
    OrAllOnes(x, 255);
  }

  lemma {:induction false} MakeCases(oxmClass: nat, field: nat, size: nat, mask: bool)
    requires field < 128 && size < 0x1_0000
    ensures size < 256 ==> Make(oxmClass, field, size, mask) == OxmType(oxmClass, field, mask, size)
    ensures mask && 256 <= size < 512 ==>
      Make(oxmClass, field, size, mask) == OxmType(oxmClass, field, true, size - 256)
    ensures 0xff00 <= size ==> Make(oxmClass, field, size, mask) == OxmType(oxmClass, 127, true, size - 0xff00)
  {
    hide BitOr;
    var x := 2 * field + (if mask then 1 else 0);
    OrZero(x);
    OrByte(x);
  }

  /** Removing a mask undoes adding it exactly when the doubled length is a byte, and then the value
      takes twice the room. The static checks on value sizes (below 128) leave out experimenter
      values of 126 and 127 bytes, for which it is not. */
  lemma {:induction false} MaskRoundTrip(t: OxmType)
    requires t.Valid() && !t.hasMask
    ensures WithoutMask(WithMask(t)) == t <==> 0 <= MaskedSize(t) < 256
    ensures 0 <= MaskedSize(t) < 256 ==> WithMask(t) == OxmType(t.oxmClass, t.field, true, MaskedSize(t))
  {
    hide Make;
    var size := MaskedSize(t);
    MakeCases(t.oxmClass, t.field, size % 0x1_0000, true);
    if size < 0 {
      assert WithMask(t) == OxmType(t.oxmClass, 127, true, size + 256);
      MakeCases(t.oxmClass, 127, Half(size + 252) + 4, false);
    } else if size < 256 {
      MakeCases(t.oxmClass, t.field, t.size, false);
    } else {
      assert WithMask(t) == OxmType(t.oxmClass, t.field, true, size - 256);
      MakeCases(t.oxmClass, t.field, t.size - 128, false);
    }
  }

  lemma {:induction false} MaskRoundTripFails()
    ensures var t := OxmType(0xffff, 1, false, 4 + 126);
            WithMask(t).size != 4 + 2 * 126 && WithoutMask(WithMask(t)) != t
  {
    hide Make;
    MakeCases(0xffff, 1, 256, true);
    MaskRoundTrip(OxmType(0xffff, 1, false, 130));
  }

  // ---- entries ----

  /** What one of the four `add` forms is given: a value, an experimenter id for the experimenter
      class, and a mask for a masked type. */
  datatype Entry = Entry(oxmType: OxmType, experimenter: Option<nat>, value: Bytes, mask: Option<Bytes>)
  {
    /** The assertions of the `add` forms: the type's length is the length of what follows it. */
    predicate Valid() {
      && oxmType.Valid()
      && (experimenter.Some? <==> oxmType.IsExperimenter())
      && (experimenter.Some? ==> experimenter.value < 0x1_0000_0000)
      && (mask.Some? <==> oxmType.hasMask)
      && (mask.Some? ==> |mask.value| == |value|)
      && oxmType.size == oxmType.ExpSize() + (if mask.Some? then 2 * |value| else |value|)
    }

    /** The same entry with the value's bits outside the mask cleared. */
    function Masked(): (e: Entry)
      requires Valid()
      ensures e.Valid()
    {
      match mask
      case None => this
      case Some(m) => this.(value := MaskBytes(value, m))
    }

    function ToBytes(): Bytes
      requires Valid()
    {
      oxmType.ToBytes() +
      (if experimenter.Some? then Big32(experimenter.value) else []) +
      Masked().value +
      (if mask.Some? then mask.value else [])
    }
  }

  /** MemCopyMasked. */
  function MaskBytes(v: Bytes, m: Bytes): (r: Bytes)
    requires |v| == |m|
    ensures |r| == |v|
  {
    seq(|v|, i requires 0 <= i < |v| => BitAnd(v[i] as int, m[i] as int) as UInt8)
  }

  /** A bit of the masked value is set if and only if it is set in the value and in the mask. */
  lemma {:induction false} MaskedBitIff(v: Bytes, m: Bytes, i: nat, k: nat)
    requires |v| == |m|
    ensures BitAt(MaskBytes(v, m), i, k) <==> BitAt(v, i, k) && BitAt(m, i, k)
  {
    if i < |v| { BitwiseIff(v[i] as int, m[i] as int, k); }
  }

  lemma {:induction false} AndAllOnes(x: nat, y: nat)
    requires x <= y && AllOnes(y)
    ensures BitAnd(x, y) == x
  {
    if x != 0 { AndAllOnes(x / 2, y / 2); }
  }

  /** A byte under 255 stays as it is, one under 0 is cleared. */
  lemma {:induction false} MaskedByte(v: Bytes, m: Bytes, i: nat)
    requires |v| == |m| && i < |v|
    ensures m[i] == 255 ==> MaskBytes(v, m)[i] == v[i]
    ensures m[i] == 0 ==> MaskBytes(v, m)[i] == 0
  {
    hide BitAnd;
    assert AllOnes(255) by { ByteIsAllOnes(); }
    if m[i] == 255 { AndAllOnes(v[i] as int, 255); }
  }

  lemma ByteIsAllOnes()
    ensures AllOnes(255)
  {
    assert AllOnes(1) && AllOnes(3) && AllOnes(7) && AllOnes(15) && AllOnes(31) && AllOnes(63) && AllOnes(127);
  }

  lemma {:induction false} AndIdempotent(x: nat, y: nat)
    ensures BitAnd(BitAnd(x, y), y) == BitAnd(x, y)
  {
    if x != 0 && y != 0 { AndIdempotent(x / 2, y / 2); }
  }

  lemma MaskIdempotent(v: Bytes, m: Bytes)
    requires |v| == |m|
    ensures MaskBytes(MaskBytes(v, m), m) == MaskBytes(v, m)
  {
    forall i | 0 <= i < |v|
      ensures MaskBytes(MaskBytes(v, m), m)[i] == MaskBytes(v, m)[i]
    {
      AndIdempotent(v[i] as int, m[i] as int);
    }
  }

  // ---- OXMIterator::Item ----

  predicate ItemIsExperimenter(e: Bytes)
    requires |e| >= 4
  {
    e[0] == 0xff && e[1] == 0xff && e[3] >= 4
  }

  function ItemExperimenter(e: Bytes): nat
    requires Element(Tlv, e)
  {
    if ItemIsExperimenter(e) then ReadBig32(e, 4) else 0
  }

  /** The offset of an item's value: past the type and, for an experimenter, past the id. */
  function ValueOffset(e: Bytes): (n: nat)
    requires Element(Tlv, e)
    ensures n <= |e|
  {
    if ItemIsExperimenter(e) then 8 else 4
  }

  /** Reads an item back: half of what follows the id is the mask when the type has one. */
  function FromItem(e: Bytes): Entry
    requires Element(Tlv, e)
  {
    var t := TypeFromBytes(e);
    var at := ValueOffset(e);
    var half := (|e| - at) / 2;
    Entry(t, if ItemIsExperimenter(e) then Some(ItemExperimenter(e)) else None,
          if t.hasMask then e[at..at + half] else e[at..],
          if t.hasMask then Some(e[at + half..]) else None)
  }

  lemma EntryIsElement(x: Entry)
    requires x.Valid()
    ensures Element(Tlv, x.ToBytes())
    ensures TypeFromBytes(x.ToBytes()) == x.oxmType
    ensures ItemIsExperimenter(x.ToBytes()) <==> x.experimenter.Some?
  {
    var b := x.ToBytes();
    var rest := b[4..];
    assert b == x.oxmType.ToBytes() + rest;
    TypeRoundTrip(x.oxmType, rest);
    assert b[3] == x.oxmType.ToBytes()[3];
  }

  /** Reading an added entry returns its type, experimenter id and mask, and its value with the bits
      outside the mask cleared. */
  lemma {:induction false} EntryRoundTrip(x: Entry)
    requires x.Valid()
    ensures Element(Tlv, x.ToBytes()) && FromItem(x.ToBytes()) == x.Masked()
    ensures x.mask.None? ==> FromItem(x.ToBytes()).value == x.value
    ensures |FromItem(x.ToBytes()).value| == |x.value|
    ensures x.mask.Some? ==> forall i, k ::
      BitAt(FromItem(x.ToBytes()).value, i, k) <==> BitAt(x.value, i, k) && BitAt(x.mask.value, i, k)
  {
    hide Big32, ReadBig32, MaskBytes, BitAt;
    if x.mask.Some? {
      forall i, k ensures BitAt(x.Masked().value, i, k) <==> BitAt(x.value, i, k) && BitAt(x.mask.value, i, k) {
        MaskedBitIff(x.value, x.mask.value, i, k);
      }
    }
    EntryIsElement(x);
    var b := x.ToBytes();
    var at := ValueOffset(b);
    if x.experimenter.Some? {
      assert b[4..8] == Big32(x.experimenter.value);
      Big32RoundTrip(x.experimenter.value, b, 4);
    }
    var v := x.Masked().value;
    assert b[at..] == v + (if x.mask.Some? then x.mask.value else []);
    if x.mask.Some? {
      assert b[at..at + |v|] == v && b[at + |v|..] == x.mask.value;
    }
  }

  /** An IPV4_SRC of 10.1.2.3 under 255.255.0.0, byte by byte. */
  lemma {:induction false} MaskedAddress()
    ensures var x := Entry(OxmType(0x8000, 11, true, 8), None, [10, 1, 2, 3], Some([255, 255, 0, 0]));
      x.Valid() && x.ToBytes() == [0x80, 0, 0x17, 8, 10, 1, 0, 0, 255, 255, 0, 0]
  {
    hide MaskBytes;
    var v: Bytes, m: Bytes := [10, 1, 2, 3], [255, 255, 0, 0];
    forall i | 0 <= i < 4 ensures MaskBytes(v, m)[i] == if m[i] == 255 then v[i] else 0 {
      MaskedByte(v, m, i);
    }
    assert MaskBytes(v, m) == [10, 1, 0, 0];
  }

  /** Re-adding what was read back writes the same bytes. */
  lemma EntryStable(x: Entry)
    requires x.Valid()
    ensures FromItem((EntryIsElement(x); x.ToBytes())).Valid()
    ensures FromItem((EntryIsElement(x); x.ToBytes())).ToBytes() == x.ToBytes()
  {
    EntryRoundTrip(x);
    if x.mask.Some? { MaskIdempotent(x.value, x.mask.value); }
  }

  function EncodeAll(xs: seq<Entry>): (es: seq<Bytes>)
    requires forall i :: 0 <= i < |xs| ==> xs[i].Valid()
    ensures |es| == |xs| && forall i :: 0 <= i < |xs| ==> es[i] == xs[i].ToBytes()
  {
    seq(|xs|, i requires 0 <= i < |xs| => xs[i].ToBytes())
  }

  /** A whole list, whatever was added to it, splits back into its entries and each reads back. */
  lemma {:induction false} ListRoundTrip(xs: seq<Entry>)
    requires forall i :: 0 <= i < |xs| ==> xs[i].Valid()
    ensures Parse(Tlv, Join(EncodeAll(xs))) == Some(EncodeAll(xs))
    ensures Elements(Tlv, EncodeAll(xs))
    ensures forall i :: 0 <= i < |xs| ==> FromItem(EncodeAll(xs)[i]) == xs[i].Masked()
  {
    hide Extent, FromItem;
    forall i | 0 <= i < |xs|
      ensures Element(Tlv, EncodeAll(xs)[i]) && FromItem(EncodeAll(xs)[i]) == xs[i].Masked()
    {
      EntryRoundTrip(xs[i]);
    }
    ParseJoin(Tlv, EncodeAll(xs));
  }

  // ---- OXMRange ----

  lemma TlvStep(b: Bytes, pos: nat)
    requires pos < |b|
    ensures WellFormed(Tlv, b[pos..]) <==>
      pos + 4 <= |b| && pos + 4 + b[pos + 3] as int <= |b| && WellFormed(Tlv, b[pos + 4 + b[pos + 3] as int..])
    ensures WellFormed(Tlv, b[pos..]) ==>
      var next := pos + 4 + b[pos + 3] as int;
      Element(Tlv, b[pos..next]) && Parse(Tlv, b[pos..]).value == [b[pos..next]] + Parse(Tlv, b[next..]).value
  {
    var rest := b[pos..];
    if |rest| >= 4 {
      var n := 4 + rest[3] as int;
      if n <= |rest| {
        assert rest[n..] == b[pos + n..] && rest[..n] == b[pos..pos + n];
        ExtentCut(Tlv, rest);
      }
    }
  }

  /** Accepts exactly the concatenations of complete entries. */
  method ValidateInput(range: Bytes) returns (ok: bool)
    ensures ok <==> WellFormed(Tlv, range)
  {
    hide Extent;
    var pos, left := 0, |range|;
    while pos < |range|
      invariant 0 <= pos <= |range| && left == |range| - pos
      invariant WellFormed(Tlv, range) <==> WellFormed(Tlv, range[pos..])
    {
      TlvStep(range, pos);
      if left < 4 { return false; }
      var len := 4 + range[pos + 3] as int;
      if left < len { return false; }
      pos := pos + len;
      left := left - len;
    }
    return true;
  }

  /** One complete entry followed by at most seven zero bytes. */
  predicate PaddedField(b: Bytes) {
    Extent(Tlv, b) > 0 && |b| - Extent(Tlv, b) <= 7 && AllZero(b[Extent(Tlv, b)..])
  }

  lemma PaddedFieldIff(b: Bytes)
    ensures PaddedField(b) <==> exists e: Bytes, n: nat :: Element(Tlv, e) && n <= 7 && b == e + Zeros(n)
  {
    if PaddedField(b) {
      var k := Extent(Tlv, b);
      ExtentCut(Tlv, b);
      AllZeroIsZeros(b[k..]);
      assert b == b[..k] + Zeros(|b| - k);
    }
    forall e: Bytes, n: nat | Element(Tlv, e) && n <= 7 && b == e + Zeros(n)
      ensures PaddedField(b)
    {
      ExtentPrefix(Tlv, e, Zeros(n));
    }
  }

  method ValidateInputPaddedField(range: Bytes) returns (ok: bool)
    ensures ok <==> PaddedField(range)
  {
    var pos, left := 0, |range|;
    if left < 4 { return false; }
    var len := 4 + range[3] as int;
    if left < len { return false; }
    pos := pos + len;
    left := left - len;
    return left <= 7 && AllZero(range[pos..]);
  }

  lemma TlvHeaders(es: seq<Bytes>)
    requires Elements(Tlv, es)
    ensures forall i :: 0 <= i < |es| ==> |es[i]| >= 4
  {}

  /** `value` holds the value bytes of the first item of type `t`, if there is one. */
  ghost predicate FirstOfType(es: seq<Bytes>, t: OxmType, value: Option<Bytes>) {
    && Elements(Tlv, es)
    && match value {
      case None => forall i :: 0 <= i < |es| ==> TypeFromBytes(es[i]) != t
      case Some(v) =>
        exists k :: 0 <= k < |es| && TypeFromBytes(es[k]) == t && v == es[k][ValueOffset(es[k])..]
          && forall j :: 0 <= j < k ==> TypeFromBytes(es[j]) != t
    }
  }

  /** OXMRange::get and exists on a validated range; None stands for the default value that `get`
      returns, and for a false `exists`. */
  method Get(range: Bytes, t: OxmType) returns (value: Option<Bytes>)
    requires t.Valid() && WellFormed(Tlv, range)
    ensures FirstOfType(Parse(Tlv, range).value, t, value)
  {
    hide Extent;
    JoinParse(Tlv, range);
    TlvHeaders(Parse(Tlv, range).value);
    ghost var es, i := Parse(Tlv, range).value, 0;
    var pos := 0;
    while pos < |range|
      invariant 0 <= pos <= |range| && WellFormed(Tlv, range[pos..])
      invariant 0 <= i <= |es| && Parse(Tlv, range[pos..]).value == es[i..]
      invariant forall j :: 0 <= j < i ==> TypeFromBytes(es[j]) != t
    {
      TlvStep(range, pos);
      var next := pos + 4 + range[pos + 3] as int;
      var item := range[pos..next];
      assert es[i] == item && es[i..][1..] == es[i + 1..];
      if TypeFromBytes(item) == t {
        return Some(item[ValueOffset(item)..]);
      }
      pos, i := next, i + 1;
    }
    return None;
  }

  /** What follows the type and the experimenter id of an added entry: the masked value and the mask. */
  lemma {:induction false} EntryPayload(x: Entry)
    requires x.Valid()
    ensures Element(Tlv, x.ToBytes()) && x.ToBytes()[ValueOffset(x.ToBytes())..] == Payload(x)
  {
    hide Big32, MaskBytes;
    EntryIsElement(x);
  }

  function Payload(x: Entry): Bytes
    requires x.Valid()
  {
    x.Masked().value + match x.mask { case None => [] case Some(m) => m }
  }

  lemma PlainPayload(x: Entry)
    requires x.Valid() && x.mask.None?
    ensures Payload(x) == x.value
  {
    assert x.value + [] == x.value;
  }

  /** Looking a type up in any list of added entries finds the first one added with that type. */
  lemma {:induction false} BuiltLookup(xs: seq<Entry>, t: OxmType, k: nat, value: Option<Bytes>)
    requires forall i :: 0 <= i < |xs| ==> xs[i].Valid()
    requires k <= |xs| && (forall j :: 0 <= j < k ==> xs[j].oxmType != t) && (k < |xs| ==> xs[k].oxmType == t)
    ensures Parse(Tlv, Join(EncodeAll(xs))) == Some(EncodeAll(xs))
    ensures FirstOfType(EncodeAll(xs), t, value) <==> value == if k == |xs| then None else Some(Payload(xs[k]))
  {
    hide Extent, Entry.ToBytes, TypeFromBytes, Parse, Join, ValueOffset, Payload;
    ListRoundTrip(xs);
    var es := EncodeAll(xs);
    TlvHeaders(es);
    forall i | 0 <= i < |xs|
      ensures TypeFromBytes(es[i]) == xs[i].oxmType && es[i][ValueOffset(es[i])..] == Payload(xs[i])
    {
      EntryIsElement(xs[i]);
      EntryPayload(xs[i]);
    }
  }

  // ---- ordered lists ----

  ghost function NativeOf(e: Bytes): nat { if |e| < 4 then 0 else TypeFromBytes(e).Native() }

  ghost predicate Sorted(es: seq<Bytes>) {
    forall i, j :: 0 <= i < j < |es| ==> NativeOf(es[i]) <= NativeOf(es[j])
  }

  /** `k` is the index of the first item whose type, as a number, is above `native`. */
  ghost predicate OrderedIndex(es: seq<Bytes>, native: nat, k: nat) {
    && k <= |es|
    && (forall j :: 0 <= j < k ==> NativeOf(es[j]) <= native)
    && (k < |es| ==> NativeOf(es[k]) > native)
  }

  // ---- OXMList ----

  ghost predicate OrderedPosition(es: seq<Bytes>, native: nat, k: nat, pos: nat) {
    OrderedIndex(es, native, k) && pos == |Join(es[..k])|
  }

  class OXMList {
    var buf: Bytes

    ghost predicate Valid()
      reads this
    {
      WellFormed(Tlv, buf)
    }

    ghost function Items(): seq<Bytes>
      requires Valid()
      reads this
    {
      Parse(Tlv, buf).value
    }

    constructor ()
      ensures Valid() && buf == [] && Items() == []
    {
      buf := [];
    }

    method AddPlain(t: OxmType, data: Bytes)
      requires t.Valid() && t.size == |data|
      modifies this
      ensures buf == old(buf) + (t.ToBytes() + data)
    {
      buf := buf + t.ToBytes();
      buf := buf + data;
    }

    method AddExperimenter(t: OxmType, experimenter: nat, data: Bytes)
      requires t.Valid() && t.size == |data| + 4
      modifies this
      ensures buf == old(buf) + (t.ToBytes() + Big32(experimenter) + data)
    {
      buf := buf + t.ToBytes();
      buf := buf + Big32(experimenter);
      buf := buf + data;
    }

    method AddMasked(t: OxmType, data: Bytes, mask: Bytes)
      requires t.Valid() && |data| == |mask| && t.size == 2 * |data|
      modifies this
      ensures buf == old(buf) + (t.ToBytes() + MaskBytes(data, mask) + mask)
    {
      buf := buf + t.ToBytes();
      buf := buf + MaskBytes(data, mask);
      buf := buf + mask;
    }

    method AddExperimenterMasked(t: OxmType, experimenter: nat, data: Bytes, mask: Bytes)
      requires t.Valid() && |data| == |mask| && t.size == 4 + 2 * |data|
      modifies this
      ensures buf == old(buf) + (t.ToBytes() + Big32(experimenter) + MaskBytes(data, mask) + mask)
    {
      buf := buf + t.ToBytes();
      buf := buf + Big32(experimenter);
      buf := buf + MaskBytes(data, mask);
      buf := buf + mask;
    }

    /** The overloads of `add`: which form runs depends on the class and on the presence of a mask. */
    method Add(x: Entry)
      requires Valid() && x.Valid()
      modifies this
      ensures Valid() && Items() == old(Items()) + [x.ToBytes()]
    {
      hide Extent;
      EntryIsElement(x);
      ParseSnoc(Tlv, buf, x.ToBytes());
      ghost var was := buf;
      match (x.experimenter, x.mask) {
        case (None, None) => AddPlain(x.oxmType, x.value);
        case (Some(id), None) => AddExperimenter(x.oxmType, id, x.value);
        case (None, Some(m)) => AddMasked(x.oxmType, x.value, m);
        case (Some(id), Some(m)) => AddExperimenterMasked(x.oxmType, id, x.value, m);
      }
      assert buf == was + x.ToBytes();
    }

    method Pad8(n: nat)
      modifies this
      ensures buf == old(buf) + Zeros(PadLength(n + |old(buf)|) - (n + |old(buf)|))
    {
      var len := PadLength(n + |buf|) - (n + |buf|);
      if len > 0 {
        buf := buf + Zeros(8)[..len];
      }
    }

    /** findOrderedPos: the first item whose type is above `t`, or the end. */
    method FindOrderedPos(t: OxmType) returns (pos: nat)
      requires Valid() && t.Valid()
      ensures exists k :: OrderedPosition(Items(), t.Native(), k, pos)
    {
      hide Extent, TypeFromBytes, Join, Parse;
      JoinParse(Tlv, buf);
      ghost var es, k: nat := Items(), 0;
      TlvHeaders(es);
      pos := 0;
      assert buf[0..] == buf;
      NoItems();
      while pos < |buf|
        invariant pos <= |buf| && WellFormed(Tlv, buf[pos..])
        invariant k <= |es| && Parse(Tlv, buf[pos..]).value == es[k..] && pos == |Join(es[..k])|
        invariant forall j :: 0 <= j < k ==> NativeOf(es[j]) <= t.Native()
      {
        TlvStep(buf, pos);
        assert es[k..][1..] == es[k + 1..] && es[..k + 1] == es[..k] + [es[k]];
        JoinSnoc(es[..k], es[k]);
        TypePrefix(es[k], buf[pos..]);
        if TypeFromBytes(buf[pos..]).Native() > t.Native() {
          assert OrderedPosition(Items(), t.Native(), k, pos);
          return;
        }
        pos, k := pos + 4 + buf[pos + 3] as int, k + 1;
      }
      assert buf[pos..] == [] && es[k..] == [];
      assert OrderedPosition(Items(), t.Native(), k, pos);
    }

    /** addOrdered: inserts behind the entries whose type is not above the new one, so that a list
        kept in order stays in order and equal types keep the order of their insertion. */
    method AddOrdered(t: OxmType, data: Bytes)
      requires Valid() && t.Valid() && t.size == |data|
      modifies this
      ensures Valid()
      ensures exists k: nat :: OrderedIndex(old(Items()), t.Native(), k)
                       && Items() == old(Items())[..k] + [t.ToBytes() + data] + old(Items())[k..]
      ensures Sorted(old(Items())) ==> Sorted(Items())
    {
      hide Extent, TypeFromBytes, Join, Sorted;
      var pos := FindOrderedPos(t);
      ghost var es, e := Items(), t.ToBytes() + data;
      ghost var k: nat :| OrderedPosition(es, t.Native(), k, pos);
      PlainIsElement(t, data);
      JoinParse(Tlv, buf);
      ParseInsert(Tlv, es, e, k);
      if Sorted(es) { SortedInsert(es, e, k, t.Native()); }
      assert buf[..pos] + t.ToBytes() + data + buf[pos..] == buf[..pos] + e + buf[pos..];
      buf := buf[..pos] + t.ToBytes() + data + buf[pos..];
    }
  }

  lemma NoItems()
    ensures Parse(Tlv, []) == Some([]) && Join([]) == []
  {}

  lemma SortedInsert(es: seq<Bytes>, e: Bytes, k: nat, native: nat)
    requires Sorted(es) && OrderedIndex(es, native, k) && NativeOf(e) == native
    ensures Sorted(es[..k] + [e] + es[k..])
  {}

  lemma TypePrefix(e: Bytes, b: Bytes)
    requires 4 <= |e| <= |b| && b[..|e|] == e
    ensures TypeFromBytes(b) == TypeFromBytes(e)
  {
    assert forall i :: 0 <= i < 4 ==> b[i] == b[..|e|][i];
  }

  lemma PlainIsElement(t: OxmType, data: Bytes)
    requires t.Valid() && t.size == |data|
    ensures Element(Tlv, t.ToBytes() + data) && TypeFromBytes(t.ToBytes() + data) == t
  {
    TypeRoundTrip(t, data);
  }
}
