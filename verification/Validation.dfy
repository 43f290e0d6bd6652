/** The loops that validate, walk, count and split lists of 8-byte padded elements
    (include/ofp/validation.h, include/ofp/protocoliterator.h, src/ofp/protocoliterator.cpp). */
module Validation {
  import opened Bytes
  import opened Framing

  /** Every element of a well-formed list passes the check its type supplies. */
  ghost predicate ElementsPass(l: Layout, b: Bytes, valid: Bytes -> bool)
    requires WellFormed(l, b)
  {
    forall e :: e in Parse(l, b).value ==> valid(e)
  }

  lemma {:induction false} PassStep(l: Layout, b: Bytes, valid: Bytes -> bool)
    requires Extent(l, b) > 0
    ensures WellFormed(l, b) <==> WellFormed(l, b[Extent(l, b)..])
    ensures WellFormed(l, b) ==>
      (ElementsPass(l, b, valid) <==> valid(b[..Extent(l, b)]) && ElementsPass(l, b[Extent(l, b)..], valid))
  {
    hide Extent;
    var n := Extent(l, b);
    if WellFormed(l, b) {
      var rest := Parse(l, b[n..]).value;
      assert Parse(l, b).value == [b[..n]] + rest;
      assert forall e :: e in Parse(l, b).value <==> e == b[..n] || e in rest;
    }
  }

  /** What the length checks of a validator find out about the element at `pos`. */
  lemma ExtentAt(l: Layout, b: Bytes, pos: nat)
    requires l.Padded? && pos <= |b|
    ensures Extent(l, b[pos..]) ==
      if pos + l.offset + 2 > |b| || ReadBig16(b, pos + l.offset) < l.min ||
         pos + PadLength(ReadBig16(b, pos + l.offset)) > |b|
      then 0 else PadLength(ReadBig16(b, pos + l.offset))
  {
    hide PadLength;
  }

  lemma NoElement(l: Layout, b: Bytes)
    requires b != [] && Extent(l, b) == 0
    ensures !WellFormed(l, b)
  {
    hide Extent;
  }

  lemma NoElements(l: Layout, valid: Bytes -> bool)
    ensures WellFormed(l, []) && ElementsPass(l, [], valid)
  {}

  /** Accepts exactly the aligned bodies that are runs of complete elements, each of which passes
      its own check; the size field must cover itself. */
  method ValidateArrayVariableSize(version: nat, minVersion: nat, body: Bytes, bodyAligned: bool,
                                   offset: nat, valid: Bytes -> bool)
    returns (ok: bool)
    ensures ok <==>
      && version >= minVersion && |body| % 8 == 0 && bodyAligned
      && WellFormed(Padded(offset, offset + 2), body)
      && ElementsPass(Padded(offset, offset + 2), body, valid)
  {
    hide Extent, WellFormed, ElementsPass, PadLength;
    if version < minVersion { return false; }
    if |body| % 8 != 0 { return false; }
    if !bodyAligned { return false; }
    ghost var l: Layout := Padded(offset, offset + 2);
    var pos, length := 0, |body|;
    while length != 0
      invariant 0 <= length && pos + length == |body|
      invariant WellFormed(l, body) <==> WellFormed(l, body[pos..])
      invariant WellFormed(l, body) ==>
        (ElementsPass(l, body, valid) <==> ElementsPass(l, body[pos..], valid))
    {
      ExtentAt(l, body, pos);
      if Extent(l, body[pos..]) == 0 { NoElement(l, body[pos..]); }
      if length < offset + 2 { return false; }
      var size := ReadBig16(body, pos + offset);
      if size < offset + 2 { return false; }
      size := PadLength(size);
      if size > length { return false; }
      PassStep(l, body[pos..], valid);
      assert body[pos..][size..] == body[pos + size..];
      assert body[pos..][..size] == body[pos..pos + size];
      if !valid(body[pos..pos + size]) { return false; }
      pos := pos + size;
      length := length - size;
    }
    assert body[pos..] == [];
    NoElements(l, valid);
    return true;
  }

  /** The structural check behind ProtocolRange::validateInput for 8-byte aligned elements. */
  method IsProtocolRangeValid(elementSize: nat, range: Bytes, offset: nat, rangeAligned: bool)
    returns (ok: bool)
    requires elementSize >= 4 && offset + 2 <= elementSize
    ensures ok <==> |range| % 8 == 0 && rangeAligned && WellFormed(Padded(offset, elementSize), range)
  {
    hide Extent, WellFormed, PadLength;
    if |range| % 8 != 0 { return false; }
    if !rangeAligned { return false; }
    ghost var l: Layout := Padded(offset, elementSize);
    var pos, len := 0, |range|;
    while len > 0
      invariant 0 <= len && pos + len == |range|
      invariant WellFormed(l, range) <==> WellFormed(l, range[pos..])
    {
      ExtentAt(l, range, pos);
      if Extent(l, range[pos..]) == 0 { NoElement(l, range[pos..]); }
      if offset + 2 > len { return false; }
      var elemSize := ReadBig16(range, pos + offset);
      if elemSize < 4 { return false; }
      if elemSize < elementSize { return false; }
      var jumpSize := PadLength(elemSize);
      if jumpSize > len { return false; }
      PassStep(l, range[pos..], _ => true);
      assert range[pos..][jumpSize..] == range[pos + jumpSize..];
      len := len - jumpSize;
      pos := pos + jumpSize;
    }
    assert range[pos..] == [];
    NoElements(l, _ => true);
    return true;
  }

  /** ProtocolElement::size: what the iterator takes as the size of the element it points at. */
  function ElementSize(b: Bytes, offset: nat): (n: nat)
    requires offset + 2 <= |b|
    ensures offset + 2 <= n
  {
    if ReadBig16(b, offset) < offset + 2 then offset + 2 else ReadBig16(b, offset)
  }

  /** Where one step of the iterator lands, on a well-formed list that is not exhausted. */
  lemma IteratorStep(l: Layout, b: Bytes, pos: nat)
    requires l.Padded? && pos < |b| && WellFormed(l, b[pos..])
    ensures pos + l.offset + 2 <= |b|
    ensures PadLength(ElementSize(b[pos..], l.offset)) == Extent(l, b[pos..]) > 0
    ensures WellFormed(l, b[pos + Extent(l, b[pos..])..])
    ensures Parse(l, b[pos..]).value
         == [b[pos..pos + Extent(l, b[pos..])]] + Parse(l, b[pos + Extent(l, b[pos..])..]).value
  {
    var n := Extent(l, b[pos..]);
    assert b[pos..][n..] == b[pos + n..];
    assert b[pos..][..n] == b[pos..pos + n];
  }

  /** ProtocolIterator from begin() to end(): it stops exactly at the end and has then pointed at
      every element once, in order. */
  method Iterate(l: Layout, range: Bytes) returns (items: seq<Bytes>)
    requires l.Padded? && WellFormed(l, range)
    ensures items == Parse(l, range).value
  {
    hide Extent, ElementSize;
    items := [];
    var pos := 0;
    while pos != |range|
      invariant 0 <= pos <= |range| && WellFormed(l, range[pos..])
      invariant Parse(l, range).value == items + Parse(l, range[pos..]).value
      decreases |range| - pos
    {
      IteratorStep(l, range, pos);
      var next := pos + PadLength(ElementSize(range[pos..], l.offset));
      items := items + [range[pos..next]];
      pos := next;
    }
  }

  /** `n` bytes of the list hold a whole number of elements, and one more would not fit. */
  ghost predicate LargestFit(es: seq<Bytes>, chunkSize: nat, n: nat) {
    exists k :: 0 <= k <= |es| && n == |Join(es[..k])| <= chunkSize
             && (k == |es| || |Join(es[..k + 1])| > chunkSize)
  }

  /** Splitting a list for a chunk never cuts an element and never stops early. A result of 0 with
      elements left is the case the source reports as fatal. */
  method ProtocolRangeSplitOffset(chunkSize: nat, l: Layout, range: Bytes) returns (result: nat)
    requires l.Padded? && WellFormed(l, range) && chunkSize >= 8
    ensures LargestFit(Parse(l, range).value, chunkSize, result)
    ensures result == 0 <==> range == [] || Extent(l, range) > chunkSize
  {
    hide Extent, ElementSize;
    result := 0;
    var len := |range|;
    ghost var es := Parse(l, range).value;
    JoinParse(l, range);
    if len <= chunkSize {
      assert es[..|es|] == es;
      return len;
    }
    ghost var k := 0;
    assert range[0..] == range;
    while len > 0
      invariant 0 <= len && result + len == |range| && WellFormed(l, range[result..])
      invariant 0 <= k <= |es| && es[k..] == Parse(l, range[result..]).value
      invariant result == |Join(es[..k])| <= chunkSize
      invariant (result == 0) == (k == 0)
    {
      IteratorStep(l, range, result);
      var jumpSize := PadLength(ElementSize(range[result..], l.offset));
      if jumpSize > len { break; }
      JoinSnoc(es[..k], es[k]);
      assert es[..k + 1] == es[..k] + [es[k]];
      if result + jumpSize > chunkSize {
        break;
      }
      len := len - jumpSize;
      result := result + jumpSize;
      k := k + 1;
      assert es[k..] == es[k - 1..][1..];
    }
  }
}
