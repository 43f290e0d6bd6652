/** Instruction lists with nested action lists (include/ofp/instructions.h, instructionlist.h,
    src/ofp/instructionrange.cpp). */
module Instructions {
  import opened Bytes
  import opened Options
  import opened Framing
  import opened Validation
  import opened Actions

  const INSTRUCTION: Layout := Padded(2, 4)

  const OFPIT_GOTO_TABLE := 1
  const OFPIT_WRITE_METADATA := 2
  const OFPIT_WRITE_ACTIONS := 3
  const OFPIT_APPLY_ACTIONS := 4
  const OFPIT_CLEAR_ACTIONS := 5
  const OFPIT_METER := 6
  const OFPIT_EXPERIMENTER := 0xffff

  // ---- instructions as values ----

  datatype Instruction =
    | GotoTable(tableId: UInt8)
    | WriteMetadata(metadata: Bytes, mask: Bytes) // eight bytes each
    | WriteActions(actions: Bytes)
    | ApplyActions(actions: Bytes)
    | ClearActions
    | Meter(meter: nat)
    | Experimenter(id: nat, data: Bytes)
  {
    function TypeCode(): nat {
      match this
      case GotoTable(_) => OFPIT_GOTO_TABLE
      case WriteMetadata(_, _) => OFPIT_WRITE_METADATA
      case WriteActions(_) => OFPIT_WRITE_ACTIONS
      case ApplyActions(_) => OFPIT_APPLY_ACTIONS
      case ClearActions => OFPIT_CLEAR_ACTIONS
      case Meter(_) => OFPIT_METER
      case Experimenter(_, _) => OFPIT_EXPERIMENTER
    }

    /** What follows the type and the length. No padding is ever added. */
    function Body(): Bytes {
      match this
      case GotoTable(tableId) => [tableId] + Zeros(3)
      case WriteMetadata(metadata, mask) => Zeros(4) + metadata + mask
      case WriteActions(actions) => Zeros(4) + actions
      case ApplyActions(actions) => Zeros(4) + actions
      case ClearActions => Zeros(4)
      case Meter(meter) => Big32(meter)
      case Experimenter(id, data) => Big32(id) + data
    }

    predicate Valid() { WriteMetadata? ==> |metadata| == |mask| == 8 }

    /** Fills whole words. Nested actions and experimenter data are added as they are, so it may not. */
    predicate Aligned() { (4 + |Body()|) % 8 == 0 }

    /** Aligned, and the length fits its 16 bits; it is narrowed otherwise. */
    predicate Delimited() { Aligned() && 4 + |Body()| < 0x1_0000 }

    function ToBytes(): Bytes { Header(TypeCode(), 4 + |Body()|) + Body() }
  }

  /** An instruction carries its type and, when it fits, its length. It is one complete element if and only
      if it is delimited. */
  lemma {:induction false} InstructionIsElement(i: Instruction)
    requires i.Valid()
    ensures |i.ToBytes()| >= 8 && Code(i.ToBytes()) == i.TypeCode() && Size(i.ToBytes()) == |i.ToBytes()| % 0x1_0000
    ensures Element(INSTRUCTION, i.ToBytes()) <==> i.Delimited()
    ensures |i.ToBytes()| % 8 == 0 <==> i.Aligned()
  {
    hide Extent;
    HeaderFields(i.TypeCode(), 4 + |i.Body()|, i.Body());
    ActionShape(i.ToBytes());
    NarrowedLengthIff(4 + |i.Body()|);
  }

  lemma NarrowedLengthIff(n: nat)
    ensures 4 <= n % 0x1_0000 && n == PadLength(n % 0x1_0000) <==> 4 <= n < 0x1_0000 && n % 8 == 0
  {}

  /** A list that does not split again: 13 bytes, three short of what the iterator takes. */
  lemma {:induction false} UnalignedDoesNotSplit()
    ensures var i := Instruction.Experimenter(1, Zeros(5));
      i.Valid() && !i.Aligned() && |i.ToBytes()| == 13 && !WellFormed(INSTRUCTION, i.ToBytes())
  {
    var i := Instruction.Experimenter(1, Zeros(5));
    InstructionIsElement(i);
    if WellFormed(INSTRUCTION, i.ToBytes()) { PaddedLength(INSTRUCTION, i.ToBytes()); }
  }

  class InstructionList {
    var buf: Bytes

    ghost predicate Valid()
      reads this
    {
      WellFormed(INSTRUCTION, buf)
    }

    ghost function Items(): seq<Bytes>
      requires Valid()
      reads this
    {
      Parse(INSTRUCTION, buf).value
    }

    constructor ()
      ensures Valid() && buf == [] && Items() == []
    {
      buf := [];
    }

    /** An 8-byte header, and then the nested action list. */
    method AddWithActions(i: Instruction)
      requires i.Valid() && (i.WriteActions? || i.ApplyActions?)
      modifies this
      ensures buf == old(buf) + i.ToBytes()
    {
      hide Header, Zeros;
      buf := buf + (Header(i.TypeCode(), 8 + |i.actions|) + Zeros(4));
      buf := buf + i.actions;
    }

    method AddExperimenter(i: Instruction)
      requires i.Valid() && i.Experimenter?
      modifies this
      ensures buf == old(buf) + i.ToBytes()
    {
      hide Header, Big32;
      buf := buf + (Header(OFPIT_EXPERIMENTER, 8 + |i.data|) + Big32(i.id));
      buf := buf + i.data;
    }

    /** The overloads of `add`. Iteration yields what was in the list and then the new instruction if and
        only if that is delimited; a list to which an unaligned one is added does not split at all. */
    method Add(i: Instruction)
      requires i.Valid()
      modifies this
      ensures buf == old(buf) + i.ToBytes()
      ensures old(Valid()) ==> (Valid() && Items() == old(Items()) + [i.ToBytes()] <==> i.Delimited())
      ensures old(Valid()) ==> (|buf| % 8 == 0 <==> i.Aligned()) && (Valid() ==> i.Aligned())
    {
      hide Extent, Instruction.ToBytes, Instruction.Valid, Parse;
      if Valid() { AddedIff(buf, i); }
      match i {
        case WriteActions(_) => AddWithActions(i);
        case ApplyActions(_) => AddWithActions(i);
        case Experimenter(_, _) => AddExperimenter(i);
        case _ => buf := buf + i.ToBytes();
      }
    }
  }

  lemma {:induction false} AddedIff(buf: Bytes, i: Instruction)
    requires WellFormed(INSTRUCTION, buf) && i.Valid()
    ensures Parse(INSTRUCTION, buf + i.ToBytes()) == Some(Parse(INSTRUCTION, buf).value + [i.ToBytes()])
       <==> i.Delimited()
    ensures |buf + i.ToBytes()| % 8 == 0 <==> i.Aligned()
    ensures WellFormed(INSTRUCTION, buf + i.ToBytes()) ==> i.Aligned()
  {
    hide Element, Parse, Join, Instruction.ToBytes, Instruction.Aligned, Instruction.Delimited, Code, Size;
    InstructionIsElement(i);
    PaddedLength(INSTRUCTION, buf);
    JoinParse(INSTRUCTION, buf);
    var es := Parse(INSTRUCTION, buf).value;
    JoinSnoc(es, i.ToBytes());
    SplitsIff(INSTRUCTION, es + [i.ToBytes()]);
    assert (es + [i.ToBytes()])[|es|] == i.ToBytes();
    if WellFormed(INSTRUCTION, buf + i.ToBytes()) { PaddedLength(INSTRUCTION, buf + i.ToBytes()); }
  }

  // ---- InstructionRange ----

  /** What the switch in InstructionRange::validateInput asks of one complete element. */
  ghost predicate ValidInstruction(e: Bytes)
    requires Element(INSTRUCTION, e)
  {
    ActionShape(e);
    if Code(e) == OFPIT_WRITE_ACTIONS || Code(e) == OFPIT_APPLY_ACTIONS then
      Size(e) >= 8 && ValidActionRange(e[8..Size(e)])
    else if Code(e) == OFPIT_EXPERIMENTER then Size(e) >= 8
    else true
  }

  ghost predicate ValidInstructions(b: Bytes) {
    WellFormed(INSTRUCTION, b) &&
    forall e :: e in Parse(INSTRUCTION, b).value ==> Element(INSTRUCTION, e) && ValidInstruction(e)
  }

  method ValidateInstruction(e: Bytes) returns (ok: bool)
    requires Element(INSTRUCTION, e)
    ensures ok <==> ValidInstruction(e)
  {
    ActionShape(e);
    if Code(e) == OFPIT_WRITE_ACTIONS || Code(e) == OFPIT_APPLY_ACTIONS {
      if Size(e) < 8 { return false; }
      ok := ValidateActions(e[8..Size(e)], true);
    } else if Code(e) == OFPIT_EXPERIMENTER {
      ok := Size(e) >= 8;
    } else {
      ok := true;
    }
  }

  /** Validates the list and, inside it, every nested action list. */
  method ValidateInstructions(range: Bytes, rangeAligned: bool) returns (ok: bool)
    ensures ok <==> rangeAligned && ValidInstructions(range)
  {
    hide Extent, ValidInstruction;
    ok := IsProtocolRangeValid(4, range, 2, rangeAligned);
    if WellFormed(INSTRUCTION, range) { PaddedLength(INSTRUCTION, range); }
    if !ok { return; }
    JoinParse(INSTRUCTION, range);
    var items := Iterate(INSTRUCTION, range);
    for i := 0 to |items|
      invariant forall j :: 0 <= j < i ==> ValidInstruction(items[j])
    {
      ok := ValidateInstruction(items[i]);
      if !ok {
        assert items[i] in Parse(INSTRUCTION, range).value;
        return false;
      }
    }
    return true;
  }

  /** `actions` is the payload of the first APPLY_ACTIONS instruction, or empty without one. */
  ghost predicate FirstApplied(es: seq<Bytes>, actions: Bytes) {
    || (actions == [] && forall i :: 0 <= i < |es| ==> |es[i]| >= 4 && Code(es[i]) != OFPIT_APPLY_ACTIONS)
    || exists k :: 0 <= k < |es| && |es[k]| >= 8 && Code(es[k]) == OFPIT_APPLY_ACTIONS
                && 8 <= Size(es[k]) <= |es[k]| && actions == es[k][8..Size(es[k])]
                && forall j :: 0 <= j < k ==> |es[j]| >= 4 && Code(es[j]) != OFPIT_APPLY_ACTIONS
  }

  /** An APPLY_ACTIONS instruction has room for its header. */
  ghost predicate HeadersFit(b: Bytes) {
    WellFormed(INSTRUCTION, b) &&
    forall e :: e in Parse(INSTRUCTION, b).value && |e| >= 4 && Code(e) == OFPIT_APPLY_ACTIONS ==> Size(e) >= 8
  }

  lemma AppliedAt(es: seq<Bytes>, k: nat)
    requires k < |es| && |es[k]| >= 8 && Code(es[k]) == OFPIT_APPLY_ACTIONS && 8 <= Size(es[k]) <= |es[k]|
    requires forall j :: 0 <= j < k ==> |es[j]| >= 4 && Code(es[j]) != OFPIT_APPLY_ACTIONS
    ensures FirstApplied(es, es[k][8..Size(es[k])])
  {}

  lemma NotApplied(es: seq<Bytes>)
    requires forall i :: 0 <= i < |es| ==> |es[i]| >= 4 && Code(es[i]) != OFPIT_APPLY_ACTIONS
    ensures FirstApplied(es, [])
  {}

  method OutputActions(range: Bytes) returns (actions: Bytes)
    requires HeadersFit(range)
    ensures FirstApplied(Parse(INSTRUCTION, range).value, actions)
  {
    hide Extent, FirstApplied, Parse, PadLength, ElementSize, Code, Size;
    JoinParse(INSTRUCTION, range);
    assert range[0..] == range;
    ghost var es, k := Parse(INSTRUCTION, range).value, 0;
    var pos := 0;
    while pos != |range|
      invariant 0 <= pos <= |range| && WellFormed(INSTRUCTION, range[pos..])
      invariant 0 <= k <= |es| && Parse(INSTRUCTION, range[pos..]).value == es[k..]
      invariant forall j :: 0 <= j < k ==> |es[j]| >= 4 && Code(es[j]) != OFPIT_APPLY_ACTIONS
      decreases |range| - pos
    {
      IteratorStep(INSTRUCTION, range, pos);
      var next := pos + PadLength(ElementSize(range[pos..], 2));
      var item := range[pos..next];
      assert es[k..][0] == item == es[k] && es[k..][1..] == es[k + 1..];
      ActionShape(item);
      if Code(item) == OFPIT_APPLY_ACTIONS {
        assert item in es;
        AppliedAt(es, k);
        return item[8..Size(item)];
      }
      pos, k := next, k + 1;
    }
    assert range[pos..] == [];
    assert es[k..] == [] by { NoElements(INSTRUCTION, _ => true); NothingParsed(); }
    NotApplied(es);
    return [];
  }

  lemma NothingParsed()
    ensures Parse(INSTRUCTION, []) == Some([])
  {}

  // ---- built lists ----

  function EncodeAll(xs: seq<Instruction>): (es: seq<Bytes>)
    ensures |es| == |xs| && forall i :: 0 <= i < |xs| ==> es[i] == xs[i].ToBytes()
  {
    seq(|xs|, i requires 0 <= i < |xs| => xs[i].ToBytes())
  }

  /** The action list of the first APPLY_ACTIONS instruction. */
  function AppliedActions(xs: seq<Instruction>): Bytes {
    if xs == [] then [] else if xs[0].ApplyActions? then xs[0].actions else AppliedActions(xs[1..])
  }

  /** A list built by `add` splits back into its instructions if and only if they are all delimited. The
      actions found in it are then those of the first APPLY_ACTIONS instruction that was added. */
  lemma {:induction false} BuiltList(xs: seq<Instruction>, actions: Bytes)
    requires forall i :: 0 <= i < |xs| ==> xs[i].Valid()
    ensures Parse(INSTRUCTION, Join(EncodeAll(xs))) == Some(EncodeAll(xs)) <==> AllDelimited(xs)
    ensures AllDelimited(xs) ==> HeadersFit(Join(EncodeAll(xs)))
    ensures AllDelimited(xs) ==> (FirstApplied(EncodeAll(xs), actions) <==> actions == AppliedActions(xs))
  {
    hide Extent, Instruction.ToBytes, Instruction.Delimited, Parse;
    var es := EncodeAll(xs);
    forall i | 0 <= i < |xs|
      ensures |es[i]| >= 8 && Size(es[i]) == |es[i]| % 0x1_0000 && (Element(INSTRUCTION, es[i]) <==> xs[i].Delimited())
      ensures xs[i].Delimited() ==> Size(es[i]) == |es[i]|
    {
      InstructionIsElement(xs[i]);
      DelimitedSize(xs[i]);
    }
    SplitsIff(INSTRUCTION, es);
    if AllDelimited(xs) { AppliedIff(xs, actions); }
  }

  predicate AllDelimited(xs: seq<Instruction>) { forall i :: 0 <= i < |xs| ==> xs[i].Delimited() }

  lemma DelimitedSize(x: Instruction)
    ensures x.Delimited() ==> |x.ToBytes()| < 0x1_0000
  {}

  lemma ApplyPayload(x: Instruction)
    requires x.Delimited() && x.ApplyActions?
    ensures |x.ToBytes()| >= 8 && Size(x.ToBytes()) == |x.ToBytes()| && x.ToBytes()[8..] == x.actions
  {
    InstructionIsElement(x);
  }

  lemma {:induction false} AppliedIff(xs: seq<Instruction>, actions: Bytes)
    requires forall i :: 0 <= i < |xs| ==> xs[i].Valid() && xs[i].Delimited()
    ensures FirstApplied(EncodeAll(xs), actions) <==> actions == AppliedActions(xs)
  {
    hide Instruction.ToBytes;
    var es := EncodeAll(xs);
    if xs != [] {
      InstructionIsElement(xs[0]);
      if xs[0].ApplyActions? {
        ApplyPayload(xs[0]);
      } else {
        AppliedIff(xs[1..], actions);
        assert EncodeAll(xs[1..]) == es[1..];
        FirstAppliedTail(es, actions);
      }
    }
  }

  lemma FirstAppliedTail(es: seq<Bytes>, actions: Bytes)
    requires es != [] && |es[0]| >= 4 && Code(es[0]) != OFPIT_APPLY_ACTIONS
    ensures FirstApplied(es, actions) <==> FirstApplied(es[1..], actions)
  {
    var t := es[1..];
    assert forall i :: 0 < i < |es| ==> es[i] == t[i - 1];
    assert forall i :: 0 <= i < |t| ==> t[i] == es[i + 1];
  }
}
