/** The FlowMod message: building it for every protocol version and reading it back
    (include/ofp/flowmod.h, src/ofp/flowmod.cpp). */
module FlowMod {
  import opened Bytes
  import opened Framing
  import opened Actions
  import opened Instructions
  import opened Channel
  import opened ActionWrite
  import opened Sections

  const OFPT_FLOW_MOD := 14

  // ---- the accessors of a FlowMod in a buffer ----

  function MatchHeaderLength(m: Bytes): nat
    requires |m| >= 52
  {
    ReadBig16(m, 50)
  }

  /** instructions(): what follows the padded match. */
  function InstructionsOf(m: Bytes): Bytes
    requires |m| >= 52 && ReadBig16(m, 2) <= |m|
  {
    SafeByteRange(m, ReadBig16(m, 2), 48 + PadLength(MatchHeaderLength(m)))
  }

  /** match(): the OXM list of the match section. */
  function MatchOf(m: Bytes): Bytes
    requires |m| >= 52 && 4 <= MatchHeaderLength(m) && 48 + MatchHeaderLength(m) <= |m|
  {
    m[52..48 + MatchHeaderLength(m)]
  }

  /** FlowMod::validateInput on a message that is as long as its header says. */
  ghost predicate ValidFlowMod(m: Bytes) {
    && |m| >= 52 && ReadBig16(m, 2) == |m|
    && ValidMatch(m[48..], m[0] as int)
    && ValidInstructions(InstructionsOf(m))
  }

  // ---- the three layouts ----

  /** Version 3 and up: fixed part, match section, instructions. `fixed` is bytes 8 to 48. */
  function Layout3(version: nat, xid: nat, fixed: Bytes, oxm: Bytes, instructions: Bytes): Bytes
    requires version < 256
  {
    MessageHeader(version, OFPT_FLOW_MOD, PadLength(52 + |oxm|) + PadLength(|instructions|), xid)
    + fixed + Section(OFPMT_OXM, oxm) + instructions
  }

  /** Version 2: the match is the 88-byte standard match. */
  function Layout2(version: nat, xid: nat, fixed: Bytes, standard: Bytes, instructions: Bytes): Bytes
    requires version < 256
  {
    MessageHeader(version, OFPT_FLOW_MOD, 136 + PadLength(|instructions|), xid) + fixed + standard + instructions
  }

  /** Version 1: the 40-byte original match in front, a 16-bit port, and bare actions. */
  function Layout1(version: nat, length: nat, xid: nat, fixed: Bytes, original: Bytes, actions: Bytes): Bytes
    requires version < 256 && |fixed| == 40
  {
    MessageHeader(version, OFPT_FLOW_MOD, length, xid) + original
    + fixed[0..8] + fixed[16..28] + fixed[30..32] + fixed[36..38] + actions
  }

  /** The fixed part with the table id cleared. */
  function ClearTableId(fixed: Bytes): (f: Bytes)
    requires |fixed| == 40
    ensures |f| == 40
  {
    fixed[16 := 0]
  }

  /** The written form of an action list: translated for version 1, as it is for version 0. */
  ghost function Written(actions: Bytes, version: nat): Bytes
    requires ValidActionRange(actions)
  {
    if version == 1 then WriteAll(Parse(ACTION, actions).value) else actions
  }

  /** The size that is announced for it. */
  ghost function Announced(actions: Bytes, version: nat): nat
    requires ValidActionRange(actions)
  {
    if version == 1 then
      JoinParse(ACTION, actions);
      |WriteAll(Parse(ACTION, actions).value)| + ExcessAll(Parse(ACTION, actions).value)
    else |actions|
  }

  lemma NothingWritten(version: nat)
    ensures ValidActionRange([]) && Written([], version) == [] && Announced([], version) == 0
  {}

  // ---- the builder ----

  class FlowModBuilder {
    var fixed: Bytes        // cookie, cookie mask, table, command, timeouts, priority, buffer, ports, flags
    var oxm: Bytes          // the match
    var instructions: Bytes

    ghost predicate Valid()
      reads this
    {
      |fixed| == 40
    }

    constructor (fixed: Bytes, oxm: Bytes, instructions: Bytes)
      requires |fixed| == 40
      ensures Valid() && this.fixed == fixed && this.oxm == oxm && this.instructions == instructions
    {
      this.fixed := fixed;
      this.oxm := oxm;
      this.instructions := instructions;
    }

    /** The 72 bytes in front of the actions of a version 1 message. */
    method WriteFixedV1(channel: MemoryChannel, msgLen: nat, xid: nat, original: Bytes)
      requires Valid() && channel.version <= 1 && |original| == 40
      modifies channel`buf
      ensures channel.buf == old(channel.buf) + Layout1(channel.version, msgLen, xid, fixed, original, [])
    {
      hide MessageHeader;
      channel.Write(MessageHeader(channel.version, OFPT_FLOW_MOD, msgLen, xid));
      channel.Write(original);
      channel.Write(fixed[0..8]);
      channel.Write(fixed[16..28]);
      channel.Write(fixed[30..32]);
      channel.Write(fixed[36..38]);
    }

    /** The actions to send on version 1 and the length to announce. */
    method MeasureOriginal(channel: MemoryChannel) returns (acts: Bytes, msgLen: nat)
      requires ValidInstructions(instructions)
      ensures FirstApplied(Parse(INSTRUCTION, instructions).value, acts) && ValidActionRange(acts)
      ensures msgLen == 72 + Announced(acts, channel.version)
    {
      hide WriteAll, ExcessAll, FirstApplied;
      AppliedIsValid(instructions);
      acts := OutputActions(instructions);
      AppliedActionsValid(instructions, acts);
      hide ValidActionRange, ValidInstructions, HeadersFit, Parse;
      msgLen := 72;
      if |acts| > 0 {
        var size := WriteSize(acts, channel);
        msgLen := msgLen + size;
      } else {
        NothingWritten(channel.version);
      }
    }

    /** sendOriginal. The original match is what the OXM list converts to. The table id of the builder
        is cleared, and stays cleared. */
    method SendOriginal(channel: MemoryChannel, original: Bytes) returns (xid: nat, ghost actions: Bytes)
      requires Valid() && channel.version <= 1 && |original| == 40 && ValidInstructions(instructions)
      modifies this`fixed, channel`buf, channel`nextXid, channel`flushed
      ensures Valid() && fixed == ClearTableId(old(fixed))
      ensures xid == old(channel.nextXid) && channel.nextXid == (xid + 1) % 0x1_0000_0000
      ensures FirstApplied(Parse(INSTRUCTION, instructions).value, actions) && ValidActionRange(actions)
      ensures channel.buf == old(channel.buf) +
        Layout1(channel.version, 72 + Announced(actions, channel.version), xid,
          fixed, original, Written(actions, channel.version))
    {
      hide Layout1, WriteAll, ExcessAll, FirstApplied, ValidActionRange, ValidInstructions, Parse, Announced;
      ghost var start := channel.buf;
      var acts, msgLen := MeasureOriginal(channel);
      actions := acts;
      xid := channel.NextXid();
      if fixed[16] != 0 {
        fixed := fixed[16 := 0];
      }
      WriteFixedV1(channel, msgLen, xid, original);
      if |acts| > 0 {
        ActionWrite.Write(acts, channel);
      } else {
        NothingWritten(channel.version);
      }
      channel.Flush();
      Layout1Actions(start, channel.version, msgLen, xid, fixed, original, Written(acts, channel.version));
    }

    /** sendStandard. The standard match is what the OXM list converts to. Any instructions are sent: the
        length counts their padding, and no padding is written (`Layout2LengthIff`). */
    method SendStandard(channel: MemoryChannel, standard: Bytes) returns (xid: nat)
      requires Valid() && 2 <= channel.version < 256 && |standard| == STANDARD_MATCH_SIZE
      modifies channel`buf, channel`nextXid, channel`flushed
      ensures xid == old(channel.nextXid) && channel.nextXid == (xid + 1) % 0x1_0000_0000
      ensures channel.buf == old(channel.buf) + Layout2(channel.version, xid, fixed, standard, instructions)
    {
      var msgLen := 48 + 88 + PadLength(|instructions|);
      xid := channel.NextXid();
      channel.Write(MessageHeader(channel.version, OFPT_FLOW_MOD, msgLen, xid) + fixed);
      channel.Write(standard);
      channel.Write(instructions);
      channel.Flush();
    }

    /** The branch of send for version 3 and up, which asserts that the instructions are padded. */
    method SendOxm(channel: MemoryChannel) returns (xid: nat)
      requires Valid() && 3 <= channel.version < 256 && |instructions| % 8 == 0
      modifies channel`buf, channel`nextXid, channel`flushed
      ensures xid == old(channel.nextXid) && channel.nextXid == (xid + 1) % 0x1_0000_0000
      ensures channel.buf == old(channel.buf) + Layout3(channel.version, xid, fixed, oxm, instructions)
    {
      hide MessageHeader, Big16, Section, Zeros;
      var msgMatchLen := 52 + |oxm|;
      var msgMatchLenPadded := PadLength(msgMatchLen);
      var instrLenPadded := PadLength(|instructions|);
      var msgLen := msgMatchLenPadded + instrLenPadded;
      xid := channel.NextXid();
      ghost var start := channel.buf;
      var head := MessageHeader(channel.version, OFPT_FLOW_MOD, msgLen, xid) + fixed;
      channel.Write(head + Big16(OFPMT_OXM) + Big16(4 + |oxm|));
      channel.WritePadded(oxm, msgMatchLenPadded - msgMatchLen);
      PadPlus48(4 + |oxm|);
      SectionPieces(start, head, OFPMT_OXM, oxm, msgMatchLenPadded - msgMatchLen);
      channel.Write(instructions);
      channel.Flush();
    }

    method Send(channel: MemoryChannel, standard: Bytes, original: Bytes) returns (xid: nat)
      requires Valid() && channel.version < 256 && |standard| == STANDARD_MATCH_SIZE && |original| == 40
      requires channel.version <= 1 ==> ValidInstructions(instructions)
      requires channel.version >= 3 ==> |instructions| % 8 == 0
      modifies this`fixed, channel`buf, channel`nextXid, channel`flushed
      ensures xid == old(channel.nextXid) && channel.nextXid == (xid + 1) % 0x1_0000_0000
      ensures channel.version <= 1 ==>
        fixed == ClearTableId(old(fixed)) &&
        exists actions :: FirstApplied(Parse(INSTRUCTION, instructions).value, actions) && ValidActionRange(actions) &&
          channel.buf == old(channel.buf) +
            Layout1(channel.version, 72 + Announced(actions, channel.version), xid,
              fixed, original, Written(actions, channel.version))
      ensures channel.version == 2 ==>
        fixed == old(fixed) && channel.buf == old(channel.buf) + Layout2(2, xid, fixed, standard, instructions)
      ensures channel.version >= 3 ==>
        fixed == old(fixed) && channel.buf == old(channel.buf) + Layout3(channel.version, xid, fixed, oxm, instructions)
    {
      hide Layout1, Layout2, Layout3, Announced, Written, ClearTableId;
      if channel.version <= 1 {
        ghost var actions;
        xid, actions := SendOriginal(channel, original);
        return;
      }
      if channel.version == 2 {
        xid := SendStandard(channel, standard);
        return;
      }
      xid := SendOxm(channel);
    }
  }

  lemma PadPlus48(n: nat)
    ensures PadLength(48 + n) == 48 + PadLength(n)
  {}

  lemma Layout1Actions(start: Bytes, version: nat, length: nat, xid: nat, fixed: Bytes, original: Bytes, actions: Bytes)
    requires version < 256 && |fixed| == 40
    ensures start + Layout1(version, length, xid, fixed, original, []) + actions
         == start + Layout1(version, length, xid, fixed, original, actions)
  {
    var m := Layout1(version, length, xid, fixed, original, []);
    assert m + actions == Layout1(version, length, xid, fixed, original, actions);
  }

  lemma AppliedIsValid(instructions: Bytes)
    requires ValidInstructions(instructions)
    ensures HeadersFit(instructions)
  {}

  lemma {:induction false} AppliedActionsValid(instructions: Bytes, actions: Bytes)
    requires ValidInstructions(instructions) && FirstApplied(Parse(INSTRUCTION, instructions).value, actions)
    ensures ValidActionRange(actions)
  {
    hide ValidActionRange;
    NothingWritten(1);
    var es := Parse(INSTRUCTION, instructions).value;
    if actions != [] {
      var k :| 0 <= k < |es| && |es[k]| >= 8 && Code(es[k]) == OFPIT_APPLY_ACTIONS
        && 8 <= Size(es[k]) <= |es[k]| && actions == es[k][8..Size(es[k])];
      assert es[k] in es;
      assert ValidInstruction(es[k]);
    }
  }

  // ---- what was sent reads back ----

  lemma {:induction false} Layout3Shape(version: nat, xid: nat, fixed: Bytes, oxm: Bytes, instructions: Bytes)
    requires version < 256 && |fixed| == 40 && |instructions| % 8 == 0
    requires PadLength(52 + |oxm|) + |instructions| < 0x1_0000
    ensures var m := Layout3(version, xid, fixed, oxm, instructions);
      && |m| >= 52 && ReadBig16(m, 2) == |m| && m[8..48] == fixed
      && m[0] as int == version && m[1] == 14 && ReadBig32(m, 4) == xid % 0x1_0000_0000
      && m[48..] == Section(OFPMT_OXM, oxm) + instructions
  {
    hide Section, MessageHeader;
    var m := Layout3(version, xid, fixed, oxm, instructions);
    assert PadLength(|instructions|) == |instructions|;
    PadPlus48(4 + |oxm|);
    var rest := fixed + Section(OFPMT_OXM, oxm) + instructions;
    var length := PadLength(52 + |oxm|) + |instructions|;
    assert m == MessageHeader(version, OFPT_FLOW_MOD, length, xid) + rest;
    MessageHeaderFields(version, OFPT_FLOW_MOD, length, xid, rest);
  }

  /** The accessors and the validation of a message whose match section and instructions are known. */
  lemma {:induction false} PartsReadBack(m: Bytes, oxm: Bytes, instructions: Bytes)
    requires |m| >= 52 && ReadBig16(m, 2) == |m| && 4 + |oxm| < 0x1_0000
    requires m[48..] == Section(OFPMT_OXM, oxm) + instructions
    ensures MatchHeaderLength(m) == 4 + |oxm| && 48 + MatchHeaderLength(m) <= |m|
    ensures MatchOf(m) == oxm && InstructionsOf(m) == instructions
    ensures ValidFlowMod(m) <==> WellFormed(Tlv, oxm) && ValidInstructions(instructions)
  {
    hide Section, ValidInstructions, Parse, ValidMatch;
    SectionReadsBack(m, 48, OFPMT_OXM, oxm, instructions);
  }

  /** For version 3 and up the header announces exactly the bytes written, the accessors return the
      match and the instructions that were sent, and validation accepts the message exactly when it
      would accept the two parts. */
  lemma {:induction false} Layout3ReadsBack(version: nat, xid: nat, fixed: Bytes, oxm: Bytes, instructions: Bytes)
    requires version < 256 && |fixed| == 40 && |instructions| % 8 == 0
    requires PadLength(52 + |oxm|) + |instructions| < 0x1_0000
    ensures var m := Layout3(version, xid, fixed, oxm, instructions);
      && |m| >= 52 && ReadBig16(m, 2) == |m| && m[8..48] == fixed
      && m[0] as int == version && m[1] == 14 && ReadBig32(m, 4) == xid % 0x1_0000_0000
      && 4 <= MatchHeaderLength(m) && 48 + MatchHeaderLength(m) <= |m|
      && MatchOf(m) == oxm && InstructionsOf(m) == instructions
      && (ValidFlowMod(m) <==> WellFormed(Tlv, oxm) && ValidInstructions(instructions))
  {
    hide Layout3, ValidFlowMod, ValidInstructions, InstructionsOf, MatchOf, Section;
    Layout3Shape(version, xid, fixed, oxm, instructions);
    PartsReadBack(Layout3(version, xid, fixed, oxm, instructions), oxm, instructions);
  }

  lemma {:induction false} Layout2Shape(xid: nat, fixed: Bytes, standard: Bytes, instructions: Bytes)
    requires |fixed| == 40 && |instructions| % 8 == 0 && 136 + |instructions| < 0x1_0000
    requires |standard| == STANDARD_MATCH_SIZE
    ensures var m := Layout2(2, xid, fixed, standard, instructions);
      && |m| == 136 + |instructions| && ReadBig16(m, 2) == |m| && m[8..48] == fixed && m[48..136] == standard
      && m[0] == 2 && m[1] == 14 && ReadBig32(m, 4) == xid % 0x1_0000_0000 && m[48..] == standard + instructions
  {
    hide MessageHeader, ReadBig16, ReadBig32;
    var m := Layout2(2, xid, fixed, standard, instructions);
    var rest := fixed + standard + instructions;
    assert m == MessageHeader(2, OFPT_FLOW_MOD, 136 + |instructions|, xid) + rest;
    MessageHeaderFields(2, OFPT_FLOW_MOD, 136 + |instructions|, xid, rest);
  }

  /** A message that holds a standard match, and instructions behind it. */
  lemma {:induction false} StandardReadsBack(m: Bytes, standard: Bytes, instructions: Bytes)
    requires |m| >= 136 && ReadBig16(m, 2) == |m| && |standard| == STANDARD_MATCH_SIZE
    requires standard[..4] == Big16(OFPMT_STANDARD) + Big16(STANDARD_MATCH_SIZE)
    requires m[48..] == standard + instructions
    ensures InstructionsOf(m) == instructions
    ensures m[0] < 4 ==> (ValidFlowMod(m) <==> ValidInstructions(instructions))
  {
    hide ValidInstructions, Big16;
    SectionAt(m, 48, standard + instructions);
    assert standard[0..2] == standard[..4][0..2] == Big16(OFPMT_STANDARD);
    assert standard[2..4] == standard[..4][2..4] == Big16(STANDARD_MATCH_SIZE);
    Big16RoundTrip(OFPMT_STANDARD, standard, 0);
    Big16RoundTrip(STANDARD_MATCH_SIZE, standard, 2);
    assert ReadBig16(standard + instructions, 0) == ReadBig16(standard, 0);
    assert ReadBig16(standard + instructions, 2) == ReadBig16(standard, 2);
    assert PadLength(88) == 88;
    assert m[136..|m|] == m[48..][88..] == instructions;
  }

  /** For version 2 the same holds of the length and the instructions; the match is the standard one,
      whose own header says 88 bytes. */
  lemma {:induction false} Layout2ReadsBack(xid: nat, fixed: Bytes, standard: Bytes, instructions: Bytes)
    requires |fixed| == 40 && |instructions| % 8 == 0 && 136 + |instructions| < 0x1_0000
    requires |standard| == STANDARD_MATCH_SIZE && standard[..4] == Big16(OFPMT_STANDARD) + Big16(STANDARD_MATCH_SIZE)
    ensures var m := Layout2(2, xid, fixed, standard, instructions);
      && |m| >= 52 && ReadBig16(m, 2) == |m| && m[8..48] == fixed && m[48..136] == standard
      && m[0] == 2 && m[1] == 14 && ReadBig32(m, 4) == xid % 0x1_0000_0000
      && InstructionsOf(m) == instructions
      && (ValidFlowMod(m) <==> ValidInstructions(instructions))
  {
    hide ValidInstructions, Layout2, Big16, ReadBig16, ReadBig32, InstructionsOf, ValidFlowMod;
    Layout2Shape(xid, fixed, standard, instructions);
    StandardReadsBack(Layout2(2, xid, fixed, standard, instructions), standard, instructions);
  }

  // ---- which messages are as long as they say ----

  /** For version 2 the header announces the padding that is not written. It announces the bytes written
      if and only if there is none, and the message fits its length field. */
  lemma {:induction false} Layout2LengthIff(version: nat, xid: nat, fixed: Bytes, standard: Bytes, instructions: Bytes)
    requires version < 256 && |fixed| == 40 && |standard| == STANDARD_MATCH_SIZE
    ensures var m := Layout2(version, xid, fixed, standard, instructions);
      && |m| == 136 + |instructions|
      && ReadBig16(m, 2) == (136 + PadLength(|instructions|)) % 0x1_0000
      && (ReadBig16(m, 2) == |m| <==> |instructions| % 8 == 0 && 136 + |instructions| < 0x1_0000)
  {
    hide MessageHeader;
    var length := 136 + PadLength(|instructions|);
    var rest := fixed + standard + instructions;
    assert Layout2(version, xid, fixed, standard, instructions)
      == MessageHeader(version, OFPT_FLOW_MOD, length, xid) + rest;
    MessageHeaderFields(version, OFPT_FLOW_MOD, length, xid, rest);
    PaddedLengthIff(136, |instructions|);
  }

  /** The same for version 3 and up, which is what the assertion in send protects. */
  lemma {:induction false} Layout3LengthIff(version: nat, xid: nat, fixed: Bytes, oxm: Bytes, instructions: Bytes)
    requires version < 256 && |fixed| == 40
    ensures var m := Layout3(version, xid, fixed, oxm, instructions);
      && |m| == PadLength(52 + |oxm|) + |instructions|
      && ReadBig16(m, 2) == (PadLength(52 + |oxm|) + PadLength(|instructions|)) % 0x1_0000
      && (ReadBig16(m, 2) == |m| <==> |instructions| % 8 == 0 && PadLength(52 + |oxm|) + |instructions| < 0x1_0000)
  {
    hide MessageHeader, Section;
    var length := PadLength(52 + |oxm|) + PadLength(|instructions|);
    PadPlus48(4 + |oxm|);
    var rest := fixed + Section(OFPMT_OXM, oxm) + instructions;
    assert Layout3(version, xid, fixed, oxm, instructions) == MessageHeader(version, OFPT_FLOW_MOD, length, xid) + rest;
    MessageHeaderFields(version, OFPT_FLOW_MOD, length, xid, rest);
    PaddedLengthIff(PadLength(52 + |oxm|), |instructions|);
  }

  lemma PaddedLengthIff(front: nat, n: nat)
    requires front % 8 == 0
    ensures (front + PadLength(n)) % 0x1_0000 == front + n <==> n % 8 == 0 && front + n < 0x1_0000
  {}

  /** Every action has an exactly predicted size. */
  predicate AllExact(es: seq<Bytes>) { forall i :: 0 <= i < |es| ==> Element(ACTION, es[i]) && Exact(es[i]) }

  /** For version 1 the header announces the bytes written if and only if the message fits and the error of
      the prediction is lost in the length field; below 64 KiB, if and only if every action has an exactly
      predicted size. */
  lemma {:induction false} Layout1LengthIff(actions: Bytes, xid: nat, fixed: Bytes, original: Bytes)
    requires ValidActionRange(actions) && |fixed| == 40 && |original| == 40
    ensures var m := Layout1(1, 72 + Announced(actions, 1), xid, fixed, original, Written(actions, 1));
      && |m| == 72 + |Written(actions, 1)|
      && (ReadBig16(m, 2) == |m| <==> |m| < 0x1_0000 && (Announced(actions, 1) - |Written(actions, 1)|) % 0x1_0000 == 0)
      && (72 + Announced(actions, 1) < 0x1_0000 ==>
           (ReadBig16(m, 2) == |m| <==> AllExact(Parse(ACTION, actions).value)))
  {
    hide MessageHeader, AllExact, Written, Announced, Big16, ReadBig16, Element, Parse, ValidActionRange;
    var length := 72 + Announced(actions, 1);
    var m := Layout1(1, length, xid, fixed, original, Written(actions, 1));
    var rest := original + fixed[0..8] + fixed[16..28] + fixed[30..32] + fixed[36..38] + Written(actions, 1);
    assert m == MessageHeader(1, OFPT_FLOW_MOD, length, xid) + rest;
    MessageHeaderFields(1, OFPT_FLOW_MOD, length, xid, rest);
    ExactIff(actions);
    NarrowedIff(length, |m|);
  }

  lemma {:induction false} ExactIff(actions: Bytes)
    requires ValidActionRange(actions)
    ensures Announced(actions, 1) >= |Written(actions, 1)|
    ensures Announced(actions, 1) == |Written(actions, 1)| <==> AllExact(Parse(ACTION, actions).value)
  {
    hide Exact, WriteAll, ExcessAll, Element, Parse, ValidAction;
    SizeLaw(Parse(ACTION, actions).value);
  }

  lemma NarrowedIff(length: nat, n: nat)
    ensures length % 0x1_0000 == n <==> n < 0x1_0000 && (length - n) % 0x1_0000 == 0
  {}
}
