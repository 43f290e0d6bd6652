/** One FlowModBuilder used for several sends (src/ofp/flowmod.cpp). Sending on version 1 clears the
    builder's table id, which later messages of other versions then lack. */
module FlowModRun {
  import opened Bytes
  import opened Framing
  import opened Actions
  import opened Channel
  import opened Instructions
  import opened Sections
  import opened FlowMod

  /** What goes into a message besides the fixed part and the version. */
  datatype Parts = Parts(oxm: Bytes, instructions: Bytes, actions: Bytes, standard: Bytes, original: Bytes)
  {
    /** What sending on this version asks for. The two matches are what the OXM list converts to; for
        version 1 the instructions are valid and the actions are those of the first APPLY_ACTIONS; from
        version 3 on the instructions are padded. */
    ghost predicate Sendable(version: nat) {
      && version < 256 && |standard| == STANDARD_MATCH_SIZE && |original| == 40
      && (version <= 1 ==>
            && ValidInstructions(instructions) && ValidActionRange(actions)
            && FirstApplied(Parse(INSTRUCTION, instructions).value, actions))
      && (version >= 3 ==> |instructions| % 8 == 0)
    }

    ghost predicate SendableAll(versions: seq<nat>) { forall i :: 0 <= i < |versions| ==> Sendable(versions[i]) }
  }

  /** The message that a builder holding this fixed part sends. */
  ghost function MessageFor(p: Parts, fixed: Bytes, version: nat, xid: nat): Bytes
    requires p.Sendable(version) && |fixed| == 40
  {
    if version <= 1 then
      Layout1(version, 72 + Announced(p.actions, version), xid, ClearTableId(fixed),
        p.original, Written(p.actions, version))
    else if version == 2 then Layout2(2, xid, fixed, p.standard, p.instructions)
    else Layout3(version, xid, fixed, p.oxm, p.instructions)
  }

  /** The fixed part that is left after sends on channels of these versions. */
  function FixedAfter(fixed: Bytes, versions: seq<nat>): (f: Bytes)
    requires |fixed| == 40
    ensures |f| == 40
  {
    if versions == [] then fixed
    else
      var f := FixedAfter(fixed, versions[..|versions| - 1]);
      if versions[|versions| - 1] <= 1 then ClearTableId(f) else f
  }

  /** What one builder sends over a run. */
  ghost function RunMessages(p: Parts, fixed: Bytes, versions: seq<nat>, first: nat): (r: seq<Bytes>)
    requires p.SendableAll(versions) && |fixed| == 40
    ensures |r| == |versions|
    ensures forall i :: 0 <= i < |r| ==>
      r[i] == MessageFor(p, FixedAfter(fixed, versions[..i]), versions[i], XidAt(first, i))
  {
    seq(|versions|, i requires 0 <= i < |versions| =>
      MessageFor(p, FixedAfter(fixed, versions[..i]), versions[i], XidAt(first, i)))
  }

  lemma {:induction false} FirstAppliedUnique(es: seq<Bytes>, a: Bytes, b: Bytes)
    requires FirstApplied(es, a) && FirstApplied(es, b)
    ensures a == b
  {
    hide Code, Size;
  }

  /** One send, seen through the parts. */
  method SendOne(builder: FlowModBuilder, channel: MemoryChannel, p: Parts) returns (xid: nat)
    requires p.Sendable(channel.version)
    requires builder.Valid() && builder.oxm == p.oxm && builder.instructions == p.instructions
    modifies builder`fixed, channel`buf, channel`nextXid, channel`flushed
    ensures builder.Valid()
    ensures builder.fixed == if channel.version <= 1 then ClearTableId(old(builder.fixed)) else old(builder.fixed)
    ensures channel.buf == old(channel.buf) + MessageFor(p, old(builder.fixed), channel.version, old(channel.nextXid))
    ensures channel.nextXid == (old(channel.nextXid) + 1) % 0x1_0000_0000
  {
    hide Layout1, Layout2, Layout3, Announced, Written, ClearTableId, FirstApplied;
    xid := builder.Send(channel, p.standard, p.original);
    if channel.version <= 1 {
      ghost var actions :|
        && FirstApplied(Parse(INSTRUCTION, p.instructions).value, actions) && ValidActionRange(actions)
        && channel.buf == old(channel.buf) + Layout1(channel.version, 72 + Announced(actions, channel.version), xid,
                                                     builder.fixed, p.original, Written(actions, channel.version));
      FirstAppliedUnique(Parse(INSTRUCTION, p.instructions).value, actions, p.actions);
    }
  }

  /** Any run of sends of one builder. */
  method SendRun(builder: FlowModBuilder, channel: MemoryChannel, p: Parts, versions: seq<nat>)
    requires p.SendableAll(versions) && channel.nextXid < 0x1_0000_0000
    requires builder.Valid() && builder.oxm == p.oxm && builder.instructions == p.instructions
    modifies builder`fixed, channel
    ensures builder.fixed == FixedAfter(old(builder.fixed), versions)
    ensures channel.buf == old(channel.buf) + Join(RunMessages(p, old(builder.fixed), versions, old(channel.nextXid)))
  {
    hide MessageFor, XidAt, ClearTableId, Join, FixedAfter, RunMessages, p.Sendable;
    ghost var fixed, first := builder.fixed, channel.nextXid;
    ghost var all := RunMessages(p, fixed, versions, first);
    assert FixedAfter(fixed, versions[..0]) == fixed by { NothingSent(fixed); }
    XidStep(first, 0);
    assert Join(all[..0]) == [] by { JoinNothing(); }
    for k := 0 to |versions|
      invariant builder.Valid() && builder.oxm == p.oxm && builder.instructions == p.instructions
      invariant builder.fixed == FixedAfter(fixed, versions[..k]) && channel.nextXid == XidAt(first, k)
      invariant channel.buf == old(channel.buf) + Join(all[..k])
    {
      channel.version := versions[k];
      var _ := SendOne(builder, channel, p);
      RunStep(p, fixed, versions, first, k);
      XidStep(first, k);
    }
    assert versions[..|versions|] == versions && all[..|versions|] == all;
  }

  lemma {:induction false} RunStep(p: Parts, fixed: Bytes, versions: seq<nat>, first: nat, k: nat)
    requires p.SendableAll(versions) && |fixed| == 40 && k < |versions|
    ensures var all, f := RunMessages(p, fixed, versions, first), FixedAfter(fixed, versions[..k]);
      && Join(all[..k + 1]) == Join(all[..k]) + MessageFor(p, f, versions[k], XidAt(first, k))
      && FixedAfter(fixed, versions[..k + 1]) == if versions[k] <= 1 then ClearTableId(f) else f
  {
    hide MessageFor, XidAt, ClearTableId, Join, p.Sendable;
    var all := RunMessages(p, fixed, versions, first);
    assert versions[..k + 1][..k] == versions[..k];
    assert all[..k + 1] == all[..k] + [all[k]];
    JoinSnoc(all[..k], all[k]);
  }

  lemma NothingSent(fixed: Bytes)
    requires |fixed| == 40
    ensures FixedAfter(fixed, []) == fixed
  {}

  lemma JoinNothing()
    ensures Join([]) == []
  {}

  // ---- which runs look as if every message had a fresh builder ----

  predicate SentOriginal(versions: seq<nat>) { exists i :: 0 <= i < |versions| && versions[i] <= 1 }

  lemma {:induction false} FixedAfterIs(fixed: Bytes, versions: seq<nat>)
    requires |fixed| == 40
    ensures FixedAfter(fixed, versions) == if SentOriginal(versions) then ClearTableId(fixed) else fixed
  {
    if versions != [] {
      var n := |versions| - 1;
      var init := versions[..n];
      FixedAfterIs(fixed, init);
      assert SentOriginal(versions) <==> SentOriginal(init) || versions[n] <= 1 by {
        if SentOriginal(init) {
          var i :| 0 <= i < n && init[i] <= 1;
          assert versions[i] <= 1;
        }
        if i :| 0 <= i < |versions| && versions[i] <= 1 {
          if i < n { assert init[i] <= 1; }
        }
      }
    }
  }

  /** On version 1 the table id does not matter; on any other version it is the one byte that does. */
  lemma {:induction false} ClearedMessageIff(p: Parts, fixed: Bytes, version: nat, xid: nat)
    requires p.Sendable(version) && |fixed| == 40
    ensures MessageFor(p, ClearTableId(fixed), version, xid) == MessageFor(p, fixed, version, xid)
       <==> version <= 1 || fixed[16] == 0
  {
    hide MessageHeader, Announced, Written, Section;
    var cleared := ClearTableId(fixed);
    assert cleared[16] == 0;
    if version <= 1 || fixed[16] == 0 {
      assert ClearTableId(cleared) == cleared;
      assert fixed[16] == 0 ==> cleared == fixed;
    } else {
      var a, b := MessageFor(p, cleared, version, xid), MessageFor(p, fixed, version, xid);
      assert a[8..48] == cleared && b[8..48] == fixed;
    }
  }

  /** Every message of a run is the one that a fresh builder sends if and only if the table id is zero
      or no message of a later version follows one of version 1. */
  lemma {:induction false} RunIsFreshIff(p: Parts, fixed: Bytes, versions: seq<nat>, first: nat)
    requires p.SendableAll(versions) && |fixed| == 40
    ensures (forall i :: 0 <= i < |versions| ==>
               RunMessages(p, fixed, versions, first)[i] == MessageFor(p, fixed, versions[i], XidAt(first, i)))
       <==> fixed[16] == 0 || forall i, j :: 0 <= i < j < |versions| && versions[i] <= 1 ==> versions[j] <= 1
  {
    hide MessageFor, XidAt, ClearTableId, FixedAfter;
    var run := RunMessages(p, fixed, versions, first);
    forall j | 0 <= j < |versions|
      ensures run[j] == MessageFor(p, fixed, versions[j], XidAt(first, j))
         <==> !SentOriginal(versions[..j]) || versions[j] <= 1 || fixed[16] == 0
    {
      FixedAfterIs(fixed, versions[..j]);
      ClearedMessageIff(p, fixed, versions[j], XidAt(first, j));
    }
    forall j | 0 <= j < |versions|
      ensures SentOriginal(versions[..j]) <==> exists i :: 0 <= i < j && versions[i] <= 1
    {
      if i :| 0 <= i < j && versions[i] <= 1 { assert versions[..j][i] <= 1; }
    }
  }

  /** Table 5, first sent on version 1 and then on version 4: the second message names table 0. */
  lemma {:induction false} TableIdIsLost(first: nat)
    ensures var p := Parts([], [], [], Zeros(STANDARD_MATCH_SIZE), Zeros(40));
      var fixed := Zeros(40)[16 := 5];
      && p.SendableAll([1, 4])
      && RunMessages(p, fixed, [1, 4], first)[1] != MessageFor(p, fixed, 4, XidAt(first, 1))
      && RunMessages(p, fixed, [1, 4], first)[1] == MessageFor(p, fixed[16 := 0], 4, XidAt(first, 1))
  {
    hide MessageFor, XidAt, ValidActionRange;
    var p := Parts([], [], [], Zeros(STANDARD_MATCH_SIZE), Zeros(40));
    var fixed, versions := Zeros(40)[16 := 5], [1, 4];
    NothingWritten(1);
    assert p.SendableAll(versions);
    assert versions[..1] == [1] && SentOriginal([1]) by { assert [1][0] <= 1; }
    FixedAfterIs(fixed, versions[..1]);
    ClearedMessageIff(p, fixed, 4, XidAt(first, 1));
  }

  // ---- which runs split again ----

  /** The message is as long as its header says: the instructions are padded or, for version 1, every
      error in the predicted size is lost in the length field; and it fits that field. */
  ghost predicate AsLongAsSaid(p: Parts, version: nat)
    requires p.Sendable(version)
  {
    if version <= 1 then
      && 72 + |Written(p.actions, version)| < 0x1_0000
      && (Announced(p.actions, version) - |Written(p.actions, version)|) % 0x1_0000 == 0
    else
      && |p.instructions| % 8 == 0
      && (if version == 2 then 136 else PadLength(52 + |p.oxm|)) + |p.instructions| < 0x1_0000
  }

  lemma {:induction false} MessageLengthIff(p: Parts, fixed: Bytes, version: nat, xid: nat)
    requires p.Sendable(version) && |fixed| == 40
    ensures var m := MessageFor(p, fixed, version, xid);
      |m| >= 8 && (HeaderLength(m) == |m| <==> AsLongAsSaid(p, version))
  {
    hide Layout1, Layout2, Layout3, Announced, Written, ClearTableId, FirstApplied, ValidInstructions, ValidActionRange;
    if version == 2 {
      Layout2LengthIff(2, xid, fixed, p.standard, p.instructions);
    } else if version >= 3 {
      Layout3LengthIff(version, xid, fixed, p.oxm, p.instructions);
    } else if version == 1 {
      Layout1LengthIff(p.actions, xid, ClearTableId(fixed), p.original);
    } else {
      Layout0LengthIff(p.actions, xid, ClearTableId(fixed), p.original);
    }
  }

  lemma {:induction false} Layout0LengthIff(actions: Bytes, xid: nat, fixed: Bytes, original: Bytes)
    requires ValidActionRange(actions) && |fixed| == 40 && |original| == 40
    ensures var m := Layout1(0, 72 + Announced(actions, 0), xid, fixed, original, Written(actions, 0));
      && |m| == 72 + |Written(actions, 0)| && Announced(actions, 0) == |Written(actions, 0)|
      && (HeaderLength(m) == |m| <==> |m| < 0x1_0000)
  {
    hide MessageHeader, ValidActionRange;
    var length := 72 + |actions|;
    var rest := original + fixed[0..8] + fixed[16..28] + fixed[30..32] + fixed[36..38] + actions;
    assert Layout1(0, length, xid, fixed, original, actions) == MessageHeader(0, OFPT_FLOW_MOD, length, xid) + rest;
    MessageHeaderFields(0, OFPT_FLOW_MOD, length, xid, rest);
  }

  /** What one builder sends over a run is split again into the messages sent if and only if each of the
      versions gives a message as long as it says. */
  lemma {:induction false} RunSplitsAgainIff(p: Parts, fixed: Bytes, versions: seq<nat>, first: nat)
    requires p.SendableAll(versions) && |fixed| == 40
    ensures var ms := RunMessages(p, fixed, versions, first);
      (Advances(Join(ms)) && Traced(Join(ms)) == Trace(ms, []))
      <==> forall i :: 0 <= i < |versions| ==> AsLongAsSaid(p, versions[i])
  {
    hide MessageFor, XidAt, FixedAfter, AsLongAsSaid, Advances, Traced, Join;
    var ms := RunMessages(p, fixed, versions, first);
    forall i | 0 <= i < |versions|
      ensures |ms[i]| >= 8 && (HeaderLength(ms[i]) == |ms[i]| <==> AsLongAsSaid(p, versions[i]))
    {
      MessageLengthIff(p, FixedAfter(fixed, versions[..i]), versions[i], XidAt(first, i));
    }
    RunSplitsIff(ms);
  }

  /** Thirteen bytes of instructions on version 2: the header announces 152 bytes and 149 are written. */
  lemma {:induction false} UnpaddedRunFails(fixed: Bytes, first: nat)
    requires |fixed| == 40
    ensures var instructions := Instruction.Experimenter(1, Zeros(5)).ToBytes();
      var p := Parts([], instructions, [], Zeros(STANDARD_MATCH_SIZE), Zeros(40));
      && p.SendableAll([2])
      && var m := RunMessages(p, fixed, [2], first)[0];
         && |m| == 149 && ReadBig16(m, 2) == 152
         && !(Advances(Join([m])) && Traced(Join([m])) == Trace([m], []))
  {
    hide XidAt, Layout2, Advances, Traced, Join;
    var instructions := Instruction.Experimenter(1, Zeros(5)).ToBytes();
    UnalignedDoesNotSplit();
    var p := Parts([], instructions, [], Zeros(STANDARD_MATCH_SIZE), Zeros(40));
    var versions: seq<nat> := [2];
    assert p.SendableAll(versions);
    var ms := RunMessages(p, fixed, versions, first);
    assert FixedAfter(fixed, versions[..0]) == fixed;
    Layout2LengthIff(2, XidAt(first, 0), fixed, p.standard, instructions);
    assert ms == [ms[0]] && !AsLongAsSaid(p, versions[0]);
    RunSplitsAgainIff(p, fixed, versions, first);
  }
}
