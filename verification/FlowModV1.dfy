/** Normalizing a version 1 FlowMod in its buffer (normalizeFlowModV1 in src/ofp/normalize.cpp), and
    the whole way round: what a builder sends on a version 1 channel and a receiver reads from it. */
module FlowModV1 {
  import opened Bytes
  import opened Framing
  import opened Actions
  import opened Instructions
  import opened Channel
  import opened ActionWrite
  import opened Normalize
  import opened Transcode
  import opened Sections
  import opened FlowMod

  const INVALID_FLAG := 0xf0
  const TOO_BIG_FLAG := 0xe0

  /** markInputInvalid and markInputTooBig: a flag in the version byte of the header. */
  function Flagged(version: UInt8, flag: nat): (v: UInt8)
    requires flag < 256
    ensures flag <= v as int
  {
    OrFlag(version as int, flag);
    BitOr(version as int, flag) as UInt8
  }

  function Marked(b: Bytes, flag: nat): (r: Bytes)
    requires b != [] && flag < 256
    ensures |r| == |b| && flag <= r[0] as int
  {
    b[0 := Flagged(b[0], flag)]
  }

  lemma {:induction false} OrBelow(x: nat, y: nat, k: nat)
    requires x < Pow2(k) && y < Pow2(k)
    ensures y <= BitOr(x, y) < Pow2(k)
    decreases k
  {
    if k != 0 { OrBelow(x / 2, y / 2, k - 1); }
  }

  lemma OrFlag(x: nat, flag: nat)
    requires x < 256 && flag < 256
    ensures flag <= BitOr(x, flag) < 256
  {
    assert Pow2(4) == 16;
    assert Pow2(8) == 256;
    OrBelow(x, flag, 8);
  }

  /** The fixed part of the internal form: the cookie moves to the front, a mask is added and the port
      and flags are spread out. */
  function FixedPart(m: Bytes): (f: Bytes)
    requires |m| >= 72
    ensures |f| == 48 && f[0] == m[0]
  {
    m[0..8] + m[48..56] + AllOnesMask() + m[56..68]
    + Big32(PortFromV1(ReadBig16(m, 68))) + Zeros(4) + m[70..72] + Zeros(2)
  }

  /** The internal form of the version 1 message `m`, given its match and its normalized actions. */
  function Upgraded(m: Bytes, standard: Bytes, actions: Bytes): Bytes
    requires |m| >= 72
  {
    FixedPart(m) + standard
    + (if |m| == 72 then [] else Header(OFPIT_APPLY_ACTIONS, 8 + |actions|) + Zeros(4) + actions)
  }

  function AllOnesMask(): (b: Bytes)
    ensures |b| == 8
  {
    seq(8, _ => 0xff)
  }

  /** The messages that are rewritten; the others are flagged. */
  ghost predicate Convertible(m: Bytes) {
    72 <= |m| <= 65535 - 72 && |m| % 8 == 0 && ValidActionRange(m[72..])
  }

  /** What is left of a message that is not rewritten: flagged as it came, flagged with its fixed part
      rewritten, or, when the actions are at fault, with the match inserted and eight stray bytes. */
  ghost predicate Rejected(m: Bytes, standard: Bytes, data: Bytes)
    requires |m| >= 8
  {
    if |m| < 72 then data == Marked(m, INVALID_FLAG)
    else if |m| > 65535 - 72 then data == Marked(m, TOO_BIG_FLAG)
    else if |m| % 8 != 0 then data == Marked(FixedPart(m) + m[48..], INVALID_FLAG)
    else exists gap :: |gap| == 8 && data == Stray(m, standard, gap)
  }

  function Stray(m: Bytes, standard: Bytes, gap: Bytes): Bytes
    requires |m| >= 72
  {
    Marked(FixedPart(m) + standard + gap + m[72..], INVALID_FLAG)
  }

  /** The outcome of normalizeFlowModV1. */
  ghost predicate Outcome(m: Bytes, standard: Bytes, littleEndian: bool, data: Bytes)
    requires |m| >= 8 && |standard| == STANDARD_MATCH_SIZE
  {
    if Convertible(m) then
      data == Upgraded(m, standard, NormList(m[72..], Context(m[0] as int, standard[43] as int, littleEndian)))
    else Rejected(m, standard, data)
  }

  lemma RejectedIsFlagged(m: Bytes, standard: Bytes, data: Bytes)
    requires |m| >= 8 && Rejected(m, standard, data)
    ensures |data| >= 8 && data[0] >= 16
  {
    hide FixedPart;
  }

  /** Writes `b` behind what has been built so far, over the bytes that are there. */
  method Put(buf: ByteList, ghost built: Bytes, ghost rest: Bytes, pos: nat, b: Bytes)
    requires buf.data == built + rest && pos == |built| && |b| <= |rest|
    modifies buf
    ensures buf.data == (built + b) + rest[|b|..]
  {
    buf.Overwrite(pos, b);
  }

  /** The copies in front of offset 48: cookie, cookie mask, the fields up to the port, the port, the
      group, the flags and two bytes of padding. */
  method RewriteFixed(buf: ByteList)
    requires |buf.data| >= 72
    modifies buf
    ensures buf.data == FixedPart(old(buf.data)) + old(buf.data)[48..]
  {
    hide Big32, Zeros, AllOnesMask;
    var m := buf.data;
    var port := Big32(PortFromV1(ReadBig16(m, 68)));
    assert m == m[0..8] + m[8..];
    Put(buf, m[0..8], m[8..], 8, m[48..56]);
    Put(buf, m[0..8] + m[48..56], m[8..][8..], 16, AllOnesMask());
    Put(buf, m[0..8] + m[48..56] + AllOnesMask(), m[8..][8..][8..], 24, m[56..68]);
    ghost var built := m[0..8] + m[48..56] + AllOnesMask() + m[56..68];
    assert m[8..][8..][8..][12..] == m[36..];
    Put(buf, built, m[36..], 36, port);
    Put(buf, built + port, m[36..][4..], 40, Zeros(4));
    Put(buf, built + port + Zeros(4), m[36..][4..][4..], 44, m[70..72]);
    Put(buf, built + port + Zeros(4) + m[70..72], m[36..][4..][4..][2..], 46, Zeros(2));
    assert m[36..][4..][4..][2..][2..] == m[48..];
  }

  /** Makes room behind the fixed part and copies the match there. Room for an instruction header is
      left, unwritten, when actions follow. */
  method InsertMatch(buf: ByteList, ghost built: Bytes, ghost rest: Bytes, standard: Bytes) returns (ghost gap: Bytes)
    requires buf.data == built + rest && |built| == 48 && |rest| >= 24 && |standard| == STANDARD_MATCH_SIZE
    modifies buf
    ensures |gap| == (if |rest| == 24 then 0 else 8)
    ensures buf.data == built + standard + gap + rest[24..]
  {
    var needed := 64;
    if |buf.data| > 72 {
      needed := needed + 8;
    }
    buf.InsertUninitialized(48, needed);
    assert buf.data[..48] == built;
    gap := buf.data[136..72 + needed];
    assert buf.data[72 + needed..] == buf.data[48 + needed..][24..] == rest[24..];
    buf.Overwrite(48, standard);
  }

  /** A convertible message takes its internal form, with the actions normalized inside one
      APPLY_ACTIONS instruction; any other message is flagged. `standard` is the standard match that
      the original match in the message converts to. */
  method NormalizeFlowModV1(n: Normalize, standard: Bytes)
    requires |n.buf.data| >= 8 && ReadBig16(n.buf.data, 2) == |n.buf.data|
    requires |standard| == STANDARD_MATCH_SIZE
    modifies n.buf
    ensures Outcome(old(n.buf.data), standard, n.littleEndian, n.buf.data)
  {
    hide NormList, ValidActionRange, FixedPart, Upgraded, Marked, Stray;
    var m := n.buf.data;
    if ReadBig16(m, 2) < 72 {
      Mark(n.buf, INVALID_FLAG);
      return;
    }
    if |m| > 65535 - 72 {
      Mark(n.buf, TOO_BIG_FLAG);
      return;
    }
    RewriteFixed(n.buf);
    var actLen := |m| - 72;
    if actLen % 8 != 0 {
      Mark(n.buf, INVALID_FLAG);
      return;
    }
    InsertMatchAndActions(n, m, standard, actLen);
  }

  /** The second half, on a message whose fixed part is rewritten. */
  method InsertMatchAndActions(n: Normalize, ghost m: Bytes, standard: Bytes, actLen: nat)
    requires |m| == 72 + actLen && n.buf.data == FixedPart(m) + m[48..] && |standard| == STANDARD_MATCH_SIZE
    modifies n.buf
    ensures if ValidActionRange(m[72..]) then
        n.buf.data == Upgraded(m, standard,
          NormList(m[72..], Context(m[0] as int, standard[43] as int, n.littleEndian)))
      else exists gap :: |gap| == 8 && n.buf.data == Stray(m, standard, gap)
  {
    hide NormList, ValidActionRange, FixedPart, Zeros, Header, Marked;
    ghost var built := FixedPart(m);
    ghost var gap := InsertMatch(n.buf, built, m[48..], standard);
    assert m[48..][24..] == m[72..];
    if actLen > 0 {
      assert n.buf.data[144..144 + actLen] == m[72..];
      var valid := ValidateActions(n.buf.data[144..144 + actLen], true);
      if !valid {
        Mark(n.buf, INVALID_FLAG);
        assert n.buf.data == Stray(m, standard, gap);
        return;
      }
      ValidIsWellFormed(m[72..]);
      UpgradeActions(n, built + standard, gap, m[72..], standard[43] as int);
    } else {
      NothingWritten(1);
      assert m[72..] == [];
    }
  }

  method Mark(buf: ByteList, flag: nat)
    requires |buf.data| > 0 && flag in {INVALID_FLAG, TOO_BIG_FLAG}
    modifies buf
    ensures buf.data == Marked(old(buf.data), flag)
  {
    buf.Overwrite(0, [Flagged(buf.data[0], flag)]);
  }

  /** Normalizes the actions at offset 144 and then writes the instruction header in front of them. */
  method UpgradeActions(n: Normalize, ghost built: Bytes, ghost gap: Bytes, ghost actions: Bytes, ipProto: nat)
    requires n.buf.data == built + gap + actions && |built| == 136 && |gap| == 8 && WellFormed(ACTION, actions)
    modifies n.buf
    ensures var list := NormList(actions, Context(built[0] as int, ipProto, n.littleEndian));
      n.buf.data == built + (Header(OFPIT_APPLY_ACTIONS, 8 + |list|) + Zeros(4) + list)
  {
    hide NormList, Header, Zeros;
    var actLen := |n.buf.data| - 144;
    assert n.buf.data[144..144 + actLen] == actions && n.buf.data[..144] == built + gap;
    var delta := n.NormActions(144, 144 + actLen, ipProto);
    ghost var list := NormList(actions, Context(built[0] as int, ipProto, n.littleEndian));
    assert n.buf.data == built + gap + list;
    var insHead := Header(OFPIT_APPLY_ACTIONS, actLen + 8 + delta) + Zeros(4);
    n.buf.Overwrite(136, insHead);
  }

  lemma ValidIsWellFormed(b: Bytes)
    requires ValidActionRange(b)
    ensures WellFormed(ACTION, b)
  {}

  /** Sets the length in the header, as normalize() does at its end. */
  function WithLength(m: Bytes): (r: Bytes)
    requires |m| >= 8
    ensures |r| == |m|
  {
    m[..2] + Big16(|m|) + m[4..]
  }

  /** The internal form of a version 1 message, with its length. */
  ghost function Received(m: Bytes, standard: Bytes, littleEndian: bool): Bytes
    requires |m| >= 72 && |standard| == STANDARD_MATCH_SIZE && WellFormed(ACTION, m[72..])
  {
    WithLength(Upgraded(m, standard, NormList(m[72..], Context(1, standard[43] as int, littleEndian))))
  }

  /** The messages that are not flagged: the length is right, the message can be converted and the
      result still fits. */
  ghost predicate Accepted(m: Bytes, standard: Bytes, littleEndian: bool)
    requires |standard| == STANDARD_MATCH_SIZE
  {
    && Convertible(m) && ReadBig16(m, 2) == |m|
    && |Received(m, standard, littleEndian)| <= 65535
  }

  /** The message that is looked at: flagged and given its real length when the header has another. */
  function Inspected(m: Bytes): (r: Bytes)
    requires |m| >= 8
    ensures |r| == |m|
  {
    if ReadBig16(m, 2) == |m| then m else WithLength(Marked(m, INVALID_FLAG))
  }

  /** What leaves normalize(): cut to the largest size, and with its length in the header. */
  function Finished(data: Bytes): Bytes
    requires |data| >= 8
  {
    WithLength(if |data| > 65535 then Marked(data, TOO_BIG_FLAG)[..65535] else data)
  }

  /** Normalize::normalize for a message of version 1 and type FLOW_MOD, in full and as far as it is
      accepted: the internal form, or a flag in the version byte. */
  method NormalizeMessage(n: Normalize, standard: Bytes)
    requires |n.buf.data| >= 8 && n.buf.data[0] == 1 && n.buf.data[1] as int == OFPT_FLOW_MOD
    requires |n.buf.data| <= 65535 && |standard| == STANDARD_MATCH_SIZE
    modifies n.buf
    ensures exists data :: Outcome(Inspected(old(n.buf.data)), standard, n.littleEndian, data)
                    && |data| >= 8 && n.buf.data == Finished(data)
    ensures var m := old(n.buf.data);
      if Accepted(m, standard, n.littleEndian) then n.buf.data == Received(m, standard, n.littleEndian)
      else |n.buf.data| > 0 && n.buf.data[0] >= 16
  {
    hide Upgraded, NormList, ValidActionRange, Big16, ReadBig16, Outcome, Marked, WithLength;
    var m := n.buf.data;
    if |m| != ReadBig16(m, 2) {
      Mark(n.buf, INVALID_FLAG);
      WithLengthReads(n.buf.data);
      SetLength(n.buf);
    }
    NormalizeFlowModV1(n, standard);
    ghost var data := n.buf.data;
    OutcomeIsLong(Inspected(m), standard, n.littleEndian, data);
    if |n.buf.data| > 65535 {
      Mark(n.buf, TOO_BIG_FLAG);
      n.buf.Remove(65535, |n.buf.data| - 65535);
      assert n.buf.data == Marked(data, TOO_BIG_FLAG)[..65535];
    }
    SetLength(n.buf);
    assert n.buf.data == Finished(data);
    FinishedIs(m, standard, n.littleEndian, data);
  }

  lemma {:induction false} OutcomeIsLong(m: Bytes, standard: Bytes, littleEndian: bool, data: Bytes)
    requires |m| >= 8 && |standard| == STANDARD_MATCH_SIZE && Outcome(m, standard, littleEndian, data)
    ensures |data| >= 8
    ensures Convertible(m) ==> data[0] == m[0]
    ensures !Convertible(m) ==> data[0] >= 16
  {
    hide NormList, Upgraded, ValidActionRange, Rejected;
    if Convertible(m) {
      ValidIsWellFormed(m[72..]);
      UpgradedShape(m, standard, NormList(m[72..], Context(m[0] as int, standard[43] as int, littleEndian)));
    } else {
      RejectedIsFlagged(m, standard, data);
    }
  }

  lemma {:induction false} FinishedIs(m: Bytes, standard: Bytes, littleEndian: bool, data: Bytes)
    requires 8 <= |m| <= 65535 && m[0] == 1 && |standard| == STANDARD_MATCH_SIZE && |data| >= 8
    requires Outcome(Inspected(m), standard, littleEndian, data)
    ensures if Accepted(m, standard, littleEndian) then Finished(data) == Received(m, standard, littleEndian)
      else |Finished(data)| > 0 && Finished(data)[0] >= 16
  {
    hide NormList, Upgraded, ValidActionRange, Rejected, Big16, ReadBig16;
    OutcomeIsLong(Inspected(m), standard, littleEndian, data);
    if ReadBig16(m, 2) == |m| && Convertible(m) {
      ValidIsWellFormed(m[72..]);
    }
  }

  lemma WithLengthReads(m: Bytes)
    requires 8 <= |m| <= 65535
    ensures ReadBig16(WithLength(m), 2) == |m| && WithLength(m)[0] == m[0]
  {
    assert WithLength(m)[2..4] == Big16(|m|);
    Big16RoundTrip(|m|, WithLength(m), 2);
  }

  lemma UpgradedShape(m: Bytes, standard: Bytes, actions: Bytes)
    requires |m| >= 72 && |standard| == STANDARD_MATCH_SIZE
    ensures |Upgraded(m, standard, actions)| >= 136 && Upgraded(m, standard, actions)[..8] == m[..8]
    ensures Upgraded(m, standard, actions)[0] == m[0]
  {
    assert Upgraded(m, standard, actions)[..8][0] == m[..8][0];
  }

  method SetLength(buf: ByteList)
    requires |buf.data| >= 8
    modifies buf
    ensures buf.data == WithLength(old(buf.data))
  {
    buf.Overwrite(2, Big16(|buf.data|));
  }

  // ---- sending and normalizing ----

  /** The 1.0 form of a valid, aligned list passes validation on arrival. */
  lemma {:induction false} WrittenIsValid(es: seq<Bytes>)
    requires AlignedActions(es)
    ensures ValidActionRange(WriteAll(es))
  {
    hide WriteOne, ValidAction, Extent, Join, Parse;
    WrittenList(es);
    KeptValid(es);
    ParseJoin(ACTION, Kept(es));
  }

  lemma {:induction false} KeptValid(es: seq<Bytes>)
    requires AlignedActions(es)
    ensures ValidActions(Kept(es))
  {
    hide WriteOne, ValidAction, Extent;
    if es != [] {
      AlignedTail(es);
      KeptValid(es[1..]);
      if WriteOne(es[0]) != [] { WriteOneValid(es[0]); }
    }
  }

  lemma {:induction false} WriteOneValid(e: Bytes)
    requires Element(ACTION, e) && ValidAction(e) && (ActionShape(e); Size(e) % 8 == 0) && WriteOne(e) != []
    ensures Element(ACTION, WriteOne(e)) && ValidAction(WriteOne(e))
  {
    hide SetFieldV1;
    ActionShape(e);
    WrittenIsElement(e);
    if Code(e) == OFPAT_OUTPUT && Size(e) == 16 {
      var body := e[6..8] + e[8..10];
      assert WriteOne(e) == Header(OFPAT_OUTPUT, 8) + body;
      HeaderFields(OFPAT_OUTPUT, 8, body);
    } else if Code(e) == OFPAT_SET_FIELD {
      SetFieldShape(e);
      match SetFieldCodeV1(e) {
        case None =>
        case Some(code) => SetFieldV1IsElement(code, e[8..8 + FieldType(e).size]);
      }
    } else {
      assert WriteOne(e) == e;
    }
  }

  /** What a version 1 channel carries for a FlowMod with these parts. */
  ghost function SentV1(actions: Bytes, xid: nat, fixed: Bytes, original: Bytes): Bytes
    requires ValidActionRange(actions) && |fixed| == 40
  {
    Layout1(1, 72 + Announced(actions, 1), xid, fixed, original, Written(actions, 1))
  }

  lemma {:induction false} SentShape(actions: Bytes, xid: nat, fixed: Bytes, original: Bytes)
    requires ValidActionRange(actions) && |fixed| == 40 && |original| == 40
    ensures var m := SentV1(actions, xid, fixed, original);
      && |m| == 72 + |Written(actions, 1)| && m[72..] == Written(actions, 1)
      && m[0] == 1 && m[1] == 14 && ReadBig32(m, 4) == xid % 0x1_0000_0000 && m[8..48] == original
      && m[48..56] == fixed[0..8] && m[56..68] == fixed[16..28]
      && m[68..70] == fixed[30..32] && m[70..72] == fixed[36..38]
  {
    hide Written, Announced, MessageHeader;
    var length := 72 + Announced(actions, 1);
    var rest := original + fixed[0..8] + fixed[16..28] + fixed[30..32] + fixed[36..38] + Written(actions, 1);
    assert SentV1(actions, xid, fixed, original) == MessageHeader(1, OFPT_FLOW_MOD, length, xid) + rest;
    MessageHeaderFields(1, OFPT_FLOW_MOD, length, xid, rest);
  }

  lemma {:induction false} ReceivedShape(m: Bytes, standard: Bytes, littleEndian: bool)
    requires |m| >= 72 && |standard| == STANDARD_MATCH_SIZE && WellFormed(ACTION, m[72..])
    requires standard[..4] == Big16(OFPMT_STANDARD) + Big16(STANDARD_MATCH_SIZE)
    requires |Received(m, standard, littleEndian)| <= 65535
    ensures var r := Received(m, standard, littleEndian);
      var list := NormList(m[72..], Context(1, standard[43] as int, littleEndian));
      && |r| >= 136 && ReadBig16(r, 2) == |r| && r[0] == m[0] && r[1] == m[1] && r[4..8] == m[4..8]
      && r[8..16] == m[48..56] && r[16..24] == AllOnesMask() && r[24..36] == m[56..68]
      && r[36..40] == Big32(PortFromV1(ReadBig16(m, 68)))
      && r[40..44] == Zeros(4) && r[44..46] == m[70..72] && r[46..48] == Zeros(2)
      && r[48..] == standard + (if |m| == 72 then [] else Header(OFPIT_APPLY_ACTIONS, 8 + |list|) + Zeros(4) + list)
  {
    hide NormList, Header, Big32, Big16, Zeros, FixedPart, ReadBig16;
    var list := NormList(m[72..], Context(1, standard[43] as int, littleEndian));
    var u, f := Upgraded(m, standard, list), FixedPart(m);
    UpgradedShape(m, standard, list);
    FixedPartFields(m);
    WithLengthReads(u);
    var r := WithLength(u);
    assert r[4..|r|] == u[4..|r|];
    assert r[1] == u[1] == u[..8][1];
    assert u[4..8] == u[..8][4..8] == m[4..8];
    SubSlice(r, u, 4, |r|, 4, 8);
    SubSlice(r, u, 4, |r|, 8, 48);
    SubSlice(r, u, 4, |r|, 48, |r|);
    assert u[8..48] == f[8..48] && u[48..] == u[48..|r|];
    SubSlice(r, f, 8, 48, 8, 16);
    SubSlice(r, f, 8, 48, 24, 36);
    SubSlice(r, f, 8, 48, 36, 40);
    SubSlice(r, f, 8, 48, 16, 24);
    SubSlice(r, f, 8, 48, 40, 44);
    SubSlice(r, f, 8, 48, 44, 46);
    SubSlice(r, f, 8, 48, 46, 48);
  }

  lemma SubSlice(a: Bytes, b: Bytes, lo: nat, hi: nat, i: nat, j: nat)
    requires lo <= i <= j <= hi <= |a| && hi <= |b| && a[lo..hi] == b[lo..hi]
    ensures a[i..j] == b[i..j]
  {
    forall k | i <= k < j ensures a[k] == b[k] {
      assert a[k] == a[lo..hi][k - lo] && b[k] == b[lo..hi][k - lo];
    }
  }

  lemma {:induction false} FixedPartFields(m: Bytes)
    requires |m| >= 72
    ensures var f := FixedPart(m);
      && f[8..16] == m[48..56] && f[16..24] == AllOnesMask() && f[24..36] == m[56..68]
      && f[36..40] == Big32(PortFromV1(ReadBig16(m, 68)))
      && f[40..44] == Zeros(4) && f[44..46] == m[70..72] && f[46..48] == Zeros(2)
  {
    hide Big32, Zeros, AllOnesMask, PortFromV1, ReadBig16;
  }

  /** The instructions that carry these actions. */
  ghost function Carrying(actions: Bytes): Bytes {
    if actions == [] then [] else ApplyActions(actions).ToBytes()
  }

  lemma RestorableIsExact(e: Bytes, c: Context)
    requires Element(ACTION, e) && ValidAction(e) && Restorable(e, c)
    ensures Exact(e)
  {
    ActionShape(e);
    if Code(e) == OFPAT_SET_FIELD {
      var f := FieldOf(FieldType(e)).value;
      SetFieldCanonical(e, f);
    }
  }

  lemma {:induction false} CarriedIff(actions: Bytes, list: Bytes, written: Bytes)
    requires written == [] ==> list == []
    ensures ((if written == [] then [] else Header(OFPIT_APPLY_ACTIONS, 8 + |list|) + Zeros(4) + list)
            == Carrying(actions))
       <==> list == actions && (actions == [] ==> written == [])
  {
    hide Header, Zeros;
    var x := Header(OFPIT_APPLY_ACTIONS, 8 + |list|) + Zeros(4) + list;
    assert x[8..] == list;
    if actions != [] {
      assert ApplyActions(actions).ToBytes() == Header(OFPIT_APPLY_ACTIONS, 8 + |actions|) + Zeros(4) + actions;
      assert ApplyActions(actions).ToBytes()[8..] == actions;
    }
  }

  /** The message is converted and carries exactly the actions that were sent. */
  ghost predicate ActionsArrive(m: Bytes, actions: Bytes, standard: Bytes, littleEndian: bool)
    requires |standard| == STANDARD_MATCH_SIZE
  {
    && Accepted(m, standard, littleEndian)
    && var r := Received(m, standard, littleEndian);
      |r| >= 52 && ReadBig16(r, 2) <= |r| && InstructionsOf(r) == Carrying(actions)
  }

  ghost predicate AllRestorable(actions: Bytes, c: Context) {
    && ValidActionRange(actions)
    && forall e :: e in Parse(ACTION, actions).value ==> Element(ACTION, e) && Restorable(e, c)
  }

  /** The whole way round. A builder sends actions on a version 1 channel; the receiver normalizes the
      message. It is accepted and its instructions are one APPLY_ACTIONS with exactly those actions if
      and only if every action is restorable and the wrapped list still fits a message. */
  lemma {:induction false} SendReceiveIff(actions: Bytes, xid: nat, fixed: Bytes, original: Bytes,
      standard: Bytes, littleEndian: bool)
    requires ValidActionRange(actions)
    requires |fixed| == 40 && |original| == 40 && IsStandard(standard)
    ensures ActionsArrive(SentV1(actions, xid, fixed, original), actions, standard, littleEndian)
       <==> 144 + |actions| <= 65535 && AllRestorable(actions, Context(1, standard[43] as int, littleEndian))
  {
    hide ActionsArrive, AllRestorable, SentV1;
    var c := Context(1, standard[43] as int, littleEndian);
    ArrivedAreRestorable(actions, xid, fixed, original, standard, littleEndian);
    if 144 + |actions| <= 65535 && AllRestorable(actions, c) {
      RestorableArrive(actions, xid, fixed, original, standard, littleEndian);
    }
  }

  predicate IsStandard(standard: Bytes) {
    |standard| == STANDARD_MATCH_SIZE && standard[..4] == Big16(OFPMT_STANDARD) + Big16(STANDARD_MATCH_SIZE)
  }

  /** What an accepted message says, and how long it is. */
  lemma {:induction false} AcceptedShape(m: Bytes, actions: Bytes, standard: Bytes, littleEndian: bool)
    requires IsStandard(standard) && |m| >= 72 && WellFormed(ACTION, m[72..])
    requires |Received(m, standard, littleEndian)| <= 65535
    ensures var r := Received(m, standard, littleEndian);
      var list := NormList(m[72..], Context(1, standard[43] as int, littleEndian));
      && |r| == (if |m| == 72 then 136 else 144 + |list|) && ReadBig16(r, 2) == |r|
      && (InstructionsOf(r) == Carrying(actions) <==> list == actions && (actions == [] ==> |m| == 72))
  {
    hide Received, NormList, Header, Extent, InstructionsOf, Carrying;
    var r, c := Received(m, standard, littleEndian), Context(1, standard[43] as int, littleEndian);
    var list := NormList(m[72..], c);
    ReceivedShape(m, standard, littleEndian);
    var instructions := if |m| == 72 then [] else Header(OFPIT_APPLY_ACTIONS, 8 + |list|) + Zeros(4) + list;
    StandardReadsBack(r, standard, instructions);
    assert |r[48..]| == 88 + |instructions|;
    if |m| == 72 {
      assert m[72..] == [];
      NormNothing(c);
    }
    CarriedIff(actions, list, m[72..]);
  }

  lemma {:induction false} ArrivedAreRestorable(actions: Bytes, xid: nat, fixed: Bytes, original: Bytes,
      standard: Bytes, littleEndian: bool)
    requires ValidActionRange(actions)
    requires |fixed| == 40 && |original| == 40 && IsStandard(standard)
    ensures ActionsArrive(SentV1(actions, xid, fixed, original), actions, standard, littleEndian) ==>
      144 + |actions| <= 65535 && AllRestorable(actions, Context(1, standard[43] as int, littleEndian))
  {
    hide Received, NormList, WriteAll, Restorable, ValidAction, Extent, SentV1, InstructionsOf, Carrying;
    var m, es, c := SentV1(actions, xid, fixed, original),
      Parse(ACTION, actions).value, Context(1, standard[43] as int, littleEndian);
    JoinParse(ACTION, actions);
    SentShape(actions, xid, fixed, original);
    if ActionsArrive(m, actions, standard, littleEndian) {
      AcceptedShape(m, actions, standard, littleEndian);
      RoundTripIff(es, c);
      if |m| == 72 {
        assert m[72..] == [];
        NormNothing(c);
      }
    }
  }

  lemma {:induction false} RestorableArrive(actions: Bytes, xid: nat, fixed: Bytes, original: Bytes,
      standard: Bytes, littleEndian: bool)
    requires ValidActionRange(actions)
    requires |fixed| == 40 && |original| == 40 && IsStandard(standard)
    requires 144 + |actions| <= 65535 && AllRestorable(actions, Context(1, standard[43] as int, littleEndian))
    ensures ActionsArrive(SentV1(actions, xid, fixed, original), actions, standard, littleEndian)
  {
    hide Received, NormList, WriteAll, Restorable, ValidAction, Extent, SentV1, InstructionsOf, Carrying, ExcessAll;
    hide PadLength, Parse, Join, Exact, SavingAll;
    var m, es, c := SentV1(actions, xid, fixed, original),
      Parse(ACTION, actions).value, Context(1, standard[43] as int, littleEndian);
    JoinParse(ACTION, actions);
    SentShape(actions, xid, fixed, original);
    RestorableAreAligned(es, c);
    WrittenIsValid(es);
    ValidIsWellFormed(m[72..]);
    PaddedLength(ACTION, m[72..]);
    SizeLaw(es);
    LengthWhenRestorable(actions, c, xid, fixed, original);
    RoundTripIff(es, c);
    assert actions == [] ==> WriteAll(es) == [] by { WriteNothing(); }
    ReceivedLength(m, standard, littleEndian);
    AcceptedShape(m, actions, standard, littleEndian);
  }

  lemma ReceivedLength(m: Bytes, standard: Bytes, littleEndian: bool)
    requires |m| >= 72 && |standard| == STANDARD_MATCH_SIZE && WellFormed(ACTION, m[72..])
    ensures |Received(m, standard, littleEndian)|
      == if |m| == 72 then 136 else 144 + |NormList(m[72..], Context(1, standard[43] as int, littleEndian))|
  {
    hide NormList;
  }

  lemma {:induction false} RestorableAreAligned(es: seq<Bytes>, c: Context)
    requires ValidActions(es) && forall e :: e in es ==> Element(ACTION, e) && Restorable(e, c)
    ensures AlignedActions(es)
  {
    hide Restorable, ValidAction, Extent;
    forall i | 0 <= i < |es| ensures (ActionShape(es[i]); Size(es[i]) % 8 == 0) {
      assert es[i] in es;
      RestorableIsFramed(es[i], c);
    }
  }

  /** What else an accepted message brings: the transaction id, the cookie, the table, command, timeouts,
      priority and buffer id and the flags as they were sent, the converted match, a full cookie mask, no
      group, and the port if and only if 16 bits tell it apart. */
  lemma {:induction false} FieldsArrive(actions: Bytes, xid: nat, fixed: Bytes, original: Bytes,
      standard: Bytes, littleEndian: bool)
    requires ValidActionRange(actions)
    requires |fixed| == 40 && |original| == 40 && IsStandard(standard)
    ensures var m := SentV1(actions, xid, fixed, original);
      Accepted(m, standard, littleEndian) ==>
        var r := Received(m, standard, littleEndian);
        && |r| >= 136 && r[0] == 1 && r[1] == 14 && ReadBig16(r, 2) == |r|
        && r[4..8] == m[4..8] && r[8..16] == fixed[0..8] && r[16..24] == AllOnesMask() && r[24..36] == fixed[16..28]
        && r[40..44] == Zeros(4) && r[44..46] == fixed[36..38] && r[46..48] == Zeros(2) && r[48..136] == standard
        && (r[36..40] == fixed[28..32] <==> ReadBig32(fixed, 28) <= 0xff00 || ReadBig32(fixed, 28) > 0xffff_ff00)
  {
    hide Received, NormList, Header, Extent, SentV1, Big32, ReadBig32, PortFromV1;
    var m := SentV1(actions, xid, fixed, original);
    SentShape(actions, xid, fixed, original);
    if Accepted(m, standard, littleEndian) {
      ReceivedShape(m, standard, littleEndian);
      PortArrivesIff(fixed, m);
    }
  }

  /** A builder sends on a version 1 channel and a receiver normalizes the bytes. A message too long for
      its length field is not delivered. It arrives with the actions of the first APPLY_ACTIONS if and
      only if they are all restorable and fit; any message that is not flagged brings its other fields. */
  method SendAndReceive(builder: FlowModBuilder, channel: MemoryChannel, original: Bytes,
      standard: Bytes, littleEndian: bool)
    returns (delivered: bool, r: Bytes, ghost actions: Bytes)
    requires builder.Valid() && ValidInstructions(builder.instructions) && channel.version == 1
    requires |original| == 40 && IsStandard(standard)
    modifies builder`fixed, channel`buf, channel`nextXid, channel`flushed
    ensures FirstApplied(Parse(INSTRUCTION, builder.instructions).value, actions)
    ensures builder.fixed == ClearTableId(old(builder.fixed))
    ensures old(channel.buf) <= channel.buf
    ensures var m := channel.buf[|old(channel.buf)|..];
      && |m| >= 72 && m[0] == 1 && m[1] == 14 && ReadBig32(m, 4) == old(channel.nextXid) % 0x1_0000_0000
      && m[8..48] == original
    ensures
      delivered && |r| >= 136 && r[0] == 1 && ReadBig16(r, 2) == |r| && InstructionsOf(r) == Carrying(actions)
      <==> 144 + |actions| <= 65535 && AllRestorable(actions, Context(1, standard[43] as int, littleEndian))
    ensures delivered && |r| > 0 && r[0] == 1 ==>
      && |r| >= 136 && ReadBig16(r, 2) == |r| && r[48..136] == standard
      && r[8..16] == builder.fixed[0..8] && r[24..36] == builder.fixed[16..28] && r[44..46] == builder.fixed[36..38]
      && (r[36..40] == builder.fixed[28..32] <==>
            ReadBig32(builder.fixed, 28) <= 0xff00 || ReadBig32(builder.fixed, 28) > 0xffff_ff00)
  {
    hide Received, AllRestorable, Carrying, InstructionsOf, ReadBig32, FirstApplied, ValidInstructions, Layout1;
    hide Convertible, ClearTableId, Announced, Written, ValidActionRange;
    var start := |channel.buf|;
    var xid;
    xid, actions := builder.SendOriginal(channel, original);
    var m := channel.buf[start..];
    assert m == SentV1(actions, xid, builder.fixed, original);
    SentShape(actions, xid, builder.fixed, original);
    SendReceiveIff(actions, xid, builder.fixed, original, standard, littleEndian);
    FieldsArrive(actions, xid, builder.fixed, original, standard, littleEndian);
    delivered, r := |m| <= 65535, [];
    if delivered {
      var buf := new ByteList(m);
      var n := new Normalize(buf, littleEndian);
      NormalizeMessage(n, standard);
      r := n.buf.data;
    } else {
      assert !Accepted(m, standard, littleEndian) by { ReadBelow(m); }
    }
  }

  lemma ReadBelow(m: Bytes)
    requires |m| >= 8
    ensures ReadBig16(m, 2) <= 65535
  {}

  lemma {:induction false} PortArrivesIff(fixed: Bytes, m: Bytes)
    requires |fixed| == 40 && |m| >= 72 && m[68..70] == fixed[30..32]
    ensures Big32(PortFromV1(ReadBig16(m, 68))) == fixed[28..32]
       <==> ReadBig32(fixed, 28) <= 0xff00 || ReadBig32(fixed, 28) > 0xffff_ff00
  {
    hide Big32;
    var port := ReadBig32(fixed, 28);
    assert m[68] == m[68..70][0] && m[69] == m[68..70][1];
    assert ReadBig16(m, 68) == port % 0x1_0000;
    PortReturnsIff(port);
    Big32Iff(fixed, 28, PortFromV1(port % 0x1_0000));
  }

  lemma NormNothing(c: Context)
    ensures WellFormed(ACTION, []) && NormList([], c) == []
  {}

  lemma WriteNothing()
    ensures WriteAll([]) == []
  {}

  lemma {:induction false} LengthWhenRestorable(actions: Bytes, c: Context, xid: nat, fixed: Bytes, original: Bytes)
    requires ValidActionRange(actions)
    requires |fixed| == 40 && |original| == 40 && 72 + Announced(actions, 1) < 0x1_0000
    requires forall e :: e in Parse(ACTION, actions).value ==> Element(ACTION, e) && Restorable(e, c)
    ensures var m := SentV1(actions, xid, fixed, original); |m| >= 72 && ReadBig16(m, 2) == |m|
  {
    hide Restorable, ValidAction, Exact, Extent, Layout1;
    var es := Parse(ACTION, actions).value;
    forall i | 0 <= i < |es|
      ensures Exact(es[i])
    {
      assert es[i] in es;
      RestorableIsExact(es[i], c);
    }
    Layout1LengthIff(actions, xid, fixed, original);
  }
}
