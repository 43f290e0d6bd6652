/** Builders that translate fields of their own message for each send and restore them afterwards
    (src/ofp/error.cpp, include/ofp/headeronly.h, Header::translateType in src/ofp/header.cpp). */
module Builders {
  import opened Bytes
  import opened Options
  import opened Framing
  import opened Channel
  import opened Sections

  const OFPT_ERROR := 1
  const OFPT_UNSUPPORTED := 0xf9

  // ---- ErrorBuilder ----

  /** OFPErrorTypeToValue and OFPErrorCodeToValue: the wire type and code for a version. */
  type ErrorTables = (nat, nat, nat) -> (nat, nat)

  /** The message that a builder which has never been used sends on a channel of this version. */
  function ErrorMessage(tables: ErrorTables, channelVersion: nat, xid: nat, errType: nat, code: nat, data: Bytes): Bytes
    requires channelVersion < 256
  {
    var version := if channelVersion == 0 then 1 else channelVersion;
    var wire := tables(version, errType, code);
    MessageHeader(version, OFPT_ERROR, 12 + |data|, xid) + Big16(wire.0) + Big16(wire.1) + data
  }

  /** The type and the code of the version, in this order, and the data behind them. */
  lemma {:induction false} ErrorReadsBack(tables: ErrorTables, version: nat, xid: nat, errType: nat, code: nat,
      data: Bytes)
    requires 1 <= version < 256 && 12 + |data| < 0x1_0000
    ensures var m := ErrorMessage(tables, version, xid, errType, code, data);
      && |m| == 12 + |data| && m[0] as int == version && m[1] == 1 && ReadBig16(m, 2) == |m|
      && ReadBig32(m, 4) == xid % 0x1_0000_0000
      && ReadBig16(m, 8) == tables(version, errType, code).0 % 0x1_0000
      && ReadBig16(m, 10) == tables(version, errType, code).1 % 0x1_0000 && m[12..] == data
      && (version == 1 ==> m == ErrorMessage(tables, 0, xid, errType, code, data))
  {
    hide MessageHeader, Big16;
    var m, wire := ErrorMessage(tables, version, xid, errType, code, data), tables(version, errType, code);
    var rest := Big16(wire.0) + Big16(wire.1) + data;
    assert m == MessageHeader(version, OFPT_ERROR, 12 + |data|, xid) + rest;
    MessageHeaderFields(version, OFPT_ERROR, 12 + |data|, xid, rest);
    Big16RoundTrip(wire.0, m, 8);
    Big16RoundTrip(wire.1, m, 10);
  }

  /** What fresh builders send on channels of these versions. */
  function ErrorMessages(tables: ErrorTables, versions: seq<nat>, xid: nat, errType: nat,
      code: nat, data: Bytes): (r: seq<Bytes>)
    requires forall i :: 0 <= i < |versions| ==> versions[i] < 256
    ensures |r| == |versions|
    ensures forall i :: 0 <= i < |versions| ==> r[i] == ErrorMessage(tables, versions[i], xid, errType, code, data)
  {
    seq(|versions|, i requires 0 <= i < |versions| => ErrorMessage(tables, versions[i], xid, errType, code, data))
  }

  class ErrorBuilder {
    const tables: ErrorTables
    const xid: nat
    var version: nat
    var length: nat
    var errType: nat
    var code: nat
    var data: Bytes

    constructor (tables: ErrorTables, xid: nat, errType: nat, code: nat, data: Bytes)
      ensures this.tables == tables && this.xid == xid
      ensures this.errType == errType && this.code == code && this.data == data
    {
      this.tables := tables;
      this.xid := xid;
      this.errType := errType;
      this.code := code;
      this.data := data;
      version := 0;
      length := 0;
    }

    method Send(channel: MemoryChannel)
      requires channel.version < 256
      modifies this, channel`buf, channel`flushed
      ensures channel.buf == old(channel.buf) +
        ErrorMessage(tables, channel.version, xid, old(errType), old(code), old(data))
      ensures errType == old(errType) && code == old(code) && data == old(data)
    {
      var msgLen := 12 + |data|;
      version := channel.version;
      if version == 0 {
        version := 1;
      }
      length := msgLen;
      var savedCode := code;
      var savedType := errType;
      var wire := tables(version, savedType, savedCode);
      code := wire.1;
      errType := wire.0;
      channel.Write(MessageHeader(version, OFPT_ERROR, length, xid) + Big16(errType) + Big16(code));
      channel.Write(data);
      channel.Flush();
      code := savedCode;
      errType := savedType;
    }

    /** Over any run of sends, on channels of any versions and with no other use of the builder in
        between, every message is the one that a fresh builder sends. */
    method SendRun(channel: MemoryChannel, versions: seq<nat>)
      requires forall i :: 0 <= i < |versions| ==> versions[i] < 256
      modifies this, channel
      ensures channel.buf == old(channel.buf) +
        Join(ErrorMessages(tables, versions, xid, old(errType), old(code), old(data)))
      ensures errType == old(errType) && code == old(code) && data == old(data)
    {
      hide ErrorMessage;
      ghost var all := ErrorMessages(tables, versions, xid, errType, code, data);
      for k := 0 to |versions|
        invariant errType == old(errType) && code == old(code) && data == old(data)
        invariant channel.buf == old(channel.buf) + Join(all[..k])
      {
        channel.version := versions[k];
        Send(channel);
        assert all[..k + 1] == all[..k] + [all[k]];
        JoinSnoc(all[..k], all[k]);
      }
      assert all[..|versions|] == all;
    }
  }

  // ---- HeaderOnlyBuilder ----

  /** The last message type of a version. */
  function MaxType(version: nat): nat {
    match version
    case 0 => 0
    case 1 => 21
    case 2 => 23
    case 3 => 25
    case _ => 34
  }

  /** Header::translateType from the internal numbering to that of a version. */
  function TranslateType(msgType: nat, version: nat): nat {
    if version >= 4 || msgType <= 14 then msgType
    else if version == 1 && (msgType == 15 || msgType == 17) then OFPT_UNSUPPORTED
    else
      var t := if version != 1 then msgType else if msgType == 16 then 15 else msgType - 2;
      if t > MaxType(version) then OFPT_UNSUPPORTED else t
  }

  /** Types are never confused: two messages that a version supports keep distinct types. */
  lemma TranslateTypeInjective(a: nat, b: nat, version: nat)
    requires a < OFPT_UNSUPPORTED && b < OFPT_UNSUPPORTED
    requires TranslateType(a, version) == TranslateType(b, version) != OFPT_UNSUPPORTED
    ensures a == b
  {}

  /** translateTypeFromVersion, the other way. */
  function TypeFromVersion(t: nat, version: nat): nat {
    if version >= 4 || t <= 14 then t
    else if t > MaxType(version) then OFPT_UNSUPPORTED
    else if version == 1 then if t == 15 then 16 else t + 2
    else t
  }

  /** A type that a version supports comes back, and every type of the version is reached. */
  lemma TypesReturn(t: nat, version: nat)
    ensures TranslateType(t, version) != 0xf9 ==> TypeFromVersion(TranslateType(t, version), version) == t
    ensures TypeFromVersion(t, version) != 0xf9 ==> TranslateType(TypeFromVersion(t, version), version) == t
  {}

  /** The types behind FLOW_MOD: GROUP_MOD, PORT_MOD, TABLE_MOD, MULTIPART, BARRIER, the queue messages and
      those that later versions added. */
  lemma TranslatedTypes(t: nat, version: nat)
    ensures t <= 14 || version >= 4 ==> TranslateType(t, version) == t
    ensures TranslateType(15, 1) == TranslateType(17, 1) == 0xf9 && TranslateType(16, 1) == 15
    ensures 18 <= t <= 23 ==> TranslateType(t, 1) == t - 2
    ensures t >= 24 ==> TranslateType(t, 1) == 0xf9
    ensures t > 14 ==> TranslateType(t, 2) == (if t <= 23 then t else 0xf9)
    ensures t > 14 ==> TranslateType(t, 3) == (if t <= 25 then t else 0xf9) && TranslateType(t, 0) == 0xf9
  {}

  /** A supported message is one header of eight bytes. */
  lemma {:induction false} HeaderOnlyReadsBack(msgType: nat, version: nat, xid: nat)
    requires msgType < 256 && version < 256
    ensures var m, t := HeaderOnlyMessage(msgType, version, xid), TranslateType(msgType, version);
      && (t == 0xf9 ==> m == [])
      && (t != 0xf9 ==> |m| == 8 && m[0] as int == version && m[1] as int == t)
      && (t != 0xf9 ==> ReadBig16(m, 2) == 8 && ReadBig32(m, 4) == xid % 0x1_0000_0000)
  {
    hide MessageHeader;
    var m, t := HeaderOnlyMessage(msgType, version, xid), TranslateType(msgType, version);
    if t != OFPT_UNSUPPORTED {
      assert m == MessageHeader(version, t, 8, xid) + [];
      MessageHeaderFields(version, t, 8, xid, []);
    }
  }

  /** What a fresh builder sends: nothing when the version does not support the message. */
  function HeaderOnlyMessage(msgType: nat, version: nat, xid: nat): Bytes
    requires msgType < 256 && version < 256
  {
    var t := TranslateType(msgType, version);
    if t != OFPT_UNSUPPORTED then MessageHeader(version, t, 8, xid) else []
  }

  /** The transaction id of message `i`: a reply keeps that of its request, requests count on. */
  function XidOf(reply: Option<nat>, first: nat, i: nat): nat {
    match reply
    case Some(xid) => xid
    case None => XidAt(first, i)
  }

  lemma XidCases(xid: nat, first: nat, k: nat)
    ensures XidOf(Some(xid), first, k) == xid && XidOf(None, first, k) == XidAt(first, k)
  {}

  /** What fresh builders send on channels of these versions. */
  function HeaderOnlyMessages(msgType: nat, versions: seq<nat>, reply: Option<nat>, first: nat): (r: seq<Bytes>)
    requires msgType < 256 && forall i :: 0 <= i < |versions| ==> versions[i] < 256
    ensures |r| == |versions|
    ensures forall i :: 0 <= i < |versions| ==> r[i] == HeaderOnlyMessage(msgType, versions[i], XidOf(reply, first, i))
  {
    seq(|versions|, i requires 0 <= i < |versions| => HeaderOnlyMessage(msgType, versions[i], XidOf(reply, first, i)))
  }

  class HeaderOnlyBuilder {
    const isReply: bool
    var msgType: nat
    var version: nat
    var length: nat
    var xid: nat

    constructor (msgType: nat, request: Option<nat>)
      ensures this.msgType == msgType && isReply == request.Some? && (request.Some? ==> xid == request.value)
    {
      this.msgType := msgType;
      this.isReply := request.Some?;
      this.xid := match request { case None => 0 case Some(x) => x };
      version := 0;
      length := 0;
    }

    method Send(channel: MemoryChannel) returns (sent: nat)
      requires channel.version < 256 && msgType < 256
      modifies this, channel`buf, channel`nextXid, channel`flushed
      ensures msgType == old(msgType)
      ensures isReply ==> sent == xid == old(xid) && channel.nextXid == old(channel.nextXid)
      ensures !isReply ==> sent == old(channel.nextXid) && channel.nextXid == (old(channel.nextXid) + 1) % 0x1_0000_0000
      ensures channel.buf == old(channel.buf) + HeaderOnlyMessage(old(msgType), channel.version, sent)
    {
      if isReply {
        sent := xid;
      } else {
        sent := channel.NextXid();
      }
      var origType := msgType;
      var newType := TranslateType(origType, channel.version);
      if newType != OFPT_UNSUPPORTED {
        msgType := newType;
        version := channel.version;
        length := 8;
        if !isReply {
          xid := sent;
        }
        channel.Write(MessageHeader(version, msgType, length, xid));
        channel.Flush();
        msgType := origType;
      }
    }

    /** The request's transaction id, for a reply. */
    function Reply(): Option<nat>
      reads this
    {
      if isReply then Some(xid) else None
    }

    /** Over any run of sends, message `i` is what a fresh builder sends for its version; unsupported
        versions use up a transaction id and send nothing. */
    method SendRun(channel: MemoryChannel, versions: seq<nat>)
      requires msgType < 256 && forall i :: 0 <= i < |versions| ==> versions[i] < 256
      requires channel.nextXid < 0x1_0000_0000
      modifies this, channel
      ensures msgType == old(msgType) && Reply() == old(Reply())
      ensures channel.buf == old(channel.buf) +
        Join(HeaderOnlyMessages(msgType, versions, Reply(), old(channel.nextXid)))
    {
      hide HeaderOnlyMessage, XidOf, XidAt;
      ghost var first, t, reply := channel.nextXid, msgType, Reply();
      ghost var all := HeaderOnlyMessages(t, versions, reply, first);
      XidStep(first, 0);
      for k := 0 to |versions|
        invariant msgType == t && Reply() == reply
        invariant if isReply then reply == Some(xid) else reply == None && channel.nextXid == XidAt(first, k)
        invariant channel.buf == old(channel.buf) + Join(all[..k])
      {
        channel.version := versions[k];
        var sent := Send(channel);
        assert sent == XidOf(reply, first, k) by { XidCases(xid, first, k); }
        XidStep(first, k);
        assert all[..k + 1] == all[..k] + [all[k]];
        JoinSnoc(all[..k], all[k]);
      }
      assert all[..|versions|] == all;
    }
  }
}
