/** The BundleAddMessage message: a whole message and a property list inside another message
    (include/ofp/bundleaddmessage.h, src/ofp/bundleaddmessage.cpp). */
module Bundle {
  import opened Bytes
  import opened Framing
  import opened Channel
  import opened Sections
  import opened Properties

  const OFPT_BUNDLE_ADD_MESSAGE := 34

  // ---- reading ----

  function InnerLength(m: Bytes): nat
    requires |m| >= 24
  {
    ReadBig16(m, 18)
  }

  function MessageOf(m: Bytes): Bytes
    requires |m| >= 24 && 16 + InnerLength(m) <= |m|
  {
    m[16..16 + InnerLength(m)]
  }

  function PropertiesOf(m: Bytes): Bytes
    requires |m| >= 24 && ReadBig16(m, 2) == |m|
  {
    SafeByteRange(m, |m|, 16 + PadLength(InnerLength(m)))
  }

  /** BundleAddMessage::validateInput on a message that is as long as its header says. */
  predicate ValidBundleAdd(m: Bytes) {
    && |m| >= 24 && ReadBig16(m, 2) == |m|
    && InnerLength(m) >= 8 && 16 + InnerLength(m) <= |m|
    && WellFormed(PROPERTY, PropertiesOf(m))
  }

  /** In a valid message whose length is a multiple of eight, the padded inner message never reaches
      past the end, so that inner message, padding and properties make up all of it. */
  lemma OffsetWithin(m: Bytes)
    requires ValidBundleAdd(m) && |m| % 8 == 0
    ensures 16 + PadLength(InnerLength(m)) <= |m|
    ensures m == m[..16] + MessageOf(m) + m[16 + InnerLength(m)..16 + PadLength(InnerLength(m))] + PropertiesOf(m)
  {}

  // ---- building ----

  function LayoutBundle(version: nat, xid: nat, fixed: Bytes, inner: Bytes, properties: Bytes): Bytes
    requires version < 256
  {
    MessageHeader(version, OFPT_BUNDLE_ADD_MESSAGE, 16 + PadLength(|inner|) + |properties|, xid)
    + fixed + inner + Zeros(PadLength(|inner|) - |inner|) + properties
  }

  class BundleAddMessageBuilder {
    var fixed: Bytes // bundle id, padding and flags: bytes 8 to 16
    var inner: Bytes
    var properties: Bytes

    constructor (fixed: Bytes, inner: Bytes, properties: Bytes)
      ensures this.fixed == fixed && this.inner == inner && this.properties == properties
    {
      this.fixed := fixed;
      this.inner := inner;
      this.properties := properties;
    }

    method Send(channel: MemoryChannel) returns (xid: nat)
      requires channel.version < 256 && |fixed| == 8
      modifies channel`buf, channel`nextXid, channel`flushed
      ensures xid == old(channel.nextXid)
      ensures channel.buf == old(channel.buf) + LayoutBundle(channel.version, xid, fixed, inner, properties)
    {
      hide MessageHeader, Zeros;
      xid := channel.NextXid();
      var paddedMessageLen := PadLength(|inner|);
      var msgLen := 16 + paddedMessageLen + |properties|;
      channel.Write(MessageHeader(channel.version, OFPT_BUNDLE_ADD_MESSAGE, msgLen, xid) + fixed);
      channel.WritePadded(inner, paddedMessageLen - |inner|);
      channel.Write(properties);
      channel.Flush();
    }
  }

  /** The header announces exactly the bytes written and the accessors return the message and the
      properties that went in. */
  lemma {:induction false} BundleReadsBack(version: nat, xid: nat, fixed: Bytes, inner: Bytes, properties: Bytes)
    requires version < 256 && |fixed| == 8 && Element(Message, inner)
    requires 16 + PadLength(|inner|) + |properties| < 0x1_0000
    ensures var m := LayoutBundle(version, xid, fixed, inner, properties);
      && |m| >= 24 && ReadBig16(m, 2) == |m| && m[8..16] == fixed
      && m[0] as int == version && m[1] == 34 && ReadBig32(m, 4) == xid % 0x1_0000_0000
      && InnerLength(m) == |inner| && MessageOf(m) == inner && PropertiesOf(m) == properties
      && (ValidBundleAdd(m) <==> WellFormed(PROPERTY, properties))
  {
    hide MessageHeader, Zeros, Parse;
    var m := LayoutBundle(version, xid, fixed, inner, properties);
    var length := 16 + PadLength(|inner|) + |properties|;
    var rest := fixed + inner + Zeros(PadLength(|inner|) - |inner|) + properties;
    assert m == MessageHeader(version, OFPT_BUNDLE_ADD_MESSAGE, length, xid) + rest;
    MessageHeaderFields(version, OFPT_BUNDLE_ADD_MESSAGE, length, xid, rest);
    assert m[16..16 + |inner|] == inner;
    assert ReadBig16(m, 18) == ReadBig16(m[16..16 + |inner|], 2);
    assert m[16 + PadLength(|inner|)..|m|] == properties;
  }
}
