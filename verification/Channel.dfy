/** Byte buffers and the in-memory channel (include/ofp/bytelist.h, include/ofp/memorychannel.h,
    include/ofp/writable.h), and the splitter that logs every message of a buffer (src/ofp/log.cpp). */
module Channel {
  import opened Bytes
  import opened Framing

  /** A growable buffer; positions are offsets from its start. */
  class ByteList {
    var data: Bytes

    constructor (data: Bytes)
      ensures this.data == data
    {
      this.data := data;
    }

    /** Opens a gap whose contents are whatever the memory held. */
    method InsertUninitialized(pos: nat, length: nat)
      requires pos <= |data|
      modifies this
      ensures |data| == old(|data|) + length
      ensures data[..pos] == old(data[..pos]) && data[pos + length..] == old(data[pos..])
    {
      var junk: Bytes :| |junk| == length by { assert |Zeros(length)| == length; }
      data := data[..pos] + junk + data[pos..];
    }

    method Remove(pos: nat, length: nat)
      requires pos + length <= |data|
      modifies this
      ensures data == old(data[..pos] + data[pos + length..])
    {
      data := data[..pos] + data[pos + length..];
    }

    /** memcpy into the mutable data. */
    method Overwrite(pos: nat, b: Bytes)
      requires pos + |b| <= |data|
      modifies this
      ensures data == old(data[..pos] + b + data[pos + |b|..])
    {
      data := data[..pos] + b + data[pos + |b|..];
    }
  }

  /** An append-only sink with a version and a transaction counter that wraps at 32 bits. */
  class MemoryChannel {
    var version: nat
    var buf: Bytes
    var nextXid: nat
    var flushed: bool

    constructor (version: nat)
      ensures this.version == version && buf == [] && nextXid == 1 && !flushed
    {
      this.version := version;
      buf := [];
      nextXid := 1;
      flushed := false;
    }

    method Write(data: Bytes)
      modifies this`buf
      ensures buf == old(buf) + data
    {
      buf := buf + data;
    }

    method WritePadded(data: Bytes, padSize: nat)
      requires padSize < 8
      modifies this`buf
      ensures buf == old(buf) + data + Zeros(padSize)
    {
      Write(data);
      Write(Zeros(padSize));
    }

    method Flush()
      modifies this`flushed
      ensures flushed
    {
      flushed := true;
    }

    method NextXid() returns (xid: nat)
      modifies this`nextXid
      ensures xid == old(nextXid) && nextXid == (old(nextXid) + 1) % 0x1_0000_0000
    {
      xid := nextXid;
      nextXid := (nextXid + 1) % 0x1_0000_0000;
    }
  }

  /** The counter after `i` uses. */
  function XidAt(first: nat, i: nat): nat { (first + i) % 0x1_0000_0000 }

  lemma XidStep(first: nat, k: nat)
    requires first < 0x1_0000_0000
    ensures XidAt(first, 0) == first
    ensures (XidAt(first, k) + 1) % 0x1_0000_0000 == XidAt(first, k + 1)
  {}

  // ---- splitting a buffer into messages ----

  datatype Trace = Trace(messages: seq<Bytes>, leftover: Bytes)

  /** The length field of the header at the front of `data`. */
  function HeaderLength(data: Bytes): nat
    requires |data| >= 8
  {
    ReadBig16(data, 2)
  }

  /** No header that the splitter reaches has length zero; on one that does, it stays where it is and
      logs the same empty message for ever. */
  predicate Advances(data: Bytes)
    decreases |data|
  {
    |data| < 8 || HeaderLength(data) > |data| ||
    (HeaderLength(data) > 0 && Advances(data[HeaderLength(data)..]))
  }

  /** The messages logged, and what is reported as left over. */
  function Traced(data: Bytes): Trace
    requires Advances(data)
    decreases |data|
  {
    if |data| < 8 || HeaderLength(data) > |data| then Trace([], data)
    else
      var n := HeaderLength(data);
      var t := Traced(data[n..]);
      Trace([data[..n]] + t.messages, t.leftover)
  }

  // ---- when the splitter stops ----

  /** Where the loop stands. */
  datatype Cursor = Cursor(ptr: nat, remaining: nat)

  predicate InBuffer(data: Bytes, s: Cursor) { s.ptr + s.remaining == |data| }

  /** The loop's guard. */
  predicate Goes(data: Bytes, s: Cursor)
    requires InBuffer(data, s)
  {
    s.remaining >= 8 && HeaderLength(data[s.ptr..]) <= s.remaining
  }

  /** One turn of the loop; nothing happens once the guard is false. */
  function Turn(data: Bytes, s: Cursor): (r: Cursor)
    requires InBuffer(data, s)
    ensures InBuffer(data, r)
  {
    if !Goes(data, s) then s
    else
      var n := HeaderLength(data[s.ptr..]);
      Cursor(s.ptr + n, s.remaining - n)
  }

  function Turns(data: Bytes, s: Cursor, n: nat): (r: Cursor)
    requires InBuffer(data, s)
    ensures InBuffer(data, r)
    decreases n
  {
    if n == 0 then s else Turns(data, Turn(data, s), n - 1)
  }

  lemma {:induction false} TurnsSnoc(data: Bytes, s: Cursor, n: nat)
    requires InBuffer(data, s)
    ensures Turns(data, s, n + 1) == Turn(data, Turns(data, s, n))
    decreases n
  {
    hide Turn;
    if n > 0 { TurnsSnoc(data, Turn(data, s), n - 1); }
  }

  lemma {:induction false} TracedStep(data: Bytes, ptr: nat)
    requires ptr + 8 <= |data| && Advances(data[ptr..]) && ptr + HeaderLength(data[ptr..]) <= |data|
    ensures var next := ptr + HeaderLength(data[ptr..]);
      && ptr < next && Advances(data[next..])
      && Traced(data[ptr..]) == Trace([data[ptr..next]] + Traced(data[next..]).messages, Traced(data[next..]).leftover)
  {
    hide HeaderLength;
    var b, n := data[ptr..], HeaderLength(data[ptr..]);
    assert b[n..] == data[ptr + n..] && b[..n] == data[ptr..ptr + n];
  }

  lemma TracedEnd(data: Bytes)
    requires Advances(data) && (|data| < 8 || HeaderLength(data) > |data|)
    ensures Traced(data) == Trace([], data)
  {}

  /** The loop, turn by turn, until the guard is false. */
  method TraceMsg(data: Bytes) returns (messages: seq<Bytes>, leftover: Bytes)
    requires Advances(data)
    ensures Trace(messages, leftover) == Traced(data)
    ensures exists n :: StopsAt(data, n, leftover)
  {
    hide Turns, Traced, Advances, HeaderLength;
    assert data[0..] == data;
    messages := [];
    var remaining, ptr := |data|, 0;
    ghost var start, n: nat := Cursor(0, |data|), 0;
    assert Turns(data, start, 0) == start by { NoTurns(data, start); }
    while remaining >= 8 && HeaderLength(data[ptr..]) <= remaining
      invariant 0 <= remaining && ptr + remaining == |data| && Advances(data[ptr..])
      invariant Cursor(ptr, remaining) == Turns(data, start, n)
      invariant Traced(data) == Trace(messages + Traced(data[ptr..]).messages, Traced(data[ptr..]).leftover)
    {
      var length := HeaderLength(data[ptr..]);
      TracedStep(data, ptr);
      messages := messages + [data[ptr..ptr + length]];
      TurnsSnoc(data, start, n);
      remaining := remaining - length;
      ptr := ptr + length;
      n := n + 1;
    }
    leftover := data[ptr..];
    TracedEnd(leftover);
    assert StopsAt(data, n, leftover);
  }

  predicate StopsAt(data: Bytes, n: nat, leftover: Bytes) {
    var s := Turns(data, Cursor(0, |data|), n);
    !Goes(data, s) && leftover == data[s.ptr..]
  }

  lemma NoTurns(data: Bytes, s: Cursor)
    requires InBuffer(data, s)
    ensures Turns(data, s, 0) == s
  {}

  lemma {:induction false} AdvancesStops(data: Bytes, s: Cursor) returns (n: nat)
    requires InBuffer(data, s) && Advances(data[s.ptr..])
    ensures !Goes(data, Turns(data, s, n))
    decreases s.remaining
  {
    if Goes(data, s) {
      var k := HeaderLength(data[s.ptr..]);
      assert data[s.ptr..][k..] == data[s.ptr + k..];
      n := AdvancesStops(data, Turn(data, s));
      n := n + 1;
    } else {
      n := 0;
    }
  }

  lemma {:induction false} StoppedAdvances(data: Bytes, s: Cursor, n: nat)
    requires InBuffer(data, s) && !Goes(data, Turns(data, s, n))
    ensures Advances(data[s.ptr..])
    decreases n
  {
    if Goes(data, s) {
      var k := HeaderLength(data[s.ptr..]);
      assert data[s.ptr..][k..] == data[s.ptr + k..];
      StoppedAdvances(data, Turn(data, s), n - 1);
    }
  }

  /** The loop ends if and only if it never meets a header of length zero. */
  lemma {:induction false} StopsIff(data: Bytes)
    ensures (exists n :: !Goes(data, Turns(data, Cursor(0, |data|), n))) <==> Advances(data)
  {
    hide Turns, Goes, Advances;
    var start := Cursor(0, |data|);
    assert data[start.ptr..] == data;
    if n: nat :| !Goes(data, Turns(data, start, n)) { StoppedAdvances(data, start, n); }
    if Advances(data) { var n := AdvancesStops(data, start); }
  }

  /** On such a header the turn changes nothing, and the guard stays true. */
  lemma {:induction false} ZeroLengthStays(data: Bytes, s: Cursor, n: nat)
    requires InBuffer(data, s) && s.remaining >= 8 && HeaderLength(data[s.ptr..]) == 0
    ensures Turns(data, s, n) == s && Goes(data, s)
    decreases n
  {
    if n > 0 { ZeroLengthStays(data, s, n - 1); }
  }

  /** Eight zero bytes are logged for ever. */
  lemma {:induction false} ZerosNeverEnd(n: nat)
    ensures Turns(Zeros(8), Cursor(0, 8), n) == Cursor(0, 8) && Goes(Zeros(8), Cursor(0, 8)) && !Advances(Zeros(8))
  {
    var data := Zeros(8);
    assert data[0..] == data && HeaderLength(data) == 0;
    ZeroLengthStays(data, Cursor(0, 8), n);
  }

  /** A buffer of complete messages is split exactly at their boundaries, with nothing left over. */
  lemma {:induction false} TraceSplits(es: seq<Bytes>)
    requires Elements(Message, es)
    ensures Advances(Join(es)) && Traced(Join(es)) == Trace(es, [])
  {
    if es != [] {
      TraceSplits(es[1..]);
      ExtentPrefix(Message, es[0], Join(es[1..]));
      assert [es[0]] + es[1..] == es;
    }
  }

  /** What the splitter logs from messages that were appended one by one are these messages, with nothing
      left over, if and only if each of them is as long as its header says. */
  lemma {:induction false} RunSplitsIff(messages: seq<Bytes>)
    requires forall i :: 0 <= i < |messages| ==> |messages[i]| >= 8
    ensures (Advances(Join(messages)) && Traced(Join(messages)) == Trace(messages, []))
       <==> forall i :: 0 <= i < |messages| ==> HeaderLength(messages[i]) == |messages[i]|
    ensures Elements(Message, messages)
     <==> forall i :: 0 <= i < |messages| ==> HeaderLength(messages[i]) == |messages[i]|
  {
    if forall i :: 0 <= i < |messages| ==> HeaderLength(messages[i]) == |messages[i]| {
      TraceSplits(messages);
    } else if messages != [] {
      var m, rest := messages[0], messages[1..];
      assert HeaderLength(m + Join(rest)) == HeaderLength(m);
      if HeaderLength(m) == |m| {
        RunSplitsIff(rest);
        assert (m + Join(rest))[|m|..] == Join(rest);
      }
    }
  }

  method WriteMessages(channel: MemoryChannel, messages: seq<Bytes>)
    modifies channel`buf
    ensures channel.buf == old(channel.buf) + Join(messages)
  {
    for i := 0 to |messages|
      invariant channel.buf == old(channel.buf) + Join(messages[..i])
    {
      channel.Write(messages[i]);
      JoinSnoc(messages[..i], messages[i]);
      assert messages[..i] + [messages[i]] == messages[..i + 1];
    }
    assert messages[..|messages|] == messages;
  }
}
