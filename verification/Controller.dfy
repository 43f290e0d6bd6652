/** The learning switch, twice: one controller object per switch (example/controller/simplecontroller.cpp)
    and one script for all switches (example/python/controller.py). Messages sent back to the switch
    are reduced to the decision they carry. */
module Controller {
  import opened Bytes

  datatype PacketIn = PacketIn(inPort: nat, frame: Bytes)
  {
    predicate Complete() { |frame| >= 14 }

    function Dst(): (addr: Bytes)
      requires Complete()
      ensures |addr| == 6
    {
      frame[..6]
    }

    function Src(): (addr: Bytes)
      requires Complete()
      ensures |addr| == 6
    {
      frame[6..12]
    }
  }

  datatype Decision = Ignored | Raised | Flooded | Dropped | Forwarded(outPort: nat)

  predicate IsMulticast(addr: Bytes)
    requires |addr| == 6
  {
    addr[0] % 2 == 1
  }

  // ---- what the table means ----

  /** A frame with a whole Ethernet header that comes from this unicast address. */
  predicate Teaches(p: PacketIn, addr: Bytes) {
    |p.frame| >= 14 && p.frame[6..12] == addr && p.frame[6] % 2 == 0
  }

  predicate Unheard(h: seq<PacketIn>, addr: Bytes) { forall j :: 0 <= j < |h| ==> !Teaches(h[j], addr) }

  /** The i-th packet is the last one a unicast source sent. */
  predicate IsLatest(h: seq<PacketIn>, addr: Bytes, i: int) {
    && 0 <= i < |h|
    && Teaches(h[i], addr)
    && forall j :: i < j < |h| ==> !Teaches(h[j], addr)
  }

  /** The table is "latest port per unicast source" of the packets seen. */
  ghost predicate Learned(table: map<Bytes, nat>, h: seq<PacketIn>) {
    && (forall addr :: addr in table <==> !Unheard(h, addr))
    && (forall addr, i :: IsLatest(h, addr, i) && addr in table ==> table[addr] == h[i].inPort)
  }

  function Toward(outPort: nat, inPort: nat): Decision {
    if outPort == inPort then Dropped else Forwarded(outPort)
  }

  /** The decision due for the last packet of a history. */
  ghost predicate Right(d: Decision, h: seq<PacketIn>)
    requires h != []
  {
    var p := h[|h| - 1];
    if |p.frame| < 14 then d == Ignored
    else if p.frame[0] % 2 == 1 || Unheard(h, p.frame[..6]) then d == Flooded
    else exists i :: IsLatest(h, p.frame[..6], i) && d == Toward(h[i].inPort, p.inPort)
  }

  // ---- one switch ----

  function Learn(table: map<Bytes, nat>, p: PacketIn): map<Bytes, nat> {
    if p.Complete() && !IsMulticast(p.Src()) then table[p.Src() := p.inPort] else table
  }

  function Decide(table: map<Bytes, nat>, p: PacketIn): Decision {
    if !p.Complete() then Ignored
    else if IsMulticast(p.Dst()) || p.Dst() !in table then Flooded
    else if table[p.Dst()] == p.inPort then Dropped
    else Forwarded(table[p.Dst()])
  }

  function TableAfter(h: seq<PacketIn>): map<Bytes, nat> {
    if h == [] then map[] else Learn(TableAfter(h[..|h| - 1]), h[|h| - 1])
  }

  function Outcome(h: seq<PacketIn>): Decision
    requires h != []
  {
    Decide(TableAfter(h), h[|h| - 1])
  }

  class SimpleController {
    var fwdTable: map<Bytes, nat>

    constructor ()
      ensures fwdTable == map[]
    {
      fwdTable := map[];
    }

    method LookupPort(addr: Bytes) returns (found: bool, port: nat)
      ensures found <==> addr in fwdTable
      ensures found ==> port == fwdTable[addr]
    {
      if addr in fwdTable { return true, fwdTable[addr]; }
      return false, 0;
    }

    method OnPacketIn(msg: PacketIn) returns (d: Decision)
      modifies this
      ensures fwdTable == Learn(old(fwdTable), msg)
      ensures d == Decide(fwdTable, msg)
    {
      if !msg.Complete() { return Ignored; }
      var inPort := msg.inPort;
      if !IsMulticast(msg.Src()) {
        fwdTable := fwdTable[msg.Src() := inPort];
      }
      if IsMulticast(msg.Dst()) { return Flooded; }
      var found, outPort := LookupPort(msg.Dst());
      if !found {
        d := Flooded;
      } else if outPort == inPort {
        d := Dropped;
      } else {
        d := Forwarded(outPort);
      }
    }

    /** Any run of packet-ins on a new controller. */
    method OnPacketIns(msgs: seq<PacketIn>) returns (ds: seq<Decision>)
      requires fwdTable == map[]
      modifies this
      ensures Learned(fwdTable, msgs)
      ensures |ds| == |msgs| && forall i :: 0 <= i < |msgs| ==> Right(ds[i], msgs[..i + 1])
    {
      ds := [];
      while |ds| < |msgs|
        invariant |ds| <= |msgs|
        invariant fwdTable == TableAfter(msgs[..|ds|])
        invariant forall i :: 0 <= i < |ds| ==> Right(ds[i], msgs[..i + 1])
      {
        ghost var h := msgs[..|ds| + 1];
        assert h[..|h| - 1] == msgs[..|ds|];
        var d := OnPacketIn(msgs[|ds|]);
        OutcomeIsRight(h);
        ds := ds + [d];
      }
      assert msgs[..|ds|] == msgs;
      TableIsLearned(msgs);
    }
  }

  lemma LearnStep(table: map<Bytes, nat>, h: seq<PacketIn>, p: PacketIn)
    requires Learned(table, h)
    ensures Learned(Learn(table, p), h + [p])
  {
    var t, g := Learn(table, p), h + [p];
    assert g[|h|] == p;
    forall addr ensures addr in t <==> !Unheard(g, addr) {
      if Unheard(h, addr) {
        assert Unheard(g, addr) <==> !Teaches(p, addr);
      } else {
        var j :| 0 <= j < |h| && Teaches(h[j], addr);
        assert Teaches(g[j], addr);
      }
    }
    forall addr, i | IsLatest(g, addr, i) && addr in t ensures t[addr] == g[i].inPort {
      if Teaches(p, addr) {
        assert i == |h|;
      } else {
        assert i < |h| && IsLatest(h, addr, i) by {
          assert forall j :: i < j < |h| ==> g[j] == h[j];
        }
      }
    }
  }

  lemma {:induction false} TableIsLearned(h: seq<PacketIn>)
    ensures Learned(TableAfter(h), h)
  {
    if h != [] {
      var g := h[..|h| - 1];
      TableIsLearned(g);
      LearnStep(TableAfter(g), g, h[|h| - 1]);
      assert h == g + [h[|h| - 1]];
    }
  }

  lemma {:induction false} LatestExists(h: seq<PacketIn>, addr: Bytes)
    requires !Unheard(h, addr)
    ensures exists i :: IsLatest(h, addr, i)
  {
    var g, n := h[..|h| - 1], |h| - 1;
    if Teaches(h[n], addr) {
      assert IsLatest(h, addr, n);
    } else {
      var j :| 0 <= j < |h| && Teaches(h[j], addr);
      assert g[j] == h[j];
      LatestExists(g, addr);
      var i :| IsLatest(g, addr, i);
      assert forall k :: i < k < n ==> g[k] == h[k];
      assert IsLatest(h, addr, i);
    }
  }

  /** Over any run: flood, drop or forward according to the latest port of the destination. */
  lemma {:induction false} OutcomeIsRight(h: seq<PacketIn>)
    requires h != []
    ensures Right(Outcome(h), h)
  {
    hide TableAfter, Unheard;
    TableIsLearned(h);
    var p := h[|h| - 1];
    if p.Complete() && !IsMulticast(p.Dst()) && !Unheard(h, p.Dst()) {
      LatestExists(h, p.Dst());
      var i :| IsLatest(h, p.Dst(), i);
      assert TableAfter(h)[p.Dst()] == h[i].inPort;
    }
  }

  /** A flow is never pointed back at the port its packet came from, and goes to a port on which
      its destination was the last to speak. */
  lemma {:induction false} FlowsLeadAway(h: seq<PacketIn>, outPort: nat)
    requires h != [] && Outcome(h) == Forwarded(outPort)
    ensures outPort != h[|h| - 1].inPort
    ensures |h[|h| - 1].frame| >= 14
    ensures exists i :: IsLatest(h, h[|h| - 1].frame[..6], i) && h[i].inPort == outPort
  {
    OutcomeIsRight(h);
  }

  // ---- the script for all switches ----

  /** A packet-in of some switch. */
  datatype Event = Event(datapath: string, packet: PacketIn)

  function HexDigit(n: nat): (c: char)
    requires n < 16
    ensures (c in "13579BDF") == (n % 2 == 1)
  {
    "0123456789ABCDEF"[n]
  }

  /** RawDataToHex: upper case, two digits a byte. */
  function Hex(s: Bytes): (t: string)
    ensures |t| == 2 * |s|
  {
    if s == [] then "" else [HexDigit(s[0] as int / 16), HexDigit(s[0] as int % 16)] + Hex(s[1..])
  }

  /** Python's s[lo:hi], which clips. */
  function Slice(s: string, lo: nat, hi: nat): string
    requires lo <= hi
  {
    if |s| <= lo then "" else if |s| <= hi then s[lo..] else s[lo..hi]
  }

  predicate IsMulticastText(addr: string)
    requires |addr| >= 2
  {
    addr[1] in "13579BDF"
  }

  function ScriptLearn(table: map<string, nat>, datapath: string, inPort: nat, data: string): map<string, nat> {
    var src := Slice(data, 12, 24);
    if |src| >= 2 && !IsMulticastText(src) then table[datapath + src := inPort] else table
  }

  function ScriptDecide(table: map<string, nat>, datapath: string, inPort: nat, data: string): Decision {
    var key := datapath + Slice(data, 0, 12);
    if |data| < 14 then Raised
    else if IsMulticastText(Slice(data, 0, 12)) || key !in table then Flooded
    else if table[key] == inPort then Dropped
    else Forwarded(table[key])
  }

  class Script {
    var forwardTable: map<string, nat>

    constructor ()
      ensures forwardTable == map[]
    {
      forwardTable := map[];
    }

    /** handlePacketIn; indexing an address of fewer than two digits raises an exception. */
    method HandlePacketIn(datapath: string, inPort: nat, data: string) returns (d: Decision)
      modifies this
      ensures forwardTable == ScriptLearn(old(forwardTable), datapath, inPort, data)
      ensures d == ScriptDecide(forwardTable, datapath, inPort, data)
    {
      var ethDest := Slice(data, 0, 12);
      var ethSource := Slice(data, 12, 24);
      if |ethSource| < 2 { return Raised; }
      if !IsMulticastText(ethSource) {
        forwardTable := forwardTable[datapath + ethSource := inPort];
      }
      if IsMulticastText(ethDest) {
        d := Flooded;
      } else {
        var key := datapath + ethDest;
        if key in forwardTable {
          var outPort := forwardTable[key];
          d := if outPort == inPort then Dropped else Forwarded(outPort);
        } else {
          d := Flooded;
        }
      }
    }
  }

  function ScriptTable(h: seq<Event>): map<string, nat> {
    if h == [] then map[]
    else
      var e := h[|h| - 1];
      ScriptLearn(ScriptTable(h[..|h| - 1]), e.datapath, e.packet.inPort, Hex(e.packet.frame))
  }

  function ScriptOutcome(h: seq<Event>): Decision
    requires h != []
  {
    var e := h[|h| - 1];
    ScriptDecide(ScriptTable(h), e.datapath, e.packet.inPort, Hex(e.packet.frame))
  }

  /** What one switch sent. */
  function Of(datapath: string, h: seq<Event>): (r: seq<PacketIn>)
    ensures h != [] && h[|h| - 1].datapath == datapath ==> r != [] && r[|r| - 1] == h[|h| - 1].packet
  {
    if h == [] then []
    else
      var e := h[|h| - 1];
      Of(datapath, h[..|h| - 1]) + (if e.datapath == datapath then [e.packet] else [])
  }

  lemma {:induction false} HexSplit(s: Bytes, t: Bytes)
    ensures Hex(s + t) == Hex(s) + Hex(t)
  {
    if s == [] {
      assert s + t == t;
    } else {
      assert (s + t)[1..] == s[1..] + t;
      HexSplit(s[1..], t);
    }
  }

  lemma {:induction false} HexInjective(s: Bytes, t: Bytes)
    requires Hex(s) == Hex(t)
    ensures s == t
  {
    if s != [] {
      var a, b := Hex(s), Hex(t);
      assert a[0] == HexDigit(s[0] as int / 16) && a[1] == HexDigit(s[0] as int % 16);
      assert b[0] == HexDigit(t[0] as int / 16) && b[1] == HexDigit(t[0] as int % 16);
      DigitInjective(s[0] as int / 16, t[0] as int / 16);
      DigitInjective(s[0] as int % 16, t[0] as int % 16);
      assert s[0] == t[0];
      assert a[2..] == Hex(s[1..]) && b[2..] == Hex(t[1..]);
      HexInjective(s[1..], t[1..]);
      assert s == [s[0]] + s[1..] && t == [t[0]] + t[1..];
    }
  }

  lemma DigitInjective(m: nat, n: nat)
    requires m < 16 && n < 16 && HexDigit(m) == HexDigit(n)
    ensures m == n
  {}

  /** Addresses have a fixed width, so one string is a faithful key for a switch and an address. */
  lemma {:induction false} KeyInjective(d: string, s: Bytes, e: string, t: Bytes)
    requires |s| == |t| == 6 && d + Hex(s) == e + Hex(t)
    ensures d == e && s == t
  {
    hide Hex;
    var a, b := d + Hex(s), e + Hex(t);
    assert a[..|a| - 12] == d && b[..|b| - 12] == e;
    assert a[|a| - 12..] == Hex(s) && b[|b| - 12..] == Hex(t);
    HexInjective(s, t);
  }

  lemma FrameText(p: PacketIn)
    requires p.Complete()
    ensures |Hex(p.frame)| >= 28
    ensures Slice(Hex(p.frame), 0, 12) == Hex(p.Dst()) && Slice(Hex(p.frame), 12, 24) == Hex(p.Src())
    ensures IsMulticastText(Hex(p.Dst())) == IsMulticast(p.Dst())
    ensures IsMulticastText(Hex(p.Src())) == IsMulticast(p.Src())
  {
    assert p.frame == p.Dst() + (p.Src() + p.frame[12..]);
    HexSplit(p.Dst(), p.Src() + p.frame[12..]);
    HexSplit(p.Src(), p.frame[12..]);
    SecondDigit(p.Dst());
    SecondDigit(p.Src());
  }

  lemma {:induction false} SecondDigit(addr: Bytes)
    requires |addr| == 6
    ensures IsMulticastText(Hex(addr)) == IsMulticast(addr)
  {
    hide Hex, IsMulticastText;
    FirstByteText(addr);
  }

  /** The script's table holds every switch's own table. */
  ghost predicate Agree(table: map<string, nat>, h: seq<Event>) {
    forall d: string, addr: Bytes :: |addr| == 6 ==>
      Entry(table, d + Hex(addr)) == AddressEntry(TableAfter(Of(d, h)), addr)
  }

  ghost function Entry(table: map<string, nat>, key: string): int { if key in table then table[key] else -1 }

  ghost function AddressEntry(table: map<Bytes, nat>, addr: Bytes): int { if addr in table then table[addr] else -1 }

  lemma {:induction false} TablesAgree(h: seq<Event>)
    requires forall i :: 0 <= i < |h| ==> |h[i].packet.frame| >= 14
    ensures Agree(ScriptTable(h), h)
  {
    if h != [] {
      var g, e := h[..|h| - 1], h[|h| - 1];
      TablesAgree(g);
      FrameText(e.packet);
      forall d: string, addr: Bytes | |addr| == 6
        ensures Entry(ScriptTable(h), d + Hex(addr)) == AddressEntry(TableAfter(Of(d, h)), addr)
      {
        AgreeStep(h, d, addr);
      }
    }
  }

  lemma {:induction false} ScriptTableStep(h: seq<Event>)
    requires h != [] && h[|h| - 1].packet.Complete()
    ensures var t, e := ScriptTable(h[..|h| - 1]), h[|h| - 1];
      ScriptTable(h) ==
        if IsMulticast(e.packet.Src()) then t else t[e.datapath + Hex(e.packet.Src()) := e.packet.inPort]
  {
    hide Hex, IsMulticastText, IsMulticast, Slice;
    FrameText(h[|h| - 1].packet);
  }

  lemma {:induction false} SwitchTableStep(h: seq<Event>, d: string)
    requires h != []
    ensures var t, e := TableAfter(Of(d, h[..|h| - 1])), h[|h| - 1];
      TableAfter(Of(d, h)) == if e.datapath == d then Learn(t, e.packet) else t
  {
    hide Learn;
    var g, e := h[..|h| - 1], h[|h| - 1];
    if e.datapath == d {
      assert Of(d, h) == Of(d, g) + [e.packet];
      assert Of(d, h)[..|Of(d, h)| - 1] == Of(d, g);
    } else {
      assert Of(d, h) == Of(d, g);
    }
  }

  lemma {:induction false} AgreeStep(h: seq<Event>, d: string, addr: Bytes)
    requires h != [] && h[|h| - 1].packet.Complete() && |addr| == 6
    requires Agree(ScriptTable(h[..|h| - 1]), h[..|h| - 1])
    ensures Entry(ScriptTable(h), d + Hex(addr)) == AddressEntry(TableAfter(Of(d, h)), addr)
  {
    hide Hex, IsMulticastText, IsMulticast, Slice;
    hide ScriptTable, TableAfter, Of;
    var g, e := h[..|h| - 1], h[|h| - 1];
    var p, key := e.packet, e.datapath + Hex(e.packet.Src());
    ScriptTableStep(h);
    if key == d + Hex(addr) {
      KeyInjective(e.datapath, p.Src(), d, addr);
    }
    SwitchTableStep(h, d);
    assert Entry(ScriptTable(g), d + Hex(addr)) == AddressEntry(TableAfter(Of(d, g)), addr);
  }

  /** The script decides like a separate controller per switch on a whole interleaved run exactly
      when every frame has at least 14 bytes: a shorter one is ignored by the controllers alone. */
  lemma {:induction false} ScriptAgreesIff(h: seq<Event>)
    ensures (forall i :: 0 <= i < |h| ==> ScriptOutcome(h[..i + 1]) == Outcome(Of(h[i].datapath, h[..i + 1])))
       <==> (forall i :: 0 <= i < |h| ==> |h[i].packet.frame| >= 14)
  {
    hide ScriptOutcome, Outcome, Of;
    if forall i :: 0 <= i < |h| ==> h[i].packet.Complete() {
      forall i | 0 <= i < |h| ensures ScriptOutcome(h[..i + 1]) == Outcome(Of(h[i].datapath, h[..i + 1])) {
        SameOutcome(h[..i + 1]);
      }
    } else {
      var i :| 0 <= i < |h| && !h[i].packet.Complete();
      ShortFrame(h[..i + 1]);
    }
  }

  /** A frame of fewer than 14 bytes is ignored by the controllers. The script raises an exception on it
      if and only if it has fewer than 7 bytes, and acts on it otherwise. */
  lemma {:induction false} ShortFrame(h: seq<Event>)
    requires h != [] && |h[|h| - 1].packet.frame| < 14
    ensures Outcome(Of(h[|h| - 1].datapath, h)) == Ignored != ScriptOutcome(h)
    ensures ScriptOutcome(h) == Raised <==> |h[|h| - 1].packet.frame| < 7
  {
    hide Of, TableAfter, ScriptTable, Hex, IsMulticastText;
  }

  /** Seven bytes, the first of them odd: the script floods. */
  lemma {:induction false} SevenBytesFlood(datapath: string, inPort: nat)
    ensures var h := [Event(datapath, PacketIn(inPort, [1] + Zeros(6)))];
      ScriptOutcome(h) == Flooded && Outcome(Of(datapath, h)) == Ignored
  {
    hide Of, TableAfter, ScriptTable;
    var frame: Bytes := [1] + Zeros(6);
    var h := [Event(datapath, PacketIn(inPort, frame))];
    ShortFrame(h);
    assert Hex(frame)[1] == HexDigit(1) && Slice(Hex(frame), 0, 12)[1] == Hex(frame)[1];
  }

  /** What the script learns from any frame, whole or not: the port of the source text, as far as there is
      one, unless it is empty or that of a multicast address. */
  lemma {:induction false} ScriptLearns(h: seq<Event>)
    requires h != []
    ensures var e, before := h[|h| - 1], ScriptTable(h[..|h| - 1]);
      var n := |e.packet.frame|;
      && (n < 7 ==> ScriptTable(h) == before)
      && (n >= 7 && e.packet.frame[6] % 2 == 1 ==> ScriptTable(h) == before)
      && (n >= 7 && e.packet.frame[6] % 2 == 0 ==>
            var src := e.packet.frame[6..if n < 12 then n else 12];
            ScriptTable(h) == before[e.datapath + Hex(src) := e.packet.inPort])
  {
    hide ScriptTable, Hex, Slice, IsMulticastText;
    var e := h[|h| - 1];
    var frame := e.packet.frame;
    assert ScriptTable(h) == ScriptLearn(ScriptTable(h[..|h| - 1]), e.datapath, e.packet.inPort, Hex(frame)) by {
      ScriptTableIs(h);
    }
    if |frame| >= 7 {
      SourceText(frame);
    } else {
      assert |Slice(Hex(frame), 12, 24)| < 2 by { ShortText(frame); }
    }
  }

  lemma {:induction false} SourceText(frame: Bytes)
    requires |frame| >= 7
    ensures var src, text := frame[6..if |frame| < 12 then |frame| else 12], Slice(Hex(frame), 12, 24);
      && text == Hex(src) && |text| >= 2 && (IsMulticastText(text) <==> frame[6] % 2 == 1)
  {
    hide Hex;
    var n := if |frame| < 12 then |frame| else 12;
    var dst, src, rest := frame[..6], frame[6..n], frame[n..];
    assert frame == dst + (src + rest);
    HexSplit(dst, src + rest);
    HexSplit(src, rest);
    assert Slice(Hex(frame), 12, 24) == Hex(src);
    FirstByteText(src);
  }

  lemma ShortText(frame: Bytes)
    requires |frame| < 7
    ensures |Slice(Hex(frame), 12, 24)| < 2
  {
    hide Hex;
  }

  lemma {:induction false} FirstByteText(s: Bytes)
    requires s != []
    ensures IsMulticastText(Hex(s)) <==> s[0] % 2 == 1
  {
    var n := s[0] as int;
    assert Hex(s)[1] == HexDigit(n % 16) && (HexDigit(n % 16) in "13579BDF" <==> n % 2 == 1) by {
      hide HexDigit;
      assert n % 16 % 2 == n % 2;
    }
    hide HexDigit, Hex;
  }

  lemma ScriptTableIs(h: seq<Event>)
    requires h != []
    ensures var e := h[|h| - 1];
      ScriptTable(h) == ScriptLearn(ScriptTable(h[..|h| - 1]), e.datapath, e.packet.inPort, Hex(e.packet.frame))
  {}

  lemma HexOfByte(b: UInt8)
    ensures Hex([b]) == ["0123456789ABCDEF"[b as int / 16], "0123456789ABCDEF"[b as int % 16]]
  {
    assert [b][1..] == [] && Hex([]) == "";
  }

  lemma {:induction false} SameOutcome(h: seq<Event>)
    requires h != [] && forall i :: 0 <= i < |h| ==> h[i].packet.Complete()
    ensures ScriptOutcome(h) == Outcome(Of(h[|h| - 1].datapath, h))
  {
    hide Hex, IsMulticastText, IsMulticast, Slice, ScriptTable, TableAfter, Of;
    var e := h[|h| - 1];
    TablesAgree(h);
    FrameText(e.packet);
    assert Entry(ScriptTable(h), e.datapath + Hex(e.packet.Dst()))
      == AddressEntry(TableAfter(Of(e.datapath, h)), e.packet.Dst());
  }
}
