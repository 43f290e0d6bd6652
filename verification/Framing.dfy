/** The wire-list kernel: what it means for bytes to be a run of self-delimiting elements.

    Lists of actions, instructions and properties, OXM lists and streams of messages differ only
    in how the first bytes of an element tell its extent. Builders, validators and iterators are
    separate pieces of code; they agree because each is proved against `Parse` and `Join`. */
module Framing {
  import opened Bytes
  import opened Options

  datatype LayoutShape =
    | Padded(offset: nat, min: nat) // 16-bit size at `offset`, at least `min`; padded to 8 bytes
    | Tlv                           // OXM: four bytes of type, the last of them the payload length
    | Message                       // OpenFlow header: eight bytes, 16-bit length at offset 2

  /** A size field must lie within the smallest element that carries it. */
  type Layout = l: LayoutShape | l.Padded? ==> l.offset + 2 <= l.min
    witness Tlv

  /** Bytes taken by the element at the front of `b`, or 0 when there is no complete element. */
  function Extent(l: Layout, b: Bytes): (n: nat)
    ensures n <= |b|
  {
    match l
    case Padded(offset, min) =>
      if |b| < offset + 2 || ReadBig16(b, offset) < min || PadLength(ReadBig16(b, offset)) > |b| then 0
      else PadLength(ReadBig16(b, offset))
    case Tlv =>
      if |b| < 4 || 4 + b[3] as int > |b| then 0 else 4 + b[3] as int
    case Message =>
      if |b| < 8 || ReadBig16(b, 2) < 8 || ReadBig16(b, 2) > |b| then 0 else ReadBig16(b, 2)
  }

  predicate Element(l: Layout, e: Bytes) { 0 < Extent(l, e) == |e| }

  predicate Elements(l: Layout, es: seq<Bytes>) { forall i :: 0 <= i < |es| ==> Element(l, es[i]) }

  function Join(es: seq<Bytes>): Bytes {
    if es == [] then [] else es[0] + Join(es[1..])
  }

  /** The elements that `b` consists of, or None when it is not a run of complete elements. */
  function Parse(l: Layout, b: Bytes): Option<seq<Bytes>>
    decreases |b|
  {
    if b == [] then Some([])
    else
      var n := Extent(l, b);
      if n == 0 then None
      else
        match Parse(l, b[n..])
        case None => None
        case Some(es) => Some([b[..n]] + es)
  }

  predicate WellFormed(l: Layout, b: Bytes) { Parse(l, b).Some? }

  /** An element tells its own extent whatever follows it. */
  lemma ExtentPrefix(l: Layout, e: Bytes, rest: Bytes)
    requires Element(l, e)
    ensures Extent(l, e + rest) == |e|
    ensures (e + rest)[..|e|] == e && (e + rest)[|e|..] == rest
  {}

  lemma ExtentCut(l: Layout, b: Bytes)
    requires Extent(l, b) > 0
    ensures Element(l, b[..Extent(l, b)])
  {}

  lemma {:induction false} ParseCons(l: Layout, e: Bytes, rest: Bytes)
    requires Element(l, e)
    ensures Parse(l, e + rest)
         == match Parse(l, rest) { case None => None case Some(es) => Some([e] + es) }
  {
    hide Extent;
    ExtentPrefix(l, e, rest);
  }

  /** Joining elements and parsing the result gives the elements back. */
  lemma {:induction false} ParseJoin(l: Layout, es: seq<Bytes>)
    requires Elements(l, es)
    ensures Parse(l, Join(es)) == Some(es)
  {
    hide Extent;
    if es != [] {
      ParseJoin(l, es[1..]);
      ParseCons(l, es[0], Join(es[1..]));
      assert [es[0]] + es[1..] == es;
    }
  }

  /** What parses is the join of its elements. */
  lemma {:induction false} JoinParse(l: Layout, b: Bytes)
    requires WellFormed(l, b)
    ensures Elements(l, Parse(l, b).value) && Join(Parse(l, b).value) == b
    decreases |b|
  {
    hide Extent;
    if b != [] {
      var n := Extent(l, b);
      JoinParse(l, b[n..]);
      ExtentCut(l, b);
      var es := Parse(l, b).value;
      assert es[1..] == Parse(l, b[n..]).value;
    }
  }

  /** Joined bytes split into the pieces that were joined if and only if each of them is an element. */
  lemma {:induction false} SplitsIff(l: Layout, es: seq<Bytes>)
    ensures Parse(l, Join(es)) == Some(es) <==> Elements(l, es)
  {
    hide Extent, Parse;
    if Elements(l, es) { ParseJoin(l, es); }
    if Parse(l, Join(es)) == Some(es) { JoinParse(l, Join(es)); }
  }

  /** Element boundaries are unique: two runs of elements with the same bytes are the same run. */
  lemma JoinInjective(l: Layout, es: seq<Bytes>, fs: seq<Bytes>)
    requires Elements(l, es) && Elements(l, fs) && Join(es) == Join(fs)
    ensures es == fs
  {
    ParseJoin(l, es);
    ParseJoin(l, fs);
  }

  /** Well-formed bytes are exactly the concatenations of complete elements. */
  lemma WellFormedIff(l: Layout, b: Bytes)
    ensures WellFormed(l, b) <==> exists es: seq<Bytes> :: Elements(l, es) && Join(es) == b
  {
    if WellFormed(l, b) {
      JoinParse(l, b);
    }
    forall es: seq<Bytes> | Elements(l, es) && Join(es) == b
      ensures WellFormed(l, b)
    {
      ParseJoin(l, es);
    }
  }

  lemma {:induction false} JoinAppend(es: seq<Bytes>, fs: seq<Bytes>)
    ensures Join(es + fs) == Join(es) + Join(fs)
  {
    if es == [] {
      assert es + fs == fs;
    } else {
      assert (es + fs)[1..] == es[1..] + fs;
      JoinAppend(es[1..], fs);
    }
  }

  lemma JoinSnoc(es: seq<Bytes>, e: Bytes)
    ensures Join(es + [e]) == Join(es) + e
  {
    JoinAppend(es, [e]);
    assert Join([e]) == e;
  }

  /** Appending an element appends it to the parse. */
  lemma {:induction false} ParseSnoc(l: Layout, b: Bytes, e: Bytes)
    requires WellFormed(l, b) && Element(l, e)
    ensures Parse(l, b + e) == Some(Parse(l, b).value + [e])
  {
    hide Extent;
    JoinParse(l, b);
    JoinSnoc(Parse(l, b).value, e);
    ParseJoin(l, Parse(l, b).value + [e]);
  }

  lemma {:induction false} JoinLengthMod8(es: seq<Bytes>)
    requires forall i :: 0 <= i < |es| ==> |es[i]| % 8 == 0
    ensures |Join(es)| % 8 == 0
  {
    if es != [] { JoinLengthMod8(es[1..]); }
  }

  lemma {:induction false} JoinSplit(es: seq<Bytes>, k: nat)
    requires k <= |es|
    ensures Join(es) == Join(es[..k]) + Join(es[k..])
  {
    hide Join;
    JoinAppend(es[..k], es[k..]);
    assert es[..k] + es[k..] == es;
  }

  /** Inserting an element at an element boundary inserts it into the parse. */
  lemma {:induction false} ParseInsert(l: Layout, es: seq<Bytes>, e: Bytes, k: nat)
    requires Elements(l, es) && Element(l, e) && k <= |es|
    ensures |Join(es[..k])| <= |Join(es)|
    ensures var p := |Join(es[..k])|;
            Parse(l, Join(es)[..p] + e + Join(es)[p..]) == Some(es[..k] + [e] + es[k..])
  {
    hide Extent;
    JoinSplit(es, k);
    JoinSnoc(es[..k], e);
    JoinAppend(es[..k] + [e], es[k..]);
    ParseJoin(l, es[..k] + [e] + es[k..]);
  }
}
