/** The prerequisite pass of the OXM table compiler (oxm/oxmfields_compile_main.cpp): every field's
    comma-separated prerequisite list is extended, in one pass over the table, with the lists of the
    fields it names. */
module PrereqCompiler {
  import opened Text

  datatype Field = Field(name: string, prereqStr: string)

  // ---- splitting ----

  /** Trim: the same text without white space around it. */
  function Trim(s: string): (t: string)
    ensures t == "" || (!IsSpace(t[0]) && !IsSpace(t[|t| - 1]))
  {
    TrimEnd(SkipSpace(s))
  }

  /** Nothing but white space is lost. */
  lemma {:induction false} TrimSplit(s: string) returns (a: string, b: string)
    ensures AllSpace(a) && AllSpace(b) && s == a + Trim(s) + b
  {
    hide SkipSpace, TrimEnd, IsSpace;
    a := SkipSpaceSplit(s);
    b := TrimEndSplit(SkipSpace(s));
  }

  /** Index of the first delimiter, or the length. */
  function Find(s: string, d: char): (i: nat)
    ensures i <= |s| && (i < |s| ==> s[i] == d) && d !in s[..i]
  {
    if s == "" || s[0] == d then 0 else 1 + Find(s[1..], d)
  }

  /** The pieces getline delivers: nothing for the empty text or behind a final delimiter. */
  function Pieces(s: string, d: char): seq<string>
    decreases |s|
  {
    if s == "" then []
    else
      var i := Find(s, d);
      [Trim(s[..i])] + Pieces(if i < |s| then s[i + 1..] else "", d)
  }

  function Tokens(s: string): seq<string> { Pieces(s, ',') }

  predicate Closed(s: string) { s == "" || s[|s| - 1] != ',' }

  /** getline: the end of the piece that starts at `pos`. */
  method GetLine(str: string, delimiter: char, pos: nat) returns (end: nat)
    requires pos <= |str|
    ensures pos <= end <= |str| && end == pos + Find(str[pos..], delimiter)
  {
    end := pos;
    while end < |str| && str[end] != delimiter
      invariant pos <= end <= |str|
      invariant end + Find(str[end..], delimiter) == pos + Find(str[pos..], delimiter)
    {
      assert str[end..][1..] == str[end + 1..];
      end := end + 1;
    }
  }

  lemma {:induction false} FirstPiece(s: string, d: char)
    requires s != ""
    ensures var i := Find(s, d); Pieces(s, d) == [Trim(s[..i])] + Pieces(if i < |s| then s[i + 1..] else "", d)
  {
    hide Find, Trim;
  }

  lemma {:induction false} PieceStep(str: string, d: char, pos: nat, end: nat)
    requires pos < |str| && pos <= end <= |str| && end == pos + Find(str[pos..], d)
    ensures Pieces(str[pos..], d) == [Trim(str[pos..end])] + Pieces(str[if end < |str| then end + 1 else end..], d)
  {
    hide Find, Trim, Pieces;
    var rest, i := str[pos..], end - pos;
    FirstPiece(rest, d);
    assert rest[..i] == str[pos..end];
    if end < |str| {
      assert rest[i + 1..] == str[end + 1..];
    } else {
      assert str[end..] == "";
    }
  }

  method Split(str: string, delimiter: char) returns (result: seq<string>)
    ensures result == Pieces(str, delimiter)
  {
    hide Find, Trim, Pieces;
    result := [];
    var pos := 0;
    assert str[0..] == str;
    while pos < |str|
      invariant pos <= |str|
      invariant result + Pieces(str[pos..], delimiter) == Pieces(str, delimiter)
    {
      var end := GetLine(str, delimiter, pos);
      PieceStep(str, delimiter, pos, end);
      result := result + [Trim(str[pos..end])];
      pos := if end < |str| then end + 1 else end;
    }
    assert str[pos..] == "";
    NoPieces(delimiter);
  }

  lemma NoPieces(d: char)
    ensures Pieces("", d) == []
  {}

  lemma {:induction false} FindAppend(s: string, t: string, d: char)
    ensures Find(s + [d] + t, d) == Find(s, d)
    decreases |s|
  {
    if s != "" && s[0] != d {
      assert (s + [d] + t)[1..] == s[1..] + [d] + t;
      FindAppend(s[1..], t, d);
    }
  }

  /** Splitting a join is joining the splits, unless the left text is empty or ends in a comma. */
  lemma {:induction false} TokensJoin(s: string, t: string)
    requires s != "" && Closed(s)
    ensures Tokens(s + "," + t) == Tokens(s) + Tokens(t)
    decreases |s|
  {
    hide Trim, Find, Pieces;
    var u := s + "," + t;
    FindAppend(s, t, ',');
    FirstPiece(s, ',');
    FirstPiece(u, ',');
    NoPieces(',');
    var i := Find(s, ',');
    assert u[..i] == s[..i];
    if i < |s| {
      assert u[i + 1..] == s[i + 1..] + "," + t;
      TokensJoin(s[i + 1..], t);
    } else {
      assert u[i + 1..] == t;
    }
  }

  // ---- the compiler ----

  predicate EndsName(c: char) { c in " {[(&" }

  /** Identifier: the text before an opening bracket, blank or ampersand. */
  function Identifier(s: string): (id: string)
    ensures id <= s && (forall i :: 0 <= i < |id| ==> id[i] !in " {[(&")
    ensures |id| < |s| ==> s[|id|] in " {[(&"
  {
    if s == "" || EndsName(s[0]) then "" else [s[0]] + Identifier(s[1..])
  }

  /** A later field of the same name hides an earlier one. */
  function NameMap(fs: seq<Field>): (m: map<string, nat>)
    ensures forall id :: id in m ==> m[id] < |fs| && fs[m[id]].name == id
    ensures forall i :: 0 <= i < |fs| ==> fs[i].name in m && i <= m[fs[i].name]
  {
    if fs == [] then map[] else NameMap(fs[..|fs| - 1])[fs[|fs| - 1].name := |fs| - 1]
  }

  predicate Barrier(s: string) { Tokens(s) != [] && Tokens(s)[0] == "/" }

  function Prepend(fs: seq<Field>, m: map<string, nat>, k: nat, id: string): (r: seq<Field>)
    requires k < |fs| && (id in m ==> m[id] < |fs|)
    ensures |r| == |fs|
  {
    if id in m && fs[m[id]].prereqStr != "" then
      fs[k := fs[k].(prereqStr := fs[m[id]].prereqStr + "," + fs[k].prereqStr)]
    else fs
  }

  function Expand(fs: seq<Field>, m: map<string, nat>, k: nat, preqs: seq<string>,
      processed: set<string>): (r: seq<Field>)
    requires k < |fs| && forall id :: id in m ==> m[id] < |fs|
    ensures |r| == |fs|
    decreases |preqs|
  {
    if preqs == [] then fs
    else
      var id := Identifier(preqs[0]);
      if id in processed then Expand(fs, m, k, preqs[1..], processed)
      else Expand(Prepend(fs, m, k, id), m, k, preqs[1..], processed + {id})
  }

  function CompileField(fs: seq<Field>, m: map<string, nat>, k: nat): (r: seq<Field>)
    requires k < |fs| && forall id :: id in m ==> m[id] < |fs|
    ensures |r| == |fs|
  {
    if Barrier(fs[k].prereqStr) then fs else Expand(fs, m, k, Tokens(fs[k].prereqStr), {})
  }

  function Compiled(fs: seq<Field>, n: nat): (r: seq<Field>)
    requires n <= |fs|
    ensures |r| == |fs|
  {
    if n == 0 then fs else CompileField(Compiled(fs, n - 1), NameMap(fs), n - 1)
  }

  method ExpandField(fields: array<Field>, names: map<string, nat>, k: nat, preqs: seq<string>)
    requires k < fields.Length && forall id :: id in names ==> names[id] < fields.Length
    modifies fields
    ensures fields[..] == Expand(old(fields[..]), names, k, preqs, {})
  {
    var processed: set<string>, i := {}, 0;
    while i < |preqs|
      invariant i <= |preqs|
      invariant Expand(fields[..], names, k, preqs[i..], processed) == Expand(old(fields[..]), names, k, preqs, {})
    {
      var id := Identifier(preqs[i]);
      assert preqs[i..][1..] == preqs[i + 1..];
      if id !in processed {
        processed := processed + {id};
        if id in names && fields[names[id]].prereqStr != "" {
          ghost var before := fields[..];
          var joined := fields[names[id]].prereqStr + "," + fields[k].prereqStr;
          fields[k] := Field(fields[k].name, joined);
          assert fields[..] == Prepend(before, names, k, id);
        }
      }
      i := i + 1;
    }
  }

  method MapNames(fields: array<Field>) returns (names: map<string, nat>)
    ensures names == NameMap(fields[..])
  {
    ghost var fs := fields[..];
    names := map[];
    for i := 0 to fields.Length
      invariant names == NameMap(fs[..i])
    {
      assert fs[..i + 1][..i] == fs[..i];
      names := names[fields[i].name := i];
    }
    assert fs[..fields.Length] == fs;
  }

  method CompilePrereqs(fields: array<Field>)
    modifies fields
    ensures fields[..] == Compiled(old(fields[..]), fields.Length)
  {
    hide NameMap, Expand, Pieces;
    ghost var fs := fields[..];
    var names := MapNames(fields);
    for k := 0 to fields.Length
      invariant fields[..] == Compiled(fs, k)
    {
      ghost var g := fields[..];
      assert g[k] == fields[k];
      assert Compiled(fs, k + 1) == CompileField(g, names, k);
      var preqs := Split(fields[k].prereqStr, ',');
      if preqs != [] && preqs[0] == "/" { continue; }
      ExpandField(fields, names, k, preqs);
    }
  }

  // ---- the full list of a field ----

  function Direct(fs: seq<Field>, i: nat): seq<string>
    requires i < |fs|
  {
    Tokens(fs[i].prereqStr)
  }

  /** Every prerequisite that names a field names an earlier one, and no list ends in a comma. */
  predicate Layered(fs: seq<Field>) {
    && (forall i :: 0 <= i < |fs| ==> Closed(fs[i].prereqStr))
    && (forall i, t :: 0 <= i < |fs| && t in Direct(fs, i) ==> Before(fs, t, i))
  }

  predicate Before(fs: seq<Field>, t: string, i: nat) {
    Identifier(t) in NameMap(fs) ==> NameMap(fs)[Identifier(t)] < i
  }

  /** The fields a list names, each once, in order of first mention. */
  function Named(m: map<string, nat>, preqs: seq<string>, seen: set<string>): seq<nat> {
    if preqs == [] then []
    else
      var id := Identifier(preqs[0]);
      if id in seen then Named(m, preqs[1..], seen)
      else (if id in m then [m[id]] else []) + Named(m, preqs[1..], seen + {id})
  }

  predicate Mentions(m: map<string, nat>, preqs: seq<string>, seen: set<string>, j: nat) {
    exists t :: t in preqs && Identifier(t) !in seen && Identifier(t) in m && m[Identifier(t)] == j
  }

  lemma {:induction false} NamedIff(m: map<string, nat>, preqs: seq<string>, seen: set<string>, j: nat)
    requires forall id, id' :: id in m && id' in m && m[id] == m[id'] ==> id == id'
    ensures j in Named(m, preqs, seen) <==> Mentions(m, preqs, seen, j)
    decreases |preqs|
  {
    hide Identifier;
    if preqs != [] {
      var id, rest := Identifier(preqs[0]), preqs[1..];
      assert forall t :: t in preqs <==> t == preqs[0] || t in rest;
      NamedIff(m, rest, seen, j);
      NamedIff(m, rest, seen + {id}, j);
      if id !in seen && id in m && m[id] == j { assert preqs[0] in preqs; }
    }
  }

  lemma NameMapInjective(fs: seq<Field>)
    ensures var m := NameMap(fs); forall id, id' :: id in m && id' in m && m[id] == m[id'] ==> id == id'
  {}

  lemma {:induction false} NamedBefore(fs: seq<Field>, i: nat)
    requires Layered(fs) && i < |fs|
    ensures forall j :: j in Named(NameMap(fs), Direct(fs, i), {}) ==> j < i
  {
    hide Identifier, NameMap;
    var m, d := NameMap(fs), Direct(fs, i);
    NameMapInjective(fs);
    forall j | j in Named(m, d, {}) ensures j < i {
      NamedIff(m, d, {}, j);
      var t :| t in d && Identifier(t) in m && m[Identifier(t)] == j;
      assert Before(fs, t, i);
    }
  }

  /** The direct list behind the full lists of the fields it names. */
  function Full(fs: seq<Field>, i: nat): seq<string>
    requires Layered(fs) && i < |fs|
    decreases i, 1, 0
  {
    if Barrier(fs[i].prereqStr) then Direct(fs, i)
    else
      NamedBefore(fs, i);
      FullOf(fs, i, Named(NameMap(fs), Direct(fs, i), {})) + Direct(fs, i)
  }

  function FullOf(fs: seq<Field>, i: nat, js: seq<nat>): seq<string>
    requires Layered(fs) && i < |fs| && forall j :: j in js ==> j < i
    decreases i, 0, |js|
  {
    if js == [] then []
    else
      assert js[0] in js && forall j :: j in js[1..] ==> j in js;
      FullOf(fs, i, js[1..]) + Full(fs, js[0])
  }

  /** Fields below `k` hold their full list, the others are untouched. */
  ghost predicate DoneTo(fs: seq<Field>, g: seq<Field>, k: nat)
    requires Layered(fs) && k <= |fs| == |g|
  {
    && (forall i :: 0 <= i < k ==> Tokens(g[i].prereqStr) == Full(fs, i) && Closed(g[i].prereqStr))
    && (forall i :: k <= i < |fs| ==> g[i] == fs[i])
  }

  lemma {:induction false} ExpandIsFull(fs: seq<Field>, g: seq<Field>, k: nat, preqs: seq<string>, seen: set<string>)
    requires Layered(fs) && k < |fs| == |g|
    requires forall i :: 0 <= i < k ==> Tokens(g[i].prereqStr) == Full(fs, i) && Closed(g[i].prereqStr)
    requires Closed(g[k].prereqStr) && (preqs != [] ==> g[k].prereqStr != "")
    requires forall j :: j in Named(NameMap(fs), preqs, seen) ==> j < k
    ensures var r := Expand(g, NameMap(fs), k, preqs, seen);
      && Tokens(r[k].prereqStr) == FullOf(fs, k, Named(NameMap(fs), preqs, seen)) + Tokens(g[k].prereqStr)
      && Closed(r[k].prereqStr)
      && (forall i :: 0 <= i < |fs| && i != k ==> r[i] == g[i])
    decreases |preqs|
  {
    hide Tokens, Identifier, NameMap, Full, Closed, Layered;
    var m := NameMap(fs);
    if preqs != [] {
      var id := Identifier(preqs[0]);
      if id in seen {
        ExpandIsFull(fs, g, k, preqs[1..], seen);
      } else {
        var h, rest := Prepend(g, m, k, id), Named(m, preqs[1..], seen + {id});
        assert Named(m, preqs, seen) == (if id in m then [m[id]] else []) + rest;
        assert forall j :: j in rest ==> j in Named(m, preqs, seen);
        if id in m {
          assert m[id] in Named(m, preqs, seen);
          PrependTokens(g, m, k, id);
        }
        ExpandIsFull(fs, h, k, preqs[1..], seen + {id});
        if id in m {
          assert ([m[id]] + rest)[1..] == rest;
          assert Named(m, preqs, seen) == [m[id]] + rest;
        } else {
          assert Named(m, preqs, seen) == rest;
        }
      }
    }
  }

  lemma {:induction false} PrependTokens(g: seq<Field>, m: map<string, nat>, k: nat, id: string)
    requires k < |g| && id in m && m[id] < |g| && g[k].prereqStr != ""
    requires Closed(g[m[id]].prereqStr) && Closed(g[k].prereqStr)
    ensures var r := Prepend(g, m, k, id)[k].prereqStr;
      && Tokens(r) == Tokens(g[m[id]].prereqStr) + Tokens(g[k].prereqStr)
      && Closed(r) && r != ""
  {
    hide Pieces;
    var s, t := g[m[id]].prereqStr, g[k].prereqStr;
    if s == "" {
      NoPieces(',');
    } else {
      TokensJoin(s, t);
      assert (s + "," + t)[|s| + |t|] == t[|t| - 1];
    }
  }

  lemma {:induction false} PassStep(fs: seq<Field>, g: seq<Field>, k: nat)
    requires Layered(fs) && k < |fs| == |g| && DoneTo(fs, g, k)
    ensures DoneTo(fs, CompileField(g, NameMap(fs), k), k + 1)
  {
    hide Pieces, NameMap, Expand, Named, Identifier;
    if !Barrier(fs[k].prereqStr) {
      NamedBefore(fs, k);
      assert Direct(fs, k) != [] ==> fs[k].prereqStr != "" by { NoPieces(','); }
      ExpandIsFull(fs, g, k, Direct(fs, k), {});
    }
  }

  /** One pass over a layered table gives every field its full list. */
  lemma {:induction false} OnePass(fs: seq<Field>, n: nat)
    requires Layered(fs) && n <= |fs|
    ensures DoneTo(fs, Compiled(fs, n), n)
    decreases n
  {
    hide Tokens, Full, CompileField, NameMap, Layered, Closed;
    if n > 0 {
      OnePass(fs, n - 1);
      PassStep(fs, Compiled(fs, n - 1), n - 1);
    }
  }

  // ---- the full list is the transitive one ----

  /** Field i takes over the list of field j. */
  predicate Leads(fs: seq<Field>, i: nat, j: nat)
    requires i < |fs|
  {
    !Barrier(fs[i].prereqStr) && Mentions(NameMap(fs), Direct(fs, i), {}, j)
  }

  /** A chain of fields from i to one that lists t itself. */
  predicate Reaches(fs: seq<Field>, path: seq<nat>, i: nat, t: string)
    decreases |path|
  {
    && path != []
    && path[0] == i < |fs|
    && if |path| == 1 then t in Direct(fs, i) else Leads(fs, i, path[1]) && Reaches(fs, path[1..], path[1], t)
  }

  lemma {:induction false} FullOfIff(fs: seq<Field>, i: nat, js: seq<nat>, t: string)
    requires Layered(fs) && i < |fs| && forall j :: j in js ==> j < i
    ensures t in FullOf(fs, i, js) <==> exists j :: j in js && t in Full(fs, j)
    decreases |js|
  {
    hide Full, Layered;
    if js != [] {
      assert js[0] in js && forall j :: j in js[1..] ==> j in js;
      FullOfIff(fs, i, js[1..], t);
      assert js == [js[0]] + js[1..];
    }
  }

  lemma {:induction false} FullIsReached(fs: seq<Field>, i: nat, t: string) returns (path: seq<nat>)
    requires Layered(fs) && i < |fs|
    ensures t in Full(fs, i) ==> Reaches(fs, path, i, t)
    decreases i
  {
    hide FullOf, Named, NameMap, Layered, Barrier, Tokens;
    if t in Direct(fs, i) || t !in Full(fs, i) {
      return [i];
    }
    var js := Named(NameMap(fs), Direct(fs, i), {});
    NamedBefore(fs, i);
    FullOfIff(fs, i, js, t);
    var j :| j in js && t in Full(fs, j);
    NameMapInjective(fs);
    NamedIff(NameMap(fs), Direct(fs, i), {}, j);
    var rest := FullIsReached(fs, j, t);
    path := [i] + rest;
    assert path[1..] == rest;
  }

  lemma {:induction false} ReachedIsFull(fs: seq<Field>, path: seq<nat>, i: nat, t: string)
    requires Layered(fs) && i < |fs|
    ensures Reaches(fs, path, i, t) ==> t in Full(fs, i)
    decreases |path|
  {
    hide FullOf, Named, NameMap, Layered, Barrier, Tokens;
    NamedBefore(fs, i);
    if |path| > 1 && Reaches(fs, path, i, t) {
      var j := path[1];
      ReachedIsFull(fs, path[1..], j, t);
      NameMapInjective(fs);
      NamedIff(NameMap(fs), Direct(fs, i), {}, j);
      FullOfIff(fs, i, Named(NameMap(fs), Direct(fs, i), {}), t);
    }
  }

  /** One pass leaves each field of a layered table with exactly its transitive prerequisites. */
  lemma {:induction false} CompiledIff(fs: seq<Field>, i: nat, t: string)
    requires Layered(fs) && i < |fs|
    ensures t in Tokens(Compiled(fs, |fs|)[i].prereqStr) <==> exists path :: Reaches(fs, path, i, t)
  {
    hide Compiled, Tokens, Full, Layered, Reaches, Closed;
    OnePass(fs, |fs|);
    if t in Full(fs, i) {
      var path := FullIsReached(fs, i, t);
    }
    forall path | Reaches(fs, path, i, t) ensures t in Full(fs, i) {
      ReachedIsFull(fs, path, i, t);
    }
  }

  // ---- and in order ----

  predicate Needs(fs: seq<Field>, u: string, t: string)
    requires Layered(fs)
  {
    Identifier(u) in NameMap(fs) && t in Full(fs, NameMap(fs)[Identifier(u)])
  }

  /** Whatever the field named at a position needs stands before that position. */
  ghost predicate Ordered(fs: seq<Field>, l: seq<string>)
    requires Layered(fs)
  {
    forall k, t :: 0 <= k < |l| && Needs(fs, l[k], t) ==> t in l[..k]
  }

  lemma {:induction false} OrderedAppend(fs: seq<Field>, a: seq<string>, b: seq<string>)
    requires Layered(fs) && Ordered(fs, a)
    requires forall k, t :: 0 <= k < |b| && Needs(fs, b[k], t) ==> t in a + b[..k]
    ensures Ordered(fs, a + b)
  {
    hide Needs, Layered;
    var l := a + b;
    forall k, t | 0 <= k < |l| && Needs(fs, l[k], t) ensures t in l[..k] {
      if k < |a| {
        assert l[..k] == a[..k];
      } else {
        assert l[k] == b[k - |a|];
        assert l[..k] == a + b[..k - |a|];
      }
    }
  }

  predicate Unmarked(fs: seq<Field>) { forall i :: 0 <= i < |fs| ==> !Barrier(fs[i].prereqStr) }

  lemma {:induction false} FullOrdered(fs: seq<Field>, i: nat)
    requires Layered(fs) && Unmarked(fs) && i < |fs|
    ensures Ordered(fs, Full(fs, i))
    decreases i, 1, 0
  {
    hide FullOf, Named, NameMap, Layered, Barrier, Tokens, Identifier, Ordered;
    var m, d := NameMap(fs), Direct(fs, i);
    var js := Named(m, d, {});
    NamedBefore(fs, i);
    FullOfOrdered(fs, i, js);
    NameMapInjective(fs);
    var f := FullOf(fs, i, js);
    forall k, t | 0 <= k < |d| && Needs(fs, d[k], t) ensures t in f + d[..k] {
      var j := m[Identifier(d[k])];
      assert d[k] in d;
      NamedIff(m, d, {}, j);
      FullOfIff(fs, i, js, t);
    }
    OrderedAppend(fs, f, d);
  }

  lemma {:induction false} FullOfOrdered(fs: seq<Field>, i: nat, js: seq<nat>)
    requires Layered(fs) && Unmarked(fs) && i < |fs| && forall j :: j in js ==> j < i
    ensures Ordered(fs, FullOf(fs, i, js))
    decreases i, 0, |js|
  {
    hide Full, Layered, Unmarked, Needs;
    if js != [] {
      assert js[0] in js && forall j :: j in js[1..] ==> j in js;
      FullOfOrdered(fs, i, js[1..]);
      FullOrdered(fs, js[0]);
      OrderedAppend(fs, FullOf(fs, i, js[1..]), Full(fs, js[0]));
    }
  }

  /** Without markers, every prerequisite stands before what needs it. */
  lemma {:induction false} CompiledInOrder(fs: seq<Field>, i: nat, k: nat, t: string)
    requires Layered(fs) && Unmarked(fs) && i < |fs|
    ensures var l := Tokens(Compiled(fs, |fs|)[i].prereqStr);
      var m := NameMap(fs);
      k < |l| && Identifier(l[k]) in m && t in Tokens(Compiled(fs, |fs|)[m[Identifier(l[k])]].prereqStr) ==> t in l[..k]
  {
    hide Compiled, Tokens, Full, Layered, Unmarked, Closed, NameMap, Identifier;
    OnePass(fs, |fs|);
    FullOrdered(fs, i);
    if k < |Full(fs, i)| {
      assert Needs(fs, Full(fs, i)[k], t) ==> t in Full(fs, i)[..k];
    }
  }

  // ---- every table: what one pass computes ----

  /** A token of a join comes from one of its sides; a comma at the end of the left adds only an empty one. */
  lemma {:induction false} JoinMember(s: string, t: string, u: string)
    requires u != ""
    ensures u in Tokens(s + "," + t) <==> u in Tokens(s) || u in Tokens(t)
    decreases |s|
  {
    hide Trim, Pieces;
    var j, i := s + "," + t, Find(s, ',');
    FindAppend(s, t, ',');
    FirstPiece(j, ',');
    assert j[..i] == s[..i];
    if i < |s| {
      FirstPiece(s, ',');
      assert j[i + 1..] == s[i + 1..] + "," + t;
      JoinMember(s[i + 1..], t, u);
    } else {
      assert j[i + 1..] == t && s[..i] == s;
      NoPieces(',');
      if s == "" {
        assert Trim(s) == "" by { TrimNothing(); }
      } else {
        FirstPiece(s, ',');
      }
    }
  }

  lemma TrimNothing()
    ensures Trim("") == ""
  {}

  /** The tokens a field ends up with come from itself and from the fields it names, as they stand. */
  lemma {:induction false} ExpandMember(g: seq<Field>, m: map<string, nat>, k: nat, preqs: seq<string>,
      seen: set<string>, u: string)
    requires k < |g| && u != "" && forall id :: id in m ==> m[id] < |g|
    ensures var r := Expand(g, m, k, preqs, seen);
      && (forall i :: 0 <= i < |g| && i != k ==> r[i] == g[i])
      && (u in Tokens(r[k].prereqStr) <==>
            u in Tokens(g[k].prereqStr) ||
              exists j :: j in Named(m, preqs, seen) && j < |g| && u in Tokens(g[j].prereqStr))
    decreases |preqs|
  {
    hide Tokens, Identifier;
    if preqs != [] {
      var id := Identifier(preqs[0]);
      if id in seen {
        ExpandMember(g, m, k, preqs[1..], seen, u);
      } else {
        var h, rest := Prepend(g, m, k, id), Named(m, preqs[1..], seen + {id});
        ExpandMember(h, m, k, preqs[1..], seen + {id}, u);
        if id in m {
          PrependMember(g, m, k, id, u);
          assert Named(m, preqs, seen) == [m[id]] + rest;
        } else {
          assert Named(m, preqs, seen) == rest;
        }
        assert forall j :: j in rest && j < |g| && j != k ==> h[j] == g[j];
      }
    }
  }

  lemma {:induction false} PrependMember(g: seq<Field>, m: map<string, nat>, k: nat, id: string, u: string)
    requires k < |g| && id in m && m[id] < |g| && u != ""
    ensures u in Tokens(Prepend(g, m, k, id)[k].prereqStr) <==>
      u in Tokens(g[k].prereqStr) || u in Tokens(g[m[id]].prereqStr)
  {
    hide Pieces;
    if g[m[id]].prereqStr == "" {
      NoPieces(',');
    } else {
      JoinMember(g[m[id]].prereqStr, g[k].prereqStr, u);
    }
  }

  /** A field is changed in its own turn and in no other. */
  lemma {:induction false} ChangedOnce(fs: seq<Field>, n: nat, i: nat)
    requires n <= |fs| && i < |fs|
    ensures Compiled(fs, n)[i] == if i < n then Compiled(fs, i + 1)[i] else fs[i]
    decreases n
  {
    hide NameMap, CompileField;
    if n > 0 {
      ChangedOnce(fs, n - 1, i);
      if i != n - 1 { OthersKept(Compiled(fs, n - 1), NameMap(fs), n - 1, i); }
    }
  }

  lemma {:induction false} OthersKept(g: seq<Field>, m: map<string, nat>, k: nat, i: nat)
    requires k < |g| && i < |g| && i != k && forall id :: id in m ==> m[id] < |g|
    ensures CompileField(g, m, k)[i] == g[i]
  {
    hide Tokens, Expand, Named;
    ExpandMember(g, m, k, Tokens(g[k].prereqStr), {}, "-");
  }

  /** A lower field is already compiled when its list is taken over, any other is still as written. */
  ghost predicate Takes(fs: seq<Field>, i: nat, u: string)
    requires i < |fs|
    decreases i
  {
    || u in Direct(fs, i)
    || exists j: nat :: j < |fs| && Leads(fs, i, j) && if j < i then Takes(fs, j, u) else u in Direct(fs, j)
  }

  lemma {:induction false} CompiledTakes(fs: seq<Field>, i: nat, u: string)
    requires i < |fs| && u != ""
    ensures u in Tokens(Compiled(fs, |fs|)[i].prereqStr) <==> Takes(fs, i, u)
    decreases i
  {
    hide NameMap, Expand, Tokens, Named, Compiled, Mentions, Barrier;
    var g, m, d := Compiled(fs, i), NameMap(fs), Direct(fs, i);
    ChangedOnce(fs, |fs|, i);
    ChangedOnce(fs, i, i);
    CompiledStep(fs, i);
    if !Barrier(fs[i].prereqStr) {
      ExpandMember(g, m, i, d, {}, u);
      NameMapInjective(fs);
      forall j: nat | j < |fs|
        ensures j in Named(m, d, {}) <==> Leads(fs, i, j)
        ensures u in Tokens(g[j].prereqStr) <==> if j < i then Takes(fs, j, u) else u in Direct(fs, j)
      {
        NamedIff(m, d, {}, j);
        ChangedOnce(fs, i, j);
        if j < i {
          ChangedOnce(fs, |fs|, j);
          CompiledTakes(fs, j, u);
        }
      }
    }
  }

  lemma CompiledStep(fs: seq<Field>, i: nat)
    requires i < |fs|
    ensures Compiled(fs, i + 1) == CompileField(Compiled(fs, i), NameMap(fs), i)
  {
    hide CompileField, NameMap;
  }

  /** All steps of a chain but the last lead to an earlier field. */
  predicate Descends(path: seq<nat>)
    decreases |path|
  {
    |path| > 2 ==> path[1] < path[0] && Descends(path[1..])
  }

  lemma {:induction false} TakenIsReached(fs: seq<Field>, i: nat, u: string) returns (path: seq<nat>)
    requires i < |fs|
    ensures Takes(fs, i, u) ==> Reaches(fs, path, i, u) && Descends(path)
    decreases i
  {
    hide Leads, Direct;
    path := [i];
    if Takes(fs, i, u) && u !in Direct(fs, i) {
      var j: nat :| j < |fs| && Leads(fs, i, j) && if j < i then Takes(fs, j, u) else u in Direct(fs, j);
      var rest := [j];
      if j < i { rest := TakenIsReached(fs, j, u); }
      path := [i] + rest;
      assert path[1..] == rest;
    }
  }

  lemma {:induction false} ReachedIsTaken(fs: seq<Field>, path: seq<nat>, i: nat, u: string)
    requires i < |fs|
    ensures Reaches(fs, path, i, u) && Descends(path) ==> Takes(fs, i, u)
    decreases |path|
  {
    hide Leads, Direct;
    if |path| > 1 && Reaches(fs, path, i, u) && Descends(path) {
      var j := path[1];
      assert Reaches(fs, path[1..], j, u);
      ReachedIsTaken(fs, path[1..], j, u);
      assert Leads(fs, i, j) && if j < i then Takes(fs, j, u) else u in Direct(fs, j);
    }
  }

  ghost predicate Reachable(fs: seq<Field>, i: nat, u: string) { exists path :: Reaches(fs, path, i, u) }

  ghost predicate ReachableDown(fs: seq<Field>, i: nat, u: string) {
    exists path :: Reaches(fs, path, i, u) && Descends(path)
  }

  /** On every table, one pass gives a field exactly the tokens it reaches by a chain whose steps, all
      but the last, lead to earlier fields. */
  lemma {:induction false} CompiledExactly(fs: seq<Field>, i: nat, u: string)
    requires i < |fs| && u != ""
    ensures u in Tokens(Compiled(fs, |fs|)[i].prereqStr) <==> ReachableDown(fs, i, u)
  {
    hide Compiled, Tokens, Takes, Reaches, Descends;
    CompiledTakes(fs, i, u);
    var path := TakenIsReached(fs, i, u);
    forall path | Reaches(fs, path, i, u) && Descends(path) ensures Takes(fs, i, u) {
      ReachedIsTaken(fs, path, i, u);
    }
  }

  lemma DownIsReachable(fs: seq<Field>, i: nat, u: string)
    ensures ReachableDown(fs, i, u) ==> Reachable(fs, i, u)
  {
    hide Reaches, Descends;
  }

  /** The pass is complete if and only if whatever is reached at all is reached by such a chain. */
  lemma {:induction false} CompleteIff(fs: seq<Field>)
    ensures (forall i: nat, u :: i < |fs| && u != "" ==>
               (u in Tokens(Compiled(fs, |fs|)[i].prereqStr) <==> Reachable(fs, i, u)))
       <==> (forall i: nat, u :: i < |fs| && u != "" && Reachable(fs, i, u) ==> ReachableDown(fs, i, u))
  {
    hide Compiled, Tokens, Reaches, Descends, Reachable, ReachableDown;
    forall i: nat, u: string | i < |fs| && u != ""
      ensures u in Tokens(Compiled(fs, |fs|)[i].prereqStr) <==> ReachableDown(fs, i, u)
      ensures ReachableDown(fs, i, u) ==> Reachable(fs, i, u)
    {
      CompiledExactly(fs, i, u);
      DownIsReachable(fs, i, u);
    }
  }

  /** In a layered table every chain is of that kind. */
  lemma {:induction false} LayeredDescends(fs: seq<Field>, path: seq<nat>, i: nat, u: string)
    requires Layered(fs)
    ensures Reaches(fs, path, i, u) ==> Descends(path)
    decreases |path|
  {
    hide NameMap, Identifier, Tokens;
    if |path| > 1 && Reaches(fs, path, i, u) {
      var j := path[1];
      LayeredDescends(fs, path[1..], j, u);
      var t :| t in Direct(fs, i) && Identifier(t) in NameMap(fs) && NameMap(fs)[Identifier(t)] == j;
      assert Before(fs, t, i);
    }
  }

  /** A list that begins with a slash is final: the pass leaves it as it is. */
  lemma {:induction false} MarkedStays(fs: seq<Field>, i: nat, rest: string)
    requires i < |fs| && (fs[i].prereqStr == "/" || fs[i].prereqStr == "/," + rest)
    ensures Compiled(fs, |fs|)[i] == fs[i]
  {
    hide Tokens, Expand, NameMap, Compiled;
    assert Barrier(fs[i].prereqStr) by {
      OneToken('/');
      assert "/," + rest == "/" + "," + rest;
      TokensJoin("/", rest);
    }
    ChangedOnce(fs, |fs|, i);
    ChangedOnce(fs, i, i);
    CompiledStep(fs, i);
  }

  // ---- a table that fails ----

  lemma OneToken(c: char)
    requires c != ',' && !IsSpace(c)
    ensures Tokens([c]) == [[c]] && Identifier([c]) == if EndsName(c) then "" else [c]
  {
    assert Find([c], ',') == 1 + Find([], ',');
    assert [c][..1] == [c] && SkipSpace([c]) == [c] && TrimEnd([c]) == [c];
    assert Pieces([c], ',') == [Trim([c])] + Pieces("", ',');
  }

  const FORWARD := [Field("A", "B"), Field("B", "C"), Field("C", "D")]

  /** A table that names later fields: A needs B needs C needs D, and A is left without D. */
  lemma {:induction false} ForwardReference()
    ensures Reaches(FORWARD, [0, 1, 2], 0, "D") && "D" !in Tokens(Compiled(FORWARD, 3)[0].prereqStr)
  {
    hide Tokens, Identifier, Reaches, NameMap, Compiled;
    ForwardNames();
    ForwardChain(FORWARD);
    CompiledTakes(FORWARD, 0, "D");
    OneToken('B');
    OneToken('C');
    assert Direct(FORWARD, 0) == ["B"] && Direct(FORWARD, 1) == ["C"];
    assert forall j: nat :: Leads(FORWARD, 0, j) ==> j == 1;
  }

  lemma ForwardNames()
    ensures NameMap(FORWARD) == map["A" := 0, "B" := 1, "C" := 2]
  {
    var fs := FORWARD;
    assert fs[..2] == [fs[0], fs[1]] && fs[..2][..1] == [fs[0]] && fs[..2][..1][..0] == [];
  }

  lemma {:induction false} ForwardChain(fs: seq<Field>)
    requires fs == [Field("A", "B"), Field("B", "C"), Field("C", "D")]
    requires NameMap(fs) == map["A" := 0, "B" := 1, "C" := 2]
    ensures Reaches(fs, [0, 1, 2], 0, "D")
  {
    hide Tokens, Identifier, NameMap;
    OneToken('B');
    OneToken('C');
    OneToken('D');
    assert "B" in Direct(fs, 0) && "C" in Direct(fs, 1) && "D" in Direct(fs, 2);
    assert Reaches(fs, [2], 2, "D");
    assert Leads(fs, 1, 2) && [1, 2][1..] == [2];
    assert Reaches(fs, [1, 2], 1, "D");
    assert Leads(fs, 0, 1) && [0, 1, 2][1..] == [1, 2];
  }
}
