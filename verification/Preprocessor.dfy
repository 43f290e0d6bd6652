/** The preprocessor part of NestingState (external/cpplint/cpplint.py): the nesting stack is saved and
    restored around conditionals so that only the first branch of each has an effect. What a line does
    to the nesting stack otherwise is a parameter. */
module Preprocessor {
  import opened Text

  // ---- recognizing directives ----

  datatype Kind = If | Else | Endif | Other

  function Word(s: string): string {
    if s != "" && IsWord(s[0]) then [s[0]] + Word(s[1..]) else ""
  }

  lemma {:induction false} WordIs(w: string, rest: string)
    requires (forall i :: 0 <= i < |w| ==> IsWord(w[i])) && (rest == "" || !IsWord(rest[0]))
    ensures Word(w + rest) == w
  {
    if w == "" {
      assert w + rest == rest;
    } else {
      assert (w + rest)[1..] == w[1..] + rest;
      WordIs(w[1..], rest);
    }
  }

  lemma {:induction false} WordSplit(s: string)
    ensures Word(s) <= s && (|Word(s)| == |s| || !IsWord(s[|Word(s)|]))
    ensures forall i :: 0 <= i < |Word(s)| ==> IsWord(Word(s)[i])
  {
    if s != "" && IsWord(s[0]) { WordSplit(s[1..]); }
  }

  /** The pattern ^\s*#\s*word\b for a word. */
  ghost predicate Matches(line: string, a: string, b: string, word: string, rest: string) {
    && line == a + "#" + b + word + rest
    && AllSpace(a) && AllSpace(b)
    && (rest == "" || !IsWord(rest[0]))
  }

  ghost predicate Directs(line: string, word: string) { exists a, b, rest :: Matches(line, a, b, word, rest) }

  predicate HasWord(line: string, word: string) {
    var s := SkipSpace(line);
    s != "" && s[0] == '#' && Word(SkipSpace(s[1..])) == word
  }

  lemma {:induction false} MatchGivesWord(line: string, a: string, b: string, word: string, rest: string)
    requires word != "" && (forall i :: 0 <= i < |word| ==> IsWord(word[i])) && Matches(line, a, b, word, rest)
    ensures HasWord(line, word)
  {
    hide SkipSpace, Word;
    var tail := b + (word + rest);
    assert line == a + ("#" + tail);
    SkipSpaceIs(a, "#" + tail);
    assert ("#" + tail)[1..] == tail;
    assert (word + rest)[0] == word[0] && !IsSpace(word[0]);
    SkipSpaceIs(b, word + rest);
    WordIs(word, rest);
  }

  lemma {:induction false} WordGivesMatch(line: string, word: string)
    requires HasWord(line, word)
    ensures Directs(line, word)
  {
    hide SkipSpace, Word, IsSpace, AllSpace, IsWord;
    var s := SkipSpace(line);
    var a := SkipSpaceSplit(line);
    var b := SkipSpaceSplit(s[1..]);
    var t := SkipSpace(s[1..]);
    WordSplit(t);
    assert line == a + "#" + b + word + t[|word|..];
    assert Matches(line, a, b, word, t[|word|..]);
  }

  lemma {:induction false} DirectsIff(line: string, word: string)
    requires word != "" && forall i :: 0 <= i < |word| ==> IsWord(word[i])
    ensures Directs(line, word) <==> HasWord(line, word)
  {
    hide HasWord, Matches;
    if a, b, rest :| Matches(line, a, b, word, rest) { MatchGivesWord(line, a, b, word, rest); }
    if HasWord(line, word) { WordGivesMatch(line, word); }
  }

  /** The three patterns: a hash sign and a whole word, with optional space before each. */
  function KindOf(line: string): Kind {
    var s := SkipSpace(line);
    if s == "" || s[0] != '#' then Other
    else
      var word := Word(SkipSpace(s[1..]));
      if word in ["if", "ifdef", "ifndef"] then If
      else if word in ["else", "elif"] then Else
      else if word == "endif" then Endif
      else Other
  }

  /** Lines are classified exactly as the patterns do. */
  lemma {:induction false} KindIff(line: string)
    ensures KindOf(line) == If <==> Directs(line, "if") || Directs(line, "ifdef") || Directs(line, "ifndef")
    ensures KindOf(line) == Else <==> Directs(line, "else") || Directs(line, "elif")
    ensures KindOf(line) == Endif <==> Directs(line, "endif")
  {
    hide SkipSpace, Word, Directs;
    DirectsIff(line, "if");
    DirectsIff(line, "ifdef");
    DirectsIff(line, "ifndef");
    DirectsIff(line, "else");
    DirectsIff(line, "elif");
    DirectsIff(line, "endif");
  }

  // ---- the state machine ----

  datatype PreprocessorInfo<Block> = PreprocessorInfo(beforeIf: seq<Block>, beforeElse: seq<Block>, seenElse: bool)

  datatype State<Block> = State(stack: seq<Block>, pp: seq<PreprocessorInfo<Block>>)

  function Directive<Block>(s: State<Block>, kind: Kind): State<Block> {
    var n := |s.pp| - 1;
    match kind
    case If => State(s.stack, s.pp + [PreprocessorInfo(s.stack, [], false)])
    case Else =>
      if n < 0 then s
      else if s.pp[n].seenElse then State(s.pp[n].beforeIf, s.pp)
      else State(s.pp[n].beforeIf, s.pp[n := s.pp[n].(seenElse := true, beforeElse := s.stack)])
    case Endif =>
      if n < 0 then s
      else State(if s.pp[n].seenElse then s.pp[n].beforeElse else s.stack, s.pp[..n])
    case Other => s
  }

  /** A line of the file and its number, by which an effect can look at the rest of the file. */
  datatype Line = Line(number: nat, text: string)

  function Numbered(lines: seq<string>): (r: seq<Line>)
    ensures |r| == |lines| && forall i :: 0 <= i < |lines| ==> r[i] == Line(i, lines[i])
  {
    seq(|lines|, i requires 0 <= i < |lines| => Line(i, lines[i]))
  }

  /** What a line does to the nesting stack besides the directives. */
  type Effect<!Block> = (seq<Block>, Line) -> seq<Block>

  function Step<Block>(s: State<Block>, line: Line, f: Effect<Block>): State<Block> {
    var t := Directive(s, KindOf(line.text));
    State(f(t.stack, line), t.pp)
  }

  function Run<Block>(s: State<Block>, lines: seq<Line>, f: Effect<Block>): State<Block>
    decreases |lines|
  {
    if lines == [] then s else Run(Step(s, lines[0], f), lines[1..], f)
  }

  /** The effect of lines without any conditionals among them. */
  function Fold<Block>(stack: seq<Block>, lines: seq<Line>, f: Effect<Block>): seq<Block>
    decreases |lines|
  {
    if lines == [] then stack else Fold(f(stack, lines[0]), lines[1..], f)
  }

  class NestingState<Block> {
    var stack: seq<Block>
    var ppStack: seq<PreprocessorInfo<Block>>

    ghost function Value(): State<Block>
      reads this
    {
      State(stack, ppStack)
    }

    constructor ()
      ensures Value() == State([], [])
    {
      stack, ppStack := [], [];
    }

    method UpdatePreprocessor(line: string)
      modifies this
      ensures Value() == Directive(old(Value()), KindOf(line))
    {
      hide KindOf;
      var top := |ppStack| - 1;
      match KindOf(line)
      case If =>
        ppStack := ppStack + [PreprocessorInfo(stack, [], false)];
      case Else =>
        if top >= 0 {
          if !ppStack[top].seenElse {
            ppStack := ppStack[top := ppStack[top].(seenElse := true)];
            ppStack := ppStack[top := ppStack[top].(beforeElse := stack)];
          }
          stack := ppStack[top].beforeIf;
        }
      case Endif =>
        if top >= 0 {
          if ppStack[top].seenElse {
            stack := ppStack[top].beforeElse;
          }
          ppStack := ppStack[..top];
        }
      case Other =>
    }

    /** All lines of a file; `f` is the rest of Update. */
    method UpdateAll(lines: seq<string>, f: Effect<Block>)
      modifies this
      ensures Value() == Run(old(Value()), Numbered(lines), f)
    {
      hide KindOf, Directive;
      ghost var all := Numbered(lines);
      var linenum := 0;
      assert all[0..] == all;
      while linenum < |lines|
        invariant linenum <= |lines|
        invariant Run(Value(), all[linenum..], f) == Run(old(Value()), all, f)
      {
        assert all[linenum..][1..] == all[linenum + 1..];
        UpdatePreprocessor(lines[linenum]);
        stack := f(stack, Line(linenum, lines[linenum]));
        linenum := linenum + 1;
      }
    }
  }

  // ---- any stream of lines ----

  /** Which open conditionals are past their first branch. */
  function FlagStep(flags: seq<bool>, kind: Kind): seq<bool> {
    var n := |flags| - 1;
    match kind
    case If => flags + [false]
    case Else => if n < 0 then flags else flags[n := true]
    case Endif => if n < 0 then flags else flags[..n]
    case Other => flags
  }

  /** The lines outside all later branches. */
  function Kept(lines: seq<Line>, flags: seq<bool>): seq<Line> {
    if lines == [] then []
    else
      var next := FlagStep(flags, KindOf(lines[0].text));
      (if true in next then [] else [lines[0]]) + Kept(lines[1..], next)
  }

  function Flags<Block>(pp: seq<PreprocessorInfo<Block>>): (r: seq<bool>)
    ensures |r| == |pp| && forall i :: 0 <= i < |pp| ==> r[i] == pp[i].seenElse
  {
    if pp == [] then [] else [pp[0].seenElse] + Flags(pp[1..])
  }

  /** The stack once the outermost later branch is left. */
  function Committed<Block>(stack: seq<Block>, pp: seq<PreprocessorInfo<Block>>): (r: seq<Block>)
    ensures true !in Flags(pp) ==> r == stack
  {
    if pp == [] then stack
    else if pp[0].seenElse then pp[0].beforeElse
    else
      assert forall i :: 0 <= i < |pp| - 1 ==> pp[1..][i] == pp[i + 1];
      Committed(stack, pp[1..])
  }

  /** What the top entry adds. */
  lemma {:induction false} CommittedTop<Block>(stack: seq<Block>, pp: seq<PreprocessorInfo<Block>>,
      top: PreprocessorInfo<Block>)
    ensures Committed(stack, pp + [top]) == Committed(if top.seenElse then top.beforeElse else stack, pp)
  {
    if pp != [] {
      assert (pp + [top])[0] == pp[0] && (pp + [top])[1..] == pp[1..] + [top];
      CommittedTop(stack, pp[1..], top);
    } else {
      assert pp + [top] == [top] && [top][1..] == [];
    }
  }

  lemma {:induction false} CommittedSeen<Block>(stack: seq<Block>, other: seq<Block>, pp: seq<PreprocessorInfo<Block>>)
    requires true in Flags(pp)
    ensures Committed(stack, pp) == Committed(other, pp)
  {
    if !pp[0].seenElse {
      assert Flags(pp)[1..] == Flags(pp[1..]);
      var i :| 0 <= i < |pp| && Flags(pp)[i];
      assert Flags(pp[1..])[i - 1];
      CommittedSeen(stack, other, pp[1..]);
    }
  }

  lemma {:induction false} FlagsOf<Block>(s: State<Block>, kind: Kind)
    ensures Flags(Directive(s, kind).pp) == FlagStep(Flags(s.pp), kind)
  {
    hide Flags;
    var a, b := Flags(Directive(s, kind).pp), FlagStep(Flags(s.pp), kind);
    assert |a| == |b|;
    assert forall i :: 0 <= i < |a| ==> a[i] == b[i];
  }

  lemma {:induction false} DirectiveKeeps<Block>(s: State<Block>, kind: Kind)
    ensures Committed(Directive(s, kind).stack, Directive(s, kind).pp) == Committed(s.stack, s.pp)
  {
    hide Committed, Flags;
    var t := Directive(s, kind);
    if kind == If {
      CommittedTop(s.stack, s.pp, PreprocessorInfo(s.stack, [], false));
    } else if s.pp != [] && kind != Other {
      var n := |s.pp| - 1;
      var low, top := s.pp[..n], s.pp[n];
      assert s.pp == low + [top];
      CommittedTop(s.stack, low, top);
      if kind == Else {
        assert t.pp == low + [t.pp[n]];
        CommittedTop(t.stack, low, t.pp[n]);
      }
    }
  }

  /** From any state and for any lines, matched or not: what will remain is the effect of the kept lines. */
  lemma {:induction false} OnlyKeptLinesCount<Block>(s: State<Block>, lines: seq<Line>, f: Effect<Block>)
    ensures var r := Run(s, lines, f);
      Committed(r.stack, r.pp) == Fold(Committed(s.stack, s.pp), Kept(lines, Flags(s.pp)), f)
    decreases |lines|
  {
    hide Committed, Flags, Directive, FlagStep, KindOf;
    if lines != [] {
      var kind, line := KindOf(lines[0].text), lines[0];
      var d, t := Directive(s, kind), Step(s, line, f);
      DirectiveKeeps(s, kind);
      FlagsOf(s, kind);
      OnlyKeptLinesCount(t, lines[1..], f);
      var rest := Kept(lines[1..], Flags(d.pp));
      if true in Flags(d.pp) {
        CommittedSeen(d.stack, t.stack, d.pp);
        assert Kept(lines, Flags(s.pp)) == rest;
      } else {
        assert Kept(lines, Flags(s.pp)) == [line] + rest;
        assert ([line] + rest)[1..] == rest;
      }
    }
  }

  // ---- well-nested files ----

  /** A file is lines and conditionals; a conditional has a first branch and any number of others. */
  datatype Items =
    | Nothing
    | Text(line: Line, rest: Items)
    | Conditional(ifLine: Line, first: Items, others: Branches, endLine: Line, rest: Items)

  datatype Branches = Nomore | Branch(elseLine: Line, body: Items, more: Branches)

  predicate WellFormed(items: Items) {
    match items
    case Nothing => true
    case Text(line, rest) => KindOf(line.text) == Other && WellFormed(rest)
    case Conditional(ifLine, first, others, endLine, rest) =>
      KindOf(ifLine.text) == If && WellFormed(first) && WellFormedBranches(others)
      && KindOf(endLine.text) == Endif && WellFormed(rest)
  }

  predicate WellFormedBranches(branches: Branches) {
    match branches
    case Nomore => true
    case Branch(elseLine, body, more) => KindOf(elseLine.text) == Else && WellFormed(body) && WellFormedBranches(more)
  }

  function Flatten(items: Items): seq<Line> {
    match items
    case Nothing => []
    case Text(line, rest) => [line] + Flatten(rest)
    case Conditional(ifLine, first, others, endLine, rest) =>
      [ifLine] + Flatten(first) + FlattenBranches(others) + [endLine] + Flatten(rest)
  }

  function FlattenBranches(branches: Branches): seq<Line> {
    match branches
    case Nomore => []
    case Branch(elseLine, body, more) => [elseLine] + Flatten(body) + FlattenBranches(more)
  }

  /** The file with every branch but the first deleted. */
  function FirstBranches(items: Items): seq<Line> {
    match items
    case Nothing => []
    case Text(line, rest) => [line] + FirstBranches(rest)
    case Conditional(ifLine, first, _, endLine, rest) =>
      [ifLine] + FirstBranches(first) + [endLine] + FirstBranches(rest)
  }

  lemma {:induction false} RunAppend<Block>(s: State<Block>, a: seq<Line>, b: seq<Line>, f: Effect<Block>)
    ensures Run(s, a + b, f) == Run(Run(s, a, f), b, f)
    decreases |a|
  {
    hide Step;
    if a == [] {
      assert a + b == b;
    } else {
      assert (a + b)[1..] == a[1..] + b;
      RunAppend(Step(s, a[0], f), a[1..], b, f);
    }
  }

  lemma {:induction false} RunOne<Block>(s: State<Block>, line: Line, f: Effect<Block>)
    ensures Run(s, [line], f) == Step(s, line, f)
  {
    hide Step;
    assert [line][1..] == [];
    assert Run(s, [line], f) == Run(Step(s, line, f), [], f);
  }

  lemma {:induction false} FoldAppend<Block>(stack: seq<Block>, a: seq<Line>, b: seq<Line>, f: Effect<Block>)
    ensures Fold(stack, a + b, f) == Fold(Fold(stack, a, f), b, f)
    decreases |a|
  {
    if a == [] {
      assert a + b == b;
    } else {
      assert (a + b)[1..] == a[1..] + b;
      FoldAppend(f(stack, a[0]), a[1..], b, f);
    }
  }

  lemma FoldOne<Block>(stack: seq<Block>, line: Line, f: Effect<Block>)
    ensures Fold(stack, [line], f) == f(stack, line)
  {
    assert [line][1..] == [];
  }

  /** Between the branches of a conditional: `kept` is what #endif will restore. */
  predicate Saved<Block(==)>(s: State<Block>, base: seq<PreprocessorInfo<Block>>, before: seq<Block>,
    kept: seq<Block>) {
    || (s.pp == base + [PreprocessorInfo(before, [], false)] && s.stack == kept)
    || s.pp == base + [PreprocessorInfo(before, kept, true)]
  }

  /** Later branches leave the saved stacks as they are and, once there is one, restore the first's. */
  lemma {:induction false} BranchesRestore<Block>(s: State<Block>, base: seq<PreprocessorInfo<Block>>,
                                                          before: seq<Block>, kept: seq<Block>,
                                                          branches: Branches, f: Effect<Block>)
    requires WellFormedBranches(branches)
    requires Saved(s, base, before, kept)
    ensures Saved(Run(s, FlattenBranches(branches), f), base, before, kept)
    decreases branches
  {
    hide KindOf, Flatten, FlattenBranches;
    match branches
    case Nomore => NoBranches();
    case Branch(elseLine, body, more) =>
      assert FlattenBranches(branches) == [elseLine] + Flatten(body) + FlattenBranches(more)
      by { FirstBranch(branches); }
      var t := Step(s, elseLine, f);
      assert t.pp == base + [PreprocessorInfo(before, kept, true)];
      RunOne(s, elseLine, f);
      RunAppend(s, [elseLine], Flatten(body), f);
      RunAppend(s, [elseLine] + Flatten(body), FlattenBranches(more), f);
      WellNested(t, body, f);
      BranchesRestore(Run(t, Flatten(body), f), base, before, kept, more, f);
  }

  lemma NoBranches()
    ensures FlattenBranches(Nomore) == []
  {}

  lemma FirstBranch(b: Branches)
    requires b.Branch?
    ensures FlattenBranches(b) == [b.elseLine] + Flatten(b.body) + FlattenBranches(b.more)
  {}

  /** A well-nested file leaves the saved stacks unchanged and has the effect of its first branches,
      at any depth and from any state. */
  lemma {:induction false} WellNested<Block>(s: State<Block>, items: Items, f: Effect<Block>)
    requires WellFormed(items)
    ensures Run(s, Flatten(items), f) == State(Fold(s.stack, FirstBranches(items), f), s.pp)
    decreases items
  {
    match items
    case Nothing =>
    case Text(line, rest) =>
      RunOne(s, line, f);
      RunAppend(s, [line], Flatten(rest), f);
      FoldOne(s.stack, line, f);
      FoldAppend(s.stack, [line], FirstBranches(rest), f);
      WellNested(Step(s, line, f), rest, f);
    case Conditional(_, _, _, _, rest) =>
      var r := ConditionalStep(s, items, f);
      WellNested(r, rest, f);
  }

  lemma {:induction false} ConditionalStep<Block>(s: State<Block>, items: Items, f: Effect<Block>)
    returns (r: State<Block>)
    requires WellFormed(items) && items.Conditional?
    ensures Run(s, Flatten(items), f) == Run(r, Flatten(items.rest), f) && r.pp == s.pp
    ensures Fold(s.stack, FirstBranches(items), f) == Fold(r.stack, FirstBranches(items.rest), f)
    decreases items, 0
  {
    hide KindOf;
    var Conditional(ifLine, first, others, endLine, rest) := items;
    var a := Step(s, ifLine, f);
    RunOne(s, ifLine, f);
    RunAppend(s, [ifLine], Flatten(first), f);
    FoldOne(s.stack, ifLine, f);
    FoldAppend(s.stack, [ifLine], FirstBranches(first), f);
    WellNested(a, first, f);
    var b := Run(a, Flatten(first), f);
    BranchesRestore(b, s.pp, s.stack, b.stack, others, f);
    RunAppend(s, [ifLine] + Flatten(first), FlattenBranches(others), f);
    var c := Run(b, FlattenBranches(others), f);
    RunOne(c, endLine, f);
    RunAppend(s, [ifLine] + Flatten(first) + FlattenBranches(others), [endLine], f);
    RunAppend(s, [ifLine] + Flatten(first) + FlattenBranches(others) + [endLine], Flatten(rest), f);
    r := Step(c, endLine, f);
    FoldOne(b.stack, endLine, f);
    FoldAppend(s.stack, [ifLine] + FirstBranches(first), [endLine], f);
    FoldAppend(s.stack, [ifLine] + FirstBranches(first) + [endLine], FirstBranches(rest), f);
    assert r.pp == s.pp;
  }

  // ---- the stack at every place of a well-nested file ----

  /** Behind some items, or further in: in the first or in a later branch of the conditional that follows. */
  datatype Place =
    | Here(done: Items)
    | InFirst(done: Items, ifLine: Line, inner: Place)
    | InLater(done: Items, ifLine: Line, first: Items, earlier: Branches, elseLine: Line, inner: Place)

  predicate WellPlaced(p: Place) {
    && WellFormed(p.done)
    && match p {
      case Here(_) => true
      case InFirst(_, ifLine, inner) => KindOf(ifLine.text) == If && WellPlaced(inner)
      case InLater(_, ifLine, first, earlier, elseLine, inner) =>
        KindOf(ifLine.text) == If && WellFormed(first) && WellFormedBranches(earlier)
        && KindOf(elseLine.text) == Else && WellPlaced(inner)
    }
  }

  /** All lines up to the place. */
  function Before(p: Place): seq<Line> {
    Flatten(p.done) +
    match p
    case Here(_) => []
    case InFirst(_, ifLine, inner) => [ifLine] + Before(inner)
    case InLater(_, ifLine, first, earlier, elseLine, inner) =>
      [ifLine] + Flatten(first) + FlattenBranches(earlier) + [elseLine] + Before(inner)
  }

  /** The lines whose effect is seen there: those of the branches around it and of first branches before it. */
  function OnPath(p: Place): seq<Line> {
    FirstBranches(p.done) +
    match p
    case Here(_) => []
    case InFirst(_, ifLine, inner) => [ifLine] + OnPath(inner)
    case InLater(_, _, _, _, elseLine, inner) => [elseLine] + OnPath(inner)
  }

  /** Every later branch, behind any others and at any depth, begins with the stack held before its #if. */
  lemma {:induction false} LaterBranchBegins<Block>(s: State<Block>, ifLine: Line, first: Items, earlier: Branches,
                                                    elseLine: Line, f: Effect<Block>)
    requires KindOf(ifLine.text) == If && WellFormed(first) && WellFormedBranches(earlier)
    requires KindOf(elseLine.text) == Else
    ensures Run(s, [ifLine] + Flatten(first) + FlattenBranches(earlier) + [elseLine], f).stack == f(s.stack, elseLine)
  {
    hide KindOf, Flatten, FlattenBranches, FirstBranches;
    var a := Step(s, ifLine, f);
    RunOne(s, ifLine, f);
    RunAppend(s, [ifLine], Flatten(first), f);
    WellNested(a, first, f);
    var b := Run(a, Flatten(first), f);
    RunAppend(s, [ifLine] + Flatten(first), FlattenBranches(earlier), f);
    BranchesRestore(b, s.pp, s.stack, b.stack, earlier, f);
    var c := Run(b, FlattenBranches(earlier), f);
    RunAppend(s, [ifLine] + Flatten(first) + FlattenBranches(earlier), [elseLine], f);
    RunOne(c, elseLine, f);
  }

  /** At every place of a well-nested file the stack is the effect of the lines on the path to it. */
  lemma {:induction false} StackAt<Block>(s: State<Block>, p: Place, f: Effect<Block>)
    requires WellPlaced(p)
    ensures Run(s, Before(p), f).stack == Fold(s.stack, OnPath(p), f)
    decreases p, 0
  {
    hide KindOf, Flatten, FlattenBranches, FirstBranches, Run, Fold;
    WellNested(s, p.done, f);
    var t := Run(s, Flatten(p.done), f);
    match p
    case Here(done) =>
      assert Before(p) == Flatten(done) && OnPath(p) == FirstBranches(done);
    case InFirst(done, ifLine, inner) =>
      RunAppend(s, Flatten(done), [ifLine] + Before(inner), f);
      FoldAppend(s.stack, FirstBranches(done), [ifLine] + OnPath(inner), f);
      EnterFirst(t, ifLine, inner, f);
    case InLater(done, ifLine, first, earlier, elseLine, inner) =>
      var lines := [ifLine] + Flatten(first) + FlattenBranches(earlier) + [elseLine];
      RunAppend(s, Flatten(done), lines + Before(inner), f);
      RunAppend(t, lines, Before(inner), f);
      FoldAppend(s.stack, FirstBranches(done), [elseLine] + OnPath(inner), f);
      FoldAppend(t.stack, [elseLine], OnPath(inner), f);
      FoldOne(t.stack, elseLine, f);
      LaterBranchBegins(t, ifLine, first, earlier, elseLine, f);
      StackAt(Run(t, lines, f), inner, f);
  }

  lemma {:induction false} EnterFirst<Block>(s: State<Block>, ifLine: Line, inner: Place, f: Effect<Block>)
    requires KindOf(ifLine.text) == If && WellPlaced(inner)
    ensures Run(s, [ifLine] + Before(inner), f).stack == Fold(s.stack, [ifLine] + OnPath(inner), f)
    decreases inner, 1
  {
    hide KindOf, Run, Fold, Before, OnPath, WellPlaced;
    RunAppend(s, [ifLine], Before(inner), f);
    RunOne(s, ifLine, f);
    FoldAppend(s.stack, [ifLine], OnPath(inner), f);
    FoldOne(s.stack, ifLine, f);
    StackAt(Step(s, ifLine, f), inner, f);
  }

  /** However far one reads into a well-nested file, one is at such a place. */
  lemma {:induction false} PlaceOf(items: Items, n: nat) returns (p: Place)
    requires WellFormed(items) && n <= |Flatten(items)|
    ensures WellPlaced(p) && Before(p) == Flatten(items)[..n]
    decreases items, 1
  {
    hide KindOf, Before, FlattenBranches;
    if n == 0 {
      p := Here(Nothing);
      assert Before(p) == [] by { NoLines(); }
    } else if items.Text? {
      var q := PlaceOf(items.rest, n - 1);
      p := q.(done := Text(items.line, q.done));
      BehindLine(items.line, q);
    } else {
      var inside := 1 + |Flatten(items.first)| + |FlattenBranches(items.others)|;
      if n <= inside {
        p := PlaceInside(items, n);
      } else {
        var q := PlaceOf(items.rest, n - inside - 1);
        p := q.(done := Conditional(items.ifLine, items.first, items.others, items.endLine, q.done));
        PastConditional(items, q, n);
      }
    }
  }

  lemma {:induction false} BehindLine(line: Line, q: Place)
    ensures Before(q.(done := Text(line, q.done))) == [line] + Before(q)
  {
    hide FlattenBranches;
  }

  lemma {:induction false} PastConditional(items: Items, q: Place, n: nat)
    requires items.Conditional?
    requires var k := 2 + |Flatten(items.first)| + |FlattenBranches(items.others)|;
      k <= n <= |Flatten(items)| && Before(q) == Flatten(items.rest)[..n - k]
    ensures Before(q.(done := Conditional(items.ifLine, items.first, items.others, items.endLine, q.done)))
         == Flatten(items)[..n]
  {
    hide FlattenBranches;
    var front := [items.ifLine] + Flatten(items.first) + FlattenBranches(items.others) + [items.endLine];
    assert Flatten(items) == front + Flatten(items.rest);
    var p := q.(done := Conditional(items.ifLine, items.first, items.others, items.endLine, q.done));
    assert Flatten(p.done) == front + Flatten(q.done);
    assert Before(p) == front + Before(q);
  }

  lemma {:induction false} PlaceInside(items: Items, n: nat) returns (p: Place)
    requires WellFormed(items) && items.Conditional?
    requires 0 < n <= 1 + |Flatten(items.first)| + |FlattenBranches(items.others)|
    ensures WellPlaced(p) && Before(p) == Flatten(items)[..n]
    decreases items, 0
  {
    hide KindOf, FlattenBranches;
    var first := Flatten(items.first);
    if n <= 1 + |first| {
      var inner := PlaceOf(items.first, n - 1);
      p := InFirst(Nothing, items.ifLine, inner);
      assert Before(p) == [items.ifLine] + first[..n - 1];
    } else {
      NoBranches();
      p := PlaceInBranch(items.ifLine, items.first, Nomore, items.others, n - 1 - |first|);
      var all := FlattenBranches(items.others);
      assert Before(p) == [items.ifLine] + first + all[..n - 1 - |first|];
    }
  }

  function Snoc(branches: Branches, elseLine: Line, body: Items): Branches {
    match branches
    case Nomore => Branch(elseLine, body, Nomore)
    case Branch(e, b, more) => Branch(e, b, Snoc(more, elseLine, body))
  }

  lemma {:induction false} SnocFlat(branches: Branches, elseLine: Line, body: Items)
    ensures FlattenBranches(Snoc(branches, elseLine, body)) == FlattenBranches(branches) + [elseLine] + Flatten(body)
    ensures WellFormedBranches(Snoc(branches, elseLine, body))
       <==> WellFormedBranches(branches) && KindOf(elseLine.text) == Else && WellFormed(body)
  {
    hide KindOf, Flatten;
    if branches.Branch? { SnocFlat(branches.more, elseLine, body); }
  }

  lemma {:induction false} PlaceInBranch(ifLine: Line, first: Items, earlier: Branches, branches: Branches, n: nat)
    returns (p: Place)
    requires KindOf(ifLine.text) == If && WellFormed(first) && WellFormedBranches(earlier)
    requires WellFormedBranches(branches) && branches.Branch? && 0 < n <= |FlattenBranches(branches)|
    ensures WellPlaced(p)
    ensures Before(p) == [ifLine] + Flatten(first) + FlattenBranches(earlier) + FlattenBranches(branches)[..n]
    decreases branches, 0
  {
    hide KindOf, Flatten, FlattenBranches, Before;
    FirstBranch(branches);
    var Branch(elseLine, body, more) := branches;
    var head := [ifLine] + Flatten(first) + FlattenBranches(earlier);
    if n <= 1 + |Flatten(body)| {
      var inner := PlaceOf(body, n - 1);
      p := InLater(Nothing, ifLine, first, earlier, elseLine, inner);
      assert Before(p) == head + ([elseLine] + Before(inner)) by { InLaterBefore(p); }
      BranchFront(branches, n);
    } else {
      SnocFlat(earlier, elseLine, body);
      var k := n - 1 - |Flatten(body)|;
      assert more.Branch? by { NoBranches(); }
      p := PlaceInBranch(ifLine, first, Snoc(earlier, elseLine, body), more, k);
      assert Before(p) == head + ([elseLine] + Flatten(body) + FlattenBranches(more)[..k]);
      BranchFront(branches, n);
    }
  }

  lemma {:induction false} BranchFront(b: Branches, n: nat)
    requires b.Branch? && 0 < n <= |FlattenBranches(b)|
    ensures var k := 1 + |Flatten(b.body)|;
      FlattenBranches(b)[..n] == if n <= k then [b.elseLine] + Flatten(b.body)[..n - 1]
                                 else [b.elseLine] + Flatten(b.body) + FlattenBranches(b.more)[..n - k]
  {
    hide Flatten, FlattenBranches;
    FirstBranch(b);
  }

  lemma InLaterBefore(p: Place)
    requires p.InLater? && p.done == Nothing
    ensures Before(p) ==
      [p.ifLine] + Flatten(p.first) + FlattenBranches(p.earlier) + ([p.elseLine] + Before(p.inner))
  {
    hide FlattenBranches;
  }

  lemma NoLines()
    ensures Flatten(Nothing) == [] && Before(Here(Nothing)) == []
  {}
}
