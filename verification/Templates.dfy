/** Angle brackets in the bracket matcher. They are only tentative, so the two searches match them on
    template arguments and not on every text. */
module Templates {
  import opened Options
  import opened Text
  import opened Brackets

  /** A run of template arguments, or of text in round, square or curly brackets, within one line. */
  datatype Run =
    | End
    | Plain(rest: Run)                          // any character that is no bracket and no semicolon
    | Arrow(rest: Run)                          // ->
    | Shift(rest: Run)                          // <<
    | Semicolons(rest: Run)                     // ; inside brackets
    | NotLess(rest: Run)                        // >= between blanks, inside brackets
    | Angles(inner: Run, rest: Run)             // <...>
    | Group(inner: Run, rest: Run)              // (...), [...] or {...}

  function Length(t: Run): nat {
    match t
    case End => 0
    case Plain(rest) => 1 + Length(rest)
    case Arrow(rest) => 2 + Length(rest)
    case Shift(rest) => 2 + Length(rest)
    case Semicolons(rest) => 1 + Length(rest)
    case NotLess(rest) => 4 + Length(rest)
    case Angles(inner, rest) => 2 + Length(inner) + Length(rest)
    case Group(inner, rest) => 2 + Length(inner) + Length(rest)
  }

  /** Characters of the first token. */
  function Width(t: Run): nat
    requires t != End
  {
    Length(t) - Length(t.rest)
  }

  predicate IsPlain(c: char) { c !in "([{<>}]);" }

  /** The line has the run at `i`; `angles` tells whether an angle bracket encloses it. */
  predicate Has(line: string, i: nat, t: Run, angles: bool)
    decreases t
  {
    && i + Length(t) <= |line|
    && match t
       case End => true
       case Plain(rest) => IsPlain(line[i]) && Has(line, i + 1, rest, angles)
       case Arrow(rest) => line[i..i + 2] == "->" && Has(line, i + 2, rest, angles)
       case Shift(rest) => line[i..i + 2] == "<<" && NotAfter(line, i, '<') && Has(line, i + 2, rest, angles)
       case Semicolons(rest) => !angles && line[i] == ';' && Has(line, i + 1, rest, angles)
       case NotLess(rest) => !angles && line[i..i + 4] == " >= " && Has(line, i + 4, rest, angles)
       case Angles(inner, rest) =>
         var j := i + 1 + Length(inner);
         AnglePair(line, i, j) && Has(line, i + 1, inner, true) && Has(line, j + 1, rest, angles)
       case Group(inner, rest) =>
         var j := i + 1 + Length(inner);
         GroupPair(line, i, j) && Has(line, i + 1, inner, false) && Has(line, j + 1, rest, angles)
  }

  predicate AnglePair(line: string, i: nat, j: nat) {
    && i < j < |line| && line[i] == '<' && NotAfter(line, i, '<')
    && line[j] == '>' && line[j - 1] != '-' && !Compares(line, j)
  }

  predicate GroupPair(line: string, i: nat, j: nat) {
    i < j < |line| && line[i] in "([{" && line[j] == Mate(line[i])
  }

  lemma {:induction false} HasRest(line: string, i: nat, t: Run, angles: bool)
    requires Has(line, i, t, angles) && t != End
    ensures Has(line, i + Width(t), t.rest, angles) && i + Length(t) <= |line|
  {
    hide IsPlain, NotAfter, AnglePair, GroupPair;
  }

  lemma {:induction false} HasUnfolds(line: string, i: nat, t: Run, angles: bool)
    requires Has(line, i, t, angles)
    ensures i + Length(t) <= |line|
    ensures t.Plain? ==> i < |line| && IsPlain(line[i]) && Has(line, i + 1, t.rest, angles)
    ensures t.Arrow? ==> i + 2 <= |line| && line[i..i + 2] == "->" && Has(line, i + 2, t.rest, angles)
    ensures t.Shift? ==>
      i + 2 <= |line| && line[i..i + 2] == "<<" && NotAfter(line, i, '<') && Has(line, i + 2, t.rest, angles)
    ensures t.Semicolons? ==> !angles && i < |line| && line[i] == ';' && Has(line, i + 1, t.rest, angles)
    ensures t.NotLess? ==>
      !angles && i + 4 <= |line| && line[i..i + 4] == " >= " && Has(line, i + 4, t.rest, angles)
    ensures t.Angles? ==> AnglePair(line, i, i + 1 + Length(t.inner)) && Has(line, i + 1, t.inner, true)
    ensures t.Angles? ==> Has(line, i + 2 + Length(t.inner), t.rest, angles)
    ensures t.Group? ==> GroupPair(line, i, i + 1 + Length(t.inner)) && Has(line, i + 1, t.inner, false)
    ensures t.Group? ==> Has(line, i + 2 + Length(t.inner), t.rest, angles)
  {
    hide IsPlain, NotAfter, AnglePair, GroupPair;
  }

  predicate NotAfter(line: string, i: nat, c: char) { i <= |line| && (i > 0 ==> line[i - 1] != c) }

  /** A blank, this character, an equals sign and a blank. */
  predicate Compares(line: string, i: nat) {
    0 < i && i + 2 < |line| && IsSpace(line[i - 1]) && line[i + 1] == '=' && IsSpace(line[i + 2])
  }

  /** No operator function is named in the line. */
  predicate NoOperator(line: string) { forall i :: 0 <= i <= |line| ==> !OperatorBefore(line[..i]) }

  predicate Inside(stack: string, angles: bool, angle: char) { stack != "" && (Top(stack) == angle <==> angles) }

  lemma NothingDropped(stack: string, angle: char)
    requires stack != "" && Top(stack) != angle
    ensures Drop(stack, angle) == stack
  {}

  lemma Pushed(stack: string, c: char)
    ensures Top(stack + [c]) == c && Pop(stack + [c]) == stack
  {}

  lemma {:induction false} Slice2(line: string, i: nat, a: char, b: char)
    requires i + 2 <= |line| && line[i..i + 2] == [a, b]
    ensures line[i] == a && line[i + 1] == b
  {
    assert line[i] == line[i..i + 2][0] && line[i + 1] == line[i..i + 2][1];
  }

  // ---- forward, one token at a time ----

  lemma {:induction false} ForwardPlain(line: string, i: nat, stack: string)
    requires i < |line| && IsPlain(line[i])
    ensures ForwardLine(line, i, stack) == ForwardLine(line, i + 1, stack)
  {
    hide Drop, OperatorBefore;
  }

  lemma {:induction false} ForwardOpenAngle(line: string, i: nat, stack: string)
    requires i < |line| && line[i] == '<' && NotAfter(line, i, '<') && NoOperator(line)
    ensures ForwardLine(line, i, stack) == ForwardLine(line, i + 1, stack + ['<'])
  {
    hide Drop, OperatorBefore;
  }

  lemma {:induction false} ForwardCloseAngle(line: string, i: nat, stack: string)
    requires 0 < i < |line| && line[i] == '>' && line[i - 1] != '-' && NoOperator(line)
    ensures ForwardLine(line, i, stack + ['<']) == if stack == "" then Found(i) else ForwardLine(line, i + 1, stack)
    ensures stack != "" && Top(stack) != '<' ==> ForwardLine(line, i, stack) == ForwardLine(line, i + 1, stack)
  {
    hide Drop, OperatorBefore;
    Pushed(stack, '<');
  }

  lemma {:induction false} ForwardShift(line: string, i: nat, stack: string)
    requires i + 2 <= |line| && line[i..i + 2] == "<<" && NotAfter(line, i, '<') && NoOperator(line) && stack != ""
    ensures ForwardLine(line, i, stack) == ForwardLine(line, i + 2, stack)
  {
    hide Drop, OperatorBefore, ForwardLine;
    Slice2(line, i, '<', '<');
    ForwardOpenAngle(line, i, stack);
    Pushed(stack, '<');
    assert ForwardChar(line, i + 1, stack + ['<']) == Next(stack);
    ForwardNext(line, i + 1, stack + ['<']);
  }

  lemma {:induction false} ForwardArrow(line: string, i: nat, stack: string)
    requires i + 2 <= |line| && line[i..i + 2] == "->"
    ensures ForwardLine(line, i, stack) == ForwardLine(line, i + 2, stack)
  {
    hide Drop, OperatorBefore, ForwardLine;
    Slice2(line, i, '-', '>');
    ForwardPlain(line, i, stack);
    ForwardNext(line, i + 1, stack);
  }

  lemma {:induction false} ForwardNext(line: string, i: nat, stack: string)
    requires i < |line|
    ensures ForwardLine(line, i, stack) ==
      match ForwardChar(line, i, stack) { case Done(r) => r case Next(st) => ForwardLine(line, i + 1, st) }
  {
    hide ForwardChar;
  }

  lemma {:induction false} ForwardSemicolon(line: string, i: nat, stack: string)
    requires i < |line| && line[i] == ';' && Inside(stack, false, '<')
    ensures ForwardLine(line, i, stack) == ForwardLine(line, i + 1, stack)
  {
    hide Drop, OperatorBefore;
    NothingDropped(stack, '<');
  }

  lemma {:induction false} ForwardNotLess(line: string, i: nat, stack: string)
    requires i + 4 <= |line| && line[i..i + 4] == " >= " && Inside(stack, false, '<') && NoOperator(line)
    ensures ForwardLine(line, i, stack) == ForwardLine(line, i + 4, stack)
  {
    hide ForwardLine, OperatorBefore, NoOperator;
    var s := line[i..i + 4];
    assert line[i] == s[0] && line[i + 1] == s[1] && line[i + 2] == s[2] && line[i + 3] == s[3];
    ForwardPlain(line, i, stack);
    ForwardCloseAngle(line, i + 1, stack);
    ForwardPlain(line, i + 2, stack);
    ForwardPlain(line, i + 3, stack);
  }

  lemma {:induction false} ForwardOpenGroup(line: string, i: nat, stack: string)
    requires i < |line| && line[i] in "([{"
    ensures ForwardLine(line, i, stack) == ForwardLine(line, i + 1, stack + [line[i]])
  {
    hide Drop, OperatorBefore;
  }

  lemma {:induction false} ForwardCloseGroup(line: string, i: nat, stack: string, c: char)
    requires i < |line| && c in "([{" && line[i] == Mate(c) && stack != ""
    ensures ForwardLine(line, i, stack + [c]) == ForwardLine(line, i + 1, stack)
  {
    hide Drop, OperatorBefore;
    Pushed(stack, c);
    NothingDropped(stack + [c], '<');
  }

  lemma {:induction false} ForwardFirst(line: string, i: nat, t: Run, stack: string, angles: bool)
    requires Has(line, i, t, angles) && t != End && NoOperator(line) && Inside(stack, angles, '<')
    ensures i + Width(t) <= |line| && ForwardLine(line, i, stack) == ForwardLine(line, i + Width(t), stack)
    decreases t, 0
  {
    hide ForwardLine, NoOperator, Compares, NotAfter, IsPlain, Has, AnglePair, GroupPair;
    HasUnfolds(line, i, t, angles);
    match t {
      case Plain(_) => ForwardPlain(line, i, stack);
      case Arrow(_) => ForwardArrow(line, i, stack);
      case Shift(_) => ForwardShift(line, i, stack);
      case Semicolons(_) => ForwardSemicolon(line, i, stack);
      case NotLess(_) => ForwardNotLess(line, i, stack);
      case Angles(inner, _) => ForwardAngles(line, i, inner, stack);
      case Group(inner, _) => ForwardGroup(line, i, inner, stack);
    }
  }

  /** The forward search passes over a run and has the same stack behind it. */
  lemma {:induction false} ForwardPasses(line: string, i: nat, t: Run, stack: string, angles: bool)
    requires Has(line, i, t, angles) && NoOperator(line) && Inside(stack, angles, '<')
    ensures i + Length(t) <= |line| && ForwardLine(line, i, stack) == ForwardLine(line, i + Length(t), stack)
    decreases t, 1
  {
    hide ForwardLine, NoOperator, Has, Length;
    if t == End {
      NothingLeft(line, i, angles);
    } else {
      HasRest(line, i, t, angles);
      ForwardFirst(line, i, t, stack, angles);
      ForwardPasses(line, i + Width(t), t.rest, stack, angles);
    }
  }

  lemma NothingLeft(line: string, i: nat, angles: bool)
    requires Has(line, i, End, angles)
    ensures Length(End) == 0 && i <= |line|
  {}

  lemma {:induction false} ForwardAngles(line: string, i: nat, inner: Run, stack: string)
    requires NoOperator(line) && stack != ""
    requires AnglePair(line, i, i + 1 + Length(inner)) && Has(line, i + 1, inner, true)
    ensures ForwardLine(line, i, stack) == ForwardLine(line, i + 2 + Length(inner), stack)
    decreases inner, 2
  {
    hide ForwardLine, NoOperator, Compares, NotAfter, Has;
    ForwardOpenAngle(line, i, stack);
    Pushed(stack, '<');
    ForwardPasses(line, i + 1, inner, stack + ['<'], true);
    ForwardCloseAngle(line, i + 1 + Length(inner), stack);
  }

  lemma {:induction false} ForwardGroup(line: string, i: nat, inner: Run, stack: string)
    requires NoOperator(line) && stack != ""
    requires GroupPair(line, i, i + 1 + Length(inner)) && Has(line, i + 1, inner, false)
    ensures ForwardLine(line, i, stack) == ForwardLine(line, i + 2 + Length(inner), stack)
    decreases inner, 2
  {
    hide ForwardLine, NoOperator, Has, Mate;
    ForwardOpenGroup(line, i, stack);
    Pushed(stack, line[i]);
    ForwardPasses(line, i + 1, inner, stack + [line[i]], false);
    ForwardCloseGroup(line, i + 1 + Length(inner), stack, line[i]);
  }

  // ---- backward ----

  lemma {:induction false} BackwardNext(line: string, i: nat, stack: string)
    requires i < |line|
    ensures BackwardLine(line, i, stack) ==
      match BackwardChar(line, i, stack) {
        case Done(r) => r
        case Next(st) => BackwardLine(line, if Skips(line, i) then i - 2 else i - 1, st)
      }
  {
    hide BackwardChar, Skips;
  }

  lemma {:induction false} BackwardPlain(line: string, i: nat, stack: string)
    requires i < |line| && IsPlain(line[i])
    ensures BackwardLine(line, i, stack) == BackwardLine(line, i - 1, stack)
  {
    hide Drop, OperatorBefore, BackwardLine;
    BackwardNext(line, i, stack);
  }

  lemma {:induction false} BackwardArrow(line: string, i: nat, stack: string)
    requires i + 2 <= |line| && line[i..i + 2] == "->"
    ensures BackwardLine(line, i + 1, stack) == BackwardLine(line, i - 1, stack)
  {
    hide Drop, OperatorBefore, BackwardLine;
    Slice2(line, i, '-', '>');
    BackwardNext(line, i + 1, stack);
  }

  lemma {:induction false} BackwardShift(line: string, i: nat, stack: string)
    requires i + 2 <= |line| && line[i..i + 2] == "<<"
    ensures BackwardLine(line, i + 1, stack) == BackwardLine(line, i - 1, stack)
  {
    hide Drop, OperatorBefore, BackwardLine;
    Slice2(line, i, '<', '<');
    BackwardNext(line, i + 1, stack);
  }

  lemma {:induction false} BackwardSemicolon(line: string, i: nat, stack: string)
    requires i < |line| && line[i] == ';' && Inside(stack, false, '>')
    ensures BackwardLine(line, i, stack) == BackwardLine(line, i - 1, stack)
  {
    hide Drop, OperatorBefore, BackwardLine;
    NothingDropped(stack, '>');
    BackwardNext(line, i, stack);
  }

  lemma {:induction false} BackwardNotLess(line: string, i: nat, stack: string)
    requires i + 4 <= |line| && line[i..i + 4] == " >= "
    ensures BackwardLine(line, i + 3, stack) == BackwardLine(line, i - 1, stack)
  {
    hide Drop, OperatorBefore, BackwardLine;
    var s := line[i..i + 4];
    assert line[i] == s[0] && line[i + 1] == s[1] && line[i + 2] == s[2] && line[i + 3] == s[3];
    BackwardPlain(line, i + 3, stack);
    BackwardPlain(line, i + 2, stack);
    assert IsSpace(' ') && NotTemplateEnd(line, i + 1);
    BackwardNext(line, i + 1, stack);
  }

  lemma {:induction false} BackwardCloser(line: string, i: nat, stack: string)
    requires 0 < i < |line| && line[i] == '>' && line[i - 1] != '-' && !Compares(line, i) && NoOperator(line)
    ensures BackwardLine(line, i, stack) == BackwardLine(line, i - 1, stack + ['>'])
  {
    hide Drop, OperatorBefore, BackwardLine;
    assert !NotTemplateEnd(line, i);
    BackwardNext(line, i, stack);
  }

  lemma {:induction false} BackwardOpener(line: string, i: nat, stack: string)
    requires i < |line| && line[i] == '<' && NotAfter(line, i, '<')
    ensures BackwardLine(line, i, stack + ['>']) == if stack == "" then Found(i) else BackwardLine(line, i - 1, stack)
  {
    hide Drop, OperatorBefore, BackwardLine;
    Pushed(stack, '>');
    BackwardNext(line, i, stack + ['>']);
  }

  lemma {:induction false} BackwardCloseGroup(line: string, i: nat, stack: string)
    requires i < |line| && line[i] in ")]}"
    ensures BackwardLine(line, i, stack) == BackwardLine(line, i - 1, stack + [line[i]])
  {
    hide Drop, OperatorBefore, BackwardLine;
    BackwardNext(line, i, stack);
  }

  lemma {:induction false} BackwardOpenGroup(line: string, i: nat, stack: string)
    requires i < |line| && line[i] in "([{" && stack != ""
    ensures BackwardLine(line, i, stack + [Mate(line[i])]) == BackwardLine(line, i - 1, stack)
  {
    hide Drop, OperatorBefore, BackwardLine;
    var c := Mate(line[i]);
    Pushed(stack, c);
    NothingDropped(stack + [c], '>');
    BackwardNext(line, i, stack + [c]);
  }

  lemma {:induction false} BackwardFirst(line: string, i: nat, t: Run, stack: string, angles: bool)
    requires Has(line, i, t, angles) && t != End && NoOperator(line) && Inside(stack, angles, '>')
    ensures i + Width(t) <= |line| && BackwardLine(line, i + Width(t) - 1, stack) == BackwardLine(line, i - 1, stack)
    decreases t, 0
  {
    hide BackwardLine, NoOperator, Compares, NotAfter, IsPlain, Has, AnglePair, GroupPair;
    HasUnfolds(line, i, t, angles);
    match t {
      case Plain(_) => BackwardPlain(line, i, stack);
      case Arrow(_) => BackwardArrow(line, i, stack);
      case Shift(_) => BackwardShift(line, i, stack);
      case Semicolons(_) => BackwardSemicolon(line, i, stack);
      case NotLess(_) => BackwardNotLess(line, i, stack);
      case Angles(inner, _) => BackwardAngles(line, i, inner, stack);
      case Group(inner, _) => BackwardGroup(line, i, inner, stack);
    }
  }

  /** The backward search passes over a run as well. */
  lemma {:induction false} BackwardPasses(line: string, i: nat, t: Run, stack: string, angles: bool)
    requires Has(line, i, t, angles) && NoOperator(line) && Inside(stack, angles, '>')
    ensures i + Length(t) <= |line| && BackwardLine(line, i + Length(t) - 1, stack) == BackwardLine(line, i - 1, stack)
    decreases t, 1
  {
    hide BackwardLine, NoOperator, Has, Length;
    if t == End {
      NothingLeft(line, i, angles);
    } else {
      HasRest(line, i, t, angles);
      BackwardPasses(line, i + Width(t), t.rest, stack, angles);
      BackwardFirst(line, i, t, stack, angles);
    }
  }

  lemma {:induction false} BackwardAngles(line: string, i: nat, inner: Run, stack: string)
    requires NoOperator(line) && stack != ""
    requires AnglePair(line, i, i + 1 + Length(inner)) && Has(line, i + 1, inner, true)
    ensures BackwardLine(line, i + 1 + Length(inner), stack) == BackwardLine(line, i - 1, stack)
    decreases inner, 2
  {
    hide BackwardLine, NoOperator, Compares, NotAfter, Has;
    BackwardCloser(line, i + 1 + Length(inner), stack);
    Pushed(stack, '>');
    BackwardPasses(line, i + 1, inner, stack + ['>'], true);
    BackwardOpener(line, i, stack);
  }

  lemma {:induction false} BackwardGroup(line: string, i: nat, inner: Run, stack: string)
    requires NoOperator(line) && stack != ""
    requires GroupPair(line, i, i + 1 + Length(inner)) && Has(line, i + 1, inner, false)
    ensures BackwardLine(line, i + 1 + Length(inner), stack) == BackwardLine(line, i - 1, stack)
    decreases inner, 2
  {
    hide BackwardLine, NoOperator, Has;
    var j := i + 1 + Length(inner);
    BackwardCloseGroup(line, j, stack);
    Pushed(stack, line[j]);
    BackwardPasses(line, i + 1, inner, stack + [line[j]], false);
    BackwardOpenGroup(line, i, stack);
  }

  // ---- the two searches ----

  /** Template arguments in angle brackets: each search finds the other bracket, whatever stands around. */
  lemma {:induction false} AnglesMatch(lines: seq<string>, l: nat, i: nat, inner: Run)
    requires l < |lines| && Has(lines[l], i, Angles(inner, End), false) && NoOperator(lines[l])
    requires lines[l][i + 1] != '='
    ensures var j := i + 1 + Length(inner);
      && IsPosition(lines, l, i) && IsPosition(lines, l, j)
      && Close(lines, l, i) == Some((l, j)) && ReverseClose(lines, l, j) == Some((l, i))
  {
    hide ForwardLine, BackwardLine, NoOperator, Compares, Has;
    HasUnfolds(lines[l], i, Angles(inner, End), false);
    var line, j := lines[l], i + 1 + Length(inner);
    assert Opens(line, i) by { SecondIsNotLess(line, i, inner); }
    assert ForwardLine(line, i, "") == Found(j) by {
      ForwardOpenAngle(line, i, "");
      ForwardPasses(line, i + 1, inner, "" + ['<'], true);
      ForwardCloseAngle(line, j, "");
    }
    assert BackwardLine(line, j, "") == Found(i) by {
      BackwardCloser(line, j, "");
      BackwardPasses(line, i + 1, inner, "" + ['>'], true);
      BackwardOpener(line, i, "");
    }
  }

  lemma SecondIsNotLess(line: string, i: nat, inner: Run)
    requires i < |line| && line[i] == '<' && Has(line, i + 1, inner, true)
    requires i + 1 + Length(inner) < |line| && line[i + 1 + Length(inner)] == '>'
    ensures line[i + 1] != '<'
  {
    hide Has;
    HasUnfolds(line, i + 1, inner, true);
    if inner.Arrow? { Slice2(line, i + 1, '-', '>'); }
  }

  /** A shift or a comparison is not searched from. */
  lemma ComparisonIsNotOpen(lines: seq<string>, l: nat, p: nat)
    requires IsPosition(lines, l, p) && p + 1 < |lines[l]| && lines[l][p] == '<' && lines[l][p + 1] in "<="
    ensures Close(lines, l, p) == None
  {}

  // ---- operator functions ----

  /** Behind the word `operator` an angle bracket is passed over: an opening one by the forward search, a
      closing one by the backward search, and by the forward search when one character stands between. */
  lemma {:induction false} OperatorPasses(line: string, i: nat, before: string, spaces: string, stack: string)
    requires 0 < i < |line| && EndsInOperator(line[..i], before, spaces)
    ensures line[i] == '<' ==> ForwardLine(line, i, stack) == ForwardLine(line, i + 1, stack)
    ensures line[i] == '>' ==> BackwardLine(line, i, stack) == BackwardLine(line, i - 2, stack)
    ensures i + 1 < |line| && line[i + 1] == '>' ==>
      ForwardLine(line, i + 1, stack) == ForwardLine(line, i + 2, stack)
  {
    hide ForwardLine, BackwardLine, OperatorBefore, Drop;
    OperatorIff(line[..i]);
    ForwardNext(line, i, stack);
    BackwardNext(line, i, stack);
    if i + 1 < |line| { ForwardNext(line, i + 1, stack); }
    LastOfOperator(line[..i], before, spaces);
    assert line[i - 1] == line[..i][i - 1];
  }

  lemma LastOfOperator(s: string, before: string, spaces: string)
    requires EndsInOperator(s, before, spaces)
    ensures s != "" && s[|s| - 1] != '<'
  {
    if spaces == "" {
      assert s[|s| - 1] == "operator"[7];
    } else {
      assert s[|s| - 1] == spaces[|spaces| - 1];
    }
  }

  // ---- the line of the result when nothing is found ----

  /** What the forward search knows after line `n`. */
  function ForwardAt(lines: seq<string>, l: nat, r: Scan, n: nat): Scan
    requires l <= n < |lines|
    decreases n
  {
    if n == l then r
    else
      match ForwardAt(lines, l, r, n - 1)
      case Open(stack) => ForwardLine(lines[n], 0, stack)
      case done => done
  }

  function BackwardAt(lines: seq<string>, l: nat, r: Scan, n: nat): Scan
    requires n <= l < |lines|
    decreases l - n
  {
    if n == l then r
    else
      match BackwardAt(lines, l, r, n + 1)
      case Open(stack) => BackwardLine(lines[n], |lines[n]| - 1, stack)
      case done => done
  }

  predicate GoesOn(r: Scan) { r.Open? && r.stack != "" }

  lemma {:induction false} ForwardAtNext(lines: seq<string>, l: nat, r: Scan, n: nat)
    requires l < n < |lines| && GoesOn(r)
    ensures ForwardAt(lines, l, r, n) == ForwardAt(lines, l + 1, ForwardLine(lines[l + 1], 0, r.stack), n)
    decreases n
  {
    hide ForwardLine;
    if n > l + 1 { ForwardAtNext(lines, l, r, n - 1); }
  }

  lemma {:induction false} BackwardAtNext(lines: seq<string>, l: nat, r: Scan, n: nat)
    requires n < l < |lines| && GoesOn(r)
    ensures BackwardAt(lines, l, r, n)
         == BackwardAt(lines, l - 1, BackwardLine(lines[l - 1], |lines[l - 1]| - 1, r.stack), n)
    decreases l - n
  {
    hide BackwardLine;
    if n < l - 1 { BackwardAtNext(lines, l, r, n + 1); }
  }

  /** The line looked at last is the first at which the search does not go on, or the end of the file. */
  lemma {:induction false} LastForwardIs(lines: seq<string>, l: nat, r: Scan)
    requires l < |lines|
    ensures var n := LastForward(lines, l, r);
      && l <= n && (forall k :: l <= k < n ==> GoesOn(ForwardAt(lines, l, r, k)))
      && (n + 1 == |lines| || !GoesOn(ForwardAt(lines, l, r, n)))
    decreases |lines| - l
  {
    hide ForwardLine;
    if GoesOn(r) && l + 1 < |lines| {
      var next := ForwardLine(lines[l + 1], 0, r.stack);
      LastForwardIs(lines, l + 1, next);
      forall k | l < k < |lines| ensures ForwardAt(lines, l, r, k) == ForwardAt(lines, l + 1, next, k) {
        ForwardAtNext(lines, l, r, k);
      }
    }
  }

  lemma {:induction false} LastBackwardIs(lines: seq<string>, l: nat, r: Scan)
    requires l < |lines|
    ensures var n := LastBackward(lines, l, r);
      && n <= l && (forall k :: n < k <= l ==> GoesOn(BackwardAt(lines, l, r, k)))
      && (n == 0 || !GoesOn(BackwardAt(lines, l, r, n)))
  {
    hide BackwardLine;
    if GoesOn(r) && l > 0 {
      var next := BackwardLine(lines[l - 1], |lines[l - 1]| - 1, r.stack);
      LastBackwardIs(lines, l - 1, next);
      forall k | 0 <= k < l ensures BackwardAt(lines, l, r, k) == BackwardAt(lines, l - 1, next, k) {
        BackwardAtNext(lines, l, r, k);
      }
    }
  }
}
