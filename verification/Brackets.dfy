/** The bracket matcher of the style checker (external/cpplint/cpplint.py): a forward and a backward
    search over the lines of a file, each keeping a stack in which angle brackets are only tentative. */
module Brackets {
  import opened Options
  import opened Text

  datatype Direction = Forward | Backward
  {
    function Opposite(): Direction { if this == Forward then Backward else Forward }

    predicate Pushes(c: char) { if this == Forward then c in "([{" else c in ")]}" }

    predicate Pops(c: char) { if this == Forward then c in ")]}" else c in "([{" }

    /** The angle bracket this direction pushes tentatively. */
    function Angle(): char { if this == Forward then '<' else '>' }
  }

  function Mate(c: char): char {
    match c
    case '(' => ')'
    case ')' => '('
    case '[' => ']'
    case ']' => '['
    case '{' => '}'
    case '}' => '{'
    case _ => c
  }

  // ---- one line ----

  /** A search in a line ends at a match, at a contradiction, or with the stack for the next line. */
  datatype Scan = Found(at: nat) | Failed | Open(stack: string)

  datatype Step = Done(result: Scan) | Next(stack: string)

  function Top(stack: string): char
    requires stack != ""
  {
    stack[|stack| - 1]
  }

  function Pop(stack: string): string
    requires stack != ""
  {
    stack[..|stack| - 1]
  }

  /** The stack without the tentative entries on top. */
  function Drop(stack: string, angle: char): (r: string)
    ensures r == "" || Top(r) != angle
  {
    if stack != "" && Top(stack) == angle then Drop(Pop(stack), angle) else stack
  }

  /** The pattern \boperator\s*$. */
  predicate OperatorBefore(s: string) {
    var t := TrimEnd(s);
    && |t| >= 8
    && t[|t| - 8..] == "operator"
    && (|t| == 8 || !IsWord(t[|t| - 9]))
  }

  ghost predicate EndsInOperator(s: string, before: string, spaces: string) {
    && s == before + "operator" + spaces
    && (before == "" || !IsWord(before[|before| - 1]))
    && AllSpace(spaces)
  }

  lemma {:induction false} OperatorIff(s: string)
    ensures OperatorBefore(s) <==> exists before, spaces :: EndsInOperator(s, before, spaces)
  {
    if before, spaces :| EndsInOperator(s, before, spaces) {
      var t := before + "operator";
      assert t[|t| - 1] == "operator"[7];
      TrimEndIs(t, spaces);
      assert t[|t| - 8..] == "operator";
    }
    if OperatorBefore(s) {
      var t := TrimEnd(s);
      var spaces := TrimEndSplit(s);
      assert s == t[..|t| - 8] + "operator" + spaces;
      assert EndsInOperator(s, t[..|t| - 8], spaces);
    }
  }

  function CloseAngle(stack: string, angle: char, i: nat): Step {
    if stack == "" || Top(stack) != angle then Next(stack)
    else if |stack| == 1 then Done(Found(i))
    else Next(Pop(stack))
  }

  function CloseBracket(stack: string, angle: char, c: char, i: nat): Step {
    var st := Drop(stack, angle);
    if st == "" || Top(st) != Mate(c) then Done(Failed)
    else if |st| == 1 then Done(Found(i))
    else Next(Pop(st))
  }

  function Semicolon(stack: string, angle: char): Step {
    var st := Drop(stack, angle);
    if st == "" then Done(Failed) else Next(st)
  }

  function ForwardChar(line: string, i: nat, stack: string): Step
    requires i < |line|
  {
    var c := line[i];
    if c in "([{" then Next(stack + [c])
    else if c == '<' then
      if i > 0 && line[i - 1] == '<' then
        if stack == "" || Top(stack) != '<' then Next(stack)
        else if |stack| == 1 then Done(Failed)
        else Next(Pop(stack))
      else if i > 0 && OperatorBefore(line[..i]) then Next(stack)
      else Next(stack + "<")
    else if c in ")]}" then CloseBracket(stack, '<', c, i)
    else if c == '>' then
      if i > 0 && (line[i - 1] == '-' || OperatorBefore(line[..i - 1])) then Next(stack)
      else CloseAngle(stack, '<', i)
    else if c == ';' then Semicolon(stack, '<')
    else Next(stack)
  }

  function ForwardLine(line: string, i: nat, stack: string): Scan
    requires i <= |line|
    decreases |line| - i
  {
    if i == |line| then Open(stack)
    else
      match ForwardChar(line, i, stack)
      case Done(r) => r
      case Next(st) => ForwardLine(line, i + 1, st)
  }

  /** An arrow, a comparison between blanks or an operator name. */
  predicate NotTemplateEnd(line: string, i: nat)
    requires i < |line|
  {
    && i > 0
    && (line[i - 1] == '-'
        || (i + 2 < |line| && IsSpace(line[i - 1]) && line[i] == '>' && line[i + 1] == '=' && IsSpace(line[i + 2]))
        || OperatorBefore(line[..i]))
  }

  function BackwardChar(line: string, i: nat, stack: string): Step
    requires i < |line|
  {
    var c := line[i];
    if c in ")]}" then Next(stack + [c])
    else if c == '>' then
      if NotTemplateEnd(line, i) then Next(stack) else Next(stack + ">")
    else if c == '<' then
      if i > 0 && line[i - 1] == '<' then Next(stack) else CloseAngle(stack, '>', i)
    else if c in "([{" then CloseBracket(stack, '>', c, i)
    else if c == ';' then Semicolon(stack, '>')
    else Next(stack)
  }

  /** Where the backward search skips the character before this one. */
  predicate Skips(line: string, i: nat)
    requires i < |line|
  {
    || (line[i] == '>' && NotTemplateEnd(line, i))
    || (line[i] == '<' && i > 0 && line[i - 1] == '<')
  }

  function BackwardLine(line: string, i: int, stack: string): Scan
    requires -1 <= i < |line|
    decreases i + 1
  {
    if i < 0 then Open(stack)
    else
      match BackwardChar(line, i, stack)
      case Done(r) => r
      case Next(st) => BackwardLine(line, if Skips(line, i) then i - 2 else i - 1, st)
  }

  // ---- several lines ----

  type Position = (nat, nat)

  function CloseFrom(lines: seq<string>, l: nat, r: Scan): Option<Position>
    requires l < |lines|
    decreases |lines| - l
  {
    match r
    case Found(q) => Some((l, q))
    case Failed => None
    case Open(st) =>
      if st == "" || l + 1 == |lines| then None else CloseFrom(lines, l + 1, ForwardLine(lines[l + 1], 0, st))
  }

  predicate IsPosition(lines: seq<string>, l: nat, p: nat) { l < |lines| && p < |lines[l]| }

  /** The last line that the forward search looks at. */
  function LastForward(lines: seq<string>, l: nat, r: Scan): (n: nat)
    requires l < |lines|
    ensures n < |lines|
    decreases |lines| - l
  {
    if !r.Open? || r.stack == "" || l + 1 == |lines| then l
    else LastForward(lines, l + 1, ForwardLine(lines[l + 1], 0, r.stack))
  }

  /** An opening character, and not the beginning of a shift or a comparison. */
  predicate Opens(line: string, p: nat)
    requires p < |line|
  {
    line[p] in "({[<" && !(line[p] == '<' && p + 1 < |line| && line[p + 1] in "<=")
  }

  /** Position of the closing character. */
  function Close(lines: seq<string>, l: nat, p: nat): Option<Position>
    requires IsPosition(lines, l, p)
  {
    var line := lines[l];
    if !Opens(line, p) then None else CloseFrom(lines, l, ForwardLine(line, p, ""))
  }

  function OpenFrom(lines: seq<string>, l: nat, r: Scan): Option<Position>
    requires l < |lines|
  {
    match r
    case Found(q) => Some((l, q))
    case Failed => None
    case Open(st) =>
      if st == "" || l == 0 then None else OpenFrom(lines, l - 1, BackwardLine(lines[l - 1], |lines[l - 1]| - 1, st))
  }

  /** The last line that the backward search looks at. */
  function LastBackward(lines: seq<string>, l: nat, r: Scan): (n: nat)
    requires l < |lines|
    ensures n < |lines|
  {
    if !r.Open? || r.stack == "" || l == 0 then l
    else LastBackward(lines, l - 1, BackwardLine(lines[l - 1], |lines[l - 1]| - 1, r.stack))
  }

  function ReverseClose(lines: seq<string>, l: nat, p: nat): Option<Position>
    requires IsPosition(lines, l, p)
  {
    var line := lines[l];
    if line[p] !in ")}]>" then None else OpenFrom(lines, l, BackwardLine(line, p, ""))
  }

  // ---- the searches as loops ----

  method DropAngles(stack0: string, angle: char) returns (stack: string)
    ensures stack == Drop(stack0, angle)
  {
    stack := stack0;
    while stack != "" && Top(stack) == angle
      invariant Drop(stack, angle) == Drop(stack0, angle)
      decreases |stack|
    {
      stack := Pop(stack);
    }
  }

  method FindEndOfExpressionInLine(line: string, startpos: nat, stack0: string) returns (r: Scan)
    requires startpos <= |line|
    ensures r == ForwardLine(line, startpos, stack0)
  {
    hide Drop, Mate, OperatorBefore;
    var stack := stack0;
    for i := startpos to |line|
      invariant ForwardLine(line, i, stack) == ForwardLine(line, startpos, stack0)
    {
      var c := line[i];
      if c in "([{" {
        stack := stack + [c];
      } else if c == '<' {
        if i > 0 && line[i - 1] == '<' {
          if stack != "" && Top(stack) == '<' {
            stack := Pop(stack);
            if stack == "" { return Failed; }
          }
        } else if i > 0 && OperatorBefore(line[..i]) {
          continue;
        } else {
          stack := stack + "<";
        }
      } else if c in ")]}" {
        stack := DropAngles(stack, '<');
        if stack == "" { return Failed; }
        if Top(stack) == Mate(c) {
          stack := Pop(stack);
          if stack == "" { return Found(i); }
        } else {
          return Failed;
        }
      } else if c == '>' {
        if i > 0 && (line[i - 1] == '-' || OperatorBefore(line[..i - 1])) { continue; }
        if stack != "" && Top(stack) == '<' {
          stack := Pop(stack);
          if stack == "" { return Found(i); }
        }
      } else if c == ';' {
        stack := DropAngles(stack, '<');
        if stack == "" { return Failed; }
      }
    }
    return Open(stack);
  }

  method FindStartOfExpressionInLine(line: string, endpos: int, stack0: string) returns (r: Scan)
    requires -1 <= endpos < |line|
    ensures r == BackwardLine(line, endpos, stack0)
  {
    hide Drop, Mate, OperatorBefore, NotTemplateEnd;
    var stack, i := stack0, endpos;
    while i >= 0
      invariant -1 <= i < |line|
      invariant BackwardLine(line, i, stack) == BackwardLine(line, endpos, stack0)
    {
      var c := line[i];
      if c in ")]}" {
        stack := stack + [c];
      } else if c == '>' {
        if NotTemplateEnd(line, i) {
          assert i > 0 by { AfterFirst(line, i); }
          i := i - 1;
        } else {
          stack := stack + ">";
        }
      } else if c == '<' {
        if i > 0 && line[i - 1] == '<' {
          i := i - 1;
        } else if stack != "" && Top(stack) == '>' {
          stack := Pop(stack);
          if stack == "" { return Found(i); }
        }
      } else if c in "([{" {
        stack := DropAngles(stack, '>');
        if stack == "" { return Failed; }
        if Top(stack) == Mate(c) {
          stack := Pop(stack);
          if stack == "" { return Found(i); }
        } else {
          return Failed;
        }
      } else if c == ';' {
        stack := DropAngles(stack, '>');
        if stack == "" { return Failed; }
      }
      i := i - 1;
    }
    return Open(stack);
  }

  lemma AfterFirst(line: string, i: nat)
    requires i < |line| && NotTemplateEnd(line, i)
    ensures i > 0
  {}

  /** The position past the closing character, or the number of lines and -1; and the text of the line
      looked at last, which in the first case is the line of the result. */
  method CloseExpression(lines: seq<string>, linenum0: nat, pos: nat) returns (line: string, linenum: nat, endPos: int)
    requires IsPosition(lines, linenum0, pos)
    ensures match Close(lines, linenum0, pos) {
      case Some((l, q)) => linenum == l < |lines| && endPos == q + 1 && line == lines[l]
      case None => linenum == |lines| && endPos == -1
    }
    ensures line == lines[if Opens(lines[linenum0], pos)
        then LastForward(lines, linenum0, ForwardLine(lines[linenum0], pos, ""))
        else linenum0]
  {
    hide ForwardLine;
    line, linenum := lines[linenum0], linenum0;
    if !Opens(line, pos) { return line, |lines|, -1; }
    var r := FindEndOfExpressionInLine(line, pos, "");
    ghost var last := LastForward(lines, linenum0, r);
    if r.Found? { return line, linenum, r.at + 1; }
    while r.Open? && r.stack != "" && linenum < |lines| - 1
      invariant linenum < |lines| && !r.Found? && line == lines[linenum] && LastForward(lines, linenum, r) == last
      invariant CloseFrom(lines, linenum, r) == Close(lines, linenum0, pos)
      decreases |lines| - linenum
    {
      linenum := linenum + 1;
      line := lines[linenum];
      r := FindEndOfExpressionInLine(line, 0, r.stack);
      if r.Found? { return line, linenum, r.at + 1; }
    }
    return line, |lines|, -1;
  }

  /** The position of the opening character, or 0 and -1; and the text of the line looked at last. */
  method ReverseCloseExpression(lines: seq<string>, linenum0: nat, pos: nat)
    returns (line: string, linenum: nat, startPos: int)
    requires IsPosition(lines, linenum0, pos)
    ensures match ReverseClose(lines, linenum0, pos) {
      case Some((l, q)) => linenum == l < |lines| && startPos == q && line == lines[l]
      case None => linenum == 0 && startPos == -1
    }
    ensures line == lines[if lines[linenum0][pos] in ")}]>"
        then LastBackward(lines, linenum0, BackwardLine(lines[linenum0], pos, ""))
        else linenum0]
  {
    hide BackwardLine;
    line, linenum := lines[linenum0], linenum0;
    if line[pos] !in ")}]>" { return line, 0, -1; }
    var r := FindStartOfExpressionInLine(line, pos, "");
    ghost var last := LastBackward(lines, linenum0, r);
    if r.Found? { return line, linenum, r.at; }
    while r.Open? && r.stack != "" && linenum > 0
      invariant linenum < |lines| && !r.Found? && line == lines[linenum] && LastBackward(lines, linenum, r) == last
      invariant OpenFrom(lines, linenum, r) == ReverseClose(lines, linenum0, pos)
      decreases linenum
    {
      linenum := linenum - 1;
      line := lines[linenum];
      r := FindStartOfExpressionInLine(line, |line| - 1, r.stack);
      if r.Found? { return line, linenum, r.at; }
    }
    return line, 0, -1;
  }

  // ---- brackets alone ----

  /** The stack after some text when only round, square and curly brackets count. */
  function Advance(dir: Direction, stack: string, c: char): Option<string> {
    if dir.Pushes(c) then Some(stack + [c])
    else if !dir.Pops(c) then Some(stack)
    else if stack == "" || Top(stack) != Mate(c) then None
    else Some(Pop(stack))
  }

  function Net(dir: Direction, stack: string, s: string): Option<string>
    decreases |s|
  {
    if s == "" then Some(stack)
    else
      match Advance(dir, stack, s[0])
      case None => None
      case Some(st) => Net(dir, st, s[1..])
  }

  /** Well-bracketed text. */
  predicate Balanced(s: string) { Net(Forward, "", s) == Some("") }

  lemma {:induction false} NetAppend(dir: Direction, stack: string, a: string, b: string)
    ensures Net(dir, stack, a + b) == match Net(dir, stack, a) { case None => None case Some(st) => Net(dir, st, b) }
    decreases |a|
  {
    hide Advance;
    if a == "" {
      assert a + b == b;
    } else {
      assert (a + b)[0] == a[0] && (a + b)[1..] == a[1..] + b;
      match Advance(dir, stack, a[0])
      case None =>
      case Some(st) => NetAppend(dir, st, a[1..], b);
    }
  }

  lemma {:induction false} NetOne(dir: Direction, stack: string, c: char)
    ensures Net(dir, stack, [c]) == Advance(dir, stack, c)
  {
    hide Advance;
    assert [c][1..] == "";
  }

  function Reversed(s: string): (r: string)
    ensures |r| == |s| && forall i :: 0 <= i < |s| ==> r[i] == s[|s| - 1 - i]
  {
    if s == "" then "" else Reversed(s[1..]) + [s[0]]
  }

  function Mates(s: string): (r: string)
    ensures |r| == |s| && forall i :: 0 <= i < |s| ==> r[i] == Mate(s[i])
  {
    if s == "" then "" else [Mate(s[0])] + Mates(s[1..])
  }

  predicate AllPushed(dir: Direction, stack: string) { forall i :: 0 <= i < |stack| ==> dir.Pushes(stack[i]) }

  lemma MateFacts(dir: Direction, c: char)
    ensures dir.Opposite().Pushes(c) == dir.Pops(c) && dir.Opposite().Pops(c) == dir.Pushes(c)
    ensures !(dir.Pushes(c) && dir.Pops(c)) && Mate(Mate(c)) == c
    ensures dir.Pushes(Mate(c)) == dir.Pops(c)
  {}

  /** A step of one direction is undone by the same character in the other. */
  lemma {:induction false} AdvanceBack(dir: Direction, stack: string, c: char)
    requires AllPushed(dir, stack) && Advance(dir, stack, c).Some?
    ensures var next := Advance(dir, stack, c).value;
      AllPushed(dir, next) && Advance(dir.Opposite(), Mates(next), c) == Some(Mates(stack))
  {
    hide Mate, Mates;
    hide dir.Pushes, dir.Pops, dir.Opposite;
    MateFacts(dir, c);
    var next := Advance(dir, stack, c).value;
    if dir.Pushes(c) {
      assert Mates(next) == Mates(stack) + [Mate(c)];
      assert Top(Mates(next)) == Mate(c);
      assert Pop(Mates(next)) == Mates(stack);
    } else if dir.Pops(c) {
      assert stack == next + [Mate(c)];
      assert Mates(stack) == Mates(next) + [c];
    }
  }

  lemma {:induction false} NetBack(dir: Direction, stack: string, s: string)
    requires AllPushed(dir, stack) && Net(dir, stack, s).Some?
    ensures Net(dir.Opposite(), Mates(Net(dir, stack, s).value), Reversed(s)) == Some(Mates(stack))
    decreases |s|
  {
    hide Advance, Mates, AllPushed;
    if s != "" {
      var c, rest := s[0], s[1..];
      var end := Mates(Net(dir, stack, s).value);
      AdvanceBack(dir, stack, c);
      NetBack(dir, Advance(dir, stack, c).value, rest);
      NetAppend(dir.Opposite(), end, Reversed(rest), [c]);
      NetOne(dir.Opposite(), Mates(Advance(dir, stack, c).value), c);
    }
  }

  lemma {:induction false} ReversedTwice(s: string)
    ensures Reversed(Reversed(s)) == s
  {}

  /** Text is well-bracketed read either way. */
  lemma {:induction false} BalancedBack(s: string)
    ensures Balanced(s) <==> Net(Backward, "", Reversed(s)) == Some("")
  {
    hide Net;
    assert Mates("") == "";
    if Balanced(s) { NetBack(Forward, "", s); }
    if Net(Backward, "", Reversed(s)) == Some("") {
      NetBack(Backward, "", Reversed(s));
      ReversedTwice(s);
    }
  }

  // ---- the search on brackets alone ----

  function Shift(r: Scan): Scan { if r.Found? then Found(r.at + 1) else r }

  function Search(dir: Direction, s: string, stack: string): Scan
    decreases |s|
  {
    if s == "" then Open(stack)
    else
      match Advance(dir, stack, s[0])
      case None => Failed
      case Some(st) => if st == "" then Found(0) else Shift(Search(dir, s[1..], st))
  }

  /** The first position where the bracket at the bottom of the stack is closed. */
  predicate ClosesAt(dir: Direction, s: string, bottom: char, stack: string, k: nat) {
    k < |s| && s[k] == Mate(bottom) && Net(dir, stack, s[..k]) == Some("")
  }

  function Under(bottom: char, r: Option<string>): Option<string> {
    if r.None? then None else Some([bottom] + r.value)
  }

  lemma AdvanceOver(dir: Direction, bottom: char, stack: string, c: char)
    requires dir.Pushes(bottom)
    ensures stack != "" || !dir.Pops(c) ==> Advance(dir, [bottom] + stack, c) == Under(bottom, Advance(dir, stack, c))
    ensures stack == "" && dir.Pops(c) ==>
      Advance(dir, stack, c) == None && Advance(dir, [bottom], c) == if c == Mate(bottom) then Some("") else None
  {
    var st := [bottom] + stack;
    if dir.Pushes(c) {
      assert st + [c] == [bottom] + (stack + [c]);
    } else if stack != "" {
      assert Top(st) == Top(stack) && Pop(st) == [bottom] + Pop(stack);
    } else {
      assert st == [bottom] && Pop(st) == "";
    }
  }

  lemma {:induction false} SearchIff(dir: Direction, s: string, bottom: char, stack: string, k: nat)
    requires dir.Pushes(bottom)
    ensures Search(dir, s, [bottom] + stack) == Found(k) <==> ClosesAt(dir, s, bottom, stack, k)
    decreases |s|
  {
    hide Advance;
    if s != "" {
      var c, rest := s[0], s[1..];
      AdvanceOver(dir, bottom, stack, c);
      if stack == "" && dir.Pops(c) {
        assert [bottom] + stack == [bottom];
        assert k > 0 && k <= |s| ==> s[..k][0] == c;
        assert s[..0] == "";
      } else {
        if k > 0 && k < |s| {
          assert s[..k][0] == c && s[..k][1..] == rest[..k - 1] && s[k] == rest[k - 1];
        }
        match Advance(dir, stack, c)
        case None =>
          assert k == 0 && stack == "" ==> !dir.Pops(c);
          NoClose(dir, s, bottom, stack);
        case Some(st) =>
          NoClose(dir, s, bottom, stack);
          if k > 0 { SearchIff(dir, rest, bottom, st, k - 1); }
      }
    }
  }

  lemma NoClose(dir: Direction, s: string, bottom: char, stack: string)
    requires dir.Pushes(bottom) && s != "" && !(stack == "" && dir.Pops(s[0]))
    ensures !ClosesAt(dir, s, bottom, stack, 0)
  {
    assert s[..0] == "";
  }

  lemma {:induction false} SearchOpen(dir: Direction, s: string, bottom: char, stack: string)
    requires dir.Pushes(bottom)
    ensures match Net(dir, stack, s) {
      case Some(st) => Search(dir, s, [bottom] + stack) == Open([bottom] + st)
      case None => !Search(dir, s, [bottom] + stack).Open?
    }
    decreases |s|
  {
    hide Advance;
    if s != "" {
      var c, rest := s[0], s[1..];
      AdvanceOver(dir, bottom, stack, c);
      assert stack == "" ==> [bottom] + stack == [bottom];
      match Advance(dir, stack, c)
      case None =>
      case Some(st) => SearchOpen(dir, rest, bottom, st);
    }
  }

  function SearchLines(dir: Direction, lines: seq<string>, stack: string): Option<Position> {
    if lines == [] then None
    else
      match Search(dir, lines[0], stack)
      case Found(k) => Some((0, k))
      case Failed => None
      case Open(st) =>
        match SearchLines(dir, lines[1..], st)
        case None => None
        case Some((n, k)) => Some((n + 1, k))
  }

  function Flat(lines: seq<string>): string {
    if lines == [] then "" else lines[0] + Flat(lines[1..])
  }

  /** A search over lines finds the position that closes the first bracket with well-bracketed text before. */
  lemma {:induction false} SearchLinesIff(dir: Direction, lines: seq<string>, bottom: char, stack: string,
        n: nat, k: nat)
    requires dir.Pushes(bottom)
    ensures SearchLines(dir, lines, [bottom] + stack) == Some((n, k)) <==>
      && n < |lines| && k < |lines[n]|
      && lines[n][k] == Mate(bottom)
      && Net(dir, stack, Flat(lines[..n]) + lines[n][..k]) == Some("")
    decreases |lines|
  {
    hide Net, Search, Mate;
    if lines != [] {
      SearchOpen(dir, lines[0], bottom, stack);
      if n == 0 {
        SearchIff(dir, lines[0], bottom, stack, k);
        if k < |lines[0]| { assert Flat(lines[..0]) + lines[0][..k] == lines[0][..k]; }
      } else {
        SearchRest(dir, lines, bottom, stack, n, k);
      }
    }
  }

  lemma {:induction false} SearchRest(dir: Direction, lines: seq<string>, bottom: char, stack: string, n: nat, k: nat)
    requires dir.Pushes(bottom) && lines != [] && n > 0
    ensures SearchLines(dir, lines, [bottom] + stack) == Some((n, k)) <==>
      && n < |lines| && k < |lines[n]|
      && lines[n][k] == Mate(bottom)
      && Net(dir, stack, Flat(lines[..n]) + lines[n][..k]) == Some("")
    decreases |lines|, 0
  {
    hide Net, Search, Mate;
    var rest := lines[1..];
    SearchOpen(dir, lines[0], bottom, stack);
    if n < |lines| && k < |lines[n]| {
      assert lines[..n][1..] == rest[..n - 1] && lines[n] == rest[n - 1];
      var tail := Flat(rest[..n - 1]) + rest[n - 1][..k];
      assert Flat(lines[..n]) + lines[n][..k] == lines[0] + tail;
      NetAppend(dir, stack, lines[0], tail);
    }
    match Net(dir, stack, lines[0])
    case None =>
    case Some(st) => SearchLinesIff(dir, rest, bottom, st, n - 1, k);
  }

  // ---- tentative angle brackets do not matter ----

  /** The stack without its angle brackets. */
  function Core(stack: string, angle: char): string {
    if stack == "" then "" else Core(Pop(stack), angle) + (if Top(stack) == angle then "" else [Top(stack)])
  }

  /** A search that began at a bracket keeps that bracket at the bottom. */
  predicate Based(stack: string, angle: char) { stack != "" && stack[0] != angle }

  lemma CorePush(stack: string, angle: char, c: char)
    ensures Core(stack + [c], angle) == Core(stack, angle) + (if c == angle then "" else [c])
  {
    assert Pop(stack + [c]) == stack;
  }

  lemma {:induction false} CoreBottom(stack: string, angle: char)
    requires Based(stack, angle)
    ensures Core(stack, angle) != ""
    ensures |stack| > 1 && Top(stack) != angle ==> |Core(stack, angle)| > 1
  {
    if |stack| > 1 {
      CoreBottom(Pop(stack), angle);
    } else {
      assert Pop(stack) == "";
    }
  }

  lemma {:induction false} CoreDrop(stack: string, angle: char)
    requires Based(stack, angle)
    ensures Based(Drop(stack, angle), angle) && Core(Drop(stack, angle), angle) == Core(stack, angle)
  {
    if Top(stack) == angle { CoreDrop(Pop(stack), angle); }
  }

  /** A step of a search, seen on brackets alone. */
  predicate StepAgrees(dir: Direction, step: Step, core: string, c: char, i: nat) {
    match step
    case Next(st) => Based(st, dir.Angle()) && Core(st, dir.Angle()) != "" &&
      Advance(dir, core, c) == Some(Core(st, dir.Angle()))
    case Done(Found(j)) => j == i && Advance(dir, core, c) == Some("")
    case Done(Failed) => Advance(dir, core, c) == None
    case Done(Open(_)) => false
  }

  lemma {:induction false} StayAgrees(dir: Direction, stack: string, c: char, i: nat)
    requires Based(stack, dir.Angle()) && !dir.Pushes(c) && !dir.Pops(c)
    ensures StepAgrees(dir, Next(stack), Core(stack, dir.Angle()), c, i)
    ensures StepAgrees(dir, Next(stack + [dir.Angle()]), Core(stack, dir.Angle()), c, i)
    ensures Top(stack) == dir.Angle() ==>
      |stack| > 1 && StepAgrees(dir, Next(Pop(stack)), Core(stack, dir.Angle()), c, i)
  {
    hide dir.Angle;
    var core := Core(stack, dir.Angle());
    assert core + "" == core;
    CoreBottom(stack, dir.Angle());
    CorePush(stack, dir.Angle(), dir.Angle());
    if Top(stack) == dir.Angle() {
      assert core == Core(Pop(stack), dir.Angle()) + "" == Core(Pop(stack), dir.Angle());
      assert Based(Pop(stack), dir.Angle());
    }
  }

  lemma {:induction false} PushAgrees(dir: Direction, stack: string, c: char, i: nat)
    requires Based(stack, dir.Angle()) && dir.Pushes(c)
    ensures StepAgrees(dir, Next(stack + [c]), Core(stack, dir.Angle()), c, i)
  {
    CorePush(stack, dir.Angle(), c);
  }

  lemma {:induction false} CloseAgrees(dir: Direction, stack: string, c: char, i: nat)
    requires Based(stack, dir.Angle()) && dir.Pops(c)
    ensures StepAgrees(dir, CloseBracket(stack, dir.Angle(), c, i), Core(stack, dir.Angle()), c, i)
  {
    hide Mate, Drop;
    var angle := dir.Angle();
    var st := Drop(stack, angle);
    CoreDrop(stack, angle);
    CoreBottom(st, angle);
    assert Core(st, angle) == Core(Pop(st), angle) + [Top(st)];
    assert Pop(Core(st, angle)) == Core(Pop(st), angle);
    if |st| == 1 {
      assert Pop(st) == "";
    } else {
      CoreBottom(Pop(st), angle);
    }
  }

  lemma {:induction false} SemicolonAgrees(dir: Direction, stack: string, i: nat)
    requires Based(stack, dir.Angle())
    ensures StepAgrees(dir, Semicolon(stack, dir.Angle()), Core(stack, dir.Angle()), ';', i)
  {
    hide Drop;
    var st := Drop(stack, dir.Angle());
    CoreDrop(stack, dir.Angle());
    CoreBottom(st, dir.Angle());
  }

  lemma {:induction false} ForwardCharAgrees(line: string, i: nat, stack: string)
    requires i < |line| && Based(stack, '<')
    ensures StepAgrees(Forward, ForwardChar(line, i, stack), Core(stack, '<'), line[i], i)
  {
    hide StepAgrees, Core, CloseBracket, Semicolon, OperatorBefore;
    var c := line[i];
    if c in "([{" {
      PushAgrees(Forward, stack, c, i);
    } else if c in ")]}" {
      CloseAgrees(Forward, stack, c, i);
    } else if c == ';' {
      SemicolonAgrees(Forward, stack, i);
    } else {
      StayAgrees(Forward, stack, c, i);
    }
  }

  lemma {:induction false} BackwardCharAgrees(line: string, i: nat, stack: string)
    requires i < |line| && Based(stack, '>')
    ensures StepAgrees(Backward, BackwardChar(line, i, stack), Core(stack, '>'), line[i], i)
  {
    hide StepAgrees, Core, CloseBracket, Semicolon, NotTemplateEnd;
    var c := line[i];
    if c in ")]}" {
      PushAgrees(Backward, stack, c, i);
    } else if c in "([{" {
      CloseAgrees(Backward, stack, c, i);
    } else if c == ';' {
      SemicolonAgrees(Backward, stack, i);
    } else {
      StayAgrees(Backward, stack, c, i);
    }
  }

  lemma {:induction false} TrimEndLast(s: string)
    ensures TrimEnd(s) != "" ==> s != "" && (IsSpace(s[|s| - 1]) || Top(s) == Top(TrimEnd(s)))
  {}

  lemma {:induction false} OperatorLast(s: string)
    requires OperatorBefore(s)
    ensures s != "" && (IsSpace(Top(s)) || Top(s) == 'r')
  {
    hide TrimEnd;
    var t := TrimEnd(s);
    TrimEndLast(s);
    assert Top(t) == t[|t| - 8..][7] == "operator"[7];
  }

  /** The backward search never skips a bracket. */
  lemma {:induction false} SkippedIsNeutral(line: string, i: nat)
    requires i < |line| && Skips(line, i)
    ensures i > 0 && !Backward.Pushes(line[i - 1]) && !Backward.Pops(line[i - 1])
  {
    hide OperatorBefore;
    if OperatorBefore(line[..i]) {
      OperatorLast(line[..i]);
    }
  }

  /** The result of a search in a line, seen on brackets alone. */
  predicate ScanAgrees(angle: char, r: Scan, core: Scan, from: int, sign: int) {
    match r
    case Found(q) => core.Found? && q == from + sign * core.at
    case Failed => core == Failed
    case Open(st) => Based(st, angle) && core == Open(Core(st, angle))
  }

  lemma {:induction false} ForwardLineAgrees(line: string, i: nat, stack: string)
    requires i <= |line| && Based(stack, '<')
    ensures ScanAgrees('<', ForwardLine(line, i, stack), Search(Forward, line[i..], Core(stack, '<')), i, 1)
    decreases |line| - i
  {
    hide Core, ForwardChar, Advance;
    if i < |line| {
      ForwardCharAgrees(line, i, stack);
      assert line[i..][0] == line[i] && line[i..][1..] == line[i + 1..];
      match ForwardChar(line, i, stack)
      case Done(_) =>
      case Next(st) => ForwardLineAgrees(line, i + 1, st);
    }
  }

  lemma {:induction false} BackwardLineAgrees(line: string, i: int, stack: string)
    requires -1 <= i < |line| && Based(stack, '>')
    ensures ScanAgrees('>', BackwardLine(line, i, stack), Search(Backward, Reversed(line[..i + 1]), Core(stack, '>')),
      i, -1)
    decreases i + 1
  {
    hide Core, BackwardChar, Advance, Skips, Reversed;
    if i < 0 {
      assert Reversed(line[..0]) == "";
    } else {
      BackwardCharAgrees(line, i, stack);
      ReversedTail(line, i);
      match BackwardChar(line, i, stack)
      case Done(_) =>
      case Next(st) =>
        if Skips(line, i) {
          SkippedIsNeutral(line, i);
          ReversedTail(line, i - 1);
          NeutralStays(Backward, Core(st, '>'), line[i - 1]);
          BackwardLineAgrees(line, i - 2, st);
        } else {
          BackwardLineAgrees(line, i - 1, st);
        }
    }
  }

  lemma NeutralStays(dir: Direction, stack: string, c: char)
    requires !dir.Pushes(c) && !dir.Pops(c)
    ensures Advance(dir, stack, c) == Some(stack)
  {}

  lemma {:induction false} ReversedTail(line: string, i: nat)
    requires i < |line|
    ensures var r := Reversed(line[..i + 1]); r[0] == line[i] && r[1..] == Reversed(line[..i])
  {
    hide Reversed;
  }

  // ---- over lines ----

  function Place(l: nat, i: nat, r: Option<Position>): Option<Position> {
    match r
    case None => None
    case Some((n, k)) => Some((l + n, if n == 0 then i + k else k))
  }

  lemma {:induction false} CloseFromAgrees(lines: seq<string>, l: nat, i: nat, stack: string)
    requires l < |lines| && i <= |lines[l]| && Based(stack, '<')
    ensures CloseFrom(lines, l, ForwardLine(lines[l], i, stack))
         == Place(l, i, SearchLines(Forward, [lines[l][i..]] + lines[l + 1..], Core(stack, '<')))
    decreases |lines| - l
  {
    hide ForwardLine, Search, Core;
    var rest := [lines[l][i..]] + lines[l + 1..];
    assert rest[0] == lines[l][i..] && rest[1..] == lines[l + 1..];
    ForwardLineAgrees(lines[l], i, stack);
    match ForwardLine(lines[l], i, stack)
    case Found(_) =>
    case Failed =>
    case Open(st) =>
      if l + 1 < |lines| {
        CloseFromAgrees(lines, l + 1, 0, st);
        assert [lines[l + 1][0..]] + lines[l + 2..] == lines[l + 1..];
      }
  }

  function Mirrored(lines: seq<string>): (r: seq<string>)
    ensures |r| == |lines| && forall i :: 0 <= i < |lines| ==> r[i] == Reversed(lines[|lines| - 1 - i])
  {
    if lines == [] then [] else [Reversed(lines[|lines| - 1])] + Mirrored(lines[..|lines| - 1])
  }

  function PlaceBack(lines: seq<string>, l: nat, i: int, r: Option<Position>): Option<(int, int)>
    requires l < |lines|
  {
    match r
    case None => None
    case Some((n, k)) => Some((l - n, if n == 0 then i - k else if n <= l then |lines[l - n]| - 1 - k else -1))
  }

  function Signed(r: Option<Position>): Option<(int, int)> {
    match r
    case None => None
    case Some((l, p)) => Some((l, p))
  }

  lemma {:induction false} OpenFromAgrees(lines: seq<string>, l: nat, i: int, stack: string)
    requires l < |lines| && -1 <= i < |lines[l]| && Based(stack, '>')
    ensures Signed(OpenFrom(lines, l, BackwardLine(lines[l], i, stack)))
         == PlaceBack(lines, l, i,
              SearchLines(Backward, [Reversed(lines[l][..i + 1])] + Mirrored(lines[..l]), Core(stack, '>')))
    decreases l
  {
    hide BackwardLine, Search, Core, Reversed;
    var rest := [Reversed(lines[l][..i + 1])] + Mirrored(lines[..l]);
    assert rest[0] == Reversed(lines[l][..i + 1]) && rest[1..] == Mirrored(lines[..l]);
    BackwardLineAgrees(lines[l], i, stack);
    match BackwardLine(lines[l], i, stack)
    case Found(_) =>
    case Failed =>
    case Open(st) =>
      if l > 0 {
        var n := |lines[l - 1]| - 1;
        OpenFromAgrees(lines, l - 1, n, st);
        assert lines[l - 1][..n + 1] == lines[l - 1] && lines[..l][..l - 1] == lines[..l - 1];
        assert Mirrored(lines[..l]) == [Reversed(lines[l - 1])] + Mirrored(lines[..l - 1]);
      }
  }

  // ---- the theorem ----

  predicate Precedes(l: nat, p: nat, l2: nat, q: nat) { l < l2 || (l == l2 && p < q) }

  /** The text strictly between two positions. */
  function Between(lines: seq<string>, l: nat, p: nat, l2: nat, q: nat): string
    requires IsPosition(lines, l, p) && IsPosition(lines, l2, q) && Precedes(l, p, l2, q)
  {
    if l == l2 then lines[l][p + 1..q] else lines[l][p + 1..] + Flat(lines[l + 1..l2]) + lines[l2][..q]
  }

  /** The bracket at one position is closed at the other. */
  predicate Matching(lines: seq<string>, l: nat, p: nat, l2: nat, q: nat) {
    && IsPosition(lines, l, p) && IsPosition(lines, l2, q) && Precedes(l, p, l2, q)
    && lines[l2][q] == Mate(lines[l][p])
    && Balanced(Between(lines, l, p, l2, q))
  }

  lemma {:induction false} StartForward(lines: seq<string>, l: nat, p: nat)
    requires IsPosition(lines, l, p) && lines[l][p] in "([{"
    ensures Close(lines, l, p)
         == Place(l, p + 1, SearchLines(Forward, [lines[l][p + 1..]] + lines[l + 1..], [lines[l][p]]))
  {
    hide SearchLines;
    var o := lines[l][p];
    assert "" + [o] == [o] && ForwardChar(lines[l], p, "") == Next([o]);
    assert Core([o], '<') == [o] by { CorePush("", '<', o); }
    CloseFromAgrees(lines, l, p + 1, [o]);
  }

  /** The forward search from a round, square or curly bracket finds exactly its partner, whatever
      angle brackets and semicolons stand between. */
  lemma {:induction false} CloseIff(lines: seq<string>, l: nat, p: nat, l2: nat, q: nat)
    requires IsPosition(lines, l, p) && lines[l][p] in "([{"
    ensures Close(lines, l, p) == Some((l2, q)) <==> Matching(lines, l, p, l2, q)
  {
    hide SearchLines, Net, Mate, Close;
    var o, rest := lines[l][p], [lines[l][p + 1..]] + lines[l + 1..];
    StartForward(lines, l, p);
    assert [o] + "" == [o];
    if l == l2 && p < q {
      SearchLinesIff(Forward, rest, o, "", 0, q - p - 1);
      assert Flat(rest[..0]) == "";
      if q < |lines[l]| {
        assert rest[0][..q - p - 1] == lines[l][p + 1..q];
        assert Flat(rest[..0]) + rest[0][..q - p - 1] == lines[l][p + 1..q];
      }
    } else if l < l2 {
      var n := l2 - l;
      SearchLinesIff(Forward, rest, o, "", n, q);
      if l2 < |lines| {
        assert rest[n] == lines[l2];
        assert rest[..n] == [lines[l][p + 1..]] + lines[l + 1..l2];
        assert rest[..n][1..] == lines[l + 1..l2];
      }
    }
  }

  lemma {:induction false} ReversedAppend(a: string, b: string)
    ensures Reversed(a + b) == Reversed(b) + Reversed(a)
  {
    hide Reversed;
  }

  lemma {:induction false} FlatSnoc(lines: seq<string>, last: string)
    ensures Flat(lines + [last]) == Flat(lines) + last
  {
    if lines == [] {
      assert lines + [last] == [last] && [last][1..] == [];
    } else {
      assert (lines + [last])[1..] == lines[1..] + [last];
      FlatSnoc(lines[1..], last);
    }
  }

  lemma {:induction false} FlatMirrored(lines: seq<string>)
    ensures Flat(Mirrored(lines)) == Reversed(Flat(lines))
  {
    hide Reversed;
    if lines != [] {
      var init, last := lines[..|lines| - 1], lines[|lines| - 1];
      FlatMirrored(init);
      FlatSnoc(init, last);
      assert init + [last] == lines;
      ReversedAppend(Flat(init), last);
      assert Mirrored(lines)[1..] == Mirrored(init);
    }
  }

  lemma {:induction false} StartBackward(lines: seq<string>, l: nat, p: nat)
    requires IsPosition(lines, l, p) && lines[l][p] in ")]}"
    ensures Signed(ReverseClose(lines, l, p))
         == PlaceBack(lines, l, p - 1,
              SearchLines(Backward, [Reversed(lines[l][..p])] + Mirrored(lines[..l]), [lines[l][p]]))
  {
    hide SearchLines, Reversed, Mirrored, OpenFrom, BackwardLine, PlaceBack, Core;
    var o := lines[l][p];
    FirstBackward(lines[l], p);
    OpenFromAgrees(lines, l, p - 1, [o]);
    assert lines[l][..p - 1 + 1] == lines[l][..p];
  }

  lemma {:induction false} FirstBackward(line: string, p: nat)
    requires p < |line| && line[p] in ")]}"
    ensures BackwardLine(line, p, "") == BackwardLine(line, p - 1, [line[p]]) && Core([line[p]], '>') == [line[p]]
  {
    var o := line[p];
    assert "" + [o] == [o] && BackwardChar(line, p, "") == Next([o]);
    CorePush("", '>', o);
  }

  /** What the backward search has passed when it reaches an earlier line is the text between, reversed. */
  lemma {:induction false} PassedBackward(lines: seq<string>, l: nat, p: nat, l2: nat, q: nat)
    requires IsPosition(lines, l, p) && IsPosition(lines, l2, q) && l < l2
    ensures var rest := [Reversed(lines[l2][..q])] + Mirrored(lines[..l2]);
      var n, k := l2 - l, |lines[l]| - 1 - p;
      && rest[n] == Reversed(lines[l]) && k < |rest[n]| && rest[n][k] == lines[l][p]
      && Flat(rest[..n]) + rest[n][..k] == Reversed(Between(lines, l, p, l2, q))
  {
    hide Reversed, Mirrored;
    var mid, head, tail := lines[l + 1..l2], lines[l][p + 1..], lines[l2][..q];
    var mirror := Mirrored(lines[..l2]);
    var rest := [Reversed(tail)] + mirror;
    var n, k := l2 - l, |lines[l]| - 1 - p;
    assert rest[n] == mirror[n - 1] == Reversed(lines[l]);
    assert mirror[..n - 1] == Mirrored(mid);
    assert rest[..n] == [Reversed(tail)] + Mirrored(mid) && rest[..n][1..] == Mirrored(mid);
    FlatMirrored(mid);
    assert rest[n][..k] == Reversed(head);
    ReversedAppend(head, Flat(mid));
    ReversedAppend(head + Flat(mid), tail);
    assert Reversed(tail) + Reversed(Flat(mid)) + Reversed(head)
        == Reversed(tail) + (Reversed(Flat(mid)) + Reversed(head));
  }

  /** The backward search finds exactly the partner as well. */
  lemma {:induction false} ReverseCloseIff(lines: seq<string>, l: nat, p: nat, l2: nat, q: nat)
    requires IsPosition(lines, l2, q) && lines[l2][q] in ")]}"
    ensures ReverseClose(lines, l2, q) == Some((l, p)) <==> Matching(lines, l, p, l2, q)
  {
    hide SearchLines, Net, Mate, ReverseClose, Reversed, Mirrored, Between, Flat;
    var c, rest := lines[l2][q], [Reversed(lines[l2][..q])] + Mirrored(lines[..l2]);
    StartBackward(lines, l2, q);
    assert [c] + "" == [c];
    if l == l2 && p < q {
      SameLineBack(lines, l, p, q);
    } else if l < l2 && p < |lines[l]| {
      SearchLinesIff(Backward, rest, c, "", l2 - l, |lines[l]| - 1 - p);
      PassedBackward(lines, l, p, l2, q);
      BalancedBack(Between(lines, l, p, l2, q));
      MateFacts(Forward, c);
      MateFacts(Forward, lines[l][p]);
    }
  }

  lemma {:induction false} SameLineBack(lines: seq<string>, l: nat, p: nat, q: nat)
    requires IsPosition(lines, l, q) && p < q && lines[l][q] in ")]}"
    ensures (SearchLines(Backward, [Reversed(lines[l][..q])] + Mirrored(lines[..l]), [lines[l][q]])
            == Some((0, q - 1 - p)))
       <==> Matching(lines, l, p, l, q)
  {
    hide SearchLines, Net, Mate, Reversed, Mirrored;
    var line := lines[l];
    var c, rest := line[q], [Reversed(line[..q])] + Mirrored(lines[..l]);
    assert [c] + "" == [c];
    SearchLinesIff(Backward, rest, c, "", 0, q - 1 - p);
    assert rest[0] == Reversed(line[..q]) && rest[0][q - 1 - p] == line[p];
    assert Flat(rest[..0]) == "";
    assert Flat(rest[..0]) + rest[0][..q - 1 - p] == Reversed(line[p + 1..q]);
    BalancedBack(line[p + 1..q]);
    MateFacts(Forward, c);
    MateFacts(Forward, line[p]);
  }

  /** For any text over any number of lines, the forward search from an opening bracket ends at a
      closing one exactly when the backward search from there ends at the opening one. */
  lemma {:induction false} SearchesAgree(lines: seq<string>, l: nat, p: nat, l2: nat, q: nat)
    requires IsPosition(lines, l, p) && lines[l][p] in "([{"
    requires IsPosition(lines, l2, q) && lines[l2][q] in ")]}"
    ensures Close(lines, l, p) == Some((l2, q)) <==> ReverseClose(lines, l2, q) == Some((l, p))
  {
    hide *;
    CloseIff(lines, l, p, l2, q);
    ReverseCloseIff(lines, l, p, l2, q);
  }
}
