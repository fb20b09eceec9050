/**
  * build-support/cpplint.py: the bracket scanners. Each keeps a stack of open brackets and walks the cleansed
  * lines forwards or backwards.
  */
module Brackets {
  import opened Options

  predicate IsOpen(c: char) { c == '(' || c == '[' || c == '{' }

  predicate IsClose(c: char) { c == ')' || c == ']' || c == '}' }

  function CloserOf(c: char): char
    requires IsOpen(c)
  {
    if c == '(' then ')' else if c == '[' then ']' else '}'
  }

  /** o is an opening bracket and c its closing bracket. */
  predicate Matches(o: char, c: char) { IsOpen(o) && c == CloserOf(o) }

  function Top(stack: seq<char>): char
    requires stack != []
  {
    stack[|stack| - 1]
  }

  function Pop(stack: seq<char>): seq<char>
    requires stack != []
  {
    stack[..|stack| - 1]
  }

  /** Pending angle brackets that turned out to be operators are dropped. */
  function DropPending(stack: seq<char>, angle: char): seq<char> {
    if stack != [] && Top(stack) == angle then DropPending(Pop(stack), angle) else stack
  }

  // ---------------------------------------------------------------- the regular expressions used

  predicate IsSpace(c: char) {
    c == ' ' || c == '\t' || c == '\n' || c == '\r' || c == 11 as char || c == 12 as char
  }

  predicate IsWord(c: char) { 'a' <= c <= 'z' || 'A' <= c <= 'Z' || '0' <= c <= '9' || c == '_' }

  function TrimRight(s: string): string {
    if s != "" && IsSpace(s[|s| - 1]) then TrimRight(s[..|s| - 1]) else s
  }

  /** The word "operator" and blanks at the end of the text. */
  predicate EndsInOperator(s: string) {
    var t := TrimRight(s);
    |t| >= 8 && t[|t| - 8..] == "operator" && (|t| == 8 || !IsWord(t[|t| - 9]))
  }

  /** " >= " with the > at position i. */
  predicate IsGreaterEqual(line: string, i: nat)
    requires 0 < i < |line|
  {
    i + 2 < |line| && IsSpace(line[i - 1]) && line[i + 1] == '=' && IsSpace(line[i + 2])
  }

  // ---------------------------------------------------------------- forwards, one line

  /** After one character: go on with a stack, or stop, having found the end or not. */
  datatype Scan = Going(stack: seq<char>) | Stopped(found: bool)

  function AfterPop(stack: seq<char>, found: bool): Scan
    requires stack != []
  {
    if Pop(stack) == [] then Stopped(found) else Going(Pop(stack))
  }

  function Forward(line: string, i: nat, stack: seq<char>): Scan
    requires i < |line|
  {
    var c := line[i];
    if IsOpen(c) then Going(stack + [c])
    else if c == '<' then
      if i > 0 && line[i - 1] == '<' then
        (if stack != [] && Top(stack) == '<' then AfterPop(stack, false) else Going(stack))
      else if i > 0 && EndsInOperator(line[..i]) then Going(stack)
      else Going(stack + ['<'])
    else if IsClose(c) then
      var rest := DropPending(stack, '<');
      if rest == [] || !Matches(Top(rest), c) then Stopped(false) else AfterPop(rest, true)
    else if c == '>' then
      if i > 0 && (line[i - 1] == '-' || EndsInOperator(line[..i - 1])) then Going(stack)
      else if stack != [] && Top(stack) == '<' then AfterPop(stack, true)
      else Going(stack)
    else if c == ';' then
      var rest := DropPending(stack, '<');
      if rest == [] then Stopped(false) else Going(rest)
    else Going(stack)
  }

  /** What scanning a line comes to: a position, a definite failure, or the stack at its end. */
  datatype LineScan = At(pos: nat) | Unclosed | Open(stack: seq<char>)

  function ScanLine(line: string, i: nat, stack: seq<char>): (r: LineScan)
    requires i <= |line|
    ensures r.At? ==> 0 < r.pos <= |line|
    decreases |line| - i
  {
    if i == |line| then Open(stack)
    else match Forward(line, i, stack)
         case Going(next) => ScanLine(line, i + 1, next)
         case Stopped(found) => if found then At(i + 1) else Unclosed
  }

  method FindEndOfExpressionInLine(line: string, startpos: nat, stack: seq<char>)
    returns (end: int, rest: Option<seq<char>>)
    requires startpos <= |line|
    ensures match ScanLine(line, startpos, stack)
            case At(pos) => end == pos && rest == None
            case Unclosed => end == -1 && rest == None
            case Open(st) => end == -1 && rest == Some(st)
  {
    var st := stack;
    for i := startpos to |line|
      invariant ScanLine(line, startpos, stack) == ScanLine(line, i, st)
    {
      var c := line[i];
      if IsOpen(c) {
        st := st + [c];
      } else if c == '<' {
        if i > 0 && line[i - 1] == '<' {
          if st != [] && Top(st) == '<' {
            st := Pop(st);
            if st == [] { return -1, None; }
          }
        } else if i > 0 && EndsInOperator(line[..i]) {
          continue;
        } else {
          st := st + ['<'];
        }
      } else if IsClose(c) {
        st := DropPending(st, '<');
        if st == [] { return -1, None; }
        if Matches(Top(st), c) {
          st := Pop(st);
          if st == [] { return i + 1, None; }
        } else {
          return -1, None;
        }
      } else if c == '>' {
        if i > 0 && (line[i - 1] == '-' || EndsInOperator(line[..i - 1])) { continue; }
        if st != [] && Top(st) == '<' {
          st := Pop(st);
          if st == [] { return i + 1, None; }
        }
      } else if c == ';' {
        st := DropPending(st, '<');
        if st == [] { return -1, None; }
      }
    }
    return -1, Some(st);
  }

  // ---------------------------------------------------------------- forwards, many lines

  datatype Position = Position(line: nat, pos: nat)

  /** The position just past the closing bracket, scanning from position pos of line l. */
  function ScanLines(lines: seq<string>, l: nat, pos: nat, stack: seq<char>): (r: Option<Position>)
    requires l < |lines| && pos <= |lines[l]|
    ensures r.Some? ==> l <= r.value.line < |lines| && 0 < r.value.pos <= |lines[r.value.line]|
    decreases |lines| - l
  {
    match ScanLine(lines[l], pos, stack)
    case At(p) => Some(Position(l, p))
    case Unclosed => None
    case Open(st) => if st == [] || l + 1 == |lines| then None else ScanLines(lines, l + 1, 0, st)
  }

  /** The characters from which CloseExpression starts at all. */
  predicate StartsExpression(line: string, pos: nat)
    requires pos < |line|
  {
    IsOpen(line[pos]) || (line[pos] == '<' && !(pos + 1 < |line| && (line[pos + 1] == '<' || line[pos + 1] == '=')))
  }

  function Close(lines: seq<string>, l: nat, pos: nat): Option<Position>
    requires l < |lines| && pos < |lines[l]|
  {
    if StartsExpression(lines[l], pos) then ScanLines(lines, l, pos, []) else None
  }

  method CloseExpression(lines: seq<string>, linenum: nat, pos: nat) returns (endline: nat, endpos: int)
    requires linenum < |lines| && pos < |lines[linenum]|
    ensures match Close(lines, linenum, pos)
            case Some(p) => endline == p.line && endpos == p.pos
            case None => endline == |lines| && endpos == -1
  {
    if !StartsExpression(lines[linenum], pos) { return |lines|, -1; }
    var l := linenum;
    var end, stack := FindEndOfExpressionInLine(lines[l], pos, []);
    if end > -1 { return l, end; }
    while stack.Some? && stack.value != [] && l < |lines| - 1
      invariant linenum <= l < |lines|
      invariant ScanLines(lines, linenum, pos, [])
             == if stack.None? || stack.value == [] || l + 1 == |lines| then None else ScanLines(lines, l + 1, 0, stack.value)
      decreases |lines| - l
    {
      l := l + 1;
      end, stack := FindEndOfExpressionInLine(lines[l], 0, stack.value);
      if end > -1 { return l, end; }
    }
    return |lines|, -1;
  }

  // ---------------------------------------------------------------- backwards, one line

  /** As Forward; skip says that one more character to the left is not looked at. */
  datatype BackScan = BackGoing(stack: seq<char>, skip: bool) | BackStopped(found: bool)

  function BackAfterPop(stack: seq<char>): BackScan
    requires stack != []
  {
    if Pop(stack) == [] then BackStopped(true) else BackGoing(Pop(stack), false)
  }

  function Backward(line: string, i: nat, stack: seq<char>): BackScan
    requires i < |line|
  {
    var c := line[i];
    if IsClose(c) then BackGoing(stack + [c], false)
    else if c == '>' then
      if i > 0 && (line[i - 1] == '-' || IsGreaterEqual(line, i) || EndsInOperator(line[..i])) then BackGoing(stack, true)
      else BackGoing(stack + ['>'], false)
    else if c == '<' then
      if i > 0 && line[i - 1] == '<' then BackGoing(stack, true)
      else if stack != [] && Top(stack) == '>' then BackAfterPop(stack)
      else BackGoing(stack, false)
    else if IsOpen(c) then
      var rest := DropPending(stack, '>');
      if rest == [] || !Matches(c, Top(rest)) then BackStopped(false) else BackAfterPop(rest)
    else if c == ';' then
      var rest := DropPending(stack, '>');
      if rest == [] then BackStopped(false) else BackGoing(rest, false)
    else BackGoing(stack, false)
  }

  /** Scanning a line from position i - 1 down to its start. */
  function ScanLineBack(line: string, i: nat, stack: seq<char>): (r: LineScan)
    requires i <= |line|
    ensures r.At? ==> r.pos < |line|
  {
    if i == 0 then Open(stack)
    else match Backward(line, i - 1, stack)
         case BackGoing(next, skip) => ScanLineBack(line, if skip && i > 1 then i - 2 else i - 1, next)
         case BackStopped(found) => if found then At(i - 1) else Unclosed
  }

  method FindStartOfExpressionInLine(line: string, endpos: int, stack: seq<char>)
    returns (start: int, rest: Option<seq<char>>)
    requires -1 <= endpos < |line|
    ensures match ScanLineBack(line, endpos + 1, stack)
            case At(pos) => start == pos && rest == None
            case Unclosed => start == -1 && rest == None
            case Open(st) => start == -1 && rest == Some(st)
  {
    var st := stack;
    var i := endpos;
    while i >= 0
      invariant -1 <= i < |line|
      invariant ScanLineBack(line, endpos + 1, stack) == ScanLineBack(line, i + 1, st)
    {
      var c := line[i];
      var skipped := false;
      if IsClose(c) {
        st := st + [c];
      } else if c == '>' {
        if i > 0 && (line[i - 1] == '-' || IsGreaterEqual(line, i) || EndsInOperator(line[..i])) {
          skipped := true;
        } else {
          st := st + ['>'];
        }
      } else if c == '<' {
        if i > 0 && line[i - 1] == '<' {
          skipped := true;
        } else if st != [] && Top(st) == '>' {
          st := Pop(st);
          if st == [] { return i, None; }
        }
      } else if IsOpen(c) {
        st := DropPending(st, '>');
        if st == [] { return -1, None; }
        if Matches(c, Top(st)) {
          st := Pop(st);
          if st == [] { return i, None; }
        } else {
          return -1, None;
        }
      } else if c == ';' {
        st := DropPending(st, '>');
        if st == [] { return -1, None; }
      }
      if skipped { i := i - 1; }
      i := i - 1;
    }
    return -1, Some(st);
  }

  // ---------------------------------------------------------------- backwards, many lines

  /** The position of the opening bracket, scanning the first pos characters of line l from the right. */
  function ScanLinesBack(lines: seq<string>, l: nat, pos: nat, stack: seq<char>): (r: Option<Position>)
    requires l < |lines| && pos <= |lines[l]|
    ensures r.Some? ==> r.value.line <= l && r.value.pos < |lines[r.value.line]|
    decreases l
  {
    match ScanLineBack(lines[l], pos, stack)
    case At(p) => Some(Position(l, p))
    case Unclosed => None
    case Open(st) => if st == [] || l == 0 then None else ScanLinesBack(lines, l - 1, |lines[l - 1]|, st)
  }

  function ReverseClose(lines: seq<string>, l: nat, pos: nat): Option<Position>
    requires l < |lines| && pos < |lines[l]|
  {
    if IsClose(lines[l][pos]) || lines[l][pos] == '>' then ScanLinesBack(lines, l, pos + 1, []) else None
  }

  method ReverseCloseExpression(lines: seq<string>, linenum: nat, pos: nat) returns (startline: nat, startpos: int)
    requires linenum < |lines| && pos < |lines[linenum]|
    ensures match ReverseClose(lines, linenum, pos)
            case Some(p) => startline == p.line && startpos == p.pos
            case None => startline == 0 && startpos == -1
  {
    if !(IsClose(lines[linenum][pos]) || lines[linenum][pos] == '>') { return 0, -1; }
    var l := linenum;
    var start, stack := FindStartOfExpressionInLine(lines[l], pos, []);
    if start > -1 { return l, start; }
    while stack.Some? && stack.value != [] && l > 0
      invariant 0 <= l <= linenum
      invariant ScanLinesBack(lines, linenum, pos + 1, [])
             == if stack.None? || stack.value == [] || l == 0 then None else ScanLinesBack(lines, l - 1, |lines[l - 1]|, stack.value)
      decreases l
    {
      l := l - 1;
      start, stack := FindStartOfExpressionInLine(lines[l], |lines[l]| - 1, stack.value);
      if start > -1 { return l, start; }
    }
    return 0, -1;
  }

  // ---------------------------------------------------------------- the other matcher

  /** The matcher of _GetTextInside: a stack of the closing brackets expected, from position i on. */
  function Expecting(text: string, i: nat, expected: seq<char>): Option<nat>
    requires i <= |text|
    decreases |text| - i
  {
    if expected == [] then Some(i)
    else if i == |text| then None
    else if text[i] == Top(expected) then Expecting(text, i + 1, Pop(expected))
    else if IsClose(text[i]) then None
    else if IsOpen(text[i]) then Expecting(text, i + 1, expected + [CloserOf(text[i])])
    else Expecting(text, i + 1, expected)
  }

  /** The text between the opening bracket before position start and its closing bracket. */
  method GetTextInside(text: string, start: nat) returns (inside: Option<string>)
    requires 0 < start <= |text| && IsOpen(text[start - 1])
    ensures match Expecting(text, start, [CloserOf(text[start - 1])])
            case Some(end) => start < end <= |text| && inside == Some(text[start..end - 1])
            case None => inside == None
  {
    var expected := [CloserOf(text[start - 1])];
    var position := start;
    while expected != [] && position < |text|
      invariant start <= position <= |text|
      invariant expected == [] ==> start < position
      invariant Expecting(text, start, [CloserOf(text[start - 1])]) == Expecting(text, position, expected)
      decreases |text| - position
    {
      if text[position] == Top(expected) {
        expected := Pop(expected);
      } else if IsClose(text[position]) {
        return None;
      } else if IsOpen(text[position]) {
        expected := expected + [CloserOf(text[position])];
      }
      position := position + 1;
    }
    if expected != [] { return None; }
    return Some(text[start..position - 1]);
  }
}
