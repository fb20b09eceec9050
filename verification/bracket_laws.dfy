/**
  * On text without angle brackets the forward scanner, the backward scanner and the matcher of _GetTextInside
  * all compute the same thing: the closing bracket that encloses balanced text.
  */
module BracketLaws {
  import opened Options
  import opened Brackets

  // ---------------------------------------------------------------- balanced text

  /** How a balanced text is built: nothing, a character that is no bracket, or a pair around balanced text. */
  datatype Balanced = Empty | Plain(rest: Balanced) | Pair(inner: Balanced, rest: Balanced)
  {
    function Length(): nat {
      match this
      case Empty => 0
      case Plain(rest) => 1 + rest.Length()
      case Pair(inner, rest) => 2 + inner.Length() + rest.Length()
    }

    /** The text at position i is built this way. */
    predicate At(text: string, i: nat) {
      match this
      case Empty => i <= |text|
      case Plain(rest) => i < |text| && !IsOpen(text[i]) && !IsClose(text[i]) && rest.At(text, i + 1)
      case Pair(inner, rest) =>
        var m := i + 1 + inner.Length();
        i < m < |text| && Matches(text[i], text[m]) && inner.At(text, i + 1) && rest.At(text, m + 1)
    }
  }

  /** text from i up to j is balanced. */
  ghost predicate BalancedAt(text: string, i: nat, j: nat, b: Balanced) {
    b.At(text, i) && j == i + b.Length()
  }

  predicate IsPair(pair: string) { pair == "()" || pair == "[]" || pair == "{}" }

  lemma PairsExactly(o: char, c: char)
    ensures Matches(o, c) <==> IsPair([o, c])
  {
    assert o == [o, c][0] && c == [o, c][1];
  }

  /** The bracket at p is closed by the one at q, with balanced text between them. */
  ghost predicate Encloses(text: string, p: nat, q: nat) {
    p < q < |text| && Matches(text[p], text[q]) && exists b: Balanced :: b.At(text, p + 1) && q == p + 1 + b.Length()
  }

  // ---------------------------------------------------------------- one text

  /** The forward scanner on one text: the position of the bracket that empties the stack. */
  function Closer(text: string, i: nat, stack: seq<char>): (r: Option<nat>)
    requires i <= |text|
    ensures r.Some? ==> i <= r.value < |text|
    decreases |text| - i
  {
    if i == |text| then None
    else if IsOpen(text[i]) then Closer(text, i + 1, stack + [text[i]])
    else if !IsClose(text[i]) then Closer(text, i + 1, stack)
    else if stack == [] || !Matches(Top(stack), text[i]) then None
    else if |stack| == 1 then Some(i)
    else Closer(text, i + 1, Pop(stack))
  }

  /** The backward scanner on the first i characters: the position of the bracket that empties the stack. */
  function Opener(text: string, i: nat, stack: seq<char>): (r: Option<nat>)
    requires i <= |text|
    ensures r.Some? ==> r.value < i
  {
    if i == 0 then None
    else if IsClose(text[i - 1]) then Opener(text, i - 1, stack + [text[i - 1]])
    else if !IsOpen(text[i - 1]) then Opener(text, i - 1, stack)
    else if stack == [] || !Matches(text[i - 1], Top(stack)) then None
    else if |stack| == 1 then Some(i - 1)
    else Opener(text, i - 1, Pop(stack))
  }

  /** A pair cancels if the text in it is passed. */
  lemma PairPasses(text: string, p: nat, q: nat, stack: seq<char>)
    requires p < q < |text| && Matches(text[p], text[q]) && stack != []
    requires Closer(text, p + 1, stack + [text[p]]) == Closer(text, q, stack + [text[p]])
    ensures Closer(text, p, stack) == Closer(text, q + 1, stack)
  {
    assert Pop(stack + [text[p]]) == stack;
  }

  lemma {:induction false} ForwardPasses(text: string, i: nat, b: Balanced, stack: seq<char>)
    requires b.At(text, i) && i + b.Length() <= |text| && stack != []
    ensures Closer(text, i, stack) == Closer(text, i + b.Length(), stack)
    decreases b
  {
    match b
    case Empty =>
    case Plain(rest) =>
      ForwardPasses(text, i + 1, rest, stack);
    case Pair(inner, rest) =>
      var m := i + 1 + inner.Length();
      ForwardPasses(text, i + 1, inner, stack + [text[i]]);
      PairPasses(text, i, m, stack);
      ForwardPasses(text, m + 1, rest, stack);
  }

  lemma {:induction false} BackwardPasses(text: string, i: nat, b: Balanced, stack: seq<char>)
    requires b.At(text, i) && i + b.Length() <= |text| && stack != []
    ensures Opener(text, i + b.Length(), stack) == Opener(text, i, stack)
    decreases b
  {
    match b
    case Empty =>
    case Plain(rest) =>
      BackwardPasses(text, i + 1, rest, stack);
    case Pair(inner, rest) =>
      var m := i + 1 + inner.Length();
      BackwardPasses(text, m + 1, rest, stack);
      BackwardPasses(text, i + 1, inner, stack + [text[m]]);
      assert Pop(stack + [text[m]]) == stack;
  }

  /** If the scan from i with open brackets succeeds, balanced text and the closer of the innermost one follow. */
  lemma {:induction false} ForwardDecomposes(text: string, i: nat, stack: seq<char>) returns (m: nat, b: Balanced)
    requires i <= |text| && stack != [] && Closer(text, i, stack).Some?
    ensures BalancedAt(text, i, m, b) && m < |text| && Matches(Top(stack), text[m])
    ensures Closer(text, i, stack) == if |stack| == 1 then Some(m) else Closer(text, m + 1, Pop(stack))
    decreases |text| - i
  {
    if IsOpen(text[i]) {
      var m1, b1 := ForwardDecomposes(text, i + 1, stack + [text[i]]);
      assert Pop(stack + [text[i]]) == stack;
      var b2;
      m, b2 := ForwardDecomposes(text, m1 + 1, stack);
      b := Pair(b1, b2);
    } else if IsClose(text[i]) {
      m, b := i, Empty;
    } else {
      var b1;
      m, b1 := ForwardDecomposes(text, i + 1, stack);
      b := Plain(b1);
    }
  }

  /** Balanced texts can be put together. */
  function Concat(a: Balanced, b: Balanced): (r: Balanced)
    ensures r.Length() == a.Length() + b.Length()
  {
    match a
    case Empty => b
    case Plain(rest) => Plain(Concat(rest, b))
    case Pair(inner, rest) => Pair(inner, Concat(rest, b))
  }

  lemma {:induction false} ConcatAt(text: string, i: nat, a: Balanced, b: Balanced)
    requires a.At(text, i) && b.At(text, i + a.Length())
    ensures Concat(a, b).At(text, i)
    decreases a
  {
    match a
    case Empty =>
    case Plain(rest) =>
      ConcatAt(text, i + 1, rest, b);
      assert Concat(a, b) == Plain(Concat(rest, b));
    case Pair(inner, rest) =>
      ConcatAt(text, i + 2 + inner.Length(), rest, b);
      assert Concat(a, b) == Pair(inner, Concat(rest, b));
  }

  lemma {:induction false} BackwardDecomposes(text: string, i: nat, stack: seq<char>) returns (m: nat, b: Balanced)
    requires i <= |text| && stack != [] && Opener(text, i, stack).Some?
    ensures m < i && BalancedAt(text, m + 1, i, b) && Matches(text[m], Top(stack))
    ensures Opener(text, i, stack) == if |stack| == 1 then Some(m) else Opener(text, m, Pop(stack))
    decreases i
  {
    var c := text[i - 1];
    if IsClose(c) {
      var m1, b1 := BackwardDecomposes(text, i - 1, stack + [c]);
      assert Pop(stack + [c]) == stack;
      var b2;
      m, b2 := BackwardDecomposes(text, m1, stack);
      assert Empty.At(text, i) && Pair(b1, Empty).Length() == 2 + b1.Length();
      ConcatAt(text, m + 1, b2, Pair(b1, Empty));
      b := Concat(b2, Pair(b1, Empty));
    } else if IsOpen(c) {
      m, b := i - 1, Empty;
    } else {
      var b1;
      m, b1 := BackwardDecomposes(text, i - 1, stack);
      assert Empty.At(text, i) && Plain(Empty).Length() == 1;
      ConcatAt(text, m + 1, b1, Plain(Empty));
      b := Concat(b1, Plain(Empty));
    }
  }

  /** Forwards from an opening bracket the scanner finds exactly the bracket that encloses balanced text with it. */
  lemma CloserEncloses(text: string, p: nat, q: nat)
    requires p < |text| && IsOpen(text[p])
    ensures Closer(text, p, []) == Some(q) <==> Encloses(text, p, q)
  {
    var stack := [text[p]];
    assert [] + stack == stack;
    if Closer(text, p, []) == Some(q) {
      var m, b := ForwardDecomposes(text, p + 1, stack);
    } else if Encloses(text, p, q) {
      var b: Balanced :| b.At(text, p + 1) && q == p + 1 + b.Length();
      ForwardPasses(text, p + 1, b, stack);
    }
  }

  lemma OpenerEncloses(text: string, p: nat, q: nat)
    requires q < |text| && IsClose(text[q])
    ensures Opener(text, q + 1, []) == Some(p) <==> Encloses(text, p, q)
  {
    var stack := [text[q]];
    assert [] + stack == stack;
    if Opener(text, q + 1, []) == Some(p) {
      var m, b := BackwardDecomposes(text, q, stack);
    } else if Encloses(text, p, q) {
      var b: Balanced :| b.At(text, p + 1) && q == p + 1 + b.Length();
      BackwardPasses(text, p + 1, b, stack);
    }
  }

  // ---------------------------------------------------------------- the other matcher

  predicate AllOpen(stack: seq<char>) { forall i :: 0 <= i < |stack| ==> IsOpen(stack[i]) }

  function Closers(stack: seq<char>): (r: seq<char>)
    requires AllOpen(stack)
    ensures |r| == |stack| && forall i :: 0 <= i < |stack| ==> r[i] == CloserOf(stack[i])
  {
    seq(|stack|, i requires 0 <= i < |stack| => CloserOf(stack[i]))
  }

  /** The stack of expected closers finds the same bracket, on every text. */
  lemma {:induction false} ExpectingAgrees(text: string, i: nat, stack: seq<char>)
    requires i <= |text| && stack != [] && AllOpen(stack)
    ensures Expecting(text, i, Closers(stack))
         == match Closer(text, i, stack) case Some(q) => Some(q + 1) case None => None
    decreases |text| - i
  {
    if i < |text| {
      var c := text[i];
      if c == Top(Closers(stack)) {
        assert Pop(Closers(stack)) == if |stack| == 1 then [] else Closers(Pop(stack));
        if |stack| > 1 { ExpectingAgrees(text, i + 1, Pop(stack)); }
      } else if IsOpen(c) {
        assert Closers(stack + [c]) == Closers(stack) + [CloserOf(c)];
        ExpectingAgrees(text, i + 1, stack + [c]);
      } else if !IsClose(c) {
        ExpectingAgrees(text, i + 1, stack);
      }
    }
  }

  /** _GetTextInside finds the bracket the forward scanner finds, or fails with it. */
  lemma TextInsideAgrees(text: string, p: nat)
    requires p < |text| && IsOpen(text[p])
    ensures Expecting(text, p + 1, [CloserOf(text[p])])
         == match Closer(text, p, []) case Some(q) => Some(q + 1) case None => None
  {
    assert [] + [text[p]] == [text[p]];
    assert Closers([text[p]]) == [CloserOf(text[p])];
    ExpectingAgrees(text, p + 1, [text[p]]);
  }

  // ---------------------------------------------------------------- lines

  /** The lines written one after the other. */
  function Joined(lines: seq<string>, n: nat): string
    requires n <= |lines|
  {
    if n == 0 then "" else Joined(lines, n - 1) + lines[n - 1]
  }

  /** Where line l starts in the joined text. */
  function Offset(lines: seq<string>, l: nat): nat
    requires l <= |lines|
  {
    if l == 0 then 0 else Offset(lines, l - 1) + |lines[l - 1]|
  }

  /** The line is the stretch of the text that starts at position at. */
  ghost predicate LiesAt(line: string, text: string, at: nat) {
    at + |line| <= |text| && forall i :: 0 <= i < |line| ==> text[at + i] == line[i]
  }

  /** Each of the first n lines is the stretch of the text at its offset. */
  ghost predicate LaysOut(lines: seq<string>, text: string, n: nat)
    requires n <= |lines|
  {
    n == 0 || (LiesAt(lines[n - 1], text, Offset(lines, n - 1)) && LaysOut(lines, text, n - 1))
  }

  /** The text is the lines one after the other. */
  ghost predicate Lays(lines: seq<string>, text: string) {
    |text| == Offset(lines, |lines|) && LaysOut(lines, text, |lines|)
  }

  lemma {:induction false} LineInText(lines: seq<string>, text: string, n: nat, l: nat)
    requires l < n <= |lines| && LaysOut(lines, text, n)
    ensures LiesAt(lines[l], text, Offset(lines, l)) && Offset(lines, l + 1) == Offset(lines, l) + |lines[l]|
    decreases n
  {
    if l < n - 1 { LineInText(lines, text, n - 1, l); }
  }

  lemma {:induction false} LaysLonger(lines: seq<string>, text: string, more: string, n: nat)
    requires n <= |lines| && LaysOut(lines, text, n)
    ensures LaysOut(lines, text + more, n)
  {
    if n > 0 { LaysLonger(lines, text, more, n - 1); }
  }

  /** The joined lines are such a text. */
  lemma {:induction false} JoinedLays(lines: seq<string>, n: nat)
    requires n <= |lines|
    ensures |Joined(lines, n)| == Offset(lines, n) && LaysOut(lines, Joined(lines, n), n)
  {
    if n > 0 {
      JoinedLays(lines, n - 1);
      LaysLonger(lines, Joined(lines, n - 1), lines[n - 1], n - 1);
    }
  }

  predicate NoAngles(s: string) { forall i :: 0 <= i < |s| ==> s[i] != '<' && s[i] != '>' }

  /** Scanning a line is scanning its stretch of the text. */
  lemma {:induction false} LineScanInText(line: string, text: string, at: nat, i: nat, stack: seq<char>)
    requires LiesAt(line, text, at) && NoAngles(line) && i <= |line|
    requires AllOpen(stack) && (stack != [] || (i < |line| && IsOpen(line[i])))
    ensures match ScanLine(line, i, stack)
            case At(p) => Closer(text, at + i, stack) == Some(at + p - 1)
            case Unclosed => Closer(text, at + i, stack) == None
            case Open(st) => st != [] && AllOpen(st) && Closer(text, at + i, stack) == Closer(text, at + |line|, st)
    decreases |line| - i
  {
    if i < |line| {
      PlainForward(line, i, stack);
      match Forward(line, i, stack)
      case Going(next) => LineScanInText(line, text, at, i + 1, next);
      case Stopped(_) =>
    }
  }

  lemma PlainForward(line: string, i: nat, stack: seq<char>)
    requires i < |line| && NoAngles(line) && AllOpen(stack) && (stack != [] || IsOpen(line[i]))
    ensures var c := line[i];
            Forward(line, i, stack) ==
            if IsOpen(c) then Going(stack + [c])
            else if !IsClose(c) then Going(stack)
            else if !Matches(Top(stack), c) then Stopped(false)
            else if |stack| == 1 then Stopped(true)
            else Going(Pop(stack))
  {
  }

  ghost predicate AngleFree(lines: seq<string>) { forall k :: 0 <= k < |lines| ==> NoAngles(lines[k]) }

  /** Scanning the lines is scanning the text. */
  lemma {:induction false} LinesScanInText(lines: seq<string>, text: string, l: nat, pos: nat, stack: seq<char>)
    requires Lays(lines, text) && AngleFree(lines) && l < |lines| && pos <= |lines[l]|
    requires AllOpen(stack) && (stack != [] || (pos < |lines[l]| && IsOpen(lines[l][pos])))
    requires Offset(lines, l) + pos <= |text|
    ensures Closer(text, Offset(lines, l) + pos, stack)
         == match ScanLines(lines, l, pos, stack)
            case Some(p) => Some(Offset(lines, p.line) + p.pos - 1)
            case None => None
    decreases |lines| - l
  {
    LineInText(lines, text, |lines|, l);
    LineScanInText(lines[l], text, Offset(lines, l), pos, stack);
    match ScanLine(lines[l], pos, stack)
    case Open(st) => if l + 1 < |lines| { LinesScanInText(lines, text, l + 1, 0, st); }
    case _ =>
  }

  // ---------------------------------------------------------------- lines, backwards

  predicate AllClose(stack: seq<char>) { forall i :: 0 <= i < |stack| ==> IsClose(stack[i]) }

  lemma PlainBackward(line: string, i: nat, stack: seq<char>)
    requires i < |line| && NoAngles(line) && AllClose(stack) && (stack != [] || IsClose(line[i]))
    ensures var c := line[i];
            Backward(line, i, stack) ==
            if IsClose(c) then BackGoing(stack + [c], false)
            else if !IsOpen(c) then BackGoing(stack, false)
            else if !Matches(c, Top(stack)) then BackStopped(false)
            else if |stack| == 1 then BackStopped(true)
            else BackGoing(Pop(stack), false)
  {
  }

  /** One step of both scanners. */
  lemma BackStepInText(line: string, text: string, at: nat, i: nat, stack: seq<char>)
    requires LiesAt(line, text, at) && NoAngles(line) && i < |line|
    requires AllClose(stack) && (stack != [] || IsClose(line[i]))
    ensures match Backward(line, i, stack)
            case BackGoing(next, skip) =>
              !skip && next != [] && AllClose(next) && Opener(text, at + i + 1, stack) == Opener(text, at + i, next)
            case BackStopped(found) => Opener(text, at + i + 1, stack) == if found then Some(at + i) else None
  {
    PlainBackward(line, i, stack);
    assert text[at + i + 1 - 1] == line[i];
  }

  lemma {:induction false} LineScanBackInText(line: string, text: string, at: nat, i: nat, stack: seq<char>)
    requires LiesAt(line, text, at) && NoAngles(line) && i <= |line|
    requires AllClose(stack) && (stack != [] || (i > 0 && IsClose(line[i - 1])))
    ensures match ScanLineBack(line, i, stack)
            case At(p) => Opener(text, at + i, stack) == Some(at + p)
            case Unclosed => Opener(text, at + i, stack) == None
            case Open(st) => st != [] && AllClose(st) && Opener(text, at + i, stack) == Opener(text, at, st)
  {
    if i > 0 {
      BackStepInText(line, text, at, i - 1, stack);
      match Backward(line, i - 1, stack)
      case BackGoing(next, _) => LineScanBackInText(line, text, at, i - 1, next);
      case BackStopped(_) =>
    }
  }

  lemma {:induction false} LinesScanBackInText(lines: seq<string>, text: string, l: nat, pos: nat, stack: seq<char>)
    requires Lays(lines, text) && AngleFree(lines) && l < |lines| && pos <= |lines[l]|
    requires AllClose(stack) && (stack != [] || (pos > 0 && IsClose(lines[l][pos - 1])))
    requires Offset(lines, l) + pos <= |text|
    ensures Opener(text, Offset(lines, l) + pos, stack)
         == match ScanLinesBack(lines, l, pos, stack)
            case Some(p) => Some(Offset(lines, p.line) + p.pos)
            case None => None
    decreases l
  {
    LineInText(lines, text, |lines|, l);
    LineScanBackInText(lines[l], text, Offset(lines, l), pos, stack);
    match ScanLineBack(lines[l], pos, stack)
    case Open(st) => if l > 0 { LinesScanBackInText(lines, text, l - 1, |lines[l - 1]|, st); }
    case _ =>
  }

  // ---------------------------------------------------------------- the scanners of the lint engine

  /** A line and a position in it. */
  predicate InLines(lines: seq<string>, l: nat, pos: nat) { l < |lines| && pos < |lines[l]| }

  /** The place of a position in the joined text. */
  function Index(lines: seq<string>, l: nat, pos: nat): nat
    requires InLines(lines, l, pos)
  {
    Offset(lines, l) + pos
  }

  lemma {:induction false} OffsetGrows(lines: seq<string>, l: nat, m: nat)
    requires l <= m <= |lines|
    ensures Offset(lines, l) <= Offset(lines, m)
  {
    if l < m { OffsetGrows(lines, l, m - 1); }
  }

  lemma IndexInjective(lines: seq<string>, l: nat, pos: nat, l': nat, pos': nat)
    requires InLines(lines, l, pos) && InLines(lines, l', pos')
    ensures Index(lines, l, pos) == Index(lines, l', pos') <==> l == l' && pos == pos'
  {
    if l < l' {
      OffsetGrows(lines, l + 1, l');
    } else if l' < l {
      OffsetGrows(lines, l' + 1, l);
    }
  }

  /** CloseExpression over lines is one scan over the joined text, and it finds the enclosing bracket. */
  lemma CloseEncloses(lines: seq<string>, text: string, l: nat, pos: nat, l': nat, pos': nat)
    requires Lays(lines, text) && AngleFree(lines)
    requires InLines(lines, l, pos) && InLines(lines, l', pos')
    ensures Close(lines, l, pos) == Some(Position(l', pos' + 1))
       <==> Encloses(text, Index(lines, l, pos), Index(lines, l', pos'))
  {
    LineInText(lines, text, |lines|, l);
    if IsOpen(lines[l][pos]) {
      LinesScanInText(lines, text, l, pos, []);
      CloserEncloses(text, Index(lines, l, pos), Index(lines, l', pos'));
      match Close(lines, l, pos)
      case None =>
      case Some(p) => IndexInjective(lines, p.line, p.pos - 1, l', pos');
    }
  }

  lemma ReverseCloseEncloses(lines: seq<string>, text: string, l: nat, pos: nat, l': nat, pos': nat)
    requires Lays(lines, text) && AngleFree(lines)
    requires InLines(lines, l, pos) && InLines(lines, l', pos')
    ensures ReverseClose(lines, l', pos') == Some(Position(l, pos))
       <==> Encloses(text, Index(lines, l, pos), Index(lines, l', pos'))
  {
    LineInText(lines, text, |lines|, l');
    if IsClose(lines[l'][pos']) {
      LinesScanBackInText(lines, text, l', pos' + 1, []);
      OpenerEncloses(text, Index(lines, l, pos), Index(lines, l', pos'));
      match ReverseClose(lines, l', pos')
      case None =>
      case Some(p) => IndexInjective(lines, p.line, p.pos, l, pos);
    }
  }

  /**
    * The two scanners undo each other on any number of lines, from any position: CloseExpression ends just past
    * a position if and only if ReverseCloseExpression comes back from it, and that is so exactly when the
    * characters there are a pair of brackets around balanced text.
    */
  lemma ScannersUndoEachOther(lines: seq<string>, text: string, l: nat, pos: nat, l': nat, pos': nat)
    requires Lays(lines, text) && AngleFree(lines) && InLines(lines, l, pos) && InLines(lines, l', pos')
    ensures Close(lines, l, pos) == Some(Position(l', pos' + 1)) <==> ReverseClose(lines, l', pos') == Some(Position(l, pos))
    ensures Close(lines, l, pos) == Some(Position(l', pos' + 1))
       <==> Encloses(text, Index(lines, l, pos), Index(lines, l', pos'))
  {
    CloseEncloses(lines, text, l, pos, l', pos');
    ReverseCloseEncloses(lines, text, l, pos, l', pos');
  }

  /** CloseExpression over the lines and _GetTextInside over the joined text find the same bracket or both fail. */
  lemma MatchersAgree(lines: seq<string>, text: string, l: nat, pos: nat)
    requires Lays(lines, text) && AngleFree(lines) && InLines(lines, l, pos) && IsOpen(lines[l][pos])
    ensures Index(lines, l, pos) < |text|
    ensures Expecting(text, Index(lines, l, pos) + 1, [CloserOf(lines[l][pos])])
         == match Close(lines, l, pos) case Some(p) => Some(Offset(lines, p.line) + p.pos) case None => None
  {
    LineInText(lines, text, |lines|, l);
    LinesScanInText(lines, text, l, pos, []);
    TextInsideAgrees(text, Index(lines, l, pos));
  }
}
