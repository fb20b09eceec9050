/**
  * Text with angle brackets. On a line where they are used as in C++ (template argument lists, arrows, shifts, and
  * comparisons and operator names inside parentheses) the two scanners still undo each other, and they give up on
  * text that is not built this way. Writing a predicate as equal to true keeps the verifier from unfolding it into
  * one goal for each part.
  */
module AngleLaws {
  import opened Options
  import opened Brackets

  // ---------------------------------------------------------------- how such text is built

  /** A line, and a mark at every position before which it reads "operator". */
  datatype Source = Source(line: string, marks: seq<bool>)
  {
    predicate AfterOperator(i: nat) { i < |marks| && marks[i] }

    ghost predicate Valid() {
      forall i: nat {:trigger EndsInOperator(line[..i])} :: i <= |line| ==> (AfterOperator(i) <==> EndsInOperator(line[..i]))
    }

    /** A < that is neither half of << nor part of an operator name. */
    predicate OpensTemplate(i: nat) {
      i < |line| && line[i] == '<' && (i > 0 ==> line[i - 1] != '<' && !AfterOperator(i))
    }

    /** A > that is not part of ->, of >= between blanks, or of an operator name. */
    predicate ClosesTemplate(i: nat) {
      && i < |line| && line[i] == '>'
      && (i > 0 ==> line[i - 1] != '-' && !IsGreaterEqual(line, i) && !AfterOperator(i) && !AfterOperator(i - 1))
    }

    predicate AroundPair(p: nat, q: nat) { p < q < |line| && Matches(line[p], line[q]) }

    predicate AroundTemplate(p: nat, q: nat) { p < q && OpensTemplate(p) && ClosesTemplate(q) }

    /** Brackets around text of the mode. */
    predicate Around(mode: Mode, p: nat, q: nat) {
      p < q < |line| && match mode case InTemplate => AroundTemplate(p, q) case InPair(less) => !less && AroundPair(p, q)
    }
  }

  predicate PlainChar(c: char) { !IsOpen(c) && !IsClose(c) && c != '<' && c != '>' && c != ';' }

  /** Inside a template argument list, or directly inside a pair, after a < that is no bracket or not. */
  datatype Mode = InTemplate | InPair(less: bool)

  /**
    * A piece without brackets in it. Less, Greater, Operator and Skipped are < and > that are no brackets; Skipped
    * is a > with the character before it, in >= between blanks or after the word operator.
    */
  datatype Piece = Char | Arrow | Shift | Less | Greater | Operator | Skipped | Semicolon
  {
    function Width(): nat { if Arrow? || Shift? || Skipped? then 2 else 1 }

    /** Where the text after the piece is. */
    function After(mode: Mode): Mode {
      if Less? || Operator? then InPair(true) else if Semicolon? then InPair(false) else mode
    }

    predicate At(src: Source, i: nat, mode: Mode) {
      var line := src.line;
      i + Width() <= |line| &&
      match this
      case Char => PlainChar(line[i])
      case Arrow => line[i] == '-' && line[i + 1] == '>'
      case Shift => src.OpensTemplate(i) && line[i + 1] == '<'
      case Less => mode.InPair? && src.OpensTemplate(i)
      case Greater => mode == InPair(false) && src.ClosesTemplate(i)
      case Operator => mode.InPair? && i > 0 && line[i] == '<' && src.AfterOperator(i) && line[i - 1] != '<'
      case Skipped =>
        && mode == InPair(false) && PlainChar(line[i]) && line[i] != '-' && line[i + 1] == '>'
        && (IsGreaterEqual(line, i + 1) || src.AfterOperator(i + 1))
      case Semicolon => mode.InPair? && line[i] == ';'
    }
  }

  /** Pieces, and brackets around such text that close at a position; the mode says what is inside them. */
  datatype Angled = Done | Plain(piece: Piece, rest: Angled) | Nested(inside: Mode, close: nat, inner: Angled, rest: Angled)
  {
    /** The line from i up to j is built this way. Proofs that do not look inside use Built, which unfolds to At. */
    predicate Built(src: Source, i: nat, j: nat, mode: Mode)
      decreases this, 1
    {
      At(src, i, j, mode)
    }

    predicate At(src: Source, i: nat, j: nat, mode: Mode)
      decreases this, 0
    {
      match this
      case Done => i == j <= |src.line|
      case Plain(piece, rest) => piece.At(src, i, mode) && rest.Built(src, i + piece.Width(), j, piece.After(mode))
      case Nested(inside, close, inner, rest) =>
        src.Around(inside, i, close) && inner.Built(src, i + 1, close, inside) && rest.Built(src, close + 1, j, mode)
    }
  }

  // ---------------------------------------------------------------- pending brackets

  /** A stack with k angle brackets on top. */
  function Pending(s: seq<char>, angle: char, k: nat): (r: seq<char>)
    ensures |r| == |s| + k && (k > 0 ==> Top(r) == angle)
  {
    if k == 0 then s else Pending(s, angle, k - 1) + [angle]
  }

  lemma {:induction false} PendingDropped(s: seq<char>, angle: char, k: nat)
    requires s != [] && Top(s) != angle
    ensures DropPending(Pending(s, angle, k), angle) == s
  {
    if k > 0 {
      assert Pop(Pending(s, angle, k)) == Pending(s, angle, k - 1);
      PendingDropped(s, angle, k - 1);
    }
  }

  // ---------------------------------------------------------------- forwards

  lemma Step(line: string, i: nat, st: seq<char>, next: seq<char>)
    requires i < |line| && Forward(line, i, st) == Going(next)
    ensures ScanLine(line, i, st) == ScanLine(line, i + 1, next)
  {
  }

  /** Pending < after a piece, if there were k before it. */
  function PendingAfter(piece: Piece, k: nat): nat { if piece.Less? then k + 1 else if piece.Semicolon? then 0 else k }

  /** What is on the stack: pending < only in a pair, after one of them. */
  ghost predicate Stacked(s: seq<char>, k: nat, mode: Mode) {
    s != [] && (mode.InPair? ==> Top(s) != '<') && (mode != InPair(true) ==> k == 0)
  }

  /** Two characters that leave the stack as it is. */
  lemma TwoSteps(line: string, i: nat, st: seq<char>, between: seq<char>)
    requires i + 1 < |line| && Forward(line, i, st) == Going(between) && Forward(line, i + 1, between) == Going(st)
    ensures ScanLine(line, i, st) == ScanLine(line, i + 2, st)
  {
    Step(line, i, st, between);
    Step(line, i + 1, between, st);
  }

  lemma WidePiece(src: Source, i: nat, piece: Piece, mode: Mode, st: seq<char>)
    requires src.Valid() && piece.At(src, i, mode) && piece.Width() == 2 && st != []
    requires piece.Skipped? ==> Top(st) != '<'
    ensures ScanLine(src.line, i, st) == ScanLine(src.line, i + 2, st)
  {
    var line := src.line;
    if piece.Shift? {
      assert i > 0 ==> !EndsInOperator(line[..i]);
      assert Pop(st + ['<']) == st;
      assert Forward(line, i, st) == Going(st + ['<']);
      TwoSteps(line, i, st, st + ['<']);
    } else {
      assert Forward(line, i, st) == Going(st) == Forward(line, i + 1, st);
      TwoSteps(line, i, st, st);
    }
  }

  lemma NarrowPiece(src: Source, i: nat, piece: Piece, mode: Mode, s: seq<char>, k: nat)
    requires src.Valid() && piece.At(src, i, mode) && piece.Width() == 1 && Stacked(s, k, mode)
    ensures Forward(src.line, i, Pending(s, '<', k)) == Going(Pending(s, '<', PendingAfter(piece, k)))
  {
    assert i > 0 ==> (src.AfterOperator(i) <==> EndsInOperator(src.line[..i]));
    if piece.Semicolon? { PendingDropped(s, '<', k); }
  }

  lemma PiecePasses(src: Source, i: nat, piece: Piece, mode: Mode, s: seq<char>, k: nat)
    requires src.Valid() && piece.At(src, i, mode) && Stacked(s, k, mode)
    ensures ScanLine(src.line, i, Pending(s, '<', k))
         == ScanLine(src.line, i + piece.Width(), Pending(s, '<', PendingAfter(piece, k)))
  {
    if piece.Width() == 2 {
      WidePiece(src, i, piece, mode, Pending(s, '<', k));
    } else {
      NarrowPiece(src, i, piece, mode, s, k);
      Step(src.line, i, Pending(s, '<', k), Pending(s, '<', PendingAfter(piece, k)));
    }
  }

  lemma ClosePair(src: Source, p: nat, q: nat, st: seq<char>, k: nat)
    requires src.AroundPair(p, q)
    requires ScanLine(src.line, p + 1, st + [src.line[p]]) == ScanLine(src.line, q, Pending(st + [src.line[p]], '<', k))
    ensures ScanLine(src.line, p, st) == if st == [] then At(q + 1) else ScanLine(src.line, q + 1, st)
  {
    var line, inside := src.line, st + [src.line[p]];
    PendingDropped(inside, '<', k);
    assert Pop(inside) == st;
    Step(line, p, st, inside);
    assert Forward(line, q, Pending(inside, '<', k)) == AfterPop(inside, true);
  }

  lemma CloseTemplate(src: Source, p: nat, q: nat, st: seq<char>)
    requires src.Valid() && src.AroundTemplate(p, q)
    requires ScanLine(src.line, p + 1, st + ['<']) == ScanLine(src.line, q, st + ['<'])
    ensures ScanLine(src.line, p, st) == if st == [] then At(q + 1) else ScanLine(src.line, q + 1, st)
  {
    var line := src.line;
    assert p > 0 ==> !EndsInOperator(line[..p]);
    assert !EndsInOperator(line[..q - 1]);
    assert Pop(st + ['<']) == st;
    Step(line, p, st, st + ['<']);
    assert Forward(line, q, st + ['<']) == AfterPop(st + ['<'], true);
  }

  /** The scan from i with k brackets pending is the one from j with k' pending. */
  ghost predicate Scans(line: string, s: seq<char>, i: nat, k: nat, j: nat, k': nat) {
    i <= |line| && j <= |line| && ScanLine(line, i, Pending(s, '<', k)) == ScanLine(line, j, Pending(s, '<', k'))
  }

  lemma ScansOn(line: string, s: seq<char>, i: nat, k: nat, i': nat, k': nat, j: nat, k'': nat)
    requires Scans(line, s, i, k, i', k') == true && Scans(line, s, i', k', j, k'') == true
    ensures Scans(line, s, i, k, j, k'') == true
  {
  }

  lemma PieceScans(src: Source, i: nat, piece: Piece, mode: Mode, s: seq<char>, k: nat)
    requires src.Valid() == true && piece.At(src, i, mode) && Stacked(s, k, mode) == true
    ensures Scans(src.line, s, i, k, i + piece.Width(), PendingAfter(piece, k)) == true
    ensures Stacked(s, PendingAfter(piece, k), piece.After(mode)) == true
  {
    PiecePasses(src, i, piece, mode, s, k);
  }

  /** Pending < after such text, if there were k before it. */
  function PendingEnd(b: Angled, k: nat): nat {
    match b
    case Done => k
    case Plain(piece, rest) => PendingEnd(rest, PendingAfter(piece, k))
    case Nested(_, _, _, rest) => PendingEnd(rest, k)
  }

  lemma {:induction false} NoneInTemplate(src: Source, i: nat, j: nat, b: Angled)
    requires b.Built(src, i, j, InTemplate) == true
    ensures PendingEnd(b, 0) == 0
    decreases b
  {
    assert b.At(src, i, j, InTemplate);
    match b
    case Done =>
    case Plain(piece, rest) => NoneInTemplate(src, i + piece.Width(), j, rest);
    case Nested(_, close, _, rest) => NoneInTemplate(src, close + 1, j, rest);
  }

  /** The forward scanner passes such text and leaves only pending < behind. */
  lemma {:induction false} ForwardPasses(src: Source, i: nat, j: nat, b: Angled, mode: Mode, s: seq<char>, k: nat)
    requires src.Valid() == true && b.Built(src, i, j, mode) == true && Stacked(s, k, mode) == true
    ensures Scans(src.line, s, i, k, j, PendingEnd(b, k)) == true
    decreases b, 0
  {
    assert b.At(src, i, j, mode);
    match b
    case Done =>
    case Plain(piece, rest) =>
      PieceScans(src, i, piece, mode, s, k);
      ForwardPasses(src, i + piece.Width(), j, rest, piece.After(mode), s, PendingAfter(piece, k));
      ScansOn(src.line, s, i, k, i + piece.Width(), PendingAfter(piece, k), j, PendingEnd(b, k));
    case Nested(inside, close, inner, rest) =>
      BracketsScan(src, i, close, inner, inside, s, k);
      ForwardPasses(src, close + 1, j, rest, mode, s, k);
      ScansOn(src.line, s, i, k, close + 1, k, j, PendingEnd(b, k));
  }

  lemma {:induction false} BracketsScan(src: Source, p: nat, q: nat, inner: Angled, mode: Mode, s: seq<char>, k: nat)
    requires src.Valid() == true && src.Around(mode, p, q) == true && inner.Built(src, p + 1, q, mode) == true && s != []
    ensures Scans(src.line, s, p, k, q + 1, k) == true
    decreases inner, 2
  {
    BracketsPass(src, p, q, inner, mode, Pending(s, '<', k));
  }

  lemma OpensStacked(src: Source, mode: Mode, p: nat, q: nat, st: seq<char>)
    requires src.Around(mode, p, q) == true
    ensures p < q < |src.line| && Stacked(st + [src.line[p]], 0, mode) == true
  {
  }

  lemma CloseAround(src: Source, mode: Mode, p: nat, q: nat, st: seq<char>, k: nat)
    requires src.Valid() && src.Around(mode, p, q) == true && (mode.InTemplate? ==> k == 0)
    requires Scans(src.line, st + [src.line[p]], p + 1, 0, q, k) == true
    ensures ScanLine(src.line, p, st) == if st == [] then At(q + 1) else ScanLine(src.line, q + 1, st)
  {
    if mode.InTemplate? { CloseTemplate(src, p, q, st); } else { ClosePair(src, p, q, st, k); }
  }

  /** Brackets around such text cancel. */
  lemma {:induction false} BracketsPass(src: Source, p: nat, q: nat, inner: Angled, mode: Mode, st: seq<char>)
    requires src.Valid() == true && src.Around(mode, p, q) == true && inner.Built(src, p + 1, q, mode) == true
    ensures p < q < |src.line|
    ensures ScanLine(src.line, p, st) == if st == [] then At(q + 1) else ScanLine(src.line, q + 1, st)
    decreases inner, 1
  {
    OpensStacked(src, mode, p, q, st);
    ForwardPasses(src, p + 1, q, inner, mode, st + [src.line[p]], 0);
    if mode.InTemplate? { NoneInTemplate(src, p + 1, q, inner); }
    CloseAround(src, mode, p, q, st, PendingEnd(inner, 0));
  }

  // ---------------------------------------------------------------- backwards

  lemma BackStep(line: string, i: nat, st: seq<char>, next: seq<char>)
    requires i < |line| && Backward(line, i, st) == BackGoing(next, false)
    ensures ScanLineBack(line, i + 1, st) == ScanLineBack(line, i, next)
  {
  }

  /** Pending > before a piece, if there are k after it. */
  function PendingBefore(piece: Piece, k: nat): nat { if piece.Greater? then k + 1 else if piece.Semicolon? then 0 else k }

  /** No > is pending inside template arguments or after a < that is no bracket. */
  ghost predicate StackedBack(s: seq<char>, k: nat, mode: Mode) {
    s != [] && (mode.InPair? ==> Top(s) != '>') && (mode != InPair(false) ==> k == 0)
  }

  lemma WidePieceBack(src: Source, i: nat, piece: Piece, mode: Mode, st: seq<char>)
    requires src.Valid() && piece.At(src, i, mode) && piece.Width() == 2
    ensures ScanLineBack(src.line, i + 2, st) == ScanLineBack(src.line, i, st)
  {
    assert src.AfterOperator(i + 1) <==> EndsInOperator(src.line[..i + 1]);
    assert Backward(src.line, i + 1, st) == BackGoing(st, true);
  }

  lemma NarrowPieceBack(src: Source, i: nat, piece: Piece, mode: Mode, s: seq<char>, k: nat)
    requires src.Valid() && piece.At(src, i, mode) && piece.Width() == 1 && StackedBack(s, k, piece.After(mode))
    ensures Backward(src.line, i, Pending(s, '>', k)) == BackGoing(Pending(s, '>', PendingBefore(piece, k)), false)
  {
    assert i > 0 ==> (src.AfterOperator(i) <==> EndsInOperator(src.line[..i]));
    if piece.Semicolon? { PendingDropped(s, '>', k); }
  }

  lemma PiecePassesBack(src: Source, i: nat, piece: Piece, mode: Mode, s: seq<char>, k: nat)
    requires src.Valid() && piece.At(src, i, mode) && StackedBack(s, k, piece.After(mode))
    ensures ScanLineBack(src.line, i + piece.Width(), Pending(s, '>', k))
         == ScanLineBack(src.line, i, Pending(s, '>', PendingBefore(piece, k)))
  {
    if piece.Width() == 2 {
      WidePieceBack(src, i, piece, mode, Pending(s, '>', k));
    } else {
      NarrowPieceBack(src, i, piece, mode, s, k);
      BackStep(src.line, i, Pending(s, '>', k), Pending(s, '>', PendingBefore(piece, k)));
    }
  }

  lemma OpenPair(src: Source, p: nat, q: nat, st: seq<char>, k: nat)
    requires src.AroundPair(p, q)
    requires ScanLineBack(src.line, q, st + [src.line[q]]) == ScanLineBack(src.line, p + 1, Pending(st + [src.line[q]], '>', k))
    ensures ScanLineBack(src.line, q + 1, st) == if st == [] then At(p) else ScanLineBack(src.line, p, st)
  {
    var line, inside := src.line, st + [src.line[q]];
    PendingDropped(inside, '>', k);
    assert Pop(inside) == st;
    BackStep(line, q, st, inside);
    assert Backward(line, p, Pending(inside, '>', k)) == BackAfterPop(inside);
  }

  lemma OpenTemplate(src: Source, p: nat, q: nat, st: seq<char>)
    requires src.Valid() && src.AroundTemplate(p, q)
    requires ScanLineBack(src.line, q, st + ['>']) == ScanLineBack(src.line, p + 1, st + ['>'])
    ensures ScanLineBack(src.line, q + 1, st) == if st == [] then At(p) else ScanLineBack(src.line, p, st)
  {
    var line := src.line;
    assert !EndsInOperator(line[..q]);
    assert Pop(st + ['>']) == st;
    BackStep(line, q, st, st + ['>']);
    assert Backward(line, p, st + ['>']) == BackAfterPop(st + ['>']);
  }

  lemma PieceStacksBack(src: Source, i: nat, piece: Piece, mode: Mode, s: seq<char>, k: nat)
    requires piece.At(src, i, mode)
    ensures StackedBack(s, 0, mode) ==> StackedBack(s, 0, piece.After(mode)) == true
    ensures StackedBack(s, k, piece.After(mode)) ==> StackedBack(s, PendingBefore(piece, k), mode) == true
  {
  }

  /** Pending > before such text. */
  function PendingStart(b: Angled): nat {
    match b
    case Done => 0
    case Plain(piece, rest) => PendingBefore(piece, PendingStart(rest))
    case Nested(_, _, _, rest) => PendingStart(rest)
  }

  /** The scan backwards from j is the one from i with k brackets pending. */
  ghost predicate ScansBack(line: string, s: seq<char>, j: nat, i: nat, k: nat) {
    i <= |line| && j <= |line| && ScanLineBack(line, j, s) == ScanLineBack(line, i, Pending(s, '>', k))
  }

  /** The backward scanner passes such text and leaves only pending > behind. */
  lemma {:induction false} BackwardPasses(src: Source, i: nat, j: nat, b: Angled, mode: Mode, s: seq<char>)
    requires src.Valid() == true && b.Built(src, i, j, mode) == true && StackedBack(s, 0, mode) == true
    ensures ScansBack(src.line, s, j, i, PendingStart(b)) == true && StackedBack(s, PendingStart(b), mode) == true
    decreases b, 0
  {
    assert b.At(src, i, j, mode);
    match b
    case Done =>
    case Plain(piece, rest) =>
      PieceStacksBack(src, i, piece, mode, s, PendingStart(rest));
      BackwardPasses(src, i + piece.Width(), j, rest, piece.After(mode), s);
      PiecePassesBack(src, i, piece, mode, s, PendingStart(rest));
    case Nested(inside, close, inner, rest) =>
      BackwardPasses(src, close + 1, j, rest, mode, s);
      BracketsPassBack(src, i, close, inner, inside, Pending(s, '>', PendingStart(rest)));
  }

  lemma ClosesStacked(src: Source, mode: Mode, p: nat, q: nat, st: seq<char>)
    requires src.Around(mode, p, q) == true
    ensures p < q < |src.line| && StackedBack(st + [src.line[q]], 0, mode) == true
  {
  }

  lemma OpenAround(src: Source, mode: Mode, p: nat, q: nat, st: seq<char>, k: nat)
    requires src.Valid() && src.Around(mode, p, q) == true && StackedBack(st + [src.line[q]], k, mode) == true
    requires ScansBack(src.line, st + [src.line[q]], q, p + 1, k) == true
    ensures ScanLineBack(src.line, q + 1, st) == if st == [] then At(p) else ScanLineBack(src.line, p, st)
  {
    if mode.InTemplate? { OpenTemplate(src, p, q, st); } else { OpenPair(src, p, q, st, k); }
  }

  lemma {:induction false} BracketsPassBack(src: Source, p: nat, q: nat, inner: Angled, mode: Mode, st: seq<char>)
    requires src.Valid() == true && src.Around(mode, p, q) == true && inner.Built(src, p + 1, q, mode) == true
    ensures p < q < |src.line|
    ensures ScanLineBack(src.line, q + 1, st) == if st == [] then At(p) else ScanLineBack(src.line, p, st)
    decreases inner, 1
  {
    ClosesStacked(src, mode, p, q, st);
    BackwardPasses(src, p + 1, q, inner, mode, st + [src.line[q]]);
    OpenAround(src, mode, p, q, st, PendingStart(inner));
  }

  // ---------------------------------------------------------------- both

  function SourceOf(line: string): Source {
    Source(line, seq(|line| + 1, i requires 0 <= i <= |line| => EndsInOperator(line[..i])))
  }

  lemma SourceIsValid(line: string)
    ensures SourceOf(line).Valid() == true
  {
  }

  lemma ClosesWithClose(src: Source, mode: Mode, p: nat, q: nat)
    requires src.Around(mode, p, q) == true
    ensures q < |src.line| && (IsClose(src.line[q]) || src.line[q] == '>')
  {
  }

  /**
    * Around such text, in brackets or in template brackets, CloseExpression goes from the opening to just past the
    * closing one, and ReverseCloseExpression comes back.
    */
  lemma TemplatesScannedBothWays(lines: seq<string>, l: nat, src: Source, mode: Mode, p: nat, q: nat, b: Angled)
    requires l < |lines| && src == SourceOf(lines[l]) && src.Around(mode, p, q) == true
    requires b.Built(src, p + 1, q, mode) == true && StartsExpression(lines[l], p)
    ensures Close(lines, l, p) == Some(Position(l, q + 1)) && ReverseClose(lines, l, q) == Some(Position(l, p))
  {
    SourceIsValid(lines[l]);
    ClosesWithClose(src, mode, p, q);
    BracketsPass(src, p, q, b, mode, []);
    BracketsPassBack(src, p, q, b, mode, []);
  }

  // ---------------------------------------------------------------- what is no bracket

  predicate Blank(c: char) { c == ' ' || 9 <= c as int <= 13 }

  /** The text up to k ends in the word operator. */
  predicate OperatorWord(s: string, k: nat) {
    && 8 <= k <= |s| && s[k - 8..k] == "operator"
    && (k > 8 ==> !('a' <= s[k - 9] <= 'z' || 'A' <= s[k - 9] <= 'Z' || '0' <= s[k - 9] <= '9' || s[k - 9] == '_'))
  }

  /** ... and the rest is blank. */
  predicate OperatorAt(s: string, k: nat) { OperatorWord(s, k) && forall j :: k <= j < |s| ==> Blank(s[j]) }

  ghost predicate ReadsOperator(s: string) { exists k: nat :: OperatorAt(s, k) }

  lemma {:induction false} Trimmed(s: string)
    ensures var t := TrimRight(s);
            t <= s && (forall j :: |t| <= j < |s| ==> Blank(s[j])) && (t != "" ==> !Blank(t[|t| - 1]))
  {
    if s != "" { Trimmed(s[..|s| - 1]); }
  }

  lemma {:induction false} TrimmedTo(s: string, k: nat)
    requires k <= |s| && (k > 0 ==> !Blank(s[k - 1])) && forall j :: k <= j < |s| ==> Blank(s[j])
    ensures TrimRight(s) == s[..k]
  {
    if k < |s| {
      TrimmedTo(s[..|s| - 1], k);
      assert s[..|s| - 1][..k] == s[..k];
    } else {
      assert s[..k] == s;
    }
  }

  lemma WordTrimmed(s: string, k: nat)
    requires k <= |s| && TrimRight(s) == s[..k]
    ensures EndsInOperator(s) <==> OperatorWord(s, k)
  {
    if k >= 8 { assert s[..k][k - 8..] == s[k - 8..k]; }
  }

  lemma LastOf(s: string, word: string, k: nat)
    requires 0 < |word| <= k <= |s| && s[k - |word|..k] == word
    ensures s[k - 1] == word[|word| - 1]
  {
    assert s[k - |word|..k][|word| - 1] == s[k - 1];
  }

  lemma OperatorRead(s: string)
    ensures EndsInOperator(s) <==> ReadsOperator(s)
  {
    var k := |TrimRight(s)|;
    Trimmed(s);
    WordTrimmed(s, k);
    if OperatorWord(s, k) { assert OperatorAt(s, k); }
    forall j: nat | OperatorAt(s, j) ensures EndsInOperator(s) {
      LastOf(s, "operator", j);
      TrimmedTo(s, j);
      WordTrimmed(s, j);
    }
  }

  /** The forward scanner passes over a < after operator, and a > after - or after operator and one more character. */
  lemma ForwardSkipsExactly(line: string, i: nat, st: seq<char>)
    requires i < |line|
    ensures line[i] == '<' && (i > 0 ==> line[i - 1] != '<') ==>
              Forward(line, i, st) == Going(if i > 0 && ReadsOperator(line[..i]) then st else st + ['<'])
    ensures line[i] == '>' && st != [] && Top(st) == '<' ==>
              (Forward(line, i, st) == Going(st) <==> i > 0 && (line[i - 1] == '-' || ReadsOperator(line[..i - 1])))
  {
    OperatorRead(line[..i]);
    if i > 0 { OperatorRead(line[..i - 1]); }
  }

  /** The backward scanner passes over a > after - or operator, and over >= between blanks. */
  lemma BackwardSkipsExactly(line: string, i: nat, st: seq<char>)
    requires i < |line| && line[i] == '>'
    ensures var skips := && i > 0
                         && (|| line[i - 1] == '-' || ReadsOperator(line[..i])
                             || (i + 2 < |line| && Blank(line[i - 1]) && line[i..i + 2] == ">=" && Blank(line[i + 2])));
            Backward(line, i, st) == BackGoing(if skips then st else st + ['>'], skips)
  {
    OperatorRead(line[..i]);
    if i + 2 < |line| { assert line[i..i + 2] == [line[i], line[i + 1]]; }
  }

  // ---------------------------------------------------------------- what is no expression

  /** The scan from p with an empty stack comes to j, and fails there. */
  lemma FailsAt(lines: seq<string>, l: nat, p: nat, j: nat, st: seq<char>, k: nat)
    requires l < |lines| && p < j < |lines[l]| && Forward(lines[l], p, []) == Going(st)
    requires Scans(lines[l], st, p + 1, 0, j, k) == true && Forward(lines[l], j, Pending(st, '<', k)) == Stopped(false)
    ensures Close(lines, l, p) == None
  {
    Step(lines[l], p, [], st);
    assert ScanLine(lines[l], j, Pending(st, '<', k)) == Unclosed;
  }

  /** A template argument list cannot go on here: at a semicolon, a closing bracket or the second < of <<. */
  predicate BreaksOff(line: string, j: nat) {
    0 < j < |line| && (line[j] == ';' || IsClose(line[j]) || line[j - 1..j + 1] == "<<")
  }

  lemma RunsOut(line: string, j: nat)
    requires BreaksOff(line, j)
    ensures Forward(line, j, ['<']) == Stopped(false)
  {
    assert line[j - 1..j + 1] == [line[j - 1], line[j]];
    assert DropPending(['<'], '<') == [];
  }

  lemma OpensForward(src: Source, p: nat)
    requires src.Valid() && src.OpensTemplate(p)
    ensures Forward(src.line, p, []) == Going(['<'])
  {
    assert p > 0 ==> !EndsInOperator(src.line[..p]);
  }

  lemma TemplateRunsOut(lines: seq<string>, l: nat, src: Source, p: nat, j: nat, b: Angled)
    requires l < |lines| && src.line == lines[l] && src.Valid() == true && src.OpensTemplate(p) == true
    requires p < j < |src.line| && b.Built(src, p + 1, j, InTemplate) == true
    requires Forward(src.line, j, ['<']) == Stopped(false)
    ensures Close(lines, l, p) == None
  {
    OpensForward(src, p);
    ForwardPasses(src, p + 1, j, b, InTemplate, ['<'], 0);
    NoneInTemplate(src, p + 1, j, b);
    FailsAt(lines, l, p, j, ['<'], 0);
  }

  /**
    * CloseExpression gives up on << and <=, and on a < whose argument list runs into a semicolon, a closing bracket
    * or the third < in a row.
    */
  lemma TemplateRefused(lines: seq<string>, l: nat, src: Source, p: nat, j: nat, b: Angled)
    requires l < |lines| && src == SourceOf(lines[l]) && src.OpensTemplate(p)
    requires p < j < |src.line| && b.Built(src, p + 1, j, InTemplate) == true
    requires src.line[p + 1] == '<' || src.line[p + 1] == '=' || BreaksOff(src.line, j)
    ensures Close(lines, l, p) == None
  {
    if StartsExpression(lines[l], p) {
      SourceIsValid(lines[l]);
      RunsOut(lines[l], j);
      TemplateRunsOut(lines, l, src, p, j, b);
    }
  }

  lemma PairRunsOut(lines: seq<string>, l: nat, src: Source, p: nat, j: nat, b: Angled)
    requires l < |lines| && src.line == lines[l] && src.Valid() == true
    requires p < j < |src.line| && b.Built(src, p + 1, j, InPair(false)) == true
    requires IsOpen(src.line[p]) && IsClose(src.line[j]) && !Matches(src.line[p], src.line[j])
    ensures Close(lines, l, p) == None
  {
    var st, k := [src.line[p]], PendingEnd(b, 0);
    ForwardPasses(src, p + 1, j, b, InPair(false), st, 0);
    PendingDropped(st, '<', k);
    FailsAt(lines, l, p, j, st, k);
  }

  /** ... and on a bracket whose text runs into a closing bracket of another kind. */
  lemma PairRefused(lines: seq<string>, l: nat, src: Source, p: nat, j: nat, b: Angled)
    requires l < |lines| && src == SourceOf(lines[l])
    requires p < j < |src.line| && b.Built(src, p + 1, j, InPair(false)) == true
    requires IsOpen(src.line[p]) && IsClose(src.line[j]) && !Matches(src.line[p], src.line[j])
    ensures Close(lines, l, p) == None
  {
    SourceIsValid(lines[l]);
    PairRunsOut(lines, l, src, p, j, b);
  }

  lemma FailsBack(lines: seq<string>, l: nat, i: nat, q: nat, st: seq<char>, k: nat)
    requires l < |lines| && i < q < |lines[l]| && Backward(lines[l], q, []) == BackGoing(st, false)
    requires ScansBack(lines[l], st, q, i + 1, k) == true && Backward(lines[l], i, Pending(st, '>', k)) == BackStopped(false)
    ensures ReverseClose(lines, l, q) == None
  {
    BackStep(lines[l], q, [], st);
    assert ScanLineBack(lines[l], i + 1, Pending(st, '>', k)) == Unclosed;
  }

  lemma ClosesBackward(src: Source, q: nat)
    requires src.Valid() && src.ClosesTemplate(q)
    ensures Backward(src.line, q, []) == BackGoing(['>'], false)
  {
    assert q > 0 ==> !EndsInOperator(src.line[..q]);
  }

  lemma {:induction false} NoneInTemplateBack(src: Source, i: nat, j: nat, b: Angled)
    requires b.Built(src, i, j, InTemplate) == true
    ensures PendingStart(b) == 0
    decreases b
  {
    assert b.At(src, i, j, InTemplate);
    match b
    case Done =>
    case Plain(piece, rest) => NoneInTemplateBack(src, i + piece.Width(), j, rest);
    case Nested(_, close, _, rest) => NoneInTemplateBack(src, close + 1, j, rest);
  }

  lemma TemplateRunsOutBack(lines: seq<string>, l: nat, src: Source, i: nat, q: nat, b: Angled)
    requires l < |lines| && src.line == lines[l] && src.Valid() == true && src.ClosesTemplate(q) == true
    requires i < q < |src.line| && b.Built(src, i + 1, q, InTemplate) == true
    requires Backward(src.line, i, ['>']) == BackStopped(false)
    ensures ReverseClose(lines, l, q) == None
  {
    ClosesBackward(src, q);
    BackwardPasses(src, i + 1, q, b, InTemplate, ['>']);
    NoneInTemplateBack(src, i + 1, q, b);
    FailsBack(lines, l, i, q, ['>'], 0);
  }

  /** ReverseCloseExpression gives up on a > whose argument list, read backwards, runs into ; or an opening bracket. */
  lemma TemplateRefusedBack(lines: seq<string>, l: nat, src: Source, i: nat, q: nat, b: Angled)
    requires l < |lines| && src == SourceOf(lines[l]) && src.ClosesTemplate(q)
    requires i < q && b.Built(src, i + 1, q, InTemplate) == true && (src.line[i] == ';' || IsOpen(src.line[i]))
    ensures ReverseClose(lines, l, q) == None
  {
    SourceIsValid(lines[l]);
    assert DropPending(['>'], '>') == [];
    TemplateRunsOutBack(lines, l, src, i, q, b);
  }

  lemma PairRunsOutBack(lines: seq<string>, l: nat, src: Source, i: nat, q: nat, b: Angled)
    requires l < |lines| && src.line == lines[l] && src.Valid() == true
    requires i < q < |src.line| && b.Built(src, i + 1, q, InPair(false)) == true
    requires IsClose(src.line[q]) && IsOpen(src.line[i]) && !Matches(src.line[i], src.line[q])
    ensures ReverseClose(lines, l, q) == None
  {
    var st, k := [src.line[q]], PendingStart(b);
    BackwardPasses(src, i + 1, q, b, InPair(false), st);
    PendingDropped(st, '>', k);
    FailsBack(lines, l, i, q, st, k);
  }

  /** ... and on a bracket whose text, read backwards, runs into an opening bracket of another kind. */
  lemma PairRefusedBack(lines: seq<string>, l: nat, src: Source, i: nat, q: nat, b: Angled)
    requires l < |lines| && src == SourceOf(lines[l]) && i < q < |src.line|
    requires b.Built(src, i + 1, q, InPair(false)) == true
    requires IsClose(src.line[q]) && IsOpen(src.line[i]) && !Matches(src.line[i], src.line[q])
    ensures ReverseClose(lines, l, q) == None
  {
    SourceIsValid(lines[l]);
    PairRunsOutBack(lines, l, src, i, q, b);
  }

  // ---------------------------------------------------------------- what opens nothing

  lemma {:induction false} NothingOpens(line: string, i: nat)
    requires i <= |line| && forall j :: i <= j < |line| ==> !IsOpen(line[j]) && line[j] != '<'
    ensures !ScanLine(line, i, []).At? && (ScanLine(line, i, []).Open? ==> ScanLine(line, i, []) == Open([]))
    decreases |line| - i
  {
    if i < |line| { NothingOpens(line, i + 1); }
  }

  lemma SkipsOpening(line: string, p: nat)
    requires 0 < p < |line| && line[p] == '<' && (line[p - 1] == '<' || ReadsOperator(line[..p]))
    ensures Forward(line, p, []) == Going([])
  {
    if line[p - 1] != '<' { ForwardSkipsExactly(line, p, []); }
  }

  lemma FindsNothing(lines: seq<string>, l: nat, p: nat)
    requires l < |lines| && p < |lines[l]| && Forward(lines[l], p, []) == Going([])
    requires forall j :: p < j < |lines[l]| ==> !IsOpen(lines[l][j]) && lines[l][j] != '<'
    ensures Close(lines, l, p) == None
  {
    NothingOpens(lines[l], p + 1);
    Step(lines[l], p, [], []);
  }

  /** From the second < of << or a < after operator, with no bracket opened after it on the line, nothing is found. */
  lemma OpensNothing(lines: seq<string>, l: nat, p: nat)
    requires l < |lines| && 0 < p < |lines[l]| && lines[l][p] == '<'
    requires lines[l][p - 1] == '<' || ReadsOperator(lines[l][..p])
    requires forall j :: p < j < |lines[l]| ==> !IsOpen(lines[l][j]) && lines[l][j] != '<'
    ensures Close(lines, l, p) == None
  {
    SkipsOpening(lines[l], p);
    FindsNothing(lines, l, p);
  }

  lemma {:induction false} NothingCloses(line: string, i: nat)
    requires i <= |line| && forall j :: 0 <= j < i ==> !IsClose(line[j]) && line[j] != '>'
    ensures !ScanLineBack(line, i, []).At? && (ScanLineBack(line, i, []).Open? ==> ScanLineBack(line, i, []) == Open([]))
    decreases i
  {
    if i > 0 { NothingCloses(line, i - 1); }
    if i > 1 { NothingCloses(line, i - 2); }
  }

  lemma FindsNothingBack(lines: seq<string>, l: nat, q: nat)
    requires l < |lines| && 0 < q < |lines[l]| && Backward(lines[l], q, []) == BackGoing([], true)
    requires forall j :: 0 <= j < q ==> !IsClose(lines[l][j]) && lines[l][j] != '>'
    ensures ReverseClose(lines, l, q) == None
  {
    NothingCloses(lines[l], q - 1);
  }

  /** From a > after - or operator, with no closing bracket before it on the line, nothing is found. */
  lemma ClosesNothing(lines: seq<string>, l: nat, q: nat)
    requires l < |lines| && 0 < q < |lines[l]| && lines[l][q] == '>'
    requires lines[l][q - 1] == '-' || ReadsOperator(lines[l][..q])
    requires forall j :: 0 <= j < q ==> !IsClose(lines[l][j]) && lines[l][j] != '>'
    ensures ReverseClose(lines, l, q) == None
  {
    BackwardSkipsExactly(lines[l], q, []);
    FindsNothingBack(lines, l, q);
  }
}
