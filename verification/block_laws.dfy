/**
  * What the steps of a line do to the block on top of the nesting stack: parentheses and inline assembly are
  * counted over lines, a class takes its base and access from the lines of its head and body, and stray closers
  * change nothing.
  */
module BlockLaws {
  import opened Nesting
  import opened NestingLaws

  // ---------------------------------------------------------------- parentheses and inline assembly

  /** The change of parentheses on a line, and whether the line looks like inline assembly. */
  datatype Line = Line(change: int, asm: bool)

  function Counts(ls: seq<Line>): (ops: seq<Op>)
    ensures |ops| == |ls| && forall i :: 0 <= i < |ls| ==> ops[i] == CountParentheses(ls[i].change, ls[i].asm)
  {
    seq(|ls|, i requires 0 <= i < |ls| => CountParentheses(ls[i].change, ls[i].asm))
  }

  /** Open parentheses after the first n lines, from a at the start. */
  function Depth(a: int, ls: seq<Line>, n: nat): int
    requires n <= |ls|
  {
    if n == 0 then a else Depth(a, ls, n - 1) + ls[n - 1].change
  }

  /** Line k opens the parenthesis of inline assembly, and no later line up to n is outside of it. */
  predicate Spans(a: int, ls: seq<Line>, k: nat, n: nat)
    requires k < n <= |ls|
  {
    && ls[k].asm && ls[k].change != 0 && Depth(a, ls, k + 1) == 1
    && forall j :: k + 1 < j <= n ==> Depth(a, ls, j) != 0
  }

  predicate InsideAfter(a: int, ls: seq<Line>, n: nat)
    requires n <= |ls|
  {
    exists k :: 0 <= k < n && Spans(a, ls, k, n)
  }

  lemma InsideStep(a: int, ls: seq<Line>, n: nat)
    requires 0 < n <= |ls|
    ensures InsideAfter(a, ls, n)
       <==> || (InsideAfter(a, ls, n - 1) && Depth(a, ls, n) != 0)
            || (ls[n - 1].asm && ls[n - 1].change != 0 && Depth(a, ls, n) == 1)
  {
    if InsideAfter(a, ls, n) {
      var k :| 0 <= k < n && Spans(a, ls, k, n);
      if k < n - 1 { assert Spans(a, ls, k, n - 1); }
    }
    if InsideAfter(a, ls, n - 1) && Depth(a, ls, n) != 0 {
      var k :| 0 <= k < n - 1 && Spans(a, ls, k, n - 1);
      assert Spans(a, ls, k, n);
    }
    if ls[n - 1].asm && ls[n - 1].change != 0 && Depth(a, ls, n) == 1 { assert Spans(a, ls, n - 1, n); }
  }

  /** The mode after n lines: inside, just ended, or not in assembly. */
  ghost function AsmAfter(a: int, ls: seq<Line>, n: nat): Asm
    requires n <= |ls|
  {
    if InsideAfter(a, ls, n) then InsideAsm
    else if n > 0 && InsideAfter(a, ls, n - 1) then EndAsm
    else NoAsm
  }

  /** Block b after n lines. */
  ghost function After(b: BlockInfo, ls: seq<Line>, n: nat): BlockInfo
    requires n <= |ls|
  {
    b.(openParentheses := Depth(b.openParentheses, ls, n),
    inlineAsm := if b.inlineAsm.BlockAsm? then BlockAsm else AsmAfter(b.openParentheses, ls, n))
  }

  lemma LineCounted(b: BlockInfo, ls: seq<Line>, n: nat)
    requires 0 < n <= |ls| && (b.inlineAsm.NoAsm? || b.inlineAsm.BlockAsm?)
    ensures Counted(After(b, ls, n - 1), ls[n - 1].change, ls[n - 1].asm) == After(b, ls, n)
  {
    InsideStep(b.openParentheses, ls, n);
  }

  /**
    * Over any number of lines only the block on top changes, and only in two fields: its open parentheses are the
    * sum, and it is inside assembly exactly from a line that opens one to the line that closes it. A block that is
    * assembly as a whole stays so.
    */
  lemma {:induction false} LinesCounted(stack: seq<BlockInfo>, ls: seq<Line>, n: nat)
    requires n <= |ls| && stack != [] && (Top(stack).inlineAsm.NoAsm? || Top(stack).inlineAsm.BlockAsm?)
    ensures ApplyAll(stack, Counts(ls)[..n]) == Pop(stack) + [After(Top(stack), ls, n)]
  {
    if n > 0 {
      LinesCounted(stack, ls, n - 1);
      assert Counts(ls)[..n][..n - 1] == Counts(ls)[..n - 1];
      LineCounted(Top(stack), ls, n);
    } else {
      assert Pop(stack) + [Top(stack)] == stack;
    }
  }

  // ---------------------------------------------------------------- classes

  function Labels(names: seq<string>): (ops: seq<Op>)
    ensures |ops| == |names| && forall i :: 0 <= i < |names| ==> ops[i] == SetAccess(names[i])
  {
    seq(|names|, i requires 0 <= i < |names| => SetAccess(names[i]))
  }

  /** A class has the access of its last label; other blocks have none. */
  lemma {:induction false} LastLabelWins(stack: seq<BlockInfo>, names: seq<string>)
    ensures ApplyAll(stack, Labels(names)) ==
            if stack == [] || !Top(stack).kind.Class? || names == [] then stack
            else Pop(stack) + [Top(stack).(access := names[|names| - 1])]
  {
    if names != [] {
      var n := |names| - 1;
      LastLabelWins(stack, names[..n]);
      assert Labels(names)[..n] == Labels(names[..n]);
    }
  }

  function Heads(colons: seq<bool>): (ops: seq<Op>)
    ensures |ops| == |colons| && forall i :: 0 <= i < |colons| ==> ops[i] == CheckBegin(colons[i])
  {
    seq(|colons|, i requires 0 <= i < |colons| => CheckBegin(colons[i]))
  }

  /** The lines of a class head: the class is derived exactly if one of them has a colon, and not after its brace. */
  lemma {:induction false} HeadLines(stack: seq<BlockInfo>, colons: seq<bool>)
    ensures ApplyAll(stack, Heads(colons)) ==
            if stack == [] || Top(stack).seenOpenBrace || !Top(stack).kind.Class? then stack
            else Pop(stack) + [Top(stack).(derived := Top(stack).derived || true in colons)]
  {
    var n := |colons| - 1;
    if colons == [] {
      if stack != [] { assert Pop(stack) + [Top(stack)] == stack; }
    } else {
      HeadLines(stack, colons[..n]);
      assert Heads(colons)[..n] == Heads(colons[..n]);
      assert true in colons <==> true in colons[..n] || colons[n];
    }
  }

  // ---------------------------------------------------------------- braces that close nothing

  function Closers(n: nat): (ops: seq<Op>)
    ensures |ops| == n && forall i :: 0 <= i < n ==> ops[i] == CloseBrace
  {
    seq(n, _ => CloseBrace)
  }

  /** Closing braces pop the innermost blocks, and beyond the last one change nothing. */
  lemma {:induction false} ClosersPop(stack: seq<BlockInfo>, n: nat)
    ensures ApplyAll(stack, Closers(n)) == if n <= |stack| then stack[..|stack| - n] else []
  {
    if n > 0 {
      ClosersPop(stack, n - 1);
      assert Closers(n)[..n - 1] == Closers(n - 1);
    }
  }
}
