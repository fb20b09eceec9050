/**
  * Preprocessor erasure: whatever happens between the first #else and its #endif leaves no trace.
  */
module NestingLaws {
  import opened Nesting

  datatype Event = Directive(d: Directive) | Step(op: Op)

  function Next(s: NestingValue, e: Event): NestingValue {
    match e
    case Directive(d) => Direct(s, d)
    case Step(op) => s.(stack := Apply(s.stack, op))
  }

  function Run(s: NestingValue, es: seq<Event>): NestingValue {
    if es == [] then s else Next(Run(s, es[..|es| - 1]), es[|es| - 1])
  }

  function ApplyAll(stack: seq<BlockInfo>, ops: seq<Op>): seq<BlockInfo> {
    if ops == [] then stack else Apply(ApplyAll(stack, ops[..|ops| - 1]), ops[|ops| - 1])
  }

  // ---------------------------------------------------------------- erasing the text

  /** For every open #if, whether its #else has been seen. */
  function Modes(es: seq<Event>): seq<bool> {
    if es == [] then []
    else
      var m := Modes(es[..|es| - 1]);
      match es[|es| - 1]
      case Step(_) => m
      case Directive(If) => m + [false]
      case Directive(Else) => if m == [] then m else Pop(m) + [true]
      case Directive(Endif) => if m == [] then m else Pop(m)
  }

  /** The steps that are left when everything from a first #else to its #endif, and all directives, are deleted. */
  function Erase(es: seq<Event>): seq<Op> {
    if es == [] then []
    else
      var kept, last := Erase(es[..|es| - 1]), es[|es| - 1];
      if last.Step? && true !in Modes(es[..|es| - 1]) then kept + [last.op] else kept
  }

  /** Every #else and #endif has its #if. */
  predicate Nested(es: seq<Event>) {
    es == [] || (Nested(es[..|es| - 1]) && (NeedsIf(es[|es| - 1]) ==> Modes(es[..|es| - 1]) != []))
  }

  predicate NeedsIf(e: Event) { e.Directive? && !e.d.If? }

  // ---------------------------------------------------------------- what survives

  /** The stack that will be left once the open #ifs among frames are closed without further steps. */
  function Surviving(stack: seq<BlockInfo>, frames: seq<Snapshot<BlockInfo>>): seq<BlockInfo>
    decreases |frames|
  {
    if frames == [] then stack
    else Surviving(if Top(frames).seenElse then Top(frames).beforeElse else stack, Pop(frames))
  }

  function Flags(frames: seq<Snapshot<BlockInfo>>): (r: seq<bool>)
    ensures |r| == |frames| && forall i :: 0 <= i < |frames| ==> r[i] == frames[i].seenElse
  {
    seq(|frames|, i requires 0 <= i < |frames| => frames[i].seenElse)
  }

  lemma {:induction false} SurvivingUnseen(stack: seq<BlockInfo>, frames: seq<Snapshot<BlockInfo>>)
    requires true !in Flags(frames)
    ensures Surviving(stack, frames) == stack
  {
    if frames != [] {
      assert Flags(Pop(frames)) == Pop(Flags(frames));
      assert Flags(frames)[|frames| - 1] == Top(frames).seenElse;
      SurvivingUnseen(stack, Pop(frames));
    }
  }

  lemma {:induction false} SurvivingSeen(stack: seq<BlockInfo>, stack': seq<BlockInfo>, frames: seq<Snapshot<BlockInfo>>)
    requires true in Flags(frames)
    ensures Surviving(stack, frames) == Surviving(stack', frames)
  {
    if !Top(frames).seenElse {
      var i :| 0 <= i < |frames| && Flags(frames)[i];
      assert Flags(Pop(frames))[i];
      SurvivingSeen(stack, stack', Pop(frames));
    }
  }

  lemma DirectiveSurvives(v: NestingValue, d: Directive)
    ensures var v' := Direct(v, d); Surviving(v'.stack, v'.ppStack) == Surviving(v.stack, v.ppStack)
  {
    var frames, frames' := v.ppStack, Direct(v, d).ppStack;
    match d
    case If => assert Pop(frames') == frames;
    case Else => if frames != [] { assert Pop(frames') == Pop(frames); }
    case Endif =>
  }

  lemma DirectiveFlags(v: NestingValue, d: Directive)
    ensures var m := Flags(v.ppStack);
            Flags(Direct(v, d).ppStack) ==
            match d
            case If => m + [false]
            case Else => if m == [] then m else Pop(m) + [true]
            case Endif => if m == [] then m else Pop(m)
  {
  }

  lemma StepSurvives(v: NestingValue, op: Op)
    ensures Surviving(Apply(v.stack, op), v.ppStack)
         == if true in Flags(v.ppStack) then Surviving(v.stack, v.ppStack) else Apply(Surviving(v.stack, v.ppStack), op)
  {
    if true in Flags(v.ppStack) {
      SurvivingSeen(Apply(v.stack, op), v.stack, v.ppStack);
    } else {
      SurvivingUnseen(v.stack, v.ppStack);
      SurvivingUnseen(Apply(v.stack, op), v.ppStack);
    }
  }

  /** At every point of every sequence, nested or not, what survives is the erased sequence's stack. */
  lemma {:induction false} ErasureAlways(stack: seq<BlockInfo>, es: seq<Event>)
    ensures var v := Run(NestingValue(stack, []), es);
            Flags(v.ppStack) == Modes(es) && Surviving(v.stack, v.ppStack) == ApplyAll(stack, Erase(es))
  {
    if es != [] {
      var front, last := es[..|es| - 1], es[|es| - 1];
      ErasureAlways(stack, front);
      var v := Run(NestingValue(stack, []), front);
      match last
      case Directive(d) =>
        DirectiveSurvives(v, d);
        DirectiveFlags(v, d);
      case Step(op) =>
        StepSurvives(v, op);
        if true !in Modes(front) { assert Pop(Erase(es)) == Erase(front); }
    }
  }

  // ---------------------------------------------------------------- inside other regions

  function WithBase(base: seq<Snapshot<BlockInfo>>, v: NestingValue): NestingValue {
    v.(ppStack := base + v.ppStack)
  }

  lemma NextOnBase(base: seq<Snapshot<BlockInfo>>, v: NestingValue, e: Event)
    requires NeedsIf(e) ==> v.ppStack != []
    ensures Next(WithBase(base, v), e) == WithBase(base, Next(v, e))
  {
    if NeedsIf(e) {
      assert Top(base + v.ppStack) == Top(v.ppStack) && Pop(base + v.ppStack) == base + Pop(v.ppStack);
    }
  }

  /** A nested sequence does not look at the snapshots below it. */
  lemma {:induction false} RunOnBase(stack: seq<BlockInfo>, base: seq<Snapshot<BlockInfo>>, es: seq<Event>)
    requires Nested(es)
    ensures Run(NestingValue(stack, base), es) == WithBase(base, Run(NestingValue(stack, []), es))
  {
    if es != [] {
      var front := es[..|es| - 1];
      RunOnBase(stack, base, front);
      ErasureAlways(stack, front);
      NextOnBase(base, Run(NestingValue(stack, []), front), es[|es| - 1]);
    }
  }

  /**
    * A well-nested sequence, wherever it occurs, leaves the nesting stack that the sequence without its
    * #else regions leaves, and returns the preprocessor stack to its starting value.
    */
  lemma ElseRegionsErased(stack: seq<BlockInfo>, base: seq<Snapshot<BlockInfo>>, es: seq<Event>)
    requires Nested(es) && Modes(es) == []
    ensures Run(NestingValue(stack, base), es) == NestingValue(ApplyAll(stack, Erase(es)), base)
  {
    RunOnBase(stack, base, es);
    ErasureAlways(stack, es);
  }

  // ---------------------------------------------------------------- balanced source

  /** Source text as far as it opens and closes blocks. */
  datatype Source =
    | Nothing
    | Braces(line: nat, externC: bool, asm: bool, inner: Source, rest: Source)
    | NamespaceBody(line: nat, inner: Source, rest: Source)
    | ClassBody(line: nat, access: string, derived: bool, inner: Source, rest: Source)
    | ForwardClass(line: nat, access: string, rest: Source)
    | LaterBody(line: nat, braceLine: nat, inner: Source, rest: Source)   // a namespace with its brace on a later line
    | Alias(line: nat, rest: Source)                                      // a namespace that ends in a semicolon
    | Parameter(line: nat, access: string, rest: Source)                  // a class or struct inside parentheses
    | Statement(rest: Source)                                             // a semicolon or parenthesis

  function Steps(text: Source): seq<Op> {
    match text
    case Nothing => []
    case Braces(line, externC, asm, inner, rest) =>
      [OpenBrace(line, externC, asm)] + Steps(inner) + [CloseBrace] + Steps(rest)
    case NamespaceBody(line, inner, rest) =>
      [DeclareNamespace(line, true)] + Steps(inner) + [CloseBrace] + Steps(rest)
    case ClassBody(line, access, derived, inner, rest) =>
      [DeclareClass(line, access), CheckBegin(derived), OpenBrace(line, false, false)]
      + Steps(inner) + [CloseBrace, Terminate] + Steps(rest)
    case ForwardClass(line, access, rest) =>
      [DeclareClass(line, access), CheckBegin(false), Terminate] + Steps(rest)
    case LaterBody(line, braceLine, inner, rest) =>
      [DeclareNamespace(line, false), OpenBrace(braceLine, false, false)] + Steps(inner) + [CloseBrace] + Steps(rest)
    case Alias(line, rest) => [DeclareNamespace(line, false), Terminate] + Steps(rest)
    case Parameter(line, access, rest) =>
      [CountParentheses(1, false), DeclareClass(line, access)] + [CountParentheses(-1, false), Terminate] + Steps(rest)
    case Statement(rest) => [Terminate] + Steps(rest)
  }

  lemma {:induction false} ApplyConcat(stack: seq<BlockInfo>, xs: seq<Op>, ys: seq<Op>)
    ensures ApplyAll(stack, xs + ys) == ApplyAll(ApplyAll(stack, xs), ys)
    decreases |ys|
  {
    if ys == [] {
      assert xs + ys == xs;
    } else {
      assert (xs + ys)[..|xs + ys| - 1] == xs + ys[..|ys| - 1];
      ApplyConcat(stack, xs, ys[..|ys| - 1]);
    }
  }

  lemma ApplyOne(stack: seq<BlockInfo>, op: Op)
    ensures ApplyAll(stack, [op]) == Apply(stack, op)
  {
    assert [op][..0] == [];
  }

  /** Two and three steps in a row. */
  lemma ApplyFew(stack: seq<BlockInfo>, a: Op, b: Op, c: Op)
    ensures ApplyAll(stack, [a, b]) == Apply(Apply(stack, a), b)
    ensures ApplyAll(stack, [a, b, c]) == Apply(Apply(Apply(stack, a), b), c)
  {
    assert [a, b][..1] == [a] && [a, b, c][..2] == [a, b];
    ApplyOne(stack, a);
  }

  /** The innermost block is open and not inside parentheses. */
  predicate Ready(stack: seq<BlockInfo>) {
    stack == [] ||
    (Top(stack).seenOpenBrace && Top(stack).openParentheses == 0 && Top(stack).inlineAsm in {NoAsm, BlockAsm})
  }

  predicate OpensBlock(text: Source) { text.Braces? || text.NamespaceBody? || text.ClassBody? || text.LaterBody? }

  /** A head that opens one block, the inside of the block, and a tail that closes it. */
  lemma BlockCancels(stack: seq<BlockInfo>, head: seq<Op>, inner: seq<Op>, tail: seq<Op>, rest: seq<Op>, b: BlockInfo)
    requires ApplyAll(stack, head) == stack + [b] && ApplyAll(stack + [b], inner) == stack + [b]
    requires ApplyAll(stack + [b], tail) == stack && ApplyAll(stack, rest) == stack
    ensures ApplyAll(stack, head + inner + tail + rest) == stack
  {
    ApplyConcat(stack, head, inner);
    ApplyConcat(stack, head + inner, tail);
    ApplyConcat(stack, head + inner + tail, rest);
  }

  lemma CloseCancels(stack: seq<BlockInfo>, b: BlockInfo)
    requires Ready(stack)
    ensures ApplyAll(stack + [b], [CloseBrace]) == stack && ApplyAll(stack + [b], [CloseBrace, Terminate]) == stack
  {
    assert Pop(stack + [b]) == stack;
    ApplyOne(stack + [b], CloseBrace);
    ApplyFew(stack + [b], CloseBrace, Terminate, Terminate);
  }

  /** The block that a text opens first. */
  function FirstBlock(text: Source): BlockInfo
    requires OpensBlock(text)
  {
    match text
    case Braces(line, externC, asm, _, _) =>
      BlockInfo(if externC then ExternC else PlainBlock, line, true, 0, if asm && !externC then BlockAsm else NoAsm, false, "")
    case NamespaceBody(line, _, _) => BlockInfo(Namespace, line, true, 0, NoAsm, false, "")
    case ClassBody(line, access, derived, _, _) => BlockInfo(Class, line, true, 0, NoAsm, derived, access)
    case LaterBody(line, _, _, _) => BlockInfo(Namespace, line, true, 0, NoAsm, false, "")
  }

  /** The steps up to the inside of the first block, and those that close it. */
  function Opening(text: Source): seq<Op>
    requires OpensBlock(text)
  {
    match text
    case Braces(line, externC, asm, _, _) => [OpenBrace(line, externC, asm)]
    case NamespaceBody(line, _, _) => [DeclareNamespace(line, true)]
    case ClassBody(line, access, derived, _, _) =>
      [DeclareClass(line, access), CheckBegin(derived), OpenBrace(line, false, false)]
    case LaterBody(line, braceLine, _, _) => [DeclareNamespace(line, false), OpenBrace(braceLine, false, false)]
  }

  function Closing(text: Source): seq<Op> { if text.ClassBody? then [CloseBrace, Terminate] else [CloseBrace] }

  lemma BlockOpens(stack: seq<BlockInfo>, text: Source)
    requires Ready(stack) && OpensBlock(text)
    ensures ApplyAll(stack, Opening(text)) == stack + [FirstBlock(text)]
  {
    match text
    case Braces(line, externC, asm, _, _) => ApplyOne(stack, OpenBrace(line, externC, asm));
    case NamespaceBody(line, _, _) => ApplyOne(stack, DeclareNamespace(line, true));
    case ClassBody(_, _, _, _, _) => ClassOpens(stack, text);
    case LaterBody(line, braceLine, _, _) =>
      ApplyFew(stack, DeclareNamespace(line, false), OpenBrace(braceLine, false, false), Terminate);
  }

  lemma TextCancels(stack: seq<BlockInfo>, text: Source)
    requires Ready(stack) && OpensBlock(text)
    requires var b := FirstBlock(text); ApplyAll(stack + [b], Steps(text.inner)) == stack + [b]
    requires ApplyAll(stack, Steps(text.rest)) == stack
    ensures ApplyAll(stack, Steps(text)) == stack
  {
    CloseCancels(stack, FirstBlock(text));
    BlockOpens(stack, text);
    BlockCancels(stack, Opening(text), Steps(text.inner), Closing(text), Steps(text.rest), FirstBlock(text));
    assert Steps(text) == Opening(text) + Steps(text.inner) + Closing(text) + Steps(text.rest);
  }

  /** However blocks, namespaces and classes are nested, a balanced text leaves the stack as it found it. */
  lemma {:induction false} BalancedSourceKeepsStack(stack: seq<BlockInfo>, text: Source)
    requires Ready(stack)
    ensures ApplyAll(stack, Steps(text)) == stack
    decreases text
  {
    if !text.Nothing? {
      BalancedSourceKeepsStack(stack, text.rest);
      if OpensBlock(text) {
        BalancedSourceKeepsStack(stack + [FirstBlock(text)], text.inner);
        TextCancels(stack, text);
      } else {
        SmallCancels(stack, text);
      }
    }
  }

  /** The steps of a text that opens no block, before the rest. */
  function Head(text: Source): seq<Op>
    requires !OpensBlock(text) && !text.Nothing?
  {
    match text
    case ForwardClass(line, access, _) => [DeclareClass(line, access), CheckBegin(false), Terminate]
    case Alias(line, _) => [DeclareNamespace(line, false), Terminate]
    case Parameter(line, access, _) =>
      [CountParentheses(1, false), DeclareClass(line, access)] + [CountParentheses(-1, false), Terminate]
    case Statement(_) => [Terminate]
  }

  lemma ForwardCancels(stack: seq<BlockInfo>, line: nat, access: string)
    requires Ready(stack)
    ensures ApplyAll(stack, [DeclareClass(line, access), CheckBegin(false), Terminate]) == stack
  {
    ApplyFew(stack, DeclareClass(line, access), CheckBegin(false), Terminate);
  }

  lemma AliasCancels(stack: seq<BlockInfo>, line: nat)
    ensures ApplyAll(stack, [DeclareNamespace(line, false), Terminate]) == stack
  {
    ApplyFew(stack, DeclareNamespace(line, false), Terminate, Terminate);
  }

  lemma ParameterCancels(stack: seq<BlockInfo>, line: nat, access: string)
    requires Ready(stack)
    ensures ApplyAll(stack, [CountParentheses(1, false), DeclareClass(line, access)] + [CountParentheses(-1, false), Terminate]) == stack
  {
    var mid := ApplyAll(stack, [CountParentheses(1, false), DeclareClass(line, access)]);
    ApplyConcat(stack, [CountParentheses(1, false), DeclareClass(line, access)], [CountParentheses(-1, false), Terminate]);
    ApplyFew(stack, CountParentheses(1, false), DeclareClass(line, access), Terminate);
    ApplyFew(mid, CountParentheses(-1, false), Terminate, Terminate);
    if stack != [] {
      assert mid == Replaced(stack, Top(stack).(openParentheses := 1));
      assert Replaced(mid, Top(stack)) == stack;
    }
  }

  lemma SmallCancels(stack: seq<BlockInfo>, text: Source)
    requires Ready(stack) && !OpensBlock(text) && !text.Nothing? && ApplyAll(stack, Steps(text.rest)) == stack
    ensures ApplyAll(stack, Steps(text)) == stack
  {
    match text {
      case ForwardClass(line, access, _) => ForwardCancels(stack, line, access);
      case Alias(line, _) => AliasCancels(stack, line);
      case Parameter(line, access, _) => ParameterCancels(stack, line, access);
      case Statement(_) => ApplyOne(stack, Terminate);
    }
    ApplyConcat(stack, Head(text), Steps(text.rest));
  }

  lemma ClassOpens(stack: seq<BlockInfo>, text: Source)
    requires Ready(stack) && text.ClassBody?
    ensures ApplyAll(stack, [DeclareClass(text.line, text.access), CheckBegin(text.derived), OpenBrace(text.line, false, false)])
         == stack + [FirstBlock(text)]
  {
    ApplyFew(stack, DeclareClass(text.line, text.access), CheckBegin(text.derived), OpenBrace(text.line, false, false));
  }
}
