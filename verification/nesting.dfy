/**
  * build-support/cpplint.py: NestingState, the stack of open blocks, and the snapshots of it that are taken at
  * #if and #else.
  */
module Nesting {

  datatype Kind = PlainBlock | ExternC | Namespace | Class

  datatype Asm = NoAsm | InsideAsm | EndAsm | BlockAsm

  /** The fields of a _BlockInfo and its subclasses. */
  datatype BlockInfo = BlockInfo(
    kind: Kind, startingLine: nat, seenOpenBrace: bool, openParentheses: int, inlineAsm: Asm, derived: bool, access: string)

  /** _PreprocessorInfo, over blocks of some kind. */
  datatype Snapshot<B> = Snapshot(beforeIf: seq<B>, beforeElse: seq<B>, seenElse: bool)

  datatype NestingValue = NestingValue(stack: seq<BlockInfo>, ppStack: seq<Snapshot<BlockInfo>>)

  datatype Directive = If | Else | Endif   // Else is also #elif

  /** What Update does with the rest of a line, one step at a time. */
  datatype Op =
    | CountParentheses(change: int, asm: bool)
    | DeclareNamespace(line: nat, braced: bool)
    | DeclareClass(line: nat, access: string)
    | CheckBegin(colon: bool)
    | SetAccess(access: string)
    | OpenBrace(line: nat, externC: bool, asm: bool)
    | Terminate          // ; or )
    | CloseBrace

  function Top<T>(s: seq<T>): T
    requires s != []
  {
    s[|s| - 1]
  }

  function Pop<T>(s: seq<T>): seq<T>
    requires s != []
  {
    s[..|s| - 1]
  }

  // ---------------------------------------------------------------- as values

  function Counted(b: BlockInfo, change: int, asm: bool): BlockInfo {
    var open := b.openParentheses + change;
    var mode :=
      match b.inlineAsm
      case NoAsm => if change != 0 && open == 1 && asm then InsideAsm else NoAsm
      case EndAsm => if change != 0 && open == 1 && asm then InsideAsm else NoAsm
      case InsideAsm => if open == 0 then EndAsm else InsideAsm
      case BlockAsm => BlockAsm;
    b.(openParentheses := open, inlineAsm := mode)
  }

  function NewBlock(kind: Kind, line: nat, braced: bool, asm: bool, access: string): BlockInfo {
    BlockInfo(kind, line, braced, 0, if asm then BlockAsm else NoAsm, false, access)
  }

  predicate SeenOpenBrace(stack: seq<BlockInfo>) { stack == [] || Top(stack).seenOpenBrace }

  function Replaced(stack: seq<BlockInfo>, b: BlockInfo): seq<BlockInfo>
    requires stack != []
  {
    stack[|stack| - 1 := b]
  }

  function Apply(stack: seq<BlockInfo>, op: Op): seq<BlockInfo> {
    match op
    case CountParentheses(change, asm) => if stack == [] then stack else Replaced(stack, Counted(Top(stack), change, asm))
    case DeclareNamespace(line, braced) => stack + [NewBlock(Namespace, line, braced, false, "")]
    case DeclareClass(line, access) =>
      if stack == [] || Top(stack).openParentheses == 0 then stack + [NewBlock(Class, line, false, false, access)] else stack
    case CheckBegin(colon) =>
      if !SeenOpenBrace(stack) && Top(stack).kind.Class? && colon then Replaced(stack, Top(stack).(derived := true)) else stack
    case SetAccess(access) =>
      if stack != [] && Top(stack).kind.Class? then Replaced(stack, Top(stack).(access := access)) else stack
    case OpenBrace(line, externC, asm) =>
      if !SeenOpenBrace(stack) then Replaced(stack, Top(stack).(seenOpenBrace := true))
      else stack + [NewBlock(if externC then ExternC else PlainBlock, line, true, asm && !externC, "")]
    case Terminate => if !SeenOpenBrace(stack) then Pop(stack) else stack
    case CloseBrace => if stack == [] then stack else Pop(stack)
  }

  /** UpdatePreprocessor. */
  function Direct(s: NestingValue, d: Directive): NestingValue {
    match d
    case If => s.(ppStack := s.ppStack + [Snapshot(s.stack, [], false)])
    case Else =>
      if s.ppStack == [] then s
      else
        var top := Top(s.ppStack);
        var top' := if top.seenElse then top else top.(seenElse := true, beforeElse := s.stack);
        NestingValue(top.beforeIf, s.ppStack[|s.ppStack| - 1 := top'])
    case Endif =>
      if s.ppStack == [] then s
      else
        var top := Top(s.ppStack);
        NestingValue(if top.seenElse then top.beforeElse else s.stack, Pop(s.ppStack))
  }

  // ---------------------------------------------------------------- as objects

  /** A _BlockInfo object; it is updated in place while it is on top of the stack. */
  class Block {
    var info: BlockInfo

    constructor (info: BlockInfo)
      ensures this.info == info
    {
      this.info := info;
    }
  }

  ghost function Infos(bs: seq<Block>): (r: seq<BlockInfo>)
    reads bs
    ensures |r| == |bs| && forall i :: 0 <= i < |bs| ==> r[i] == bs[i].info
  {
    seq(|bs|, i requires 0 <= i < |bs| reads bs => bs[i].info)
  }

  ghost function Objects(bs: seq<Block>): set<Block> { set i | 0 <= i < |bs| :: bs[i] }

  lemma ObjectsAfter(bs: seq<Block>, b: Block)
    ensures Objects(bs + [b]) == Objects(bs) + {b} && Objects([]) == {}
    ensures bs != [] ==> Objects(Pop(bs)) <= Objects(bs)
  {
    assert forall i :: 0 <= i < |bs| ==> (bs + [b])[i] == bs[i];
    assert (bs + [b])[|bs|] == b;
  }

  ghost predicate Distinct(bs: seq<Block>) { forall i, j :: 0 <= i < j < |bs| ==> bs[i] != bs[j] }

  /** The objects that snapshots hold on to. */
  ghost function HeldBy(pp: seq<Snapshot<Block>>): set<Block> {
    if pp == [] then {} else Objects(Top(pp).beforeIf) + Objects(Top(pp).beforeElse) + HeldBy(Pop(pp))
  }

  ghost function SnapshotInfos(pp: seq<Snapshot<Block>>): (r: seq<Snapshot<BlockInfo>>)
    reads HeldBy(pp)
    ensures |r| == |pp|
  {
    if pp == [] then []
    else SnapshotInfos(Pop(pp)) + [Snapshot(Infos(Top(pp).beforeIf), Infos(Top(pp).beforeElse), Top(pp).seenElse)]
  }

  /** No block of a snapshot is in use, nor shared with another snapshot. */
  ghost predicate Unshared(pp: seq<Snapshot<Block>>, used: set<Block>) {
    pp == [] ||
    var top := Top(pp);
    var both := Objects(top.beforeIf) + Objects(top.beforeElse);
    && Distinct(top.beforeIf) && Distinct(top.beforeElse) && Objects(top.beforeIf) !! Objects(top.beforeElse)
    && both !! used && Unshared(Pop(pp), used + both)
  }

  lemma {:induction false} UnsharedFewer(pp: seq<Snapshot<Block>>, used: set<Block>, fewer: set<Block>)
    requires Unshared(pp, used) && fewer <= used
    ensures Unshared(pp, fewer)
  {
    if pp != [] {
      var both := Objects(Top(pp).beforeIf) + Objects(Top(pp).beforeElse);
      UnsharedFewer(Pop(pp), used + both, fewer + both);
    }
  }

  lemma {:induction false} UnsharedMore(pp: seq<Snapshot<Block>>, used: set<Block>, more: set<Block>)
    requires Unshared(pp, used) && more !! HeldBy(pp)
    ensures Unshared(pp, used + more)
  {
    if pp != [] {
      var both := Objects(Top(pp).beforeIf) + Objects(Top(pp).beforeElse);
      UnsharedMore(Pop(pp), used + both, more);
      assert used + both + more == used + more + both;
    }
  }

  lemma {:induction false} UnsharedApart(pp: seq<Snapshot<Block>>, used: set<Block>)
    requires Unshared(pp, used)
    ensures HeldBy(pp) !! used
  {
    if pp != [] {
      UnsharedApart(Pop(pp), used + (Objects(Top(pp).beforeIf) + Objects(Top(pp).beforeElse)));
    }
  }

  lemma {:induction false} HeldExist(pp: seq<Snapshot<Block>>)
    ensures forall b :: b in HeldBy(pp) ==> allocated(b)
  {
    if pp != [] {
      HeldExist(Pop(pp));
      var top := Top(pp);
      assert forall i :: 0 <= i < |top.beforeIf| ==> allocated(top.beforeIf[i]);
      assert forall i :: 0 <= i < |top.beforeElse| ==> allocated(top.beforeElse[i]);
    }
  }

  class NestingState {
    var stack: seq<Block>
    var ppStack: seq<Snapshot<Block>>

    constructor ()
      ensures Valid() && stack == [] && ppStack == []
    {
      stack, ppStack := [], [];
    }

    /** No live block is shared with a snapshot still held. */
    ghost predicate Valid()
      reads this
    {
      Distinct(stack) && Unshared(ppStack, Objects(stack))
    }

    ghost function Value(): NestingValue
      reads this, stack, HeldBy(ppStack)
    {
      NestingValue(Infos(stack), SnapshotInfos(ppStack))
    }

    /** copy.deepcopy of a list of blocks. */
    static method DeepCopy(bs: seq<Block>) returns (copies: seq<Block>)
      ensures Infos(copies) == Infos(bs) && Distinct(copies)
      ensures forall i :: 0 <= i < |copies| ==> fresh(copies[i])
    {
      copies := [];
      for i := 0 to |bs|
        invariant |copies| == i && Distinct(copies)
        invariant forall j :: 0 <= j < i ==> copies[j].info == bs[j].info && fresh(copies[j])
      {
        var b := new Block(bs[i].info);
        copies := copies + [b];
      }
    }

    method UpdatePreprocessor(d: Directive)
      requires Valid()
      modifies this
      ensures Valid() && Value() == Direct(old(Value()), d)
    {
      match d
      case If => SaveAtIf();
      case Else => SwitchAtElse();
      case Endif => RestoreAtEndif();
    }

    method SaveAtIf()
      requires Valid()
      modifies this
      ensures Valid() && Value() == Direct(old(Value()), If)
    {
      HeldExist(ppStack);
      ghost var pp := ppStack;
      var copy := DeepCopy(stack);
      ppStack := ppStack + [Snapshot(copy, [], false)];
      assert Pop(ppStack) == pp;
      assert Objects(Top(ppStack).beforeIf) + Objects(Top(ppStack).beforeElse) == Objects(copy);
      UnsharedMore(pp, Objects(stack), Objects(copy));
    }

    /** The stack so far is what we keep after the #endif. */
    method RecordElse()
      requires Valid() && ppStack != [] && !Top(ppStack).seenElse
      modifies this
      ensures Valid() && ppStack != [] && stack == old(stack)
      ensures Value() == old(Value()).(ppStack :=
                         Pop(old(Value()).ppStack) + [Top(old(Value()).ppStack).(seenElse := true, beforeElse := old(Value()).stack)])
    {
      HeldExist(ppStack);
      HeldExist(Pop(ppStack));
      ghost var rest, top := Pop(ppStack), Top(ppStack);
      var copy := DeepCopy(stack);
      ppStack := Pop(ppStack) + [Snapshot(Top(ppStack).beforeIf, copy, true)];
      assert Pop(ppStack) == rest;
      ghost var used, both := Objects(stack), Objects(top.beforeIf) + Objects(top.beforeElse);
      UnsharedFewer(rest, used + both, used + Objects(top.beforeIf));
      UnsharedMore(rest, used + Objects(top.beforeIf), Objects(copy));
      assert used + Objects(top.beforeIf) + Objects(copy) == used + (Objects(top.beforeIf) + Objects(copy));
    }

    /** The stack is restored to how it was before the #if. */
    method RestoreIf()
      requires Valid() && ppStack != []
      modifies this
      ensures Valid() && Value() == old(Value()).(stack := Top(old(Value()).ppStack).beforeIf)
    {
      HeldExist(ppStack);
      ghost var used := Objects(stack);
      stack := DeepCopy(Top(ppStack).beforeIf);
      UnsharedFewer(ppStack, used, {});
      UnsharedMore(ppStack, {}, Objects(stack));
      assert {} + Objects(stack) == Objects(stack);
    }

    method SwitchAtElse()
      requires Valid()
      modifies this
      ensures Valid() && Value() == Direct(old(Value()), Else)
    {
      if ppStack != [] {
        if !Top(ppStack).seenElse { RecordElse(); }
        RestoreIf();
      }
    }

    method RestoreAtEndif()
      requires Valid()
      modifies this
      ensures Valid() && Value() == Direct(old(Value()), Endif)
    {
      if ppStack != [] {
        ghost var top, used := Top(ppStack), Objects(stack);
        ghost var both := Objects(top.beforeIf) + Objects(top.beforeElse);
        HeldExist(Pop(ppStack));
        assert Pop(SnapshotInfos(ppStack)) == SnapshotInfos(Pop(ppStack));
        if Top(ppStack).seenElse { stack := Top(ppStack).beforeElse; }
        ppStack := Pop(ppStack);
        UnsharedFewer(ppStack, used + both, Objects(stack));
      }
    }

    // -------------------------------------------------------------- the rest of a line

    method PushBlock(info: BlockInfo)
      requires Valid()
      modifies this
      ensures Valid() && Value() == old(Value()).(stack := old(Value()).stack + [info])
    {
      HeldExist(ppStack);
      var b := new Block(info);
      ghost var used := Objects(stack);
      stack := stack + [b];
      ObjectsAfter(old(stack), b);
      UnsharedMore(ppStack, used, {b});
    }

    method PopBlock()
      requires Valid() && stack != []
      modifies this
      ensures Valid() && Value() == old(Value()).(stack := Pop(old(Value()).stack))
    {
      ghost var used := Objects(stack);
      HeldExist(ppStack);
      ObjectsAfter(stack, Top(stack));
      assert Pop(Infos(stack)) == Infos(Pop(stack));
      stack := Pop(stack);
      UnsharedFewer(ppStack, used, Objects(stack));
    }

    /** An update of the innermost block, in place. */
    method SetTop(info: BlockInfo)
      requires Valid() && stack != []
      modifies Top(stack)
      ensures Valid() && Value() == old(Value()).(stack := Replaced(old(Value()).stack, info))
    {
      HeldExist(ppStack);
      UnsharedApart(ppStack, Objects(stack));
      assert Top(stack) in Objects(stack);
      Top(stack).info := info;
    }

    /** One step of what Update does with the rest of a line. */
    method Update(op: Op)
      requires Valid()
      modifies this, stack
      ensures Valid() && Value() == old(Value()).(stack := Apply(old(Value()).stack, op))
    {
      if op.DeclareNamespace? || op.DeclareClass? {
        UpdateDeclaration(op);
      } else if op.CountParentheses? || op.CheckBegin? || op.SetAccess? {
        UpdateInnermost(op);
      } else {
        ConsumeToken(op);
      }
    }

    method UpdateDeclaration(op: Op)
      requires Valid() && (op.DeclareNamespace? || op.DeclareClass?)
      modifies this
      ensures Valid() && Value() == old(Value()).(stack := Apply(old(Value()).stack, op))
    {
      match op
      case DeclareNamespace(line, braced) =>
        PushBlock(NewBlock(Namespace, line, braced, false, ""));
      case DeclareClass(line, access) =>
        if stack == [] || Top(stack).info.openParentheses == 0 { PushBlock(NewBlock(Class, line, false, false, access)); }
    }

    method UpdateInnermost(op: Op)
      requires Valid() && (op.CountParentheses? || op.CheckBegin? || op.SetAccess?)
      modifies stack
      ensures Valid() && Value() == old(Value()).(stack := Apply(old(Value()).stack, op))
    {
      if stack == [] { return; }
      var info := Top(stack).info;
      match op
      case CountParentheses(change, asm) => SetTop(Counted(info, change, asm));
      case CheckBegin(colon) => if !info.seenOpenBrace && info.kind.Class? && colon { SetTop(info.(derived := true)); }
      case SetAccess(access) => if info.kind.Class? { SetTop(info.(access := access)); }
    }

    /** A brace, or a semicolon or closing parenthesis that ends a declaration without one. */
    method ConsumeToken(op: Op)
      requires Valid() && (op.OpenBrace? || op.Terminate? || op.CloseBrace?)
      modifies this, stack
      ensures Valid() && Value() == old(Value()).(stack := Apply(old(Value()).stack, op))
    {
      var seen := stack == [] || Top(stack).info.seenOpenBrace;
      match op
      case OpenBrace(line, externC, asm) =>
        if !seen {
          SetTop(Top(stack).info.(seenOpenBrace := true));
        } else {
          PushBlock(NewBlock(if externC then ExternC else PlainBlock, line, true, asm && !externC, ""));
        }
      case Terminate =>
        if !seen { PopBlock(); }
      case CloseBrace =>
        if stack != [] { PopBlock(); }
    }
  }
}
