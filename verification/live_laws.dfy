/**
  * The nesting stack inside preprocessor regions: at every line it is the stack of the source text that counts
  * there.
  */
module LiveLaws {
  import opened Options
  import opened Nesting
  import opened NestingLaws

  // ---------------------------------------------------------------- the steps that count

  /** The positions of the #ifs that are open after k events, outermost first. */
  function OpenAt(es: seq<Event>, k: nat): (r: seq<nat>)
    requires k <= |es|
    ensures forall p :: p in r ==> p < k
  {
    if k == 0 then []
    else
      var open := OpenAt(es, k - 1);
      match es[k - 1]
      case Directive(If) => open + [k - 1]
      case Directive(Endif) => if open == [] then open else Pop(open)
      case _ => open
  }

  /** Event l is an #else or #elif of the #if at p. */
  predicate ElseOf(es: seq<Event>, l: nat, p: nat)
    requires l < |es|
  {
    es[l] == Directive(Else) && OpenAt(es, l) != [] && Top(OpenAt(es, l)) == p
  }

  /**
    * Event i counts at the end of es. If it lies inside an #if that has been closed, no #else of that #if comes
    * before it; if it lies inside one that is still open, no #else of it comes after it.
    */
  ghost predicate Alive(es: seq<Event>, i: nat)
    requires i < |es|
  {
    forall p :: p in OpenAt(es, i) ==> AliveIn(es, i, p)
  }

  ghost predicate AliveIn(es: seq<Event>, i: nat, p: nat)
    requires i < |es|
  {
    if p in OpenAt(es, |es|) then forall l :: i < l < |es| ==> !ElseOf(es, l, p)
    else forall l :: 0 <= l < i ==> !ElseOf(es, l, p)
  }

  /** The steps among the first k events that count at the end of es. */
  ghost function Kept(es: seq<Event>, k: nat): seq<Op>
    requires k <= |es|
  {
    if k == 0 then []
    else if es[k - 1].Step? && Alive(es, k - 1) then Kept(es, k - 1) + [es[k - 1].op]
    else Kept(es, k - 1)
  }

  ghost function Live(es: seq<Event>): seq<Op> { Kept(es, |es|) }

  // What is open depends on the events before it only, and an #if that was closed stays closed.

  lemma {:induction false} OpenPrefix(es: seq<Event>, n: nat, k: nat)
    requires k <= n <= |es|
    ensures OpenAt(es[..n], k) == OpenAt(es, k)
    decreases k
  {
    if k > 0 { OpenPrefix(es, n, k - 1); }
  }

  lemma {:induction false} Reopened(es: seq<Event>, p: nat, k: nat, m: nat)
    requires p < k <= m <= |es| && p in OpenAt(es, m)
    ensures p in OpenAt(es, k)
    decreases m
  {
    if k < m {
      assert p in OpenAt(es, m - 1);
      Reopened(es, p, k, m - 1);
    }
  }

  /** While the #if at p is open, the ones around it are those that were open when it came. */
  lemma {:induction false} Around(es: seq<Event>, p: nat, k: nat)
    requires p < k <= |es| && p in OpenAt(es, k)
    ensures OpenAt(es, p) + [p] <= OpenAt(es, k)
    decreases k
  {
    var before := OpenAt(es, k - 1);
    if p == k - 1 {
      assert es[k - 1] == Directive(If);
    } else {
      Reopened(es, p, k - 1, k);
      Around(es, p, k - 1);
      if es[k - 1] == Directive(Endif) { assert OpenAt(es, k) == Pop(before) && before != OpenAt(es, p) + [p]; }
    }
  }

  ghost predicate Rising(xs: seq<nat>) { forall i, j :: 0 <= i < j < |xs| ==> xs[i] < xs[j] }

  lemma {:induction false} OpenRising(es: seq<Event>, k: nat)
    requires k <= |es|
    ensures Rising(OpenAt(es, k))
  {
    if k > 0 {
      OpenRising(es, k - 1);
      var before := OpenAt(es, k - 1);
      assert forall i :: 0 <= i < |before| ==> before[i] in before;
    }
  }

  /** While the #if at p is open, nothing happens to the ones around it. */
  lemma OuterStays(es: seq<Event>, p: nat, q: nat, m: nat, k: nat)
    requires q < p <= m < k <= |es| && p in OpenAt(es, k) && (m > p ==> p in OpenAt(es, m))
    ensures (q in OpenAt(es, k) <==> q in OpenAt(es, m)) && !ElseOf(es, m, q)
  {
    OuterOpen(es, p, q, k);
    if m > p {
      OuterOpen(es, p, q, m);
      OpenRising(es, m);
    }
  }

  lemma OuterOpen(es: seq<Event>, p: nat, q: nat, k: nat)
    requires q < p < k <= |es| && p in OpenAt(es, k)
    ensures q in OpenAt(es, k) <==> q in OpenAt(es, p)
  {
    Around(es, p, k);
    OpenRising(es, k);
    var open, outer := OpenAt(es, k), OpenAt(es, p);
    assert open[|outer|] == p && forall i :: 0 <= i < |outer| ==> open[i] == outer[i];
    if q in open {
      var i :| 0 <= i < |open| && open[i] == q;
      assert i < |outer|;
    }
  }

  // ---------------------------------------------------------------- what one more event does to the live steps

  lemma {:induction false} KeptSame(es: seq<Event>, n: nat, k: nat)
    requires k <= n <= |es|
    requires forall i :: 0 <= i < k && es[i].Step? ==> (Alive(es, i) <==> Alive(es[..n], i))
    ensures Kept(es, k) == Kept(es[..n], k)
    decreases k
  {
    if k > 0 { KeptSame(es, n, k - 1); }
  }

  lemma {:induction false} KeptDead(es: seq<Event>, j: nat, k: nat)
    requires j <= k <= |es| && forall i :: j <= i < k && es[i].Step? ==> !Alive(es, i)
    ensures Kept(es, k) == Kept(es, j)
    decreases k
  {
    if j < k { KeptDead(es, j, k - 1); }
  }

  lemma ElsePrefix(es: seq<Event>, n: nat, l: nat, p: nat)
    requires l < n <= |es|
    ensures ElseOf(es[..n], l, p) <==> ElseOf(es, l, p)
  {
    OpenPrefix(es, n, l);
  }

  /** The last event is not an #else or #endif of any #if. */
  predicate Quiet(es: seq<Event>)
    requires es != []
  {
    NeedsIf(Top(es)) ==> OpenAt(es, |es| - 1) == []
  }

  lemma AliveQuiet(es: seq<Event>, i: nat)
    requires es != [] && Quiet(es) && i < |es| - 1
    ensures Alive(es, i) <==> Alive(Pop(es), i)
  {
    var n := |es| - 1;
    OpenPrefix(es, n, i);
    OpenPrefix(es, n, n);
    forall l, p | 0 <= l < n ensures ElseOf(Pop(es), l, p) <==> ElseOf(es, l, p) { ElsePrefix(es, n, l, p); }
    assert forall p :: p in OpenAt(es, i) ==> (p in OpenAt(es, |es|) <==> p in OpenAt(es, n));
  }

  lemma LiveQuiet(es: seq<Event>)
    requires es != [] && Quiet(es)
    ensures Live(es) == if Top(es).Step? then Live(Pop(es)) + [Top(es).op] else Live(Pop(es))
  {
    var n := |es| - 1;
    forall i | 0 <= i < n && es[i].Step? ensures Alive(es, i) <==> Alive(Pop(es), i) { AliveQuiet(es, i); }
    KeptSame(es, n, n);
    if Top(es).Step? { assert Alive(es, n) by { assert OpenAt(es, n) == OpenAt(es, |es|); } }
  }

  lemma {:induction false} OpenIsIf(es: seq<Event>, k: nat, p: nat)
    requires k <= |es| && p in OpenAt(es, k)
    ensures es[p] == Directive(If)
  {
    if p != k - 1 || es[k - 1] != Directive(If) { OpenIsIf(es, k - 1, p); }
  }

  /** The last event belongs to the #if at p and takes the stack back to where it was at m: the #if or its first #else. */
  ghost predicate BackTo(es: seq<Event>, p: nat, m: nat) {
    && p < |es| - 1 && NeedsIf(Top(es)) && OpenAt(es, |es| - 1) != [] && Top(OpenAt(es, |es| - 1)) == p
    && if Top(es) == Directive(Else) then m == p
       else p < m < |es| - 1 && ElseOf(es, m, p) && forall l :: 0 <= l < m ==> !ElseOf(es, l, p)
  }

  lemma OuterElses(es: seq<Event>, p: nat, q: nat, m: nat, n: nat)
    requires q < p <= m < n <= |es| && p in OpenAt(es, n)
    ensures forall l :: m <= l < n ==> !ElseOf(es, l, q)
  {
    forall l | m <= l < n ensures !ElseOf(es, l, q) {
      if l > p { Reopened(es, p, l, n); }
      OuterStays(es, p, q, l, n);
    }
  }

  lemma AliveInOuter(es: seq<Event>, p: nat, m: nat, i: nat, q: nat)
    requires BackTo(es, p, m) && i < m && q in OpenAt(es, i) && q < p
    ensures AliveIn(es, i, q) <==> AliveIn(es[..m], i, q)
  {
    var n := |es| - 1;
    OpenPrefix(es, m, m);
    OuterStays(es, p, q, m, n);
    forall l | 0 <= l < m ensures ElseOf(es[..m], l, q) <==> ElseOf(es, l, q) { ElsePrefix(es, m, l, q); }
    OuterElses(es, p, q, m, n);
    assert q in OpenAt(es, |es|) <==> q in OpenAt(es, n);
  }

  lemma AliveInInner(es: seq<Event>, p: nat, m: nat, i: nat, q: nat)
    requires BackTo(es, p, m) && i < m && q in OpenAt(es, i) && q >= p
    ensures AliveIn(es, i, q) <==> AliveIn(es[..m], i, q)
  {
    var n := |es| - 1;
    OpenPrefix(es, m, m);
    OpenRising(es, m);
    OpenRising(es, n);
    forall l | 0 <= l < m ensures ElseOf(es[..m], l, q) <==> ElseOf(es, l, q) { ElsePrefix(es, m, l, q); }
    if q > p && q in OpenAt(es, |es|) { Reopened(es, q, m, |es|); }
  }

  lemma AliveBefore(es: seq<Event>, p: nat, m: nat, i: nat)
    requires BackTo(es, p, m) && i < m
    ensures Alive(es, i) <==> Alive(es[..m], i)
  {
    OpenPrefix(es, m, i);
    forall q | q in OpenAt(es, i) ensures AliveIn(es, i, q) <==> AliveIn(es[..m], i, q) {
      if q < p { AliveInOuter(es, p, m, i, q); } else { AliveInInner(es, p, m, i, q); }
    }
  }

  lemma DeadAfter(es: seq<Event>, p: nat, m: nat, i: nat)
    requires BackTo(es, p, m) && m <= i < |es| - 1 && es[i].Step?
    ensures !Alive(es, i)
  {
    var n := |es| - 1;
    OpenRising(es, n);
    if i == p { OpenIsIf(es, n, p); } else { Reopened(es, p, i, n); }
    assert !AliveIn(es, i, p) by {
      if Top(es) == Directive(Else) { assert ElseOf(es, n, p) && OpenAt(es, |es|) == OpenAt(es, n); }
      else { assert ElseOf(es, m, p) && p !in OpenAt(es, |es|); }
    }
  }

  /** Such an event leaves the steps that were live then. */
  lemma LiveBack(es: seq<Event>, p: nat, m: nat)
    requires BackTo(es, p, m)
    ensures Live(es) == Live(es[..m])
  {
    var n := |es| - 1;
    forall i | m <= i < n && es[i].Step? ensures !Alive(es, i) { DeadAfter(es, p, m, i); }
    KeptDead(es, m, n);
    forall i | 0 <= i < m ensures Alive(es, i) <==> Alive(es[..m], i) { AliveBefore(es, p, m, i); }
    KeptSame(es, m, m);
  }

  /** An #endif without an #else drops nothing. */
  lemma LiveEndif(es: seq<Event>, p: nat)
    requires es != [] && Top(es) == Directive(Endif) && OpenAt(es, |es| - 1) != [] && Top(OpenAt(es, |es| - 1)) == p
    requires forall l :: 0 <= l < |es| - 1 ==> !ElseOf(es, l, p)
    ensures Live(es) == Live(Pop(es))
  {
    var n := |es| - 1;
    OpenRising(es, n);
    OpenPrefix(es, n, n);
    forall i | 0 <= i < n ensures Alive(es, i) <==> Alive(Pop(es), i) {
      OpenPrefix(es, n, i);
      forall l, q | 0 <= l < n ensures ElseOf(Pop(es), l, q) <==> ElseOf(es, l, q) { ElsePrefix(es, n, l, q); }
      assert forall q :: q in OpenAt(es, i) && q != p ==> (q in OpenAt(es, |es|) <==> q in OpenAt(es, n));
      forall q | q in OpenAt(es, i) ensures AliveIn(es, i, q) <==> AliveIn(Pop(es), i, q) { }
    }
    KeptSame(es, n, n);
  }

  // ---------------------------------------------------------------- the snapshots

  /** The first #else of the #if at p among the first k events. */
  function FirstElse(es: seq<Event>, p: nat, k: nat): (r: Option<nat>)
    requires k <= |es|
    ensures match r
            case None => forall l :: 0 <= l < k ==> !ElseOf(es, l, p)
            case Some(f) => f < k && ElseOf(es, f, p) && forall l :: 0 <= l < f ==> !ElseOf(es, l, p)
  {
    if k == 0 then None
    else if FirstElse(es, p, k - 1).Some? then FirstElse(es, p, k - 1)
    else if ElseOf(es, k - 1, p) then Some(k - 1)
    else None
  }

  /** The frame of the #if at p holds the live stack from before it and from before its first #else. */
  ghost predicate Framed(stack: seq<BlockInfo>, es: seq<Event>, p: nat, frame: Snapshot<BlockInfo>)
    requires p < |es|
  {
    frame.beforeIf == ApplyAll(stack, Live(es[..p])) &&
    match FirstElse(es, p, |es|)
    case None => !frame.seenElse
    case Some(f) => frame.seenElse && frame.beforeElse == ApplyAll(stack, Live(es[..f]))
  }

  lemma FirstElseLater(es: seq<Event>, p: nat)
    requires es != []
    ensures var before := FirstElse(Pop(es), p, |es| - 1);
            FirstElse(es, p, |es|) == if before.None? && ElseOf(es, |es| - 1, p) then Some(|es| - 1) else before
  {
    var n := |es| - 1;
    forall l | 0 <= l < n ensures ElseOf(Pop(es), l, p) <==> ElseOf(es, l, p) { ElsePrefix(es, n, l, p); }
    assert FirstElse(Pop(es), p, n) == FirstElse(es, p, n);
  }

  lemma FramedLater(stack: seq<BlockInfo>, es: seq<Event>, p: nat, frame: Snapshot<BlockInfo>)
    requires p < |es| - 1 && Framed(stack, Pop(es), p, frame) && !ElseOf(es, |es| - 1, p)
    ensures Framed(stack, es, p, frame)
  {
    FirstElseLater(es, p);
    assert Pop(es)[..p] == es[..p];
    var f := FirstElse(es, p, |es|);
    if f.Some? { assert Pop(es)[..f.value] == es[..f.value]; }
  }

  lemma FramedAtElse(stack: seq<BlockInfo>, es: seq<Event>, p: nat, frame: Snapshot<BlockInfo>, frame': Snapshot<BlockInfo>)
    requires p < |es| - 1 && Framed(stack, Pop(es), p, frame) && ElseOf(es, |es| - 1, p)
    requires frame' == if frame.seenElse then frame
                       else frame.(seenElse := true, beforeElse := ApplyAll(stack, Live(Pop(es))))
    ensures Framed(stack, es, p, frame')
  {
    FirstElseLater(es, p);
    assert Pop(es)[..p] == es[..p];
    var f := FirstElse(es, p, |es|).value;
    assert Pop(es)[..f] == es[..f];
  }

  ghost predicate AllFramed(stack: seq<BlockInfo>, es: seq<Event>, open: seq<nat>, frames: seq<Snapshot<BlockInfo>>) {
    |frames| == |open| && forall j :: 0 <= j < |open| ==> open[j] < |es| && Framed(stack, es, open[j], frames[j])
  }

  /** The frames of #ifs that the last event is no #else of. */
  lemma FramesStay(stack: seq<BlockInfo>, es: seq<Event>, open: seq<nat>, frames: seq<Snapshot<BlockInfo>>)
    requires es != [] && AllFramed(stack, Pop(es), open, frames)
    requires forall j :: 0 <= j < |open| ==> !ElseOf(es, |es| - 1, open[j])
    ensures AllFramed(stack, es, open, frames)
  {
    forall j | 0 <= j < |open| ensures Framed(stack, es, open[j], frames[j]) {
      FramedLater(stack, es, open[j], frames[j]);
    }
  }

  /** The frames and the open #ifs grow and shrink together. */
  lemma FramesPushed(stack: seq<BlockInfo>, es: seq<Event>, open: seq<nat>, frames: seq<Snapshot<BlockInfo>>, p: nat,
                     frame: Snapshot<BlockInfo>)
    requires AllFramed(stack, es, open, frames) && p < |es| && Framed(stack, es, p, frame)
    ensures AllFramed(stack, es, open + [p], frames + [frame])
  {
  }

  lemma FramesPopped(stack: seq<BlockInfo>, es: seq<Event>, open: seq<nat>, frames: seq<Snapshot<BlockInfo>>)
    requires AllFramed(stack, es, open, frames) && open != []
    ensures AllFramed(stack, es, Pop(open), Pop(frames)) && Top(open) < |es| && Framed(stack, es, Top(open), Top(frames))
  {
  }

  /** What is known after es: the stack and the frames of the open #ifs. */
  ghost predicate Tracks(stack: seq<BlockInfo>, es: seq<Event>, v: NestingValue) {
    v.stack == ApplyAll(stack, Live(es)) && AllFramed(stack, es, OpenAt(es, |es|), v.ppStack)
  }

  lemma OthersAtElse(es: seq<Event>, open: seq<nat>)
    requires es != [] && open == OpenAt(es, |es| - 1) != []
    ensures forall j :: 0 <= j < |open| - 1 ==> !ElseOf(es, |es| - 1, open[j])
  {
    OpenRising(es, |es| - 1);
  }

  lemma AtElse(stack: seq<BlockInfo>, es: seq<Event>, v: NestingValue)
    requires es != [] && Top(es) == Directive(Else) && v.ppStack != [] && Tracks(stack, Pop(es), v)
    ensures Tracks(stack, es, Direct(v, Else))
  {
    var n, v' := |es| - 1, Direct(v, Else);
    OpenPrefix(es, n, n);
    var open, frame := OpenAt(es, n), Top(v.ppStack);
    var p := Top(open);
    FramesPopped(stack, Pop(es), open, v.ppStack);
    ElseGoesBack(stack, es, p, frame);
    OthersAtElse(es, open);
    FramesStay(stack, es, Pop(open), Pop(v.ppStack));
    FramedAtElse(stack, es, p, frame, Top(v'.ppStack));
    FramesPushed(stack, es, Pop(open), Pop(v.ppStack), p, Top(v'.ppStack));
    assert Pop(open) + [p] == open && Pop(v.ppStack) + [Top(v'.ppStack)] == v'.ppStack;
  }

  lemma ElseGoesBack(stack: seq<BlockInfo>, es: seq<Event>, p: nat, frame: Snapshot<BlockInfo>)
    requires p < |es| - 1 && ElseOf(es, |es| - 1, p) && Framed(stack, Pop(es), p, frame)
    ensures frame.beforeIf == ApplyAll(stack, Live(es))
  {
    assert Pop(es)[..p] == es[..p];
    LiveBack(es, p, p);
  }

  lemma EndifGoesBack(stack: seq<BlockInfo>, es: seq<Event>, p: nat, frame: Snapshot<BlockInfo>)
    requires p < |es| - 1 && Top(es) == Directive(Endif) && Framed(stack, Pop(es), p, frame)
    requires OpenAt(es, |es| - 1) != [] && Top(OpenAt(es, |es| - 1)) == p
    ensures ApplyAll(stack, Live(es)) == if frame.seenElse then frame.beforeElse else ApplyAll(stack, Live(Pop(es)))
  {
    FirstElseLater(es, p);
    match FirstElse(es, p, |es|)
    case None => LiveEndif(es, p);
    case Some(f) =>
      assert Pop(es)[..f] == es[..f];
      ElseAfterIf(es, f, p);
      LiveBack(es, p, f);
  }

  lemma AtEndif(stack: seq<BlockInfo>, es: seq<Event>, v: NestingValue)
    requires es != [] && Top(es) == Directive(Endif) && v.ppStack != [] && Tracks(stack, Pop(es), v)
    ensures Tracks(stack, es, Direct(v, Endif))
  {
    var n := |es| - 1;
    OpenPrefix(es, n, n);
    var open := OpenAt(es, n);
    FramesPopped(stack, Pop(es), open, v.ppStack);
    EndifGoesBack(stack, es, Top(open), Top(v.ppStack));
    FramesStay(stack, es, Pop(open), Pop(v.ppStack));
  }

  lemma ElseAfterIf(es: seq<Event>, f: nat, p: nat)
    requires f < |es| && ElseOf(es, f, p)
    ensures p < f
  {
    assert Top(OpenAt(es, f)) in OpenAt(es, f);
  }

  lemma NewFrame(stack: seq<BlockInfo>, es: seq<Event>)
    requires es != []
    ensures Framed(stack, es, |es| - 1, Snapshot(ApplyAll(stack, Live(Pop(es))), [], false))
  {
    var f := FirstElse(es, |es| - 1, |es|);
    if f.Some? { ElseAfterIf(es, f.value, |es| - 1); }
  }

  lemma AtOther(stack: seq<BlockInfo>, es: seq<Event>, v: NestingValue)
    requires es != [] && Tracks(stack, Pop(es), v) && (NeedsIf(Top(es)) ==> v.ppStack == [])
    ensures Tracks(stack, es, Next(v, Top(es)))
  {
    var n := |es| - 1;
    OpenPrefix(es, n, n);
    LiveQuiet(es);
    if Top(es).Step? { assert Pop(Live(es)) == Live(Pop(es)); }
    FramesStay(stack, es, OpenAt(es, n), v.ppStack);
    if Top(es) == Directive(If) {
      NewFrame(stack, es);
      FramesPushed(stack, es, OpenAt(es, n), v.ppStack, n, Snapshot(v.stack, [], false));
    }
  }

  /**
    * At every point of every sequence the stack is that of the steps that count: without what lies between an
    * open #if and its last #else, and between the first #else of a closed #if and its #endif.
    */
  lemma {:induction false} LiveStack(stack: seq<BlockInfo>, es: seq<Event>)
    ensures Run(NestingValue(stack, []), es).stack == ApplyAll(stack, Live(es))
    ensures Tracks(stack, es, Run(NestingValue(stack, []), es))
  {
    if es != [] {
      LiveStack(stack, Pop(es));
      var v := Run(NestingValue(stack, []), Pop(es));
      if NeedsIf(Top(es)) && v.ppStack != [] {
        if Top(es) == Directive(Else) { AtElse(stack, es, v); } else { AtEndif(stack, es, v); }
      } else {
        AtOther(stack, es, v);
      }
    }
  }
}
