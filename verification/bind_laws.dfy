/**
  * What the two-pass visit guarantees: when binding again changes nothing, and exactly when the types of a
  * bound tree fit together.
  */
module BindLaws {
  import opened Options
  import opened SqlTypes
  import opened Scopes
  import opened BindSpec
  import opened RebindLaws

  // ---------------------------------------------------------------- stability

  ghost predicate KeepsType(chain: ScopeChain, e: Expr) {
    e.Column? ==> FirstType(chain, e.c) == SecondType(chain, e.c)
  }

  ghost predicate AllKeepType(chain: ScopeChain, es: Exprs) {
    es.Cons? ==> KeepsType(chain, es.head) && AllKeepType(chain, es.tail)
  }

  /** No reference that the first visit of e leaves behind means something else at the next visit. */
  ghost predicate Uncaptured(chain: ScopeChain, e: Expr) {
    match e
    case Column(c, _) => KeepsMeaning(chain, c)
    case Comparison(l, r, _) => KeepsType(chain, l) && KeepsType(chain, r)
    case Conjunction(es, _) => AllKeepType(chain, es)
    case _ => true
  }

  lemma BooleanStep(env: Env, chain: ScopeChain, e: Expr, d: Option<TypeId>)
    requires (e.Comparison? || e.Conjunction?) && BindExpr(env, chain, Note(e, d)).Ok?
    ensures var e' := BindExpr(env, chain, Note(e, d)).value;
            e'.desired == d && TypeOf(e') == BOOLEAN && Satisfies(d, BOOLEAN)
  {
  }

  /** The second visit of an operand whose type is kept. */
  lemma OperandStep(env: Env, chain: ScopeChain, e: Expr, d: Option<TypeId>)
    requires chain.Valid() && Simple(e) && KeepsType(chain, e) && BindExpr(env, chain, e).Ok?
    requires var e1 := BindExpr(env, chain, e).value; (e1.Column? ==> d.Some?) && BindExpr(env, chain, Note(e1, d)).Ok?
    ensures var e1 := BindExpr(env, chain, e).value;
            var e3 := BindExpr(env, chain, Note(e1, d)).value;
            e3.desired == d && TypeStep(e1.Const?, TypeOf(e1), d, TypeOf(e3))
  {
    var e1 := BindExpr(env, chain, e).value;
    BoundSatisfied(env, chain, e);
    if e1.Const? {
      PromoteReaches(env.lib, e1.k, if d.Some? then d.value else e1.k.ty);
    } else if e1.Column? {
      SecondTypeExactly(chain, e.c);
    } else {
      BooleanStep(env, chain, e1, d);
    }
  }

  lemma {:induction false} ConjunctsBoolean(env: Env, chain: ScopeChain, es: Exprs)
    requires chain.Valid() && SimpleAll(es) && AllKeepType(chain, es) && BindAll(env, chain, es).Ok?
    requires BindAll(env, chain, RequireBoolean(BindAll(env, chain, es).value)).Ok?
    ensures SettledBooleans(chain, BindAll(env, chain, RequireBoolean(BindAll(env, chain, es).value)).value)
  {
    if es.Cons? {
      SettlesAtSecondVisit(env, chain, es.head, Some(BOOLEAN));
      OperandStep(env, chain, es.head, Some(BOOLEAN));
      ConjunctsBoolean(env, chain, es.tail);
    }
  }

  lemma UncapturedSettles(env: Env, chain: ScopeChain, e: Expr)
    requires chain.Valid() && Simple(e) && Uncaptured(chain, e) && BindExpr(env, chain, e).Ok?
    ensures Settled(chain, BindExpr(env, chain, e).value)
  {
    BoundSatisfied(env, chain, e);
    match e
    case Comparison(l, r, d) =>
      OperandsSettled(env, chain, e);
      BoundSatisfied(env, chain, l);
      BoundSatisfied(env, chain, r);
      var l1, r1 := BindExpr(env, chain, l).value, BindExpr(env, chain, r).value;
      var (l2, r2) := ConstrainPair(l1, r1);
      OperandStep(env, chain, l, l2.desired);
      OperandStep(env, chain, r, r2.desired);
      var l3, r3 := BindExpr(env, chain, l2).value, BindExpr(env, chain, r2).value;
      PairSettles(l1.Const?, r1.Const?, l1.desired, r1.desired, TypeOf(l1), TypeOf(r1), TypeOf(l3), TypeOf(r3));
    case Conjunction(es, _) =>
      ConjunctsBoolean(env, chain, es);
    case Column(c, _) =>
      StableExactly(chain, c);
    case _ =>
  }

  // ---------------------------------------------------------------- exactly when binding again changes nothing

  /** SetDesiredTypePair asks the side of type x to take type y. */
  predicate Demands(x: TypeId, y: TypeId) { x != y && y != INVALID && Convertible(x) }

  /** Neither of two noted types asks anything of the other. */
  predicate Compatible(x: TypeId, y: TypeId) { x == y || (!Convertible(x) && !Convertible(y)) }

  /** A column of types t1 and then t2 beside another operand with note d and type s. */
  predicate Fits(t1: TypeId, t2: TypeId, d: Option<TypeId>, s: TypeId) {
    match d
    case Some(n) => Compatible(t2, if Demands(n, t1) then t1 else n)
    case None => if t1 == INVALID then t2 == INVALID || t2 == s else Compatible(t2, t1)
  }

  ghost predicate ColumnHolds(chain: ScopeChain, c: ColumnRef, o: Expr) {
    Fits(FirstType(chain, c), SecondType(chain, c), o.desired, TypeOf(o))
  }

  /** The operands of a comparison fit together under the types that its columns have after the second pass. */
  ghost predicate PairHolds(chain: ScopeChain, l: Expr, r: Expr) {
    if l.Column? && r.Column? then Compatible(SecondType(chain, l.c), SecondType(chain, r.c))
    else if l.Column? then ColumnHolds(chain, l.c, r)
    else if r.Column? then ColumnHolds(chain, r.c, l)
    else true
  }

  ghost predicate Stays(chain: ScopeChain, e: Expr) {
    match e
    case Column(c, _) => KeepsMeaning(chain, c)
    case Comparison(l, r, _) => PairHolds(chain, l, r)
    case Conjunction(es, _) => AllKeepType(chain, es)
    case _ => true
  }

  predicate AllBoolean(es: Exprs) { es.Cons? ==> TypeOf(es.head) == BOOLEAN && AllBoolean(es.tail) }

  function Or(d: Option<TypeId>, t: TypeId): TypeId { if d.Some? then d.value else t }

  /** The note and type of an operand after its first visit, ... */
  ghost function AfterFirst(chain: ScopeChain, e: Expr): (Option<TypeId>, TypeId) {
    if e.Column? then (Some(FirstType(chain, e.c)), FirstType(chain, e.c)) else (e.desired, Or(e.desired, TypeOf(e)))
  }

  /** ... and after its second visit under note n. */
  ghost function AfterSecond(chain: ScopeChain, e: Expr, n: Option<TypeId>): (Option<TypeId>, TypeId) {
    if e.Column? then (Some(SecondType(chain, e.c)), SecondType(chain, e.c))
    else (n, Or(n, Or(e.desired, TypeOf(e))))
  }

  lemma FirstPredicted(env: Env, chain: ScopeChain, e: Expr)
    requires Simple(e) && BindExpr(env, chain, e).Ok?
    ensures var e1 := BindExpr(env, chain, e).value; AfterFirst(chain, e) == (e1.desired, TypeOf(e1))
  {
    BoundSatisfied(env, chain, e);
    if e.Const? { PromoteReaches(env.lib, e.k, if e.desired.Some? then e.desired.value else e.k.ty); }
  }

  lemma SecondPredicted(env: Env, chain: ScopeChain, e: Expr, d: Option<TypeId>)
    requires chain.Valid() && Simple(e) && BindExpr(env, chain, e).Ok?
    requires BindExpr(env, chain, Note(BindExpr(env, chain, e).value, d)).Ok?
    ensures var e1 := BindExpr(env, chain, e).value;
            var e3 := BindExpr(env, chain, Note(e1, d)).value;
            AfterSecond(chain, e, d) == (e3.desired, TypeOf(e3)) && (e.Column? ==> Satisfies(d, TypeOf(e1)))
  {
    var e1 := BindExpr(env, chain, e).value;
    FirstPredicted(env, chain, e);
    BoundSatisfied(env, chain, e);
    if e1.Const? {
      PromoteReaches(env.lib, e1.k, if d.Some? then d.value else e1.k.ty);
    } else if e1.Column? {
      SecondTypeExactly(chain, e.c);
    } else {
      BooleanStep(env, chain, e1, d);
    }
  }

  lemma {:induction false} RootConjuncts(env: Env, chain: ScopeChain, es: Exprs)
    requires chain.Valid() && SimpleAll(es) && BindAll(env, chain, es).Ok?
    requires BindAll(env, chain, RequireBoolean(BindAll(env, chain, es).value)).Ok?
    ensures AllBoolean(BindAll(env, chain, RequireBoolean(BindAll(env, chain, es).value)).value) <==> AllKeepType(chain, es)
  {
    if es.Cons? {
      RootConjuncts(env, chain, es.tail);
      SecondPredicted(env, chain, es.head, Some(BOOLEAN));
      FirstPredicted(env, chain, es.head);
    }
  }

  /** The notes and types of the operands of a bound comparison; the notes of columns were met. */
  lemma PairPredicted(env: Env, chain: ScopeChain, l: Expr, r: Expr, d: Option<TypeId>)
    requires chain.Valid() && Simple(l) && Simple(r) && BindExpr(env, chain, Comparison(l, r, d)).Ok?
    ensures var e := BindExpr(env, chain, Comparison(l, r, d)).value;
            var (dl, tl), (dr, tr) := AfterFirst(chain, l), AfterFirst(chain, r);
            var (nl, nr) := PairTypes(dl, dr, tl, tr);
            && e.Comparison?
            && (e.left.desired, TypeOf(e.left)) == AfterSecond(chain, l, nl)
            && (e.right.desired, TypeOf(e.right)) == AfterSecond(chain, r, nr)
            && (l.Column? ==> Satisfies(nl, tl)) && (r.Column? ==> Satisfies(nr, tr))
  {
    FirstPredicted(env, chain, l);
    FirstPredicted(env, chain, r);
    var (l2, r2) := ConstrainPair(BindExpr(env, chain, l).value, BindExpr(env, chain, r).value);
    SecondPredicted(env, chain, l, l2.desired);
    SecondPredicted(env, chain, r, r2.desired);
  }

  /** The two passes over a column and another operand, in types. */
  lemma FitsExactly(t1: TypeId, t2: TypeId, d: Option<TypeId>, s: TypeId)
    requires PairTypes(Some(t1), d, t1, Or(d, s)).0 == Some(t1)
    ensures var n := PairTypes(Some(t1), d, t1, Or(d, s)).1;
            PairSettled(Some(t2), n, t2, Or(n, Or(d, s))) <==> Fits(t1, t2, d, s)
  {
  }

  lemma PairMirrored(dl: Option<TypeId>, dr: Option<TypeId>, tl: TypeId, tr: TypeId)
    ensures PairTypes(dl, dr, tl, tr) == (PairTypes(dr, dl, tr, tl).1, PairTypes(dr, dl, tr, tl).0)
    ensures PairSettled(dl, dr, tl, tr) <==> PairSettled(dr, dl, tr, tl)
  {
  }

  lemma PairHoldsPredicted(chain: ScopeChain, l: Expr, r: Expr)
    requires l.Column? || r.Column?
    requires var (dl, tl), (dr, tr) := AfterFirst(chain, l), AfterFirst(chain, r);
             var (nl, nr) := PairTypes(dl, dr, tl, tr);
             (l.Column? ==> Satisfies(nl, tl)) && (r.Column? ==> Satisfies(nr, tr))
    ensures var (dl, tl), (dr, tr) := AfterFirst(chain, l), AfterFirst(chain, r);
            var (nl, nr) := PairTypes(dl, dr, tl, tr);
            var (dl', tl'), (dr', tr') := AfterSecond(chain, l, nl), AfterSecond(chain, r, nr);
            PairSettled(dl', dr', tl', tr') <==> PairHolds(chain, l, r)
  {
    var (dl, tl) := AfterFirst(chain, l);
    var (dr, tr) := AfterFirst(chain, r);
    var (nl, nr) := PairTypes(dl, dr, tl, tr);
    if !r.Column? {
      FitsExactly(tl, SecondType(chain, l.c), r.desired, TypeOf(r));
    } else if !l.Column? {
      PairMirrored(dl, dr, tl, tr);
      FitsExactly(tr, SecondType(chain, r.c), l.desired, TypeOf(l));
      PairMirrored(nl, Some(SecondType(chain, r.c)), AfterSecond(chain, l, nl).1, SecondType(chain, r.c));
    }
  }

  /** The pair of operands that a bound comparison holds is settled exactly when PairHolds says so. */
  lemma PairHoldsExactly(env: Env, chain: ScopeChain, e: Expr)
    requires chain.Valid() && e.Comparison? && Simple(e) && BindExpr(env, chain, e).Ok?
    ensures var e1 := BindExpr(env, chain, e).value;
            PairHolds(chain, e.left, e.right)
            <==> PairSettled(e1.left.desired, e1.right.desired, TypeOf(e1.left), TypeOf(e1.right))
  {
    if e.left.Column? || e.right.Column? {
      PairPredicted(env, chain, e.left, e.right, e.desired);
      PairHoldsPredicted(chain, e.left, e.right);
    } else {
      UncapturedSettles(env, chain, e);
    }
  }

  lemma {:induction false} ConjunctsStay(chain: ScopeChain, es: Exprs)
    requires SettledAll(chain, es)
    ensures SettledBooleans(chain, es) <==> AllBoolean(es)
  {
    if es.Cons? { ConjunctsStay(chain, es.tail); }
  }

  /** A bound tree is settled exactly when its operands stay. */
  lemma SettledExactly(env: Env, chain: ScopeChain, e: Expr)
    requires chain.Valid() && Simple(e) && BindExpr(env, chain, e).Ok?
    ensures Settled(chain, BindExpr(env, chain, e).value) <==> Stays(chain, e)
  {
    BoundSatisfied(env, chain, e);
    OperandsSettled(env, chain, e);
    match e
    case Comparison(_, _, _) => PairHoldsExactly(env, chain, e);
    case Column(c, _) => StableExactly(chain, c);
    case Conjunction(es, _) =>
      RootConjuncts(env, chain, es);
      ConjunctsStay(chain, BindExpr(env, chain, e).value.children);
    case _ =>
  }

  /** A bound tree that binds again unchanged is settled. */
  lemma UnchangedIsSettled(env: Env, chain: ScopeChain, e: Expr)
    requires chain.Valid() && Simple(e) && BindExpr(env, chain, e).Ok?
    requires var again := BindExpr(env, chain, BindExpr(env, chain, e).value);
             again.Ok? && Strip(again.value) == Strip(BindExpr(env, chain, e).value)
    ensures Settled(chain, BindExpr(env, chain, e).value)
  {
    var e1 := BindExpr(env, chain, e).value;
    var e2 := BindExpr(env, chain, e1).value;
    BoundSatisfied(env, chain, e);
    OperandsSettled(env, chain, e);
    match e
    case Comparison(_, _, _) => UnchangedPair(env, chain, e1);
    case Conjunction(_, _) =>
      ConjunctsRevisited(env, chain, e1.children);
      UnchangedConjuncts(chain, e1.children, e2.children);
    case _ =>
  }

  lemma UnchangedPair(env: Env, chain: ScopeChain, e: Expr)
    requires e.Comparison? && Settled(chain, e.left) && Settled(chain, e.right) && Satisfies(e.desired, BOOLEAN)
    requires BindExpr(env, chain, e).Ok? && Strip(BindExpr(env, chain, e).value) == Strip(e)
    ensures Settled(chain, e)
  {
    var e2 := BindExpr(env, chain, e).value;
    SettledRebinds(env, chain, e.left);
    SettledRebinds(env, chain, e.right);
    var l1, r1 := BindExpr(env, chain, e.left).value, BindExpr(env, chain, e.right).value;
    StripKeepsType(e.left, l1);
    StripKeepsType(e.right, r1);
    var (l2, r2) := ConstrainPair(l1, r1);
    SettledSatisfied(chain, l1);
    SettledSatisfied(chain, r1);
    SettledRevisited(env, chain, l1, l2.desired);
    SettledRevisited(env, chain, r1, r2.desired);
    StripKeepsType(e.left, e2.left);
    StripKeepsType(e.right, e2.right);
  }

  lemma {:induction false} UnchangedConjuncts(chain: ScopeChain, es: Exprs, es': Exprs)
    requires SettledAll(chain, es) && SettledBooleans(chain, es') && StripAll(es') == StripAll(es)
    ensures SettledBooleans(chain, es)
  {
    if es.Cons? {
      StripKeepsType(es.head, es'.head);
      UnchangedConjuncts(chain, es.tail, es'.tail);
    }
  }

  /**
    * Binding a bound tree again succeeds and changes no type, oid, depth or value exactly when its operands stay.
    * Whatever the names, a tree that was bound twice has reached this state.
    */
  lemma RebindingExactly(env: Env, chain: ScopeChain, e: Expr)
    requires chain.Valid() && Simple(e) && BindExpr(env, chain, e).Ok?
    ensures var e1 := BindExpr(env, chain, e).value;
            var again := BindExpr(env, chain, e1);
            && (again.Ok? && Strip(again.value) == Strip(e1) <==> Stays(chain, e))
            && (again.Ok? ==> var third := BindExpr(env, chain, again.value);
                              third.Ok? && Strip(third.value) == Strip(again.value))
  {
    var e1 := BindExpr(env, chain, e).value;
    var again := BindExpr(env, chain, e1);
    SettledExactly(env, chain, e);
    if Stays(chain, e) {
      SettledRebinds(env, chain, e1);
    } else if again.Ok? && Strip(again.value) == Strip(e1) {
      UnchangedIsSettled(env, chain, e);
    }
    assert Note(e1, e1.desired) == e1;
    if again.Ok? {
      SettlesAtSecondVisit(env, chain, e, e1.desired);
      SettledRebinds(env, chain, again.value);
    }
  }

  // ---------------------------------------------------------------- aliases that are not reused

  /** Derived tables have lower-case aliases that no other table of the chain uses. */
  ghost predicate AliasesNotReused(chain: ScopeChain) {
    chain.Within? ==>
      && (forall a :: a in chain.here.nested ==>
                        Lower(a) == a && NearestRegular(chain.above, a).None? && NearestNested(chain.above, a).None?)
      && (forall a :: a in chain.here.regular ==> NearestNested(chain.above, a).None?)
      && AliasesNotReused(chain.above)
  }

  lemma {:induction false} OwnAliasFound(chain: ScopeChain, col: string)
    requires chain.Valid() && AliasesNotReused(chain) && UnqualifiedOwner(chain, col).Some?
    ensures var o := UnqualifiedOwner(chain, col).value;
            o.table in chain.At(o.depth).regular || NamesItself(chain, o)
  {
    if MatchCount(chain.here, col) == 0 { OwnAliasFound(chain.above, col); }
  }

  /** Then nothing is captured. */
  lemma NoReuseNoCapture(chain: ScopeChain, c: ColumnRef)
    requires chain.Valid() && AliasesNotReused(chain)
    ensures KeepsMeaning(chain, c)
  {
    if UnqualifiedOwner(chain, Lower(c.column)).Some? { OwnAliasFound(chain, Lower(c.column)); }
  }

  lemma {:induction false} NoReuseUncaptured(chain: ScopeChain, e: Expr)
    requires chain.Valid() && AliasesNotReused(chain)
    ensures KeepsType(chain, e) && Uncaptured(chain, e)
  {
    match e
    case Column(c, _) => NoReuseNoCapture(chain, c);
    case Comparison(l, r, _) => NoReuseUncaptured(chain, l); NoReuseUncaptured(chain, r);
    case Conjunction(es, _) => NoReuseAllKeep(chain, es);
    case _ =>
  }

  lemma {:induction false} NoReuseAllKeep(chain: ScopeChain, es: Exprs)
    requires chain.Valid() && AliasesNotReused(chain)
    ensures AllKeepType(chain, es)
  {
    if es.Cons? {
      NoReuseUncaptured(chain, es.head);
      NoReuseAllKeep(chain, es.tail);
    }
  }
}
