/**
  * Binding twice. Every comparison and conjunction visits its operands twice, so trees are bound again and
  * again; these laws say when that settles.
  */
module RebindLaws {
  import opened Options
  import opened SqlTypes
  import opened Promotion
  import opened Scopes
  import opened BindSpec
  import ScopeLaws

  // ---------------------------------------------------------------- columns

  /** A reference that another visit leaves alone. */
  ghost predicate Stable(chain: ScopeChain, c: ColumnRef) {
    Resolve(chain, c) == Ok(c)
  }

  lemma {:induction false} UnqualifiedShape(chain: ScopeChain, c: ColumnRef)
    requires chain.Valid() && ResolveUnqualified(chain, c).Ok?
    ensures var r := ResolveUnqualified(chain, c).value;
            && r.column == Lower(c.column)
            && (r.tableOid == 0 ==> r == c.(table := r.table, column := r.column, ty := r.ty, depth := r.depth))
  {
    if MatchCount(chain.here, Lower(c.column)) == 0 {
      UnqualifiedShape(chain.above, c);
    }
  }

  /** The unqualified search does not look at what an earlier search filled in. */
  lemma {:induction false} UnqualifiedAgain(chain: ScopeChain, c: ColumnRef, table: string, ty: TypeId, depth: int)
    ensures ResolveUnqualified(chain, c.(table := table, column := Lower(c.column), ty := ty, depth := depth))
         == ResolveUnqualified(chain, c)
  {
    LowerTwice(c.column);
    if chain.Within? { UnqualifiedAgain(chain.above, c, table, ty, depth); }
  }

  lemma QualifiedAgain(chain: ScopeChain, c: ColumnRef)
    requires chain.Valid() && c.tableOid == 0 && c.table != "" && Resolve(chain, c).Ok?
    ensures Stable(chain, Resolve(chain, c).value)
  {
    LowerTwice(c.table);
    LowerTwice(c.column);
    ScopeLaws.NearestAt(chain, Lower(c.table));
  }

  /** After two visits a reference is stable, whatever the aliases in scope. */
  lemma ResolveTwiceStable(chain: ScopeChain, c: ColumnRef)
    requires chain.Valid() && Resolve(chain, c).Ok?
    requires Resolve(chain, Resolve(chain, c).value).Ok?
    ensures Stable(chain, Resolve(chain, Resolve(chain, c).value).value)
  {
    var c1 := Resolve(chain, c).value;
    if c.tableOid == 0 && c1.tableOid == 0 {
      if c.table != "" {
        QualifiedAgain(chain, c);
      } else if c1.table != "" {
        QualifiedAgain(chain, c1);
      } else {
        UnqualifiedShape(chain, c);
        UnqualifiedAgain(chain, c, c1.table, c1.ty, c1.depth);
      }
    }
  }

  // ---------------------------------------------------------------- exactly when a reference is left alone

  /** Where an unqualified column name is found: the innermost context that offers it, and the table there. */
  ghost function UnqualifiedOwner(chain: ScopeChain, col: string): (r: Option<Owner<string>>)
    ensures r.Some? ==> r.value.depth < chain.Height()
  {
    match chain
    case NoScope => None
    case Within(s, above) =>
      if MatchCount(s, col) > 0 then Some(Owner(above.Height(), TheMatch(s, col))) else UnqualifiedOwner(above, col)
  }

  /** A derived table whose alias, looked up as a table name, leads back to it. */
  predicate NamesItself(chain: ScopeChain, o: Owner<string>) {
    && Lower(o.table) == o.table
    && NearestRegular(chain, o.table).None?
    && NearestNested(chain, o.table).Some? && NearestNested(chain, o.table).value.depth == o.depth
  }

  /**
    * A reference that was bound, was written with a table name, or belongs to a base table, a table without
    * an alias, or a derived table whose alias leads back to it. The binder writes the alias of the table into
    * the reference; any other derived table is then looked for under a name that means something else.
    */
  ghost predicate KeepsMeaning(chain: ScopeChain, c: ColumnRef) {
    || c.tableOid != 0
    || c.table != ""
    || match UnqualifiedOwner(chain, Lower(c.column))
       case None => true
       case Some(o) => o.table in chain.At(o.depth).regular || o.table == "" || NamesItself(chain, o)
  }

  lemma {:induction false} UnqualifiedBinds(chain: ScopeChain, c: ColumnRef)
    requires chain.Valid() && c.tableOid == 0 && ResolveUnqualified(chain, c).Ok?
    ensures var r, o := ResolveUnqualified(chain, c).value, UnqualifiedOwner(chain, Lower(c.column));
            && r.depth >= 0 && o == Some(Owner(r.depth, r.table))
            && (r.tableOid != 0 <==> r.table in chain.At(r.depth).regular)
            && (r.tableOid == 0 ==> r.table in chain.At(r.depth).nested && r.column in chain.At(r.depth).nested[r.table]
                                    && r.ty == chain.At(r.depth).nested[r.table][r.column])
  {
    if MatchCount(chain.here, Lower(c.column)) == 0 {
      UnqualifiedBinds(chain.above, c);
    }
  }

  /** A successful first visit leaves a reference that the next one leaves alone exactly when it keeps its meaning. */
  lemma StableExactly(chain: ScopeChain, c: ColumnRef)
    requires chain.Valid() && Resolve(chain, c).Ok?
    ensures Stable(chain, Resolve(chain, c).value) <==> KeepsMeaning(chain, c)
  {
    var c1 := Resolve(chain, c).value;
    if c.tableOid == 0 {
      if c.table != "" {
        if c1.tableOid == 0 { QualifiedAgain(chain, c); }
      } else {
        UnqualifiedBinds(chain, c);
        UnqualifiedShape(chain, c);
        if c1.tableOid == 0 { UnqualifiedStable(chain, c); }
      }
    }
  }

  lemma UnqualifiedStable(chain: ScopeChain, c: ColumnRef)
    requires chain.Valid() && c.tableOid == 0 && c.table == "" && Resolve(chain, c).Ok?
    requires Resolve(chain, c).value.tableOid == 0
    ensures var c1 := Resolve(chain, c).value;
            Stable(chain, c1) <==> c1.table == "" || (c1.depth >= 0 && NamesItself(chain, Owner(c1.depth, c1.table)))
  {
    var c1 := Resolve(chain, c).value;
    UnqualifiedBinds(chain, c);
    UnqualifiedShape(chain, c);
    UnqualifiedAgain(chain, c, c1.table, c1.ty, c1.depth);
    LowerTwice(c.column);
    if c1.table != "" {
      ScopeLaws.NearestAt(chain, Lower(c1.table));
    }
  }

  /** The types a reference gets at its first ... */
  ghost function FirstType(chain: ScopeChain, c: ColumnRef): TypeId {
    match Resolve(chain, c) case Ok(c1) => c1.ty case Err(_) => INVALID
  }

  /** The type of column col of the nearest table that the name a leads to. */
  function QualifiedType(chain: ScopeChain, a: string, col: string): TypeId {
    match NearestRegular(chain, Lower(a))
    case Some(o) => (match FindColumn(o.table.columns, col) case Some(sc) => sc.ty case None => INVALID)
    case None =>
      match NearestNested(chain, Lower(a))
      case Some(o) => if col in o.table then o.table[col] else INVALID
      case None => INVALID
  }

  /** ... and at its second visit: the same, unless the alias of its table leads elsewhere. */
  ghost function SecondType(chain: ScopeChain, c: ColumnRef): TypeId {
    if KeepsMeaning(chain, c) then FirstType(chain, c)
    else QualifiedType(chain, UnqualifiedOwner(chain, Lower(c.column)).value.table, Lower(c.column))
  }

  lemma SecondTypeExactly(chain: ScopeChain, c: ColumnRef)
    requires chain.Valid() && Resolve(chain, c).Ok?
    ensures SecondType(chain, c) == FirstType(chain, Resolve(chain, c).value)
  {
    var c1 := Resolve(chain, c).value;
    StableExactly(chain, c);
    if !KeepsMeaning(chain, c) {
      UnqualifiedBinds(chain, c);
      UnqualifiedShape(chain, c);
      LowerTwice(c.column);
    }
  }

  // ---------------------------------------------------------------- trees that another visit leaves alone

  /** No subqueries: trees of comparisons and conjunctions over columns and constants. */
  predicate Simple(e: Expr) {
    match e
    case Comparison(l, r, _) => Simple(l) && Simple(r)
    case Conjunction(es, _) => SimpleAll(es)
    case Subquery(_, _) => false
    case _ => true
  }

  predicate SimpleAll(es: Exprs) { es.Cons? ==> Simple(es.head) && SimpleAll(es.tail) }

  /** The tree without the sherpa's notes. */
  function Strip(e: Expr): Expr {
    match e
    case Column(c, _) => Column(c, None)
    case Const(k, _) => Const(k, None)
    case Comparison(l, r, _) => Comparison(Strip(l), Strip(r), None)
    case Conjunction(es, _) => Conjunction(StripAll(es), None)
    case Subquery(s, _) => Subquery(s, None)
  }

  function StripAll(es: Exprs): Exprs {
    match es case Nil => Nil case Cons(e, rest) => Cons(Strip(e), StripAll(rest))
  }

  predicate PairSettled(dl: Option<TypeId>, dr: Option<TypeId>, tl: TypeId, tr: TypeId) {
    var (dl', dr') := PairTypes(dl, dr, tl, tr);
    Satisfies(dl', tl) && Satisfies(dr', tr)
  }

  ghost predicate Settled(chain: ScopeChain, e: Expr) {
    match e
    case Column(c, d) => d == Some(c.ty) && Stable(chain, c)
    case Const(k, d) => Satisfies(d, k.ty)
    case Comparison(l, r, d) =>
      && Satisfies(d, BOOLEAN) && Settled(chain, l) && Settled(chain, r)
      && PairSettled(l.desired, r.desired, TypeOf(l), TypeOf(r))
    case Conjunction(es, d) => Satisfies(d, BOOLEAN) && SettledBooleans(chain, es)
    case Subquery(_, _) => false
  }

  ghost predicate SettledBooleans(chain: ScopeChain, es: Exprs) {
    es.Cons? ==> Settled(chain, es.head) && TypeOf(es.head) == BOOLEAN && SettledBooleans(chain, es.tail)
  }

  lemma StripKeepsType(e: Expr, f: Expr)
    requires Strip(e) == Strip(f)
    ensures TypeOf(e) == TypeOf(f)
  {
  }

  /** Once satisfied, the constraints of a pair stay satisfied. */
  lemma PairSettledAgain(dl: Option<TypeId>, dr: Option<TypeId>, tl: TypeId, tr: TypeId)
    requires Satisfies(dl, tl) && Satisfies(dr, tr) && PairSettled(dl, dr, tl, tr)
    ensures var (dl', dr') := PairTypes(dl, dr, tl, tr); PairSettled(dl', dr', tl, tr)
  {
  }

  lemma SettledSatisfied(chain: ScopeChain, e: Expr)
    requires Settled(chain, e)
    ensures Satisfies(e.desired, TypeOf(e))
  {
  }

  /** A settled node stays settled under any constraint that its type satisfies. */
  lemma SettledUnder(chain: ScopeChain, e: Expr, d: Option<TypeId>)
    requires Settled(chain, e) && Satisfies(d, TypeOf(e)) && (e.Column? ==> d.Some?)
    ensures Settled(chain, Note(e, d))
  {
  }

  lemma {:induction false} BooleansUnder(chain: ScopeChain, es: Exprs)
    requires SettledBooleans(chain, es)
    ensures SettledBooleans(chain, RequireBoolean(es)) && StripAll(RequireBoolean(es)) == StripAll(es)
  {
    if es.Cons? {
      SettledUnder(chain, es.head, Some(BOOLEAN));
      BooleansUnder(chain, es.tail);
    }
  }

  /**
    * e' is e again, still settled and with the same note. It is ensured as `== true`, which keeps the verifier
    * from unfolding it into one goal for each part.
    */
  ghost predicate SameSettled(chain: ScopeChain, e: Expr, e': Expr) {
    Strip(e') == Strip(e) && e'.desired == e.desired && Settled(chain, e')
  }

  /** Another visit of a settled tree succeeds and changes no type, oid, depth or value. */
  lemma {:induction false} SettledRebinds(env: Env, chain: ScopeChain, e: Expr)
    requires Settled(chain, e)
    ensures BindExpr(env, chain, e).Ok? && SameSettled(chain, e, BindExpr(env, chain, e).value) == true
    decreases Size(e), 1
  {
    match e
    case Column(_, _) =>
    case Const(_, _) =>
    case Comparison(_, _, _) => SettledComparisonRebinds(env, chain, e);
    case Conjunction(_, _) => SettledConjunctionRebinds(env, chain, e);
  }

  lemma {:induction false} SettledComparisonRebinds(env: Env, chain: ScopeChain, e: Expr)
    requires e.Comparison? && Settled(chain, e)
    ensures BindExpr(env, chain, e).Ok? && SameSettled(chain, e, BindExpr(env, chain, e).value) == true
    decreases Size(e), 0
  {
    SettledRebinds(env, chain, e.left);
    SettledRebinds(env, chain, e.right);
    var l1, r1 := BindExpr(env, chain, e.left).value, BindExpr(env, chain, e.right).value;
    StripKeepsType(e.left, l1);
    StripKeepsType(e.right, r1);
    SettledPairRebinds(env, chain, l1, r1);
  }

  lemma {:induction false} SettledConjunctionRebinds(env: Env, chain: ScopeChain, e: Expr)
    requires e.Conjunction? && Settled(chain, e)
    ensures BindExpr(env, chain, e).Ok? && SameSettled(chain, e, BindExpr(env, chain, e).value) == true
    decreases Size(e), 0
  {
    BooleansRebind(env, chain, e.children);
    var es1 := BindAll(env, chain, e.children).value;
    BooleansUnder(chain, es1);
    BooleansRebind(env, chain, RequireBoolean(es1));
  }

  lemma {:induction false} SettledPairRebinds(env: Env, chain: ScopeChain, l: Expr, r: Expr)
    requires Settled(chain, l) && Settled(chain, r) && PairSettled(l.desired, r.desired, TypeOf(l), TypeOf(r))
    ensures var (l2, r2) := ConstrainPair(l, r);
            var l3, r3 := BindExpr(env, chain, l2), BindExpr(env, chain, r2);
            && l3.Ok? && r3.Ok? && Strip(l3.value) == Strip(l) && Strip(r3.value) == Strip(r)
            && Settled(chain, l3.value) && Settled(chain, r3.value)
            && PairSettled(l3.value.desired, r3.value.desired, TypeOf(l3.value), TypeOf(r3.value))
    decreases Size(l) + Size(r), 2
  {
    var (l2, r2) := ConstrainPair(l, r);
    SettledSatisfied(chain, l);
    SettledSatisfied(chain, r);
    SettledUnder(chain, l, l2.desired);
    SettledUnder(chain, r, r2.desired);
    SettledRebinds(env, chain, l2);
    SettledRebinds(env, chain, r2);
    PairSettledAgain(l.desired, r.desired, TypeOf(l), TypeOf(r));
    StripKeepsType(l2, BindExpr(env, chain, l2).value);
    StripKeepsType(r2, BindExpr(env, chain, r2).value);
  }

  lemma {:induction false} BooleansRebind(env: Env, chain: ScopeChain, es: Exprs)
    requires SettledBooleans(chain, es)
    ensures var r := BindAll(env, chain, es);
            r.Ok? && StripAll(r.value) == StripAll(es) && SettledBooleans(chain, r.value)
    decreases SizeAll(es), 2
  {
    if es.Cons? {
      SettledRebinds(env, chain, es.head);
      StripKeepsType(es.head, BindExpr(env, chain, es.head).value);
      BooleansRebind(env, chain, es.tail);
    }
  }

  // ---------------------------------------------------------------- every tree settles at its second visit

  lemma PromoteReaches(lib: TextParsers, k: Constant, t: TypeId)
    requires Promote(lib, k, t).Ok?
    ensures Promote(lib, k, t).value.ty == t
    ensures !(k.ty.INTEGER? && t.VARCHAR?)
  {
  }

  /** A bound node satisfies its own constraint. */
  lemma BoundSatisfied(env: Env, chain: ScopeChain, e: Expr)
    requires Simple(e) && BindExpr(env, chain, e).Ok?
    ensures var e' := BindExpr(env, chain, e).value;
            && Satisfies(e'.desired, TypeOf(e')) && (e'.Column? ==> e'.desired.Some?)
            && (e.Column? <==> e'.Column?) && (e.Const? <==> e'.Const?) && !e'.Subquery?
            && (!e.Column? ==> e'.desired == e.desired)
  {
    if e.Const? { PromoteReaches(env.lib, e.k, if e.desired.Some? then e.desired.value else e.k.ty); }
  }

  /** What visiting a node of type t under constraint d may make of its type. */
  predicate TypeStep(isConst: bool, t: TypeId, d: Option<TypeId>, t': TypeId) {
    && Satisfies(d, t') && ((d.None? || !isConst) ==> t' == t)
    && !(t.INTEGER? && d == Some(VARCHAR))
  }

  /** The visit that follows SetDesiredTypePair leaves a pair whose constraints hold. */
  lemma PairSettles(cl: bool, cr: bool, dl: Option<TypeId>, dr: Option<TypeId>, tl: TypeId, tr: TypeId, tl': TypeId, tr': TypeId)
    requires Satisfies(dl, tl) && Satisfies(dr, tr)
    requires var (dl', dr') := PairTypes(dl, dr, tl, tr); TypeStep(cl, tl, dl', tl') && TypeStep(cr, tr, dr', tr')
    ensures var (dl', dr') := PairTypes(dl, dr, tl, tr); PairSettled(dl', dr', tl', tr')
  {
  }

  /** Another visit of a settled node under a new constraint: only a constant may change. */
  lemma SettledRevisited(env: Env, chain: ScopeChain, e: Expr, d: Option<TypeId>)
    requires Settled(chain, e) && (e.Column? ==> d.Some?)
    requires BindExpr(env, chain, Note(e, d)).Ok?
    ensures var e' := BindExpr(env, chain, Note(e, d)).value;
            && Settled(chain, e') && e'.desired == d && (e'.Const? <==> e.Const?)
            && (e.Const? || Strip(e') == Strip(e))
            && TypeStep(e.Const?, TypeOf(e), d, TypeOf(e'))
  {
    if e.Const? {
      PromoteReaches(env.lib, e.k, if d.Some? then d.value else e.k.ty);
    } else {
      assert Satisfies(d, TypeOf(e));
      SettledUnder(chain, e, d);
      SettledRebinds(env, chain, Note(e, d));
      StripKeepsType(Note(e, d), BindExpr(env, chain, Note(e, d)).value);
    }
  }

  lemma PairRevisited(env: Env, chain: ScopeChain, l: Expr, r: Expr)
    requires Settled(chain, l) && Settled(chain, r)
    requires var (l2, r2) := ConstrainPair(l, r); BindExpr(env, chain, l2).Ok? && BindExpr(env, chain, r2).Ok?
    ensures var (l2, r2) := ConstrainPair(l, r);
            var l3, r3 := BindExpr(env, chain, l2).value, BindExpr(env, chain, r2).value;
            && Settled(chain, l3) && Settled(chain, r3)
            && PairSettled(l3.desired, r3.desired, TypeOf(l3), TypeOf(r3))
            && (l.Const? || Strip(l3) == Strip(l)) && (r.Const? || Strip(r3) == Strip(r))
            && (l3.Const? <==> l.Const?) && (r3.Const? <==> r.Const?)
  {
    var (l2, r2) := ConstrainPair(l, r);
    SettledSatisfied(chain, l);
    SettledSatisfied(chain, r);
    SettledRevisited(env, chain, l, l2.desired);
    SettledRevisited(env, chain, r, r2.desired);
    var l3, r3 := BindExpr(env, chain, l2).value, BindExpr(env, chain, r2).value;
    PairSettles(l.Const?, r.Const?, l.desired, r.desired, TypeOf(l), TypeOf(r), TypeOf(l3), TypeOf(r3));
  }

  /** e' is e up to notes, or both are constants. */
  ghost predicate SameButConstants(e: Expr, e': Expr) {
    (e.Const? && e'.Const?) || Strip(e) == Strip(e')
  }

  /** A comparison of settled operands settles, whatever constraints they carry. */
  lemma ComparisonRevisited(env: Env, chain: ScopeChain, l: Expr, r: Expr, d: Option<TypeId>)
    requires Settled(chain, l) && Settled(chain, r) && BindExpr(env, chain, Comparison(l, r, d)).Ok?
    ensures var e := BindExpr(env, chain, Comparison(l, r, d)).value;
            e.Comparison? && Settled(chain, e) && SameButConstants(l, e.left) && SameButConstants(r, e.right)
  {
    SettledRebinds(env, chain, l);
    SettledRebinds(env, chain, r);
    PairRevisited(env, chain, BindExpr(env, chain, l).value, BindExpr(env, chain, r).value);
  }

  ghost predicate SettledAll(chain: ScopeChain, es: Exprs) {
    es.Cons? ==> Settled(chain, es.head) && SettledAll(chain, es.tail)
  }

  ghost predicate SameButConstantsAll(es: Exprs, es': Exprs) {
    if es.Nil? then es'.Nil?
    else es'.Cons? && SameButConstants(es.head, es'.head) && SameButConstantsAll(es.tail, es'.tail)
  }

  lemma {:induction false} ConjunctsRevisited(env: Env, chain: ScopeChain, es: Exprs)
    requires SettledAll(chain, es)
    ensures BindAll(env, chain, es).Ok?
    ensures var r := BindAll(env, chain, RequireBoolean(BindAll(env, chain, es).value));
            r.Ok? ==> SettledBooleans(chain, r.value) && SameButConstantsAll(es, r.value)
  {
    if es.Cons? {
      SettledRebinds(env, chain, es.head);
      ConjunctsRevisited(env, chain, es.tail);
      var e1 := BindExpr(env, chain, es.head).value;
      if BindExpr(env, chain, Note(e1, Some(BOOLEAN))).Ok? {
        SettledRevisited(env, chain, e1, Some(BOOLEAN));
      }
    }
  }

  /** A tree visited twice is settled, even if names were captured between the visits. */
  lemma {:induction false} SettlesAtSecondVisit(env: Env, chain: ScopeChain, e: Expr, d: Option<TypeId>)
    requires chain.Valid() && Simple(e) && BindExpr(env, chain, e).Ok?
    requires BindExpr(env, chain, Note(BindExpr(env, chain, e).value, d)).Ok?
    ensures Settled(chain, BindExpr(env, chain, Note(BindExpr(env, chain, e).value, d)).value)
    decreases Size(e)
  {
    var e1 := BindExpr(env, chain, e).value;
    match e
    case Column(c, _) =>
      ResolveTwiceStable(chain, c);
    case Const(k, _) =>
      PromoteReaches(env.lib, e1.k, if d.Some? then d.value else e1.k.ty);
    case Comparison(_, _, _) =>
      OperandsSettled(env, chain, e);
      ComparisonRevisited(env, chain, e1.left, e1.right, d);
    case Conjunction(_, _) =>
      OperandsSettled(env, chain, e);
      ConjunctsRevisited(env, chain, e1.children);
  }

  /** The operands of a comparison or conjunction are settled after its first visit. */
  lemma {:induction false} OperandsSettled(env: Env, chain: ScopeChain, e: Expr)
    requires chain.Valid() && Simple(e) && BindExpr(env, chain, e).Ok?
    ensures var e1 := BindExpr(env, chain, e).value;
            && (e.Comparison? ==> e1.Comparison? && Settled(chain, e1.left) && Settled(chain, e1.right))
            && (e.Conjunction? ==> e1.Conjunction? && SettledAll(chain, e1.children))
    decreases Size(e), 0
  {
    match e
    case Comparison(l, r, _) =>
      var l1, r1 := BindExpr(env, chain, l).value, BindExpr(env, chain, r).value;
      var (l2, r2) := ConstrainPair(l1, r1);
      SettlesAtSecondVisit(env, chain, l, l2.desired);
      SettlesAtSecondVisit(env, chain, r, r2.desired);
    case Conjunction(es, _) =>
      ConjunctsSettled(env, chain, es);
    case _ =>
  }

  lemma {:induction false} ConjunctsSettled(env: Env, chain: ScopeChain, es: Exprs)
    requires chain.Valid() && SimpleAll(es) && BindAll(env, chain, es).Ok?
    requires BindAll(env, chain, RequireBoolean(BindAll(env, chain, es).value)).Ok?
    ensures SettledAll(chain, BindAll(env, chain, RequireBoolean(BindAll(env, chain, es).value)).value)
    decreases SizeAll(es)
  {
    if es.Cons? {
      SettlesAtSecondVisit(env, chain, es.head, Some(BOOLEAN));
      ConjunctsSettled(env, chain, es.tail);
    }
  }
}
