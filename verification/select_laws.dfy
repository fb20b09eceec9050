/**
  * Scope discipline of nested SELECTs: every column reference gets the depth of the context that owns its
  * table, and never one deeper than the SELECT it occurs in.
  */
module SelectLaws {
  import opened Scopes
  import opened Context
  import opened BindSpec
  import ScopeLaws

  // ---------------------------------------------------------------- ownership

  /** Table a of context s owns the reference: it has the column, with the reference's oids and type. */
  ghost predicate OwnedAs(s: Scope, a: string, c: ColumnRef) {
    if c.tableOid == 0 then a in s.nested && c.column in s.nested[a] && c.ty == s.nested[a][c.column]
    else RegularlyOwned(s.regular, a, c)
  }

  ghost predicate RegularlyOwned(tables: map<string, Table>, a: string, c: ColumnRef) {
    a in tables && c.db == tables[a].db && c.tableOid == tables[a].oid &&
    match FindColumn(tables[a].columns, c.column)
    case Some(col) => c.columnOid == col.oid && c.ty == col.ty
    case None => false
  }

  /** The context at the reference's depth owns its table, under the name written or its lower-case form. */
  ghost predicate Owned(chain: ScopeChain, c: ColumnRef) {
    && 0 <= c.depth < chain.Height()
    && (OwnedAs(chain.At(c.depth), c.table, c) || OwnedAs(chain.At(c.depth), Lower(c.table), c))
  }

  /** The regular tables of a chain of contexts. */
  datatype TableChain = NoTables | Tables(here: map<string, Table>, above: TableChain)
  {
    function Height(): nat { if NoTables? then 0 else above.Height() + 1 }

    function At(d: nat): map<string, Table>
      requires d < Height()
    {
      if d == above.Height() then here else above.At(d)
    }
  }

  function RegularPart(chain: ScopeChain): (r: TableChain)
    ensures r.Height() == chain.Height()
  {
    match chain case NoScope => NoTables case Within(s, above) => Tables(s.regular, RegularPart(above))
  }

  /** A reference that is already bound to a regular table is owned by it. */
  ghost predicate Prior(tables: TableChain, c: ColumnRef) {
    c.tableOid != 0 ==>
      && 0 <= c.depth < tables.Height()
      && (RegularlyOwned(tables.At(c.depth), c.table, c) || RegularlyOwned(tables.At(c.depth), Lower(c.table), c))
  }

  lemma {:induction false} RegularPartAt(chain: ScopeChain, d: nat)
    requires d < chain.Height()
    ensures RegularPart(chain).At(d) == chain.At(d).regular
  {
    if d < chain.above.Height() { RegularPartAt(chain.above, d); }
  }

  lemma OwnedIsPrior(chain: ScopeChain, c: ColumnRef)
    requires Owned(chain, c)
    ensures Prior(RegularPart(chain), c)
  {
    RegularPartAt(chain, c.depth);
  }

  lemma PriorIsOwned(chain: ScopeChain, c: ColumnRef)
    requires c.tableOid != 0 && Prior(RegularPart(chain), c)
    ensures Owned(chain, c)
  {
    RegularPartAt(chain, c.depth);
  }

  // ---------------------------------------------------------------- contexts only grow

  ghost predicate Grows(s: Scope, t: Scope) {
    && (forall a :: a in s.regular ==> a in t.regular && t.regular[a] == s.regular[a])
    && (forall a :: a in s.nested ==> a in t.nested && t.nested[a] == s.nested[a])
  }

  ghost predicate Dominates(big: ScopeChain, chain: ScopeChain) {
    match chain
    case NoScope => big.NoScope?
    case Within(s, above) => big.Within? && Grows(s, big.here) && Dominates(big.above, above)
  }

  lemma {:induction false} DominatesSelf(chain: ScopeChain)
    ensures Dominates(chain, chain)
  {
    if chain.Within? { DominatesSelf(chain.above); }
  }

  lemma {:induction false} DominatesAt(big: ScopeChain, chain: ScopeChain, d: nat)
    requires Dominates(big, chain)
    ensures big.Height() == chain.Height()
    ensures d < chain.Height() ==> Grows(chain.At(d), big.At(d))
  {
    if chain.Within? {
      DominatesAt(big.above, chain.above, if d < chain.above.Height() then d else 0);
    }
  }

  lemma OwnedInBigger(big: ScopeChain, chain: ScopeChain, c: ColumnRef)
    requires Dominates(big, chain) && Owned(chain, c)
    ensures Owned(big, c)
  {
    DominatesAt(big, chain, c.depth);
  }

  // ---------------------------------------------------------------- a resolved reference is owned

  lemma {:induction false} OwnedAbove(chain: ScopeChain, c: ColumnRef)
    requires chain.Within? && Owned(chain.above, c)
    ensures Owned(chain, c)
  {
  }

  lemma BoundIsOwned(s: Scope, d: nat, a: string, c: ColumnRef)
    requires ValidScope(s) && c.tableOid == 0 && Offers(s, a, Lower(c.column))
    ensures OwnedAs(s, a, BindTo(s, d, a, c)) && BindTo(s, d, a, c).table == a && BindTo(s, d, a, c).depth == d
  {
  }

  lemma {:induction false} UnqualifiedOwned(chain: ScopeChain, c: ColumnRef)
    requires chain.Valid() && c.tableOid == 0 && ResolveUnqualified(chain, c).Ok?
    ensures Owned(chain, ResolveUnqualified(chain, c).value)
  {
    var col := Lower(c.column);
    if MatchCount(chain.here, col) == 0 {
      UnqualifiedOwned(chain.above, c);
      OwnedAbove(chain, ResolveUnqualified(chain, c).value);
    } else {
      BoundIsOwned(chain.here, chain.above.Height(), TheMatch(chain.here, col), c);
    }
  }

  /** Every visited reference is owned by the context of its depth. */
  lemma ResolvedIsOwned(big: ScopeChain, chain: ScopeChain, c: ColumnRef)
    requires chain.Valid() && Dominates(big, chain) && Prior(RegularPart(big), c) && Resolve(chain, c).Ok?
    ensures Owned(big, Resolve(chain, c).value)
  {
    if c.tableOid != 0 {
      PriorIsOwned(big, c);
    } else {
      if c.table == "" {
        UnqualifiedOwned(chain, c);
      } else {
        LowerTwice(c.table);
        ScopeLaws.NearestAt(chain, Lower(c.table));
      }
      OwnedInBigger(big, chain, Resolve(chain, c).value);
    }
  }

  // ---------------------------------------------------------------- statements

  /** The regular tables that a FROM clause adds to m. */
  function Bases(env: Env, m: map<string, Table>, f: From): map<string, Table>
    decreases f
  {
    match f
    case Base(_, ns, name, alias) =>
      (match FindTable(env.cat, ns, name)
       case Ok(t) => m[(if alias == "" then name else alias) := t.(db := env.db)]
       case Err(_) => m)
    case Both(l, r) => Bases(env, Bases(env, m, l), r)
    case On(g, _) => Bases(env, m, g)
    case _ => m
  }

  /** References left bound by an earlier visit are owned; fresh ones are not restricted. */
  ghost predicate PriorExpr(env: Env, t: TableChain, e: Expr)
    decreases e
  {
    match e
    case Column(c, _) => Prior(t, c)
    case Const(_, _) => true
    case Comparison(l, r, _) => PriorExpr(env, t, l) && PriorExpr(env, t, r)
    case Conjunction(es, _) => PriorAll(env, t, es)
    case Subquery(s, _) => PriorSelect(env, t, s)
  }

  ghost predicate PriorAll(env: Env, t: TableChain, es: Exprs)
    decreases es
  {
    es.Cons? ==> PriorExpr(env, t, es.head) && PriorAll(env, t, es.tail)
  }

  ghost predicate PriorSelect(env: Env, t: TableChain, s: Select)
    decreases s
  {
    var inner := Tables(Bases(env, map[], s.from), t);
    PriorFrom(env, inner, s.from) && PriorAll(env, inner, s.clauses) && PriorItems(env, inner, s.items)
  }

  ghost predicate PriorItems(env: Env, t: TableChain, items: Items)
    decreases items
  {
    match items
    case NoItems => true
    case Item(_, e, rest) => PriorExpr(env, t, e) && PriorItems(env, t, rest)
    case Star(None, rest) => PriorItems(env, t, rest)
    case Star(Some(cs), rest) => (forall c :: c in cs ==> Prior(t, c)) && PriorItems(env, t, rest)
  }

  ghost predicate PriorFrom(env: Env, t: TableChain, f: From)
    decreases f
  {
    match f
    case Derived(s, _) => PriorSelect(env, t, s)
    case Both(l, r) => PriorFrom(env, t, l) && PriorFrom(env, t, r)
    case On(g, e) => PriorFrom(env, t, g) && PriorExpr(env, t, e)
    case _ => true
  }

  /** Every reference in the tree is owned by the context of its depth. */
  ghost predicate ScopedExpr(chain: ScopeChain, e: Expr)
    decreases e
  {
    match e
    case Column(c, _) => Owned(chain, c)
    case Const(_, _) => true
    case Comparison(l, r, _) => ScopedExpr(chain, l) && ScopedExpr(chain, r)
    case Conjunction(es, _) => ScopedAll(chain, es)
    case Subquery(s, _) => ScopedSelect(chain, s)
  }

  ghost predicate ScopedAll(chain: ScopeChain, es: Exprs)
    decreases es
  {
    es.Cons? ==> ScopedExpr(chain, es.head) && ScopedAll(chain, es.tail)
  }

  /** A SELECT inside chain has the next depth, and its parts live in its own context and those of chain. */
  ghost predicate ScopedSelect(chain: ScopeChain, s: Select)
    decreases s
  {
    var inner := Within(s.scope, chain);
    && s.depth == chain.Height()
    && ScopedFrom(inner, s.from) && ScopedAll(inner, s.clauses) && ScopedItems(inner, s.items)
  }

  ghost predicate ScopedItems(chain: ScopeChain, items: Items)
    decreases items
  {
    match items
    case NoItems => true
    case Item(_, e, rest) => ScopedExpr(chain, e) && ScopedItems(chain, rest)
    case Star(None, rest) => ScopedItems(chain, rest)
    case Star(Some(cs), rest) => (forall c :: c in cs ==> Owned(chain, c)) && ScopedItems(chain, rest)
  }

  ghost predicate ScopedFrom(chain: ScopeChain, f: From)
    decreases f
  {
    match f
    case Derived(s, _) => ScopedSelect(chain, s)
    case Both(l, r) => ScopedFrom(chain, l) && ScopedFrom(chain, r)
    case On(g, e) => ScopedFrom(chain, g) && ScopedExpr(chain, e)
    case _ => true
  }

  // ---------------------------------------------------------------- FROM fills the context

  ghost predicate ValidEnv(env: Env) {
    env.cat.Valid() && ValidOrder(env.order)
  }

  /**
    * Context s grew to s', whose regular tables are m. Like GoodExpr below it is ensured as `== true`, which keeps
    * the verifier from unfolding it into one goal for each part.
    */
  ghost predicate Filled(s: Scope, s': Scope, m: map<string, Table>) {
    ValidScope(s') && Grows(s, s') && s'.regular == m
  }

  lemma BaseFills(env: Env, ns: string, name: string, alias: string, s: Scope)
    requires env.cat.Valid() && ValidScope(s) && WithRegular(env.cat, env.db, ns, name, alias, s).Ok?
    ensures Filled(s, WithRegular(env.cat, env.db, ns, name, alias, s).value,
                   s.regular[alias := FindTable(env.cat, ns, name).value.(db := env.db)])
  {
    ScopeLaws.ApplyKeepsValid(env.cat, env.db, s, ScopeLaws.AddRegular(ns, name, alias));
  }

  lemma DerivedFills(alias: string, t: NestedTable, s: Scope)
    requires ValidScope(s) && WithNested(alias, t, s).Ok?
    ensures Filled(s, WithNested(alias, t, s).value, s.regular)
  {
  }

  lemma FillsTransitive(s: Scope, t: Scope, u: Scope)
    requires Filled(s, t, t.regular) && Filled(t, u, u.regular)
    ensures Filled(s, u, u.regular)
  {
  }

  /** A FROM clause only adds to the context, and its base tables decide the regular part. */
  lemma {:induction false} FromFills(env: Env, chain: ScopeChain, s: Scope, f: From)
    requires env.cat.Valid() && ValidScope(s) && BindFrom(env, chain, s, f).Ok?
    ensures Filled(s, BindFrom(env, chain, s, f).value.1, Bases(env, s.regular, f)) == true
    decreases f
  {
    match f
    case NoFrom =>
    case Base(_, ns, name, alias) =>
      BaseFills(env, ns, name, if alias == "" then name else alias, s);
    case Derived(select, alias) =>
      var select' := BindSelect(env, Within(s, chain), select).value;
      DerivedFills(alias, NestedColumns(Selections(select'.items)), s);
    case Both(l, r) =>
      var s1 := BindFrom(env, chain, s, l).value.1;
      FromFills(env, chain, s, l);
      FromFills(env, chain, s1, r);
      FillsTransitive(s, s1, BindFrom(env, chain, s1, r).value.1);
    case On(g, _) =>
      FromFills(env, chain, s, g);
  }

  /** Visiting a FROM clause again adds the same base tables. */
  lemma {:induction false} BasesKept(env: Env, chain: ScopeChain, s: Scope, f: From, m: map<string, Table>)
    requires BindFrom(env, chain, s, f).Ok?
    ensures Bases(env, m, BindFrom(env, chain, s, f).value.0) == Bases(env, m, f)
    decreases f
  {
    match f
    case Both(l, r) =>
      BasesKept(env, chain, s, l, m);
      BasesKept(env, chain, BindFrom(env, chain, s, l).value.1, r, Bases(env, m, l));
    case On(g, _) =>
      BasesKept(env, chain, s, g, m);
    case _ =>
  }

  // ---------------------------------------------------------------- every visit keeps the discipline

  ghost predicate GoodExpr(env: Env, big: ScopeChain, e: Expr) {
    ScopedExpr(big, e) && PriorExpr(env, RegularPart(big), e)
  }

  lemma {:induction false} VisitScopesExpr(env: Env, big: ScopeChain, chain: ScopeChain, e: Expr)
    requires ValidEnv(env) && chain.Valid() && Dominates(big, chain)
    requires PriorExpr(env, RegularPart(big), e) && BindExpr(env, chain, e).Ok?
    ensures GoodExpr(env, big, BindExpr(env, chain, e).value) == true
    decreases Size(e), 0
  {
    match e
    case Column(c, _) =>
      ResolvedIsOwned(big, chain, c);
      OwnedIsPrior(big, Resolve(chain, c).value);
    case Const(_, _) =>
    case Comparison(l, r, _) =>
      VisitScopesComparison(env, big, chain, e);
    case Conjunction(es, _) =>
      VisitScopesAll(env, big, chain, es);
      var es1 := BindAll(env, chain, es).value;
      NotesKeepPrior(env, RegularPart(big), es1);
      VisitScopesAll(env, big, chain, RequireBoolean(es1));
    case Subquery(s, _) =>
      VisitScopesSelect(env, big, chain, s);
  }

  lemma {:induction false} VisitScopesComparison(env: Env, big: ScopeChain, chain: ScopeChain, e: Expr)
    requires e.Comparison? && ValidEnv(env) && chain.Valid() && Dominates(big, chain)
    requires PriorExpr(env, RegularPart(big), e) && BindExpr(env, chain, e).Ok?
    ensures GoodExpr(env, big, BindExpr(env, chain, e).value) == true
    decreases Size(e.left) + Size(e.right), 2
  {
    VisitScopesPair(env, big, chain, e.left, e.right);
    var (l2, r2) := ConstrainPair(BindExpr(env, chain, e.left).value, BindExpr(env, chain, e.right).value);
    VisitScopesPair(env, big, chain, l2, r2);
  }

  lemma {:induction false} VisitScopesPair(env: Env, big: ScopeChain, chain: ScopeChain, l: Expr, r: Expr)
    requires ValidEnv(env) && chain.Valid() && Dominates(big, chain)
    requires PriorExpr(env, RegularPart(big), l) && PriorExpr(env, RegularPart(big), r)
    requires BindExpr(env, chain, l).Ok? && BindExpr(env, chain, r).Ok?
    ensures GoodExpr(env, big, BindExpr(env, chain, l).value) == true
    ensures GoodExpr(env, big, BindExpr(env, chain, r).value) == true
    decreases Size(l) + Size(r), 1
  {
    VisitScopesExpr(env, big, chain, l);
    VisitScopesExpr(env, big, chain, r);
  }

  lemma {:induction false} NotesKeepPrior(env: Env, t: TableChain, es: Exprs)
    requires PriorAll(env, t, es)
    ensures PriorAll(env, t, RequireBoolean(es))
  {
    if es.Cons? { NotesKeepPrior(env, t, es.tail); }
  }

  lemma {:induction false} VisitScopesAll(env: Env, big: ScopeChain, chain: ScopeChain, es: Exprs)
    requires ValidEnv(env) && chain.Valid() && Dominates(big, chain)
    requires PriorAll(env, RegularPart(big), es) && BindAll(env, chain, es).Ok?
    ensures var es' := BindAll(env, chain, es).value;
            ScopedAll(big, es') && PriorAll(env, RegularPart(big), es')
    decreases SizeAll(es), 0
  {
    if es.Cons? {
      VisitScopesExpr(env, big, chain, es.head);
      VisitScopesAll(env, big, chain, es.tail);
    }
  }

  lemma {:induction false} VisitScopesSelect(env: Env, big: ScopeChain, chain: ScopeChain, s: Select)
    requires ValidEnv(env) && chain.Valid() && Dominates(big, chain)
    requires PriorSelect(env, RegularPart(big), s) && BindSelect(env, chain, s).Ok?
    ensures var s' := BindSelect(env, chain, s).value;
            ScopedSelect(big, s') && PriorSelect(env, RegularPart(big), s')
    decreases SizeSelect(s), 0
  {
    var (from, scope) := BindFrom(env, chain, EMPTY_SCOPE, s.from).value;
    FromFills(env, chain, EMPTY_SCOPE, s.from);
    BasesKept(env, chain, EMPTY_SCOPE, s.from, map[]);
    DominatesAt(big, chain, 0);
    var inner, bigInner := Within(scope, chain), Within(scope, big);
    assert RegularPart(bigInner) == Tables(Bases(env, map[], s.from), RegularPart(big));
    VisitScopesFrom(env, bigInner, chain, EMPTY_SCOPE, s.from);
    VisitScopesAll(env, bigInner, inner, s.clauses);
    VisitScopesItems(env, bigInner, inner, s.items);
  }

  lemma {:induction false} VisitScopesFrom(env: Env, big: ScopeChain, chain: ScopeChain, s: Scope, f: From)
    requires ValidEnv(env) && chain.Valid() && ValidScope(s) && BindFrom(env, chain, s, f).Ok?
    requires Dominates(big, Within(BindFrom(env, chain, s, f).value.1, chain))
    requires PriorFrom(env, RegularPart(big), f)
    ensures var f' := BindFrom(env, chain, s, f).value.0;
            ScopedFrom(big, f') && PriorFrom(env, RegularPart(big), f')
    decreases SizeFrom(f), 0
  {
    FromFills(env, chain, s, f);
    match f
    case Derived(select, _) =>
      VisitScopesSelect(env, big, Within(s, chain), select);
    case Both(l, r) =>
      var (_, s1) := BindFrom(env, chain, s, l).value;
      FromFills(env, chain, s, l);
      FromFills(env, chain, s1, r);
      VisitScopesFrom(env, big, chain, s, l);
      VisitScopesFrom(env, big, chain, s1, r);
    case On(g, e) =>
      VisitScopesFrom(env, big, chain, s, g);
      VisitScopesExpr(env, big, Within(BindFrom(env, chain, s, g).value.1, chain), e);
    case _ =>
  }

  lemma {:induction false} VisitScopesItems(env: Env, big: ScopeChain, chain: ScopeChain, items: Items)
    requires ValidEnv(env) && chain.Within? && chain.Valid() && Dominates(big, chain)
    requires PriorItems(env, RegularPart(big), items) && BindItems(env, chain, items).Ok?
    ensures var items' := BindItems(env, chain, items).value;
            ScopedItems(big, items') && PriorItems(env, RegularPart(big), items')
    decreases SizeItems(items), 0
  {
    match items
    case NoItems =>
    case Item(_, e, rest) =>
      VisitScopesExpr(env, big, chain, e);
      VisitScopesItems(env, big, chain, rest);
    case Star(None, rest) =>
      VisitScopesItems(env, big, chain, rest);
      var star := StarOf(env.order, chain.here, chain.above.Height());
      ScopeLaws.StarListsEachOnce(env.order, chain.here, chain.above.Height());
      forall c | c in star ensures Owned(big, c) && Prior(RegularPart(big), c) {
        StarIsOwned(chain, star, c);
        OwnedInBigger(big, chain, c);
        OwnedIsPrior(big, c);
      }
    case Star(Some(cs), rest) =>
      VisitScopesItems(env, big, chain, rest);
      ResolvedAllOwned(big, chain, cs);
  }

  lemma StarIsOwned(chain: ScopeChain, refs: seq<ColumnRef>, c: ColumnRef)
    requires chain.Within? && chain.Valid() && IsStar(chain.here, chain.above.Height(), refs) && c in refs
    ensures Owned(chain, c)
  {
    var s, d := chain.here, chain.above.Height();
    var front := RegularStar(s.regular, s.order, |s.order|, d);
    assert refs == front + refs[|front|..];
    if c in front {
      ScopeLaws.RegularStarMembers(s.regular, s.order, |s.order|, d, c);
      var cols := s.regular[c.table].columns;
      var i :| 0 <= i < |cols| && c == RegularRef(c.table, s.regular[c.table], cols[i], d);
      FindColumnUnique(cols, i);
    }
  }

  lemma {:induction false} ResolvedAllOwned(big: ScopeChain, chain: ScopeChain, cs: seq<ColumnRef>)
    requires chain.Valid() && Dominates(big, chain) && ResolveAll(chain, cs).Ok?
    requires forall c :: c in cs ==> Prior(RegularPart(big), c)
    ensures forall c :: c in ResolveAll(chain, cs).value ==> Owned(big, c) && Prior(RegularPart(big), c)
  {
    if cs != [] {
      ResolvedIsOwned(big, chain, cs[0]);
      OwnedIsPrior(big, Resolve(chain, cs[0]).value);
      ResolvedAllOwned(big, chain, cs[1..]);
    }
  }

  /**
    * For arbitrarily nested SELECTs, derived tables, joins and subqueries: after a successful visit every
    * column reference has the depth of a context that owns its table, at most the depth of its SELECT.
    */
  lemma ScopeDiscipline(env: Env, chain: ScopeChain, s: Select)
    requires ValidEnv(env) && chain.Valid()
    requires PriorSelect(env, RegularPart(chain), s) && BindSelect(env, chain, s).Ok?
    ensures ScopedSelect(chain, BindSelect(env, chain, s).value)
  {
    DominatesSelf(chain);
    VisitScopesSelect(env, chain, chain, s);
  }
}
