/**
  * Exactly when the types of a bound tree fit together, and what becomes of integer constants.
  */
module SoundLaws {
  import opened Options
  import opened SqlTypes
  import opened Promotion
  import opened Scopes
  import opened BindSpec
  import opened RebindLaws
  import opened BindLaws

  // ---------------------------------------------------------------- soundness

  /** Operands of a conjunction are BOOLEAN; a column of a valid type meets a constant of that type. */
  predicate SoundHere(e: Expr) {
    match e
    case Comparison(Column(c, _), Const(k, _), _) => c.ty != INVALID ==> c.ty == k.ty
    case Comparison(Const(k, _), Column(c, _), _) => c.ty != INVALID ==> c.ty == k.ty
    case Conjunction(es, _) => AllBoolean(es)
    case _ => true
  }

  predicate Sound(e: Expr) {
    SoundHere(e) &&
    match e
    case Comparison(l, r, _) => Sound(l) && Sound(r)
    case Conjunction(es, _) => SoundAll(es)
    case _ => true
  }

  predicate SoundAll(es: Exprs) { es.Cons? ==> Sound(es.head) && SoundAll(es.tail) }

  lemma {:induction false} SoundStripped(e: Expr)
    ensures Sound(e) <==> Sound(Strip(e))
  {
    match e
    case Comparison(l, r, _) => SoundStripped(l); SoundStripped(r);
    case Conjunction(es, _) => SoundStrippedAll(es);
    case _ =>
  }

  lemma {:induction false} SoundStrippedAll(es: Exprs)
    ensures (SoundAll(es) <==> SoundAll(StripAll(es))) && (AllBoolean(es) <==> AllBoolean(StripAll(es)))
  {
    if es.Cons? { SoundStripped(es.head); SoundStrippedAll(es.tail); }
  }

  lemma SoundSame(e: Expr, e': Expr)
    requires SameButConstants(e, e')
    ensures Sound(e) <==> Sound(e')
  {
    SoundStripped(e);
    SoundStripped(e');
  }

  lemma {:induction false} SoundSameAll(es: Exprs, es': Exprs)
    requires SameButConstantsAll(es, es')
    ensures SoundAll(es) <==> SoundAll(es')
  {
    if es.Cons? { SoundSame(es.head, es'.head); SoundSameAll(es.tail, es'.tail); }
  }

  // ---------------------------------------------------------------- the condition on the tree before binding

  /** Nothing has been noted for the tree: the sherpa starts empty. */
  predicate Fresh(e: Expr) {
    e.desired.None? &&
    match e
    case Comparison(l, r, _) => Fresh(l) && Fresh(r)
    case Conjunction(es, _) => FreshAll(es)
    case _ => true
  }

  predicate FreshAll(es: Exprs) { es.Cons? ==> Fresh(es.head) && FreshAll(es.tail) }

  /**
    * A comparison of a column with a constant of type k. A nested comparison is visited again, and the
    * constant follows the column's second type if its first one converts.
    */
  ghost predicate PairPosed(chain: ScopeChain, c: ColumnRef, k: TypeId, nested: bool) {
    var t1, t2 := FirstType(chain, c), SecondType(chain, c);
    || t2 == INVALID
    || (if t1 != INVALID then t1 == t2 else !nested && t2 == k)
    || (nested && Convertible(t1))
  }

  /** No operand is captured by a table of another type between the visits that matter. */
  ghost predicate Posed(chain: ScopeChain, e: Expr, nested: bool) {
    match e
    case Comparison(l, r, _) =>
      && Posed(chain, l, true) && Posed(chain, r, true)
      && (l.Column? && r.Const? ==> PairPosed(chain, l.c, r.k.ty, nested))
      && (l.Const? && r.Column? ==> PairPosed(chain, r.c, l.k.ty, nested))
    case Conjunction(es, _) => PosedAll(chain, es) && (nested || AllKeepType(chain, es))
    case _ => true
  }

  ghost predicate PosedAll(chain: ScopeChain, es: Exprs) {
    es.Cons? ==> Posed(chain, es.head, true) && PosedAll(chain, es.tail)
  }

  // ---------------------------------------------------------------- a column against a constant

  function Compare(flip: bool, c: Expr, k: Expr, d: Option<TypeId>): Expr {
    if flip then Comparison(k, c, d) else Comparison(c, k, d)
  }

  /** The operands of a comparison, the column first. */
  function Sides(flip: bool, e: Expr): (Expr, Expr)
    requires e.Comparison?
  {
    if flip then (e.right, e.left) else (e.left, e.right)
  }

  /** c' is a column of type t2 and k' a constant that took type t1, or kept k if t1 is unknown. */
  predicate Met(c': Expr, k': Expr, t1: TypeId, t2: TypeId, k: TypeId) {
    && c'.Column? && c'.c.ty == t2 && c'.desired == Some(t2)
    && k'.Const? && k'.k.ty == (if t1 == INVALID then k else t1)
    && k'.desired == (if t1 == INVALID then None else Some(t1))
  }

  /** The first visit: the constant takes the column's first type, then the column its second. */
  lemma FirstVisit(env: Env, chain: ScopeChain, flip: bool, c: ColumnRef, k: Constant, d: Option<TypeId>)
    requires chain.Valid() && BindExpr(env, chain, Compare(flip, Column(c, None), Const(k, None), d)).Ok?
    ensures var e := BindExpr(env, chain, Compare(flip, Column(c, None), Const(k, None), d)).value;
            && e.Comparison?
            && var (c', k') := Sides(flip, e);
            Met(c', k', FirstType(chain, c), SecondType(chain, c), k.ty)
  {
    var c1 := Resolve(chain, c).value;
    SecondTypeExactly(chain, c);
    if c1.ty != INVALID { PromoteReaches(env.lib, k, c1.ty); }
  }

  /** A later visit: the constant follows the column if it converts; a column that does not match fails. */
  lemma LaterVisit(env: Env, chain: ScopeChain, flip: bool, c: Expr, k: Expr, t1: TypeId, t2: TypeId, kt: TypeId, d: Option<TypeId>)
    requires Met(c, k, t1, t2, kt) && Stable(chain, c.c)
    requires BindExpr(env, chain, Compare(flip, c, k, d)).Ok?
    ensures SoundHere(BindExpr(env, chain, Compare(flip, c, k, d)).value)
       <==> t2 == INVALID || t1 == t2 || Convertible(t1)
  {
    var e := BindExpr(env, chain, Compare(flip, c, k, d)).value;
    var (dc, dk) := PairTypes(c.desired, k.desired, t2, k.k.ty);
    PromoteReaches(env.lib, k.k, if dk.Some? then dk.value else k.k.ty);
  }

  // ---------------------------------------------------------------- whole trees

  /** Sound below the root, for the operands of a tree bound once: they were visited twice. */
  lemma {:induction false} OperandsSound(env: Env, chain: ScopeChain, e: Expr)
    requires chain.Valid() && Simple(e) && Fresh(e) && BindExpr(env, chain, e).Ok?
    ensures var e1 := BindExpr(env, chain, e).value;
            && (e.Comparison? ==> e1.Comparison? && (Sound(e1.left) <==> Posed(chain, e.left, true))
                                  && (Sound(e1.right) <==> Posed(chain, e.right, true)))
            && (e.Conjunction? ==> e1.Conjunction? && (SoundAll(e1.children) <==> PosedAll(chain, e.children)))
    decreases Size(e), 0
  {
    match e
    case Comparison(l, r, _) =>
      var l1, r1 := BindExpr(env, chain, l).value, BindExpr(env, chain, r).value;
      var (l2, r2) := ConstrainPair(l1, r1);
      SoundAtSecondVisit(env, chain, l, l2.desired);
      SoundAtSecondVisit(env, chain, r, r2.desired);
    case Conjunction(es, _) =>
      ConjunctsSound(env, chain, es);
    case _ =>
  }

  lemma {:induction false} ConjunctsSound(env: Env, chain: ScopeChain, es: Exprs)
    requires chain.Valid() && SimpleAll(es) && FreshAll(es) && BindAll(env, chain, es).Ok?
    requires BindAll(env, chain, RequireBoolean(BindAll(env, chain, es).value)).Ok?
    ensures SoundAll(BindAll(env, chain, RequireBoolean(BindAll(env, chain, es).value)).value) <==> PosedAll(chain, es)
    decreases SizeAll(es)
  {
    if es.Cons? {
      SoundAtSecondVisit(env, chain, es.head, Some(BOOLEAN));
      ConjunctsSound(env, chain, es.tail);
    }
  }

  /** The kind of an operand does not change. */
  lemma OperandKinds(env: Env, chain: ScopeChain, l: Expr, r: Expr, d: Option<TypeId>)
    requires Simple(l) && Simple(r) && BindExpr(env, chain, Comparison(l, r, d)).Ok?
    ensures var e := BindExpr(env, chain, Comparison(l, r, d)).value;
            && e.Comparison? && (e.left.Column? <==> l.Column?) && (e.right.Column? <==> r.Column?)
            && (e.left.Const? <==> l.Const?) && (e.right.Const? <==> r.Const?)
  {
    BoundSatisfied(env, chain, l);
    BoundSatisfied(env, chain, r);
  }

  /** A comparison that is visited twice. */
  lemma ComparisonTwice(env: Env, chain: ScopeChain, e: Expr, d: Option<TypeId>)
    requires chain.Valid() && e.Comparison? && Simple(e) && Fresh(e) && BindExpr(env, chain, e).Ok?
    requires BindExpr(env, chain, Note(BindExpr(env, chain, e).value, d)).Ok?
    ensures SoundHere(BindExpr(env, chain, Note(BindExpr(env, chain, e).value, d)).value)
       <==> && (e.left.Column? && e.right.Const? ==> PairPosed(chain, e.left.c, e.right.k.ty, true))
            && (e.left.Const? && e.right.Column? ==> PairPosed(chain, e.right.c, e.left.k.ty, true))
  {
    var e1 := BindExpr(env, chain, e).value;
    OperandsSettled(env, chain, e);
    OperandKinds(env, chain, e.left, e.right, e.desired);
    ComparisonRevisited(env, chain, e1.left, e1.right, d);
    if e.left.Column? && e.right.Const? {
      FirstVisit(env, chain, false, e.left.c, e.right.k, e.desired);
      LaterVisit(env, chain, false, e1.left, e1.right,
                 FirstType(chain, e.left.c), SecondType(chain, e.left.c), e.right.k.ty, d);
    } else if e.left.Const? && e.right.Column? {
      FirstVisit(env, chain, true, e.right.c, e.left.k, e.desired);
      LaterVisit(env, chain, true, e1.right, e1.left,
                 FirstType(chain, e.right.c), SecondType(chain, e.right.c), e.left.k.ty, d);
    }
  }

  lemma {:induction false} BooleansAreBoolean(chain: ScopeChain, es: Exprs)
    requires SettledBooleans(chain, es)
    ensures AllBoolean(es)
  {
    if es.Cons? { BooleansAreBoolean(chain, es.tail); }
  }

  lemma {:induction false} SoundAtSecondVisit(env: Env, chain: ScopeChain, e: Expr, d: Option<TypeId>)
    requires chain.Valid() && Simple(e) && Fresh(e) && BindExpr(env, chain, e).Ok?
    requires BindExpr(env, chain, Note(BindExpr(env, chain, e).value, d)).Ok?
    ensures Sound(BindExpr(env, chain, Note(BindExpr(env, chain, e).value, d)).value) <==> Posed(chain, e, true)
    decreases Size(e)
  {
    var e1 := BindExpr(env, chain, e).value;
    var e2 := BindExpr(env, chain, Note(e1, d)).value;
    match e
    case Comparison(l, r, _) =>
      OperandsSound(env, chain, e);
      OperandsSettled(env, chain, e);
      ComparisonRevisited(env, chain, e1.left, e1.right, d);
      SoundSame(e1.left, e2.left);
      SoundSame(e1.right, e2.right);
      ComparisonTwice(env, chain, e, d);
    case Conjunction(es, _) =>
      OperandsSound(env, chain, e);
      OperandsSettled(env, chain, e);
      ConjunctsRevisited(env, chain, e1.children);
      SoundSameAll(e1.children, e2.children);
      BooleansAreBoolean(chain, e2.children);
    case _ =>
  }

  /**
    * A successfully bound tree is sound (every operand of a conjunction BOOLEAN, every column of a valid type
    * compared with a constant of that very type) exactly when no operand is captured by a table of another
    * type between its visits, a condition on the tree and the contexts before binding.
    */
  lemma SoundExactly(env: Env, chain: ScopeChain, e: Expr)
    requires chain.Valid() && Simple(e) && Fresh(e) && BindExpr(env, chain, e).Ok?
    ensures Sound(BindExpr(env, chain, e).value) <==> Posed(chain, e, false)
  {
    OperandsSound(env, chain, e);
    match e
    case Comparison(l, r, d) =>
      OperandKinds(env, chain, l, r, d);
      if l.Column? && r.Const? {
        FirstVisit(env, chain, false, l.c, r.k, d);
      } else if l.Const? && r.Column? {
        FirstVisit(env, chain, true, r.c, l.k, d);
      }
    case Conjunction(es, _) =>
      RootConjuncts(env, chain, es);
    case _ =>
  }

  /** With derived aliases in lower case and not reused, every tree that binds is sound. */
  lemma {:induction false} NoReusePosed(chain: ScopeChain, e: Expr, nested: bool)
    requires chain.Valid() && AliasesNotReused(chain)
    ensures Posed(chain, e, nested)
  {
    match e
    case Comparison(l, r, _) =>
      NoReusePosed(chain, l, true);
      NoReusePosed(chain, r, true);
      NoReuseUncaptured(chain, e);
    case Conjunction(es, _) =>
      NoReusePosedAll(chain, es);
      NoReuseAllKeep(chain, es);
    case _ =>
  }

  lemma {:induction false} NoReusePosedAll(chain: ScopeChain, es: Exprs)
    requires chain.Valid() && AliasesNotReused(chain)
    ensures PosedAll(chain, es)
  {
    if es.Cons? {
      NoReusePosed(chain, es.head, true);
      NoReusePosedAll(chain, es.tail);
    }
  }

  /** In such contexts binding is sound, and binding again changes nothing. */
  lemma BindingWithoutReuse(env: Env, chain: ScopeChain, e: Expr)
    requires chain.Valid() && AliasesNotReused(chain) && Simple(e) && Fresh(e) && BindExpr(env, chain, e).Ok?
    ensures var e1 := BindExpr(env, chain, e).value;
            var again := BindExpr(env, chain, e1);
            Sound(e1) && again.Ok? && Strip(again.value) == Strip(e1)
  {
    NoReusePosed(chain, e, false);
    SoundExactly(env, chain, e);
    NoReuseUncaptured(chain, e);
    UncapturedSettles(env, chain, e);
    SettledRebinds(env, chain, BindExpr(env, chain, e).value);
  }

  // ---------------------------------------------------------------- a captured name

  const BASE_T := Table(1, 7, [SchemaColumn("a", BIGINT, 1, true, DefaultKeyword)])

  const OUTER := Within(EMPTY_SCOPE.(regular := map["t" := BASE_T], order := ["t"]), NoScope)

  /** A subquery over a derived table t with a column a of type ty, inside a query over a base table t with a BIGINT a. */
  function Capturing(ty: TypeId): ScopeChain {
    Within(EMPTY_SCOPE.(nested := map["t" := map["a" := ty]]), OUTER)
  }

  const UNBOUND_A := ColumnRef("", "a", 0, 0, 0, INVALID, -1)
  const CAPTURED_A := ColumnRef("t", "a", 1, 7, 1, BIGINT, 0)

  /** a is found in the derived table, whose alias then leads to the base table. */
  lemma CapturedLookups(ty: TypeId)
    ensures var c1 := ColumnRef("t", "a", 0, 0, 0, ty, 1);
            Resolve(Capturing(ty), UNBOUND_A) == Ok(c1) && Resolve(Capturing(ty), c1) == Ok(CAPTURED_A)
  {
    var chain := Capturing(ty);
    assert Lower("a") == "a" && Lower("t") == "t";
    assert RegularMatches(chain.here, "a") == {} && NestedMatches(chain.here, "a") == {"t"};
    TheMatchIsOnly(chain.here, "a", "t");
    assert OUTER.Height() == 1 && OUTER.above.Height() == 0;
    assert ResolveHere(chain.here, 1, UNBOUND_A) == Some(Ok(ColumnRef("t", "a", 0, 0, 0, ty, 1)));
    assert FindColumn(BASE_T.columns, "a") == Some(BASE_T.columns[0]);
    assert NearestRegular(OUTER, "t") == Some(Owner(0, BASE_T));
    assert NearestRegular(chain, "t") == Some(Owner(0, BASE_T));
  }

  /** a = NULL in that subquery: the NULL becomes a DATE and a the BIGINT of the outer table. */
  lemma CapturedNameBreaksTypes(env: Env)
    ensures BindExpr(env, Capturing(DATE), Comparison(Column(UNBOUND_A, None), Const(Constant(INVALID, NullVal), None), None)) ==
            Ok(Comparison(Column(CAPTURED_A, Some(BIGINT)), Const(Constant(DATE, NullVal), Some(DATE)), None))
  {
    CapturedLookups(DATE);
  }

  function AEquals5(a: ColumnRef, da: Option<TypeId>, five: TypeId, dk: Option<TypeId>): Expr {
    Comparison(Column(a, da), Const(Constant(five, IntVal(5)), dk), None)
  }

  lemma CapturedOnce(env: Env)
    ensures BindExpr(env, Capturing(INTEGER), AEquals5(UNBOUND_A, None, INTEGER, None))
         == Ok(AEquals5(CAPTURED_A, Some(BIGINT), INTEGER, Some(INTEGER)))
  {
    CapturedLookups(INTEGER);
  }

  lemma CapturedAgain(env: Env, chain: ScopeChain)
    ensures BindExpr(env, chain, AEquals5(CAPTURED_A, Some(BIGINT), INTEGER, Some(INTEGER)))
         == Ok(AEquals5(CAPTURED_A, Some(BIGINT), BIGINT, Some(BIGINT)))
  {
  }

  /** a = 5 with an INTEGER a: it binds, and binding it again makes the 5 a BIGINT. */
  lemma CapturedNameMoves(env: Env)
    ensures var e1 := BindExpr(env, Capturing(INTEGER), AEquals5(UNBOUND_A, None, INTEGER, None));
            && e1 == Ok(AEquals5(CAPTURED_A, Some(BIGINT), INTEGER, Some(INTEGER)))
            && BindExpr(env, Capturing(INTEGER), e1.value) == Ok(AEquals5(CAPTURED_A, Some(BIGINT), BIGINT, Some(BIGINT)))
  {
    CapturedOnce(env);
    CapturedAgain(env, Capturing(INTEGER));
  }

  // ---------------------------------------------------------------- integer constants

  /** A non-null integer constant keeps its value as long as its type is an integer type. */
  predicate IntegerKept(k: Constant, k': Constant) {
    WellFormed(k) && k.val.IntVal? ==>
      WellFormed(k') && if k'.ty.DECIMAL? then k'.val.RealVal? else k'.val == k.val && IsIntegerType(k'.ty)
  }

  predicate IntegersKept(e: Expr, e': Expr) {
    match e
    case Const(k, _) => e'.Const? && IntegerKept(k, e'.k)
    case Comparison(l, r, _) => e'.Comparison? && IntegersKept(l, e'.left) && IntegersKept(r, e'.right)
    case Conjunction(es, _) => e'.Conjunction? && IntegersKeptAll(es, e'.children)
    case Subquery(s, _) => e'.Subquery? && SelectKept(s, e'.select)
    case Column(_, _) => true
  }

  predicate IntegersKeptAll(es: Exprs, es': Exprs) {
    es.Cons? ==> es'.Cons? && IntegersKept(es.head, es'.head) && IntegersKeptAll(es.tail, es'.tail)
  }

  predicate SelectKept(s: Select, s': Select) {
    FromKept(s.from, s'.from) && IntegersKeptAll(s.clauses, s'.clauses) && ItemsKept(s.items, s'.items)
  }

  predicate ItemsKept(items: Items, items': Items) {
    match items
    case NoItems => true
    case Item(_, e, rest) => items'.Item? && IntegersKept(e, items'.e) && ItemsKept(rest, items'.rest)
    case Star(_, rest) => items'.Star? && ItemsKept(rest, items'.rest)
  }

  predicate FromKept(f: From, f': From) {
    match f
    case Derived(s, _) => f'.Derived? && SelectKept(s, f'.select)
    case Both(l, r) => f'.Both? && FromKept(l, f'.first) && FromKept(r, f'.second)
    case On(g, e) => f'.On? && FromKept(g, f'.tables) && IntegersKept(e, f'.condition)
    case _ => true
  }

  lemma PromoteKeepsIntegers(lib: TextParsers, k0: Constant, k: Constant, t: TypeId)
    requires IntegerKept(k0, k) && Promote(lib, k, t).Ok?
    ensures IntegerKept(k0, Promote(lib, k, t).value)
  {
  }

  /** Visiting e preserves what earlier visits kept of e0. */
  lemma {:induction false} VisitKeepsIntegers(env: Env, chain: ScopeChain, e0: Expr, e: Expr)
    requires IntegersKept(e0, e) && BindExpr(env, chain, e).Ok?
    ensures IntegersKept(e0, BindExpr(env, chain, e).value)
    decreases Size(e)
  {
    match e0
    case Const(k, _) =>
      PromoteKeepsIntegers(env.lib, k, e.k, if e.desired.Some? then e.desired.value else e.k.ty);
    case Comparison(l0, r0, _) =>
      VisitKeepsIntegers(env, chain, l0, e.left);
      VisitKeepsIntegers(env, chain, r0, e.right);
      var (l2, r2) := ConstrainPair(BindExpr(env, chain, e.left).value, BindExpr(env, chain, e.right).value);
      VisitKeepsIntegers(env, chain, l0, l2);
      VisitKeepsIntegers(env, chain, r0, r2);
    case Conjunction(es0, _) =>
      VisitsKeepIntegers(env, chain, es0, e.children);
      var es2 := RequireBoolean(BindAll(env, chain, e.children).value);
      NotesKeepIntegers(es0, BindAll(env, chain, e.children).value);
      VisitsKeepIntegers(env, chain, es0, es2);
    case Subquery(s0, _) =>
      SelectKeepsIntegers(env, chain, s0, e.select);
    case Column(_, _) =>
  }

  lemma {:induction false} SelectKeepsIntegers(env: Env, chain: ScopeChain, s0: Select, s: Select)
    requires SelectKept(s0, s) && BindSelect(env, chain, s).Ok?
    ensures SelectKept(s0, BindSelect(env, chain, s).value)
    decreases SizeSelect(s)
  {
    FromKeepsIntegers(env, chain, EMPTY_SCOPE, s0.from, s.from);
    var inner := Within(BindFrom(env, chain, EMPTY_SCOPE, s.from).value.1, chain);
    VisitsKeepIntegers(env, inner, s0.clauses, s.clauses);
    ItemsKeepIntegers(env, inner, s0.items, s.items);
  }

  lemma {:induction false} ItemsKeepIntegers(env: Env, chain: ScopeChain, items0: Items, items: Items)
    requires chain.Within? && ItemsKept(items0, items) && BindItems(env, chain, items).Ok?
    ensures ItemsKept(items0, BindItems(env, chain, items).value)
    decreases SizeItems(items)
  {
    match items0
    case NoItems =>
    case Item(_, e0, rest0) =>
      VisitKeepsIntegers(env, chain, e0, items.e);
      ItemsKeepIntegers(env, chain, rest0, items.rest);
    case Star(_, rest0) =>
      ItemsKeepIntegers(env, chain, rest0, items.rest);
  }

  lemma {:induction false} FromKeepsIntegers(env: Env, chain: ScopeChain, s: Scope, f0: From, f: From)
    requires FromKept(f0, f) && BindFrom(env, chain, s, f).Ok?
    ensures FromKept(f0, BindFrom(env, chain, s, f).value.0)
    decreases SizeFrom(f)
  {
    match f0
    case Derived(s0, _) =>
      SelectKeepsIntegers(env, Within(s, chain), s0, f.select);
    case Both(l0, r0) =>
      FromKeepsIntegers(env, chain, s, l0, f.first);
      FromKeepsIntegers(env, chain, BindFrom(env, chain, s, f.first).value.1, r0, f.second);
    case On(g0, e0) =>
      FromKeepsIntegers(env, chain, s, g0, f.tables);
      VisitKeepsIntegers(env, Within(BindFrom(env, chain, s, f.tables).value.1, chain), e0, f.condition);
    case _ =>
  }

  lemma {:induction false} NotesKeepIntegers(es0: Exprs, es: Exprs)
    requires IntegersKeptAll(es0, es)
    ensures IntegersKeptAll(es0, RequireBoolean(es))
  {
    if es0.Cons? { NotesKeepIntegers(es0.tail, es.tail); }
  }

  lemma {:induction false} VisitsKeepIntegers(env: Env, chain: ScopeChain, es0: Exprs, es: Exprs)
    requires IntegersKeptAll(es0, es) && BindAll(env, chain, es).Ok?
    ensures IntegersKeptAll(es0, BindAll(env, chain, es).value)
    decreases SizeAll(es)
  {
    if es0.Cons? {
      VisitKeepsIntegers(env, chain, es0.head, es.head);
      VisitsKeepIntegers(env, chain, es0.tail, es.tail);
    }
  }

  lemma {:induction false} IntegersKeptRefl(e: Expr)
    ensures IntegersKept(e, e)
  {
    match e
    case Comparison(l, r, _) => IntegersKeptRefl(l); IntegersKeptRefl(r);
    case Conjunction(es, _) => IntegersKeptAllRefl(es);
    case Subquery(s, _) => SelectKeptRefl(s);
    case _ =>
  }

  lemma {:induction false} SelectKeptRefl(s: Select)
    ensures SelectKept(s, s)
  {
    FromKeptRefl(s.from);
    IntegersKeptAllRefl(s.clauses);
    ItemsKeptRefl(s.items);
  }

  lemma {:induction false} ItemsKeptRefl(items: Items)
    ensures ItemsKept(items, items)
  {
    match items
    case NoItems =>
    case Item(_, e, rest) => IntegersKeptRefl(e); ItemsKeptRefl(rest);
    case Star(_, rest) => ItemsKeptRefl(rest);
  }

  lemma {:induction false} FromKeptRefl(f: From)
    ensures FromKept(f, f)
  {
    match f
    case Derived(s, _) => SelectKeptRefl(s);
    case Both(l, r) => FromKeptRefl(l); FromKeptRefl(r);
    case On(g, e) => FromKeptRefl(g); IntegersKeptRefl(e);
    case _ =>
  }

  lemma {:induction false} IntegersKeptAllRefl(es: Exprs)
    ensures IntegersKeptAll(es, es)
  {
    if es.Cons? { IntegersKeptRefl(es.head); IntegersKeptAllRefl(es.tail); }
  }

  /**
    * In a bound tree, and in every SELECT inside it, a non-null integer constant that has an integer type
    * denotes the same integer as before.
    */
  lemma BindingKeepsIntegers(env: Env, chain: ScopeChain, e: Expr)
    requires BindExpr(env, chain, e).Ok?
    ensures IntegersKept(e, BindExpr(env, chain, e).value)
  {
    IntegersKeptRefl(e);
    VisitKeepsIntegers(env, chain, e, e);
  }
}
