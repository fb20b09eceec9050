/**
  * Soundness of whole SELECT statements: clauses, select lists and join conditions at every depth of derived
  * tables, each in the contexts that the FROM clauses around it have filled.
  */
module StatementLaws {
  import opened Scopes
  import opened BindSpec
  import opened RebindLaws
  import opened SoundLaws
  import SelectLaws

  /** A statement before its first visit: nothing noted, and subqueries only as derived tables. */
  predicate Unvisited(s: Select) {
    UnvisitedFrom(s.from) && SimpleAll(s.clauses) && FreshAll(s.clauses) && UnvisitedItems(s.items)
  }

  predicate UnvisitedItems(items: Items) {
    match items
    case NoItems => true
    case Item(_, e, rest) => Simple(e) && Fresh(e) && UnvisitedItems(rest)
    case Star(_, rest) => UnvisitedItems(rest)
  }

  predicate UnvisitedFrom(f: From) {
    match f
    case Derived(s, _) => Unvisited(s)
    case Both(l, r) => UnvisitedFrom(l) && UnvisitedFrom(r)
    case On(g, e) => UnvisitedFrom(g) && Simple(e) && Fresh(e)
    case _ => true
  }

  /** Every expression of the statement is sound. */
  predicate SoundSelect(s: Select) { SoundFrom(s.from) && SoundAll(s.clauses) && SoundItems(s.items) }

  predicate SoundItems(items: Items) {
    match items
    case NoItems => true
    case Item(_, e, rest) => Sound(e) && SoundItems(rest)
    case Star(_, rest) => SoundItems(rest)
  }

  predicate SoundFrom(f: From) {
    match f
    case Derived(s, _) => SoundSelect(s)
    case Both(l, r) => SoundFrom(l) && SoundFrom(r)
    case On(g, e) => SoundFrom(g) && Sound(e)
    case _ => true
  }

  /** The contexts of an expression whose FROM clause so far is f: the one f fills, and those of chain. */
  ghost function Inside(env: Env, chain: ScopeChain, s: Scope, f: From): ScopeChain {
    match BindFrom(env, chain, s, f) case Ok((_, s')) => Within(s', chain) case Err(_) => chain
  }

  /** No operand is captured by a table of another type, in any expression of the statement. */
  ghost predicate PosedSelect(env: Env, chain: ScopeChain, s: Select)
    decreases s
  {
    var inner := Inside(env, chain, EMPTY_SCOPE, s.from);
    PosedFrom(env, chain, EMPTY_SCOPE, s.from) && PosedEach(inner, s.clauses) && PosedItems(inner, s.items)
  }

  ghost predicate PosedEach(chain: ScopeChain, es: Exprs) {
    es.Cons? ==> Posed(chain, es.head, false) && PosedEach(chain, es.tail)
  }

  ghost predicate PosedItems(chain: ScopeChain, items: Items) {
    match items
    case NoItems => true
    case Item(_, e, rest) => Posed(chain, e, false) && PosedItems(chain, rest)
    case Star(_, rest) => PosedItems(chain, rest)
  }

  ghost predicate PosedFrom(env: Env, chain: ScopeChain, s: Scope, f: From)
    decreases f
  {
    match f
    case Derived(select, _) => PosedSelect(env, Within(s, chain), select)
    case Both(l, r) =>
      PosedFrom(env, chain, s, l) &&
      (match BindFrom(env, chain, s, l) case Ok((_, s1)) => PosedFrom(env, chain, s1, r) case Err(_) => true)
    case On(g, e) => PosedFrom(env, chain, s, g) && Posed(Inside(env, chain, s, g), e, false)
    case _ => true
  }

  lemma {:induction false} ClausesSound(env: Env, chain: ScopeChain, es: Exprs)
    requires chain.Valid() && SimpleAll(es) && FreshAll(es) && BindAll(env, chain, es).Ok?
    ensures SoundAll(BindAll(env, chain, es).value) <==> PosedEach(chain, es)
  {
    if es.Cons? {
      SoundExactly(env, chain, es.head);
      ClausesSound(env, chain, es.tail);
    }
  }

  lemma {:induction false} ItemsSound(env: Env, chain: ScopeChain, items: Items)
    requires chain.Within? && chain.Valid() && UnvisitedItems(items) && BindItems(env, chain, items).Ok?
    ensures SoundItems(BindItems(env, chain, items).value) <==> PosedItems(chain, items)
  {
    match items
    case NoItems =>
    case Item(_, e, rest) =>
      SoundExactly(env, chain, e);
      ItemsSound(env, chain, rest);
    case Star(_, rest) =>
      ItemsSound(env, chain, rest);
  }

  lemma {:induction false} FromSound(env: Env, chain: ScopeChain, s: Scope, f: From)
    requires env.cat.Valid() && chain.Valid() && ValidScope(s) && UnvisitedFrom(f) && BindFrom(env, chain, s, f).Ok?
    ensures SoundFrom(BindFrom(env, chain, s, f).value.0) <==> PosedFrom(env, chain, s, f)
    decreases f
  {
    match f
    case Derived(select, _) =>
      SelectSoundExactly(env, Within(s, chain), select);
    case Both(l, r) =>
      FromSound(env, chain, s, l);
      SelectLaws.FromFills(env, chain, s, l);
      FromSound(env, chain, BindFrom(env, chain, s, l).value.1, r);
    case On(g, e) =>
      FromSound(env, chain, s, g);
      SelectLaws.FromFills(env, chain, s, g);
      SoundExactly(env, Inside(env, chain, s, g), e);
    case _ =>
  }

  /** A statement that binds is sound everywhere exactly when none of its operands is captured. */
  lemma {:induction false} SelectSoundExactly(env: Env, chain: ScopeChain, s: Select)
    requires env.cat.Valid() && chain.Valid() && Unvisited(s) && BindSelect(env, chain, s).Ok?
    ensures SoundSelect(BindSelect(env, chain, s).value) <==> PosedSelect(env, chain, s)
    decreases s
  {
    FromSound(env, chain, EMPTY_SCOPE, s.from);
    SelectLaws.FromFills(env, chain, EMPTY_SCOPE, s.from);
    var inner := Inside(env, chain, EMPTY_SCOPE, s.from);
    ClausesSound(env, inner, s.clauses);
    ItemsSound(env, inner, s.items);
  }
}
