/**
  * What a bound SELECT holds: its context has the tables of its FROM clause in order, derived tables offer the
  * columns of their select lists, and a star has been replaced by every column of the context.
  */
module StarLaws {
  import opened Options
  import opened SqlTypes
  import opened Scopes
  import opened Context
  import opened BindSpec
  import ScopeLaws
  import SelectLaws

  // ---------------------------------------------------------------- select lists

  /** The last of the columns called name. */
  function LastCalled(cs: seq<ColumnRef>, name: string): Option<TypeId> {
    if cs == [] then None
    else if Lower(cs[|cs| - 1].column) == name then Some(cs[|cs| - 1].ty)
    else LastCalled(cs[..|cs| - 1], name)
  }

  /** The type of the last output column of a select list that is called name: by its alias, or else as a column. */
  function OutputType(items: Items, name: string): Option<TypeId> {
    match items
    case NoItems => None
    case Item(alias, e, rest) =>
      var later := OutputType(rest, name);
      if later.Some? then later
      else if alias != "" then (if Lower(alias) == name then Some(TypeOf(e)) else None)
      else if e.Column? && Lower(e.c.column) == name then Some(TypeOf(e))
      else None
    case Star(cs, rest) =>
      var later := OutputType(rest, name);
      if later.Some? || cs.None? then later else LastCalled(cs.value, name)
  }

  /** A derived table offers exactly the output columns of its select list. */
  ghost predicate OffersOutputs(t: NestedTable, items: Items) {
    forall name :: OutputType(items, name) == if name in t then Some(t[name]) else None
  }

  /** What the first k of some selected items offer under a name. */
  function Offered(sel: seq<Selected>, k: nat, name: string): Option<TypeId>
    requires k <= |sel|
  {
    if name in FirstColumns(sel, k) then Some(FirstColumns(sel, k)[name]) else None
  }

  /** Later items win. */
  lemma {:induction false} OfferedConcat(xs: seq<Selected>, ys: seq<Selected>, k: nat, name: string)
    requires k <= |ys|
    ensures Offered(xs + ys, |xs| + k, name) == if Offered(ys, k, name).Some? then Offered(ys, k, name) else Offered(xs, |xs|, name)
  {
    if k == 0 {
      OfferedPrefix(xs, ys, |xs|);
    } else {
      OfferedConcat(xs, ys, k - 1, name);
      assert (xs + ys)[|xs| + k - 1] == ys[k - 1];
    }
  }

  lemma {:induction false} OfferedPrefix(xs: seq<Selected>, ys: seq<Selected>, k: nat)
    requires k <= |xs|
    ensures FirstColumns(xs + ys, k) == FirstColumns(xs, k)
  {
    if k > 0 { OfferedPrefix(xs, ys, k - 1); }
  }

  function SelectedColumns(cs: seq<ColumnRef>): (r: seq<Selected>)
    ensures |r| == |cs| && forall i :: 0 <= i < |cs| ==> r[i] == Selected("", Some(cs[i].column), cs[i].ty)
  {
    seq(|cs|, i requires 0 <= i < |cs| => Selected("", Some(cs[i].column), cs[i].ty))
  }

  lemma {:induction false} ColumnsOffered(cs: seq<ColumnRef>, name: string)
    ensures Offered(SelectedColumns(cs), |cs|, name) == LastCalled(cs, name)
  {
    if cs != [] {
      var n := |cs| - 1;
      ColumnsOffered(cs[..n], name);
      assert SelectedColumns(cs) == SelectedColumns(cs[..n]) + [SelectedColumns(cs)[n]];
      OfferedPrefix(SelectedColumns(cs[..n]), [SelectedColumns(cs)[n]], n);
    }
  }

  lemma {:induction false} OutputsOffered(items: Items, name: string)
    ensures Offered(Selections(items), |Selections(items)|, name) == OutputType(items, name)
  {
    match items
    case NoItems =>
    case Item(alias, e, rest) =>
      var first := [Selected(alias, if e.Column? then Some(e.c.column) else None, TypeOf(e))];
      OutputsOffered(rest, name);
      assert Selections(items) == first + Selections(rest);
      OfferedConcat(first, Selections(rest), |Selections(rest)|, name);
      assert FirstColumns(first, 0) == map[];
    case Star(None, rest) =>
      OutputsOffered(rest, name);
    case Star(Some(cs), rest) =>
      OutputsOffered(rest, name);
      assert Selections(items) == SelectedColumns(cs) + Selections(rest);
      OfferedConcat(SelectedColumns(cs), Selections(rest), |Selections(rest)|, name);
      ColumnsOffered(cs, name);
  }

  // ---------------------------------------------------------------- FROM clauses

  function AliasOf(name: string, alias: string): string { if alias == "" then name else alias }

  /** The aliases of the base tables, from left to right. */
  function BaseAliases(f: From): seq<string> {
    match f
    case Base(_, _, name, alias) => [AliasOf(name, alias)]
    case Both(l, r) => BaseAliases(l) + BaseAliases(r)
    case On(g, _) => BaseAliases(g)
    case _ => []
  }

  /** The aliases of the derived tables. */
  function DerivedAliases(f: From): set<string> {
    match f
    case Derived(_, alias) => {alias}
    case Both(l, r) => DerivedAliases(l) + DerivedAliases(r)
    case On(g, _) => DerivedAliases(g)
    case _ => {}
  }

  /** The context holds every table of a bound FROM clause: base tables as the catalog has them, derived ones by their outputs. */
  ghost predicate Holds(env: Env, f: From, s: Scope) {
    match f
    case NoFrom => true
    case Base(_, ns, name, alias) =>
      AliasOf(name, alias) in s.regular && InCatalog(env, ns, name, s.regular[AliasOf(name, alias)])
    case Derived(select, alias) => alias in s.nested && OffersOutputs(s.nested[alias], select.items)
    case Both(l, r) => Holds(env, l, s) && Holds(env, r, s)
    case On(g, _) => Holds(env, g, s)
  }

  /** t is the table of that name in the namespace written, or in the search path, with the connected database's oid. */
  ghost predicate InCatalog(env: Env, ns: string, name: string, t: Table) {
    if ns == "" then name in env.cat.searchPath && t == env.cat.searchPath[name].(db := env.db)
    else ns in env.cat.namespaces && name in env.cat.namespaces[ns] && t == env.cat.namespaces[ns][name].(db := env.db)
  }

  lemma {:induction false} HoldsInBigger(env: Env, f: From, s: Scope, s': Scope)
    requires Holds(env, f, s) && SelectLaws.Grows(s, s')
    ensures Holds(env, f, s')
  {
    match f
    case Both(l, r) => HoldsInBigger(env, l, s, s'); HoldsInBigger(env, r, s, s');
    case On(g, _) => HoldsInBigger(env, g, s, s');
    case _ =>
  }

  /** The context after a FROM clause: what it held before and the tables of the clause, nothing else. */
  ghost predicate Adds(s: Scope, f: From, s': Scope) {
    && s'.order == s.order + BaseAliases(f)
    && s'.nested.Keys == s.nested.Keys + DerivedAliases(f)
  }

  lemma BaseAdds(env: Env, ns: string, name: string, alias: string, s: Scope)
    requires WithRegular(env.cat, env.db, ns, name, alias, s).Ok?
    ensures var s' := WithRegular(env.cat, env.db, ns, name, alias, s).value;
            && s'.order == s.order + [alias] && s'.nested == s.nested
            && alias in s'.regular && InCatalog(env, ns, name, s'.regular[alias])
  {
  }

  lemma DerivedAdds(alias: string, items: Items, s: Scope)
    requires WithNested(alias, NestedColumns(Selections(items)), s).Ok?
    ensures var s' := WithNested(alias, NestedColumns(Selections(items)), s).value;
            && s'.order == s.order && s'.nested.Keys == s.nested.Keys + {alias}
            && alias in s'.nested && OffersOutputs(s'.nested[alias], items)
  {
    forall name ensures Offered(Selections(items), |Selections(items)|, name) == OutputType(items, name) {
      OutputsOffered(items, name);
    }
  }

  lemma BothAdds(env: Env, s: Scope, l: From, r: From, l': From, r': From, s1: Scope, s2: Scope)
    requires Adds(s, l, s1) && Holds(env, l', s1) && Adds(s1, r, s2) && Holds(env, r', s2) && SelectLaws.Grows(s1, s2)
    ensures Adds(s, Both(l, r), s2) && Holds(env, Both(l', r'), s2)
  {
    HoldsInBigger(env, l', s1, s2);
  }

  lemma {:induction false} FromAdds(env: Env, chain: ScopeChain, s: Scope, f: From)
    requires env.cat.Valid() && ValidScope(s) && BindFrom(env, chain, s, f).Ok?
    ensures Adds(s, f, BindFrom(env, chain, s, f).value.1)
    ensures Holds(env, BindFrom(env, chain, s, f).value.0, BindFrom(env, chain, s, f).value.1)
    decreases f
  {
    match f
    case NoFrom =>
    case Base(_, ns, name, alias) =>
      BaseAdds(env, ns, name, AliasOf(name, alias), s);
    case Derived(select, alias) =>
      DerivedAdds(alias, BindSelect(env, Within(s, chain), select).value.items, s);
    case Both(l, r) =>
      var (l', s1) := BindFrom(env, chain, s, l).value;
      FromAdds(env, chain, s, l);
      SelectLaws.FromFills(env, chain, s, l);
      FromAdds(env, chain, s1, r);
      SelectLaws.FromFills(env, chain, s1, r);
      var (r', s2) := BindFrom(env, chain, s1, r).value;
      BothAdds(env, s, l, r, l', r', s1, s2);
    case On(g, _) =>
      FromAdds(env, chain, s, g);
  }

  // ---------------------------------------------------------------- which FROM clauses bind

  /** All aliases, from left to right. */
  function Aliases(f: From): seq<string> {
    match f
    case NoFrom => []
    case Base(_, _, name, alias) => [AliasOf(name, alias)]
    case Derived(_, alias) => [alias]
    case Both(l, r) => Aliases(l) + Aliases(r)
    case On(g, _) => Aliases(g)
  }

  /** The database is the connected one or not given, and the table is on the search path and in the namespace given. */
  predicate Findable(env: Env, db: string, ns: string, name: string) {
    && (db == "" || (db in env.cat.databases && env.cat.databases[db] == env.db))
    && name in env.cat.searchPath
    && (ns == "" || (ns in env.cat.namespaces && name in env.cat.namespaces[ns]))
  }

  /** Every table can be found or bound, in the context that the tables before it have left. */
  ghost predicate PartsBind(env: Env, chain: ScopeChain, s: Scope, f: From)
    decreases f
  {
    match f
    case NoFrom => true
    case Base(db, ns, name, _) => Findable(env, db, ns, name)
    case Derived(select, alias) => alias != "" && BindSelect(env, Within(s, chain), select).Ok?
    case Both(l, r) =>
      PartsBind(env, chain, s, l) &&
      (match BindFrom(env, chain, s, l) case Ok((_, s1)) => PartsBind(env, chain, s1, r) case Err(_) => true)
    case On(g, e) =>
      PartsBind(env, chain, s, g) &&
      (match BindFrom(env, chain, s, g) case Ok((_, s1)) => BindExpr(env, Within(s1, chain), e).Ok? case Err(_) => true)
  }

  /** The aliases are new to the context and different from each other. */
  ghost predicate NewAliases(s: Scope, aliases: seq<string>) {
    NoDuplicates(aliases) && forall a :: a in aliases ==> a !in s.regular && a !in s.nested
  }

  lemma {:induction false} AliasesAreBoth(f: From, a: string)
    ensures a in Aliases(f) <==> a in BaseAliases(f) || a in DerivedAliases(f)
  {
    match f
    case Both(l, r) => AliasesAreBoth(l, a); AliasesAreBoth(r, a);
    case On(g, _) => AliasesAreBoth(g, a);
    case _ =>
  }

  /** After a FROM clause an alias is taken exactly when it was before or the clause has it. */
  lemma TakenAfter(s: Scope, f: From, s': Scope, a: string)
    requires ValidScope(s) && ValidScope(s') && Adds(s, f, s')
    ensures a in s'.regular || a in s'.nested <==> a in s.regular || a in s.nested || a in Aliases(f)
  {
    AliasesAreBoth(f, a);
    assert a in s'.order <==> a in s.order || a in BaseAliases(f);
  }

  lemma NewAliasesSplit(s: Scope, f: From, s': Scope, more: seq<string>)
    requires ValidScope(s) && ValidScope(s') && Adds(s, f, s')
    ensures NewAliases(s, Aliases(f) + more) <==> NewAliases(s, Aliases(f)) && NewAliases(s', more)
  {
    var xs := Aliases(f);
    forall a ensures a in s'.regular || a in s'.nested <==> a in s.regular || a in s.nested || a in xs { TakenAfter(s, f, s', a); }
    if NewAliases(s, xs + more) {
      NoDuplicatesSplit(xs, more);
    } else if NewAliases(s, xs) && NewAliases(s', more) {
      NoDuplicatesConcat(xs, more);
    }
  }

  lemma NoDuplicatesSplit(xs: seq<string>, ys: seq<string>)
    requires NoDuplicates(xs + ys)
    ensures NoDuplicates(xs) && NoDuplicates(ys) && forall a :: a in ys ==> a !in xs
  {
    var zs := xs + ys;
    forall i, j | 0 <= i < j < |xs| ensures xs[i] != xs[j] { assert zs[i] != zs[j]; }
    forall i, j | 0 <= i < j < |ys| ensures ys[i] != ys[j] { assert zs[|xs| + i] != zs[|xs| + j]; }
    forall i, j | 0 <= i < |xs| && 0 <= j < |ys| ensures xs[i] != ys[j] { assert zs[i] != zs[|xs| + j]; }
  }

  lemma NewAliasesPrefix(s: Scope, xs: seq<string>, ys: seq<string>)
    requires NewAliases(s, xs + ys)
    ensures NewAliases(s, xs)
  {
    NoDuplicatesSplit(xs, ys);
  }

  /** A FROM clause binds exactly when its tables can be found or bound and no alias is used twice. */
  lemma {:induction false} FromBindsExactly(env: Env, chain: ScopeChain, s: Scope, f: From)
    requires env.cat.Valid() && ValidScope(s)
    ensures BindFrom(env, chain, s, f).Ok? <==> PartsBind(env, chain, s, f) && NewAliases(s, Aliases(f))
    decreases f
  {
    match f
    case NoFrom =>
    case Base(_, _, _, _) =>
    case Derived(_, _) =>
    case Both(l, r) =>
      FromBindsExactly(env, chain, s, l);
      if BindFrom(env, chain, s, l).Ok? {
        var s1 := BindFrom(env, chain, s, l).value.1;
        SelectLaws.FromFills(env, chain, s, l);
        FromAdds(env, chain, s, l);
        FromBindsExactly(env, chain, s1, r);
        NewAliasesSplit(s, l, s1, Aliases(r));
      } else if NewAliases(s, Aliases(f)) {
        NewAliasesPrefix(s, Aliases(l), Aliases(r));
      }
    case On(g, _) =>
      FromBindsExactly(env, chain, s, g);
  }

  /** Why a base table is refused. */
  lemma BaseFails(env: Env, chain: ScopeChain, s: Scope, db: string, ns: string, name: string, alias: string)
    requires BindFrom(env, chain, s, Base(db, ns, name, alias)).Err?
    ensures BindFrom(env, chain, s, Base(db, ns, name, alias)).error ==
            if db != "" && db !in env.cat.databases then UndefinedDatabase
            else if db != "" && env.cat.databases[db] != env.db then FeatureNotSupported
            else if ns != "" && ns !in env.cat.namespaces && name in env.cat.searchPath then UndefinedSchema
            else if !Findable(env, db, ns, name) then UndefinedTable
            else DuplicateAlias
  {
  }

  /** Every expression of a list binds. */
  ghost predicate EachBinds(env: Env, chain: ScopeChain, es: Exprs) {
    es.Cons? ==> BindExpr(env, chain, es.head).Ok? && EachBinds(env, chain, es.tail)
  }

  lemma {:induction false} AllBindExactly(env: Env, chain: ScopeChain, es: Exprs)
    ensures BindAll(env, chain, es).Ok? <==> EachBinds(env, chain, es)
  {
    if es.Cons? { AllBindExactly(env, chain, es.tail); }
  }

  /** Every select item binds; a star always does. */
  ghost predicate ItemsBind(env: Env, chain: ScopeChain, items: Items) {
    match items
    case NoItems => true
    case Item(_, e, rest) => BindExpr(env, chain, e).Ok? && ItemsBind(env, chain, rest)
    case Star(None, rest) => ItemsBind(env, chain, rest)
    case Star(Some(cs), rest) => (forall c :: c in cs ==> Resolve(chain, c).Ok?) && ItemsBind(env, chain, rest)
  }

  lemma {:induction false} ColumnsBindExactly(chain: ScopeChain, cs: seq<ColumnRef>)
    ensures ResolveAll(chain, cs).Ok? <==> forall c :: c in cs ==> Resolve(chain, c).Ok?
  {
    if cs != [] {
      ColumnsBindExactly(chain, cs[1..]);
      assert forall c :: c in cs <==> c == cs[0] || c in cs[1..];
    }
  }

  lemma {:induction false} ItemsBindExactly(env: Env, chain: ScopeChain, items: Items)
    requires chain.Within?
    ensures BindItems(env, chain, items).Ok? <==> ItemsBind(env, chain, items)
  {
    match items
    case NoItems =>
    case Item(_, _, rest) => ItemsBindExactly(env, chain, rest);
    case Star(None, rest) => ItemsBindExactly(env, chain, rest);
    case Star(Some(cs), rest) =>
      ColumnsBindExactly(chain, cs);
      ItemsBindExactly(env, chain, rest);
  }

  /** The clauses and the items bind in the context that FROM fills. */
  ghost predicate BodyBinds(env: Env, chain: ScopeChain, s: Select) {
    var filled := BindFrom(env, chain, EMPTY_SCOPE, s.from);
    filled.Ok? ==>
      EachBinds(env, Within(filled.value.1, chain), s.clauses) && ItemsBind(env, Within(filled.value.1, chain), s.items)
  }

  /** A SELECT binds exactly when its tables do, under different aliases, and then every clause and item in their context. */
  lemma SelectBindsExactly(env: Env, chain: ScopeChain, s: Select)
    requires env.cat.Valid()
    ensures BindSelect(env, chain, s).Ok?
       <==> PartsBind(env, chain, EMPTY_SCOPE, s.from) && NoDuplicates(Aliases(s.from)) && BodyBinds(env, chain, s)
  {
    FromBindsExactly(env, chain, EMPTY_SCOPE, s.from);
    if BindFrom(env, chain, EMPTY_SCOPE, s.from).Ok? {
      var inner := Within(BindFrom(env, chain, EMPTY_SCOPE, s.from).value.1, chain);
      AllBindExactly(env, inner, s.clauses);
      ItemsBindExactly(env, inner, s.items);
    }
  }

  // ---------------------------------------------------------------- statements

  /** Each place of the select list after a first visit: a star has become every column of the context. */
  ghost predicate Expanded(s: Scope, d: int, items: Items, items': Items) {
    match items
    case NoItems => items'.NoItems?
    case Item(alias, _, rest) => items'.Item? && items'.alias == alias && Expanded(s, d, rest, items'.rest)
    case Star(None, rest) =>
      && items'.Star? && items'.expansion.Some? && d >= 0 && IsStar(s, d, items'.expansion.value)
      && Expanded(s, d, rest, items'.rest)
    case Star(Some(_), rest) => items'.Star? && items'.expansion.Some? && Expanded(s, d, rest, items'.rest)
  }

  /** s' is s after a visit: its context holds its tables and nothing else, and its stars are expanded; at every depth. */
  ghost predicate Visited(env: Env, s: Select, s': Select) {
    && s'.scope.order == BaseAliases(s.from) && s'.scope.nested.Keys == DerivedAliases(s.from)
    && Holds(env, s'.from, s'.scope)
    && Expanded(s'.scope, s'.depth, s.items, s'.items)
    && VisitedFrom(env, s.from, s'.from)
  }

  ghost predicate VisitedFrom(env: Env, f: From, f': From) {
    match f
    case NoFrom => f'.NoFrom?
    case Base(_, _, _, _) => f' == f
    case Derived(s, alias) => f'.Derived? && f'.alias == alias && Visited(env, s, f'.select)
    case Both(l, r) => f'.Both? && VisitedFrom(env, l, f'.first) && VisitedFrom(env, r, f'.second)
    case On(g, _) => f'.On? && VisitedFrom(env, g, f'.tables)
  }

  lemma {:induction false} ItemsExpanded(env: Env, chain: ScopeChain, items: Items)
    requires SelectLaws.ValidEnv(env) && chain.Within? && chain.Valid() && BindItems(env, chain, items).Ok?
    ensures Expanded(chain.here, chain.above.Height(), items, BindItems(env, chain, items).value)
  {
    match items
    case NoItems =>
    case Item(_, _, rest) => ItemsExpanded(env, chain, rest);
    case Star(None, rest) =>
      ItemsExpanded(env, chain, rest);
      ScopeLaws.StarListsEachOnce(env.order, chain.here, chain.above.Height());
    case Star(Some(_), rest) => ItemsExpanded(env, chain, rest);
  }

  lemma {:induction false} FromVisited(env: Env, chain: ScopeChain, s: Scope, f: From)
    requires SelectLaws.ValidEnv(env) && chain.Valid() && ValidScope(s) && BindFrom(env, chain, s, f).Ok?
    ensures VisitedFrom(env, f, BindFrom(env, chain, s, f).value.0)
    decreases f
  {
    match f
    case Derived(select, _) => StarsExpanded(env, Within(s, chain), select);
    case Both(l, r) =>
      FromVisited(env, chain, s, l);
      SelectLaws.FromFills(env, chain, s, l);
      FromVisited(env, chain, BindFrom(env, chain, s, l).value.1, r);
    case On(g, _) => FromVisited(env, chain, s, g);
    case _ =>
  }

  /**
    * A bound SELECT, at every depth of derived tables: its context lists its base tables from left to right and
    * holds its derived tables with the columns of their select lists, and every star is every column of it.
    */
  lemma {:induction false} StarsExpanded(env: Env, chain: ScopeChain, s: Select)
    requires SelectLaws.ValidEnv(env) && chain.Valid() && BindSelect(env, chain, s).Ok?
    ensures Visited(env, s, BindSelect(env, chain, s).value)
    decreases s
  {
    FromAdds(env, chain, EMPTY_SCOPE, s.from);
    FromVisited(env, chain, EMPTY_SCOPE, s.from);
    SelectLaws.FromFills(env, chain, EMPTY_SCOPE, s.from);
    ItemsExpanded(env, Within(BindFrom(env, chain, EMPTY_SCOPE, s.from).value.1, chain), s.items);
  }
}
