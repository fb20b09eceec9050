/**
  * src/binder/bind_node_visitor.cpp as functions on trees: what one visit makes of an expression, a FROM
  * clause or a SELECT. The desired type that the sherpa keeps for a node is written next to the node.
  */
module BindSpec {
  import opened Options
  import opened SqlTypes
  import opened Promotion
  import opened Scopes
  import opened Context

  datatype Expr =
    | Column(c: ColumnRef, desired: Option<TypeId>)
    | Const(k: Constant, desired: Option<TypeId>)
    | Comparison(left: Expr, right: Expr, desired: Option<TypeId>)
    | Conjunction(children: Exprs, desired: Option<TypeId>)
    | Subquery(select: Select, desired: Option<TypeId>)

  datatype Exprs = Nil | Cons(head: Expr, tail: Exprs)

  /** WHERE, GROUP BY and HAVING are the clauses, in that order. The scope is the context of the last visit. */
  datatype Select = Select(from: From, clauses: Exprs, items: Items, depth: int, scope: Scope)

  /** A select list; an expanded star is replaced by its columns. */
  datatype Items =
    | NoItems
    | Item(alias: string, e: Expr, rest: Items)
    | Star(expansion: Option<seq<ColumnRef>>, rest: Items)

  /** A FROM clause; a list of tables is a chain of Both, and a join is On(Both(left, right), condition). */
  datatype From =
    | NoFrom
    | Base(db: string, ns: string, name: string, alias: string)
    | Derived(select: Select, alias: string)
    | Both(first: From, second: From)
    | On(tables: From, condition: Expr)

  /** What the visitor is given: catalog, connected database, library parsers and hash map iteration order. */
  datatype Env = Env(cat: Catalog, db: nat, lib: TextParsers, order: HashOrder)

  // ---------------------------------------------------------------- sizes

  function Size(e: Expr): nat {
    match e
    case Column(_, _) => 1
    case Const(_, _) => 1
    case Comparison(l, r, _) => 1 + Size(l) + Size(r)
    case Conjunction(es, _) => 1 + SizeAll(es)
    case Subquery(s, _) => 1 + SizeSelect(s)
  }

  function SizeAll(es: Exprs): nat {
    match es case Nil => 1 case Cons(e, rest) => 1 + Size(e) + SizeAll(rest)
  }

  function SizeSelect(s: Select): nat { 1 + SizeFrom(s.from) + SizeAll(s.clauses) + SizeItems(s.items) }

  function SizeItems(items: Items): nat {
    match items
    case NoItems => 1
    case Item(_, e, rest) => 1 + Size(e) + SizeItems(rest)
    case Star(_, rest) => 1 + SizeItems(rest)
  }

  function SizeFrom(f: From): nat {
    match f
    case NoFrom => 1
    case Base(_, _, _, _) => 1
    case Derived(s, _) => 1 + SizeSelect(s)
    case Both(l, r) => 1 + SizeFrom(l) + SizeFrom(r)
    case On(g, e) => 1 + SizeFrom(g) + Size(e)
  }

  // ---------------------------------------------------------------- the sherpa

  /** The return value type of a node. */
  function TypeOf(e: Expr): TypeId {
    match e
    case Column(c, _) => c.ty
    case Const(k, _) => k.ty
    case Comparison(_, _, _) => BOOLEAN
    case Conjunction(_, _) => BOOLEAN
    case Subquery(_, _) => INVALID
  }

  predicate Convertible(t: TypeId) { t.INVALID? || t.VARCHAR? || t.INTEGER? }

  /** The types SetDesiredTypePair works with: the constraints if there are any, else the return types. */
  function PairBasis(dl: Option<TypeId>, dr: Option<TypeId>, tl: TypeId, tr: TypeId): (TypeId, TypeId) {
    if dl.None? && dr.None? then (tl, tr)
    else (if dl.Some? then dl.value else INVALID, if dr.Some? then dr.value else INVALID)
  }

  /** SetDesiredTypePair on desired types dl, dr and return types tl, tr: the desired types afterwards. */
  function PairTypes(dl: Option<TypeId>, dr: Option<TypeId>, tl: TypeId, tr: TypeId): (Option<TypeId>, Option<TypeId>) {
    var (l, r) := PairBasis(dl, dr, tl, tr);
    (if l != r && r != INVALID && Convertible(l) then Some(r) else dl,
     if l != r && l != INVALID && Convertible(r) then Some(l) else dr)
  }

  /** The node with another desired type: SetDesiredType. */
  function Note(e: Expr, d: Option<TypeId>): (r: Expr)
    ensures Size(r) == Size(e) && TypeOf(r) == TypeOf(e) && r.desired == d
  {
    e.(desired := d)
  }

  function ConstrainPair(l: Expr, r: Expr): (res: (Expr, Expr))
    ensures Size(res.0) == Size(l) && Size(res.1) == Size(r)
  {
    var (dl, dr) := PairTypes(l.desired, r.desired, TypeOf(l), TypeOf(r));
    (Note(l, dl), Note(r, dr))
  }

  function RequireBoolean(es: Exprs): (res: Exprs)
    ensures SizeAll(res) == SizeAll(es)
  {
    match es case Nil => Nil case Cons(e, rest) => Cons(Note(e, Some(BOOLEAN)), RequireBoolean(rest))
  }

  /** CheckDesiredType on a node of type t. */
  predicate Satisfies(desired: Option<TypeId>, t: TypeId) { desired.Some? ==> desired.value == t }

  // ---------------------------------------------------------------- visits

  ghost function BindExpr(env: Env, chain: ScopeChain, e: Expr): (r: Result<Expr>)
    ensures r.Ok? ==> Size(r.value) == Size(e)
    decreases Size(e)
  {
    match e
    case Column(c, desired) =>
      if !Satisfies(desired, c.ty) then Err(SyntaxError)
      else
        var c' :- Resolve(chain, c);
        Ok(Column(c', Some(c'.ty)))
    case Const(k, desired) =>
      var k' :- Promote(env.lib, k, if desired.Some? then desired.value else k.ty);
      Ok(Const(k', desired))
    case Comparison(l, r, desired) =>
      var l1 :- BindExpr(env, chain, l);
      var r1 :- BindExpr(env, chain, r);
      if !Satisfies(desired, BOOLEAN) then Err(SyntaxError)
      else
        var (l2, r2) := ConstrainPair(l1, r1);
        var l3 :- BindExpr(env, chain, l2);
        var r3 :- BindExpr(env, chain, r2);
        Ok(Comparison(l3, r3, desired))
    case Conjunction(es, desired) =>
      var es1 :- BindAll(env, chain, es);
      if !Satisfies(desired, BOOLEAN) then Err(SyntaxError)
      else
        var es3 :- BindAll(env, chain, RequireBoolean(es1));
        Ok(Conjunction(es3, desired))
    case Subquery(s, desired) =>
      var s' :- BindSelect(env, chain, s);
      Ok(Subquery(s', desired))
  }

  ghost function BindAll(env: Env, chain: ScopeChain, es: Exprs): (r: Result<Exprs>)
    ensures r.Ok? ==> SizeAll(r.value) == SizeAll(es)
    decreases SizeAll(es)
  {
    match es
    case Nil => Ok(Nil)
    case Cons(e, rest) =>
      var e' :- BindExpr(env, chain, e);
      var rest' :- BindAll(env, chain, rest);
      Ok(Cons(e', rest'))
  }

  /** The visit of a SELECT inside the contexts of chain: a new context is filled by FROM and used by the rest. */
  ghost function BindSelect(env: Env, chain: ScopeChain, s: Select): (r: Result<Select>)
    ensures r.Ok? ==> SizeSelect(r.value) == SizeSelect(s)
    decreases SizeSelect(s)
  {
    var (from, scope) :- BindFrom(env, chain, EMPTY_SCOPE, s.from);
    var clauses :- BindAll(env, Within(scope, chain), s.clauses);
    var items :- BindItems(env, Within(scope, chain), s.items);
    Ok(Select(from, clauses, items, chain.Height(), scope))
  }

  ghost function ResolveAll(chain: ScopeChain, cs: seq<ColumnRef>): Result<seq<ColumnRef>> {
    if cs == [] then Ok([])
    else
      var c :- Resolve(chain, cs[0]);
      var rest :- ResolveAll(chain, cs[1..]);
      Ok([c] + rest)
  }

  ghost function BindItems(env: Env, chain: ScopeChain, items: Items): (r: Result<Items>)
    requires chain.Within?
    ensures r.Ok? ==> SizeItems(r.value) == SizeItems(items)
    decreases SizeItems(items)
  {
    match items
    case NoItems => Ok(NoItems)
    case Item(alias, e, rest) =>
      var e' :- BindExpr(env, chain, e);
      var rest' :- BindItems(env, chain, rest);
      Ok(Item(alias, e', rest'))
    case Star(None, rest) =>
      var rest' :- BindItems(env, chain, rest);
      Ok(Star(Some(StarOf(env.order, chain.here, chain.above.Height())), rest'))
    case Star(Some(cs), rest) =>
      var cs' :- ResolveAll(chain, cs);
      var rest' :- BindItems(env, chain, rest);
      Ok(Star(Some(cs'), rest'))
  }

  function CheckDatabase(env: Env, name: string): Option<Error> {
    if name == "" then None
    else if name !in env.cat.databases then Some(UndefinedDatabase)
    else if env.cat.databases[name] != env.db then Some(FeatureNotSupported)
    else None
  }

  /** The select list as AddNestedTable reads it. */
  function Selections(items: Items): seq<Selected> {
    match items
    case NoItems => []
    case Item(alias, e, rest) =>
      [Selected(alias, if e.Column? then Some(e.c.column) else None, TypeOf(e))] + Selections(rest)
    case Star(None, rest) => Selections(rest)
    case Star(Some(cs), rest) => seq(|cs|, i requires 0 <= i < |cs| => Selected("", Some(cs[i].column), cs[i].ty)) + Selections(rest)
  }

  /** The visit of a FROM clause: the clause and the current context, whose scope was s, afterwards. */
  ghost function BindFrom(env: Env, chain: ScopeChain, s: Scope, f: From): (r: Result<(From, Scope)>)
    ensures r.Ok? ==> SizeFrom(r.value.0) == SizeFrom(f)
    decreases SizeFrom(f)
  {
    match f
    case NoFrom => Ok((f, s))
    case Base(db, ns, name, alias) =>
      if CheckDatabase(env, db).Some? then Err(CheckDatabase(env, db).value)
      else if name !in env.cat.searchPath then Err(UndefinedTable)
      else
        var s' :- WithRegular(env.cat, env.db, ns, name, if alias == "" then name else alias, s);
        Ok((f, s'))
    case Derived(select, alias) =>
      if alias == "" then Err(UndefinedTable)
      else
        var select' :- BindSelect(env, Within(s, chain), select);
        var s' :- WithNested(alias, NestedColumns(Selections(select'.items)), s);
        Ok((Derived(select', alias), s'))
    case Both(l, r) =>
      var (l', s1) :- BindFrom(env, chain, s, l);
      var (r', s2) :- BindFrom(env, chain, s1, r);
      Ok((Both(l', r'), s2))
    case On(g, e) =>
      var (g', s') :- BindFrom(env, chain, s, g);
      var e' :- BindExpr(env, Within(s', chain), e);
      Ok((On(g', e'), s'))
  }
}
