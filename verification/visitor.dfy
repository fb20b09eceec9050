/**
  * src/binder/bind_node_visitor.cpp: the visitor, updating nodes, notes and the current context in place.
  * Every visit is proved to do what BindSpec says.
  */
module Visitor {
  import opened Options
  import opened SqlTypes
  import opened Promotion
  import opened Scopes
  import opened Context
  import opened BindSpec
  import opened Sherpa
  import opened VisitorTrees
  import SelectLaws

  /** The result a visit reports: an error, or the value it left behind. */
  ghost function Report<T>(error: Option<Error>, v: T): Result<T> {
    if error.None? then Ok(v) else Err(error.value)
  }

  function ReturnType(t: Tree): TypeId
    reads Nodes(t)
  {
    match t
    case ColumnTree(n) => n.returnType
    case ConstTree(n) => n.returnType
    case ComparisonTree(_, _, _) => BOOLEAN
    case ConjunctionTree(_, _) => BOOLEAN
    case SubqueryTree(_, _) => INVALID
  }

  lemma RootOf(t: Tree, notes: Notes)
    ensures ValueOf(t, notes).desired == NoteOf(notes, Root(t)) && TypeOf(ValueOf(t, notes)) == ReturnType(t)
    ensures Root(t) in Nodes(t)
  {
  }

  /** Two operands in order. */
  ghost function BindPair(env: Env, chain: ScopeChain, l: Expr, r: Expr): Result<(Expr, Expr)> {
    var l' :- BindExpr(env, chain, l);
    var r' :- BindExpr(env, chain, r);
    Ok((l', r'))
  }

  /** The first pass over a comparison: its operands visited and noted. */
  ghost function NotedPair(env: Env, chain: ScopeChain, e: Expr): Result<(Expr, Expr)>
    requires e.Comparison?
  {
    var first :- BindPair(env, chain, e.left, e.right);
    if !Satisfies(e.desired, BOOLEAN) then Err(SyntaxError) else Ok(ConstrainPair(first.0, first.1))
  }

  /** A comparison is its first pass and another visit of the noted operands. */
  lemma ComparisonByPasses(env: Env, chain: ScopeChain, e: Expr, error: Option<Error>, noted: (Expr, Expr))
    requires e.Comparison? && NotedPair(env, chain, e) == Report(error, noted)
    ensures error.Some? ==> BindExpr(env, chain, e) == Err(error.value)
    ensures error.None? ==>
              BindExpr(env, chain, e) ==
              match BindPair(env, chain, noted.0, noted.1)
              case Err(x) => Err(x)
              case Ok(p) => Ok(Comparison(p.0, p.1, e.desired))
  {
  }

  /** The first pass over a conjunction: its operands visited and noted. */
  ghost function NotedAll(env: Env, chain: ScopeChain, e: Expr): Result<Exprs>
    requires e.Conjunction?
  {
    var first :- BindAll(env, chain, e.children);
    if !Satisfies(e.desired, BOOLEAN) then Err(SyntaxError) else Ok(RequireBoolean(first))
  }

  /** A conjunction is its first pass and another visit of the noted operands. */
  lemma ConjunctionByPasses(env: Env, chain: ScopeChain, e: Expr, error: Option<Error>, noted: Exprs)
    requires e.Conjunction? && NotedAll(env, chain, e) == Report(error, noted)
    ensures error.Some? ==> BindExpr(env, chain, e) == Err(error.value)
    ensures error.None? ==>
              BindExpr(env, chain, e) ==
              match BindAll(env, chain, noted)
              case Err(x) => Err(x)
              case Ok(es) => Ok(Conjunction(es, e.desired))
  {
  }

  /** The clauses and the select list of a SELECT. */
  ghost function BodyOf(clauses: Trees, items: ItemTrees, notes: Notes): (Exprs, Items)
    reads NodesAll(clauses), NodesItems(items)
  {
    (ValuesOf(clauses, notes), ItemsOf(items, notes))
  }

  lemma BodyFrame(clauses: Trees, items: ItemTrees, notes: Notes, notes': Notes)
    requires Agree(notes, notes', NodesAll(clauses) + NodesItems(items))
    ensures BodyOf(clauses, items, notes) == BodyOf(clauses, items, notes')
  {
    ValuesFrame(clauses, notes, notes');
    ItemsFrame(items, notes, notes');
  }

  ghost function BindBody(env: Env, chain: ScopeChain, body: (Exprs, Items)): Result<(Exprs, Items)>
    requires chain.Within?
  {
    var clauses :- BindAll(env, chain, body.0);
    var items :- BindItems(env, chain, body.1);
    Ok((clauses, items))
  }

  /** The place of a star in a select list. */
  ghost function BindStar(env: Env, chain: ScopeChain, expansion: Option<seq<ColumnRef>>): Result<Option<seq<ColumnRef>>>
    requires chain.Within?
  {
    if expansion.None? then Ok(Some(StarOf(env.order, chain.here, chain.above.Height())))
    else
      var cs :- ResolveAll(chain, expansion.value);
      Ok(Some(cs))
  }

  /** A SELECT without what its own node records. */
  datatype Parts = Parts(from: From, body: (Exprs, Items))

  ghost function PartsOf(s: SelectTree, notes: Notes): Parts
    reads NodesFrom(s.from), NodesAll(s.clauses), NodesItems(s.items)
  {
    Parts(FromOf(s.from, notes), BodyOf(s.clauses, s.items, notes))
  }

  /** FROM fills an empty context; the parts afterwards and the context. */
  ghost function BindParts(env: Env, chain: ScopeChain, p: Parts): Result<(Parts, Scope)> {
    var filled :- BindFrom(env, chain, EMPTY_SCOPE, p.from);
    var body :- BindBody(env, Within(filled.1, chain), p.body);
    Ok((Parts(filled.0, body), filled.1))
  }

  lemma SelectByParts(env: Env, chain: ScopeChain, s: Select, error: Option<Error>, p: Parts, scope: Scope)
    requires BindParts(env, chain, Parts(s.from, (s.clauses, s.items))) == Report(error, (p, scope))
    ensures BindSelect(env, chain, s) == Report(error, Select(p.from, p.body.0, p.body.1, chain.Height(), scope))
  {
  }

  lemma DerivedByParts(env: Env, chain: ScopeChain, s: Scope, select: Select, alias: string,
                       select': Select, error: Option<Error>, s': Scope)
    requires alias != "" && BindSelect(env, Within(s, chain), select) == Ok(select')
    requires WithNested(alias, NestedColumns(Selections(select'.items)), s) == Report(error, s')
    ensures BindFrom(env, chain, s, Derived(select, alias)) == Report(error, (Derived(select', alias), s'))
  {
  }

  class BindNodeVisitor {
    const env: Env
    const sherpa: BinderSherpa
    var context: BinderContext?

    constructor (env: Env)
      requires SelectLaws.ValidEnv(env)
      ensures this.env == env && fresh(sherpa) && sherpa.desired == map[] && context == null
    {
      this.env := env;
      sherpa := new BinderSherpa();
      context := null;
    }

    /** The contexts from the current one upwards. */
    ghost function Chain(): ScopeChain
      requires context != null ==> context.Linked()
      reads this, if context == null then {} else context.ancestors
    {
      if context == null then NoScope else context.Contexts()
    }

    ghost predicate Ready()
      reads this, if context == null then {} else context.ancestors
    {
      SelectLaws.ValidEnv(env) && (context != null ==> context.Linked()) && Chain().Valid()
    }

    /** Nodes of a parse tree are none of the visitor's own objects. */
    ghost predicate Apart(nodes: set<object>)
      reads this
    {
      && this !in nodes && sherpa !in nodes
      && (context != null ==> forall c :: c in context.ancestors ==> c !in nodes)
    }

    /**
      * BindNameToNode for a SELECT. At the end there is no context, and every reference is in its scope if those
      * that came bound were.
      */
    method BindNameToNode(s: SelectTree) returns (error: Option<Error>)
      requires context == null && Ready() && ProperSelect(s) && Apart(NodesSelect(s))
      modifies NodesSelect(s), sherpa, this`context
      ensures BindSelect(env, NoScope, old(SelectOf(s, sherpa.desired))) == Report(error, SelectOf(s, sherpa.desired))
      ensures error.None? ==> context == null
      ensures error.None? && old(SelectLaws.PriorSelect(env, SelectLaws.NoTables, SelectOf(s, sherpa.desired))) ==>
                SelectLaws.ScopedSelect(NoScope, SelectOf(s, sherpa.desired))
    {
      ghost var select := SelectOf(s, sherpa.desired);
      error := VisitSelect(s);
      if error.None? && SelectLaws.PriorSelect(env, SelectLaws.NoTables, select) {
        SelectLaws.ScopeDiscipline(env, NoScope, select);
      }
    }

    // -------------------------------------------------------------- columns

    /** The part of the column visit that binds names to oids. */
    method BindNames(n: ColumnValueExpression) returns (error: Option<Error>)
      requires Ready() && Apart({n})
      modifies n
      ensures Resolve(old(Chain()), old(n.Get())) == Report(error, n.Get())
    {
      if n.tableOid != 0 { return None; }
      if n.tableName == "" && n.columnName == "" && n.columnOid != 0 { return Some(UndefinedColumn); }
      var alias, col := Lower(n.tableName), Lower(n.columnName);
      if alias == "" {
        error := BindUnqualified(n);
      } else {
        error := BindQualified(n, alias, col);
      }
    }

    method BindUnqualified(n: ColumnValueExpression) returns (error: Option<Error>)
      requires Ready() && Apart({n})
      modifies n
      ensures ResolveUnqualified(old(Chain()), old(n.Get())) == Report(error, n.Get())
    {
      if context == null { return Some(UndefinedColumn); }
      UnqualifiedErrors(Chain(), n.Get());
      var found := context.SetColumnPosTuple(n);
      match found
      case Err(e) => return Some(e);
      case Ok(true) => return None;
      case Ok(false) => return Some(UndefinedColumn);
    }

    method BindQualified(n: ColumnValueExpression, alias: string, col: string) returns (error: Option<Error>)
      requires Ready() && Apart({n})
      requires alias == Lower(n.tableName) && col == Lower(n.columnName)
      modifies n
      ensures ResolveQualified(old(Chain()), old(n.Get())) == Report(error, n.Get())
    {
      if context == null { return Some(UndefinedTable); }
      var table := context.GetRegularTableObj(alias, n);
      if table.Some? {
        if !ColumnInSchema(table.value, col) { return Some(UndefinedColumn); }
        BinderContext.SetColumnPos(col, table.value, n);
        return None;
      }
      var found := context.CheckNestedTableColumn(alias, col, n);
      match found
      case Err(e) => return Some(e);
      case Ok(true) => return None;
      case Ok(false) => return Some(UndefinedTable);
    }

    static lemma {:induction false} UnqualifiedErrors(chain: ScopeChain, c: ColumnRef)
      ensures var r := ResolveUnqualified(chain, c);
              r.Ok? || r.error == AmbiguousColumn || r.error == UndefinedColumn
    {
      if chain.Within? { UnqualifiedErrors(chain.above, c); }
    }

    method VisitColumn(n: ColumnValueExpression) returns (error: Option<Error>)
      requires Ready() && Apart({n})
      modifies n, sherpa
      ensures BindExpr(env, old(Chain()), old(ValueOf(ColumnTree(n), sherpa.desired)))
           == Report(error, ValueOf(ColumnTree(n), sherpa.desired))
      ensures SameOutside(old(sherpa.desired), sherpa.desired, {n})
    {
      error := sherpa.CheckDesiredType(n, n.returnType);
      if error.Some? { return; }
      error := BindNames(n);
      if error.Some? { return; }
      sherpa.SetDesiredType(n, n.returnType);
    }

    method VisitConstant(n: ConstantValueExpression) returns (error: Option<Error>)
      requires Ready() && Apart({n})
      modifies n
      ensures BindExpr(env, old(Chain()), old(ValueOf(ConstTree(n), sherpa.desired)))
           == Report(error, ValueOf(ConstTree(n), sherpa.desired))
    {
      error := CheckAndTryPromoteType(env.lib, n, sherpa.GetDesiredType(n, n.returnType));
    }

    // -------------------------------------------------------------- expressions

    method VisitExpr(t: Tree) returns (error: Option<Error>)
      requires Ready() && Proper(t) && Apart(Nodes(t))
      modifies Nodes(t), sherpa, this`context
      ensures BindExpr(env, old(Chain()), old(ValueOf(t, sherpa.desired))) == Report(error, ValueOf(t, sherpa.desired))
      ensures SameOutside(old(sherpa.desired), sherpa.desired, Nodes(t))
      ensures error.None? ==> context == old(context) && Ready() && Chain() == old(Chain())
      decreases t, 3
    {
      match t
      case ColumnTree(n) => error := VisitColumn(n);
      case ConstTree(n) => error := VisitConstant(n);
      case ComparisonTree(_, _, _) => error := VisitComparison(t);
      case ConjunctionTree(_, _) => error := VisitConjunction(t);
      case SubqueryTree(_, s) => error := VisitSubquery(t);
    }

    method VisitPair(t: Tree) returns (error: Option<Error>)
      requires t.ComparisonTree? && Ready() && Proper(t) && Apart(Nodes(t))
      modifies Nodes(t.left), Nodes(t.right), sherpa, this`context
      ensures BindPair(env, old(Chain()), old(ValueOf(t.left, sherpa.desired)), old(ValueOf(t.right, sherpa.desired)))
           == Report(error, (ValueOf(t.left, sherpa.desired), ValueOf(t.right, sherpa.desired)))
      ensures SameOutside(old(sherpa.desired), sherpa.desired, Nodes(t.left) + Nodes(t.right))
      ensures error.None? ==> context == old(context) && Ready() && Chain() == old(Chain())
      decreases t, 0
    {
      ghost var notes := sherpa.desired;
      Exist(t);
      error := VisitExpr(t.left);
      if error.Some? { return; }
      ghost var notes1 := sherpa.desired;
      ValueFrame(t.right, notes, notes1);
      assert ValueOf(t.right, notes1) == old(ValueOf(t.right, sherpa.desired));
      ghost var l1 := ValueOf(t.left, notes1);
      error := VisitExpr(t.right);
      if error.Some? { return; }
      ValueFrame(t.left, notes1, sherpa.desired);
      assert ValueOf(t.left, sherpa.desired) == l1;
    }

    /** SetDesiredTypePair on the operands of a comparison. */
    method NotePair(t: Tree)
      requires t.ComparisonTree? && Proper(t) && sherpa !in Nodes(t)
      modifies sherpa
      ensures (ValueOf(t.left, sherpa.desired), ValueOf(t.right, sherpa.desired))
           == ConstrainPair(old(ValueOf(t.left, sherpa.desired)), old(ValueOf(t.right, sherpa.desired)))
      ensures SameOutside(old(sherpa.desired), sherpa.desired, Nodes(t.left) + Nodes(t.right))
    {
      ghost var notes := sherpa.desired;
      Exist(t);
      RootOf(t.left, notes);
      RootOf(t.right, notes);
      sherpa.SetDesiredTypePair(Root(t.left), Root(t.right), ReturnType(t.left), ReturnType(t.right));
      NoteFrame(t.left, notes, sherpa.desired);
      NoteFrame(t.right, notes, sherpa.desired);
    }

    method VisitComparison(t: Tree) returns (error: Option<Error>)
      requires t.ComparisonTree? && Ready() && Proper(t) && Apart(Nodes(t))
      modifies Nodes(t), sherpa, this`context
      ensures BindExpr(env, old(Chain()), old(ValueOf(t, sherpa.desired))) == Report(error, ValueOf(t, sherpa.desired))
      ensures SameOutside(old(sherpa.desired), sherpa.desired, Nodes(t))
      ensures error.None? ==> context == old(context) && Ready() && Chain() == old(Chain())
      decreases t, 2
    {
      ghost var chain, e := Chain(), ValueOf(t, sherpa.desired);
      error := VisitAndNote(t);
      ComparisonByPasses(env, chain, e, error, (ValueOf(t.left, sherpa.desired), ValueOf(t.right, sherpa.desired)));
      if error.Some? { return; }
      error := VisitPair(t);
      assert NoteOf(sherpa.desired, t.node) == e.desired;
    }

    /** The first pass over a comparison, its type check, and the notes for the second pass. */
    method VisitAndNote(t: Tree) returns (error: Option<Error>)
      requires t.ComparisonTree? && Ready() && Proper(t) && Apart(Nodes(t))
      modifies Nodes(t.left), Nodes(t.right), sherpa, this`context
      ensures NotedPair(env, old(Chain()), old(ValueOf(t, sherpa.desired)))
           == Report(error, (ValueOf(t.left, sherpa.desired), ValueOf(t.right, sherpa.desired)))
      ensures SameOutside(old(sherpa.desired), sherpa.desired, Nodes(t.left) + Nodes(t.right))
      ensures error.None? ==> context == old(context) && Ready() && Chain() == old(Chain())
      decreases t, 1
    {
      error := VisitPair(t);
      if error.Some? { return; }
      error := sherpa.CheckDesiredType(t.node, BOOLEAN);
      if error.Some? { return; }
      NotePair(t);
    }

    /** AcceptChildren: the operands in order. */
    method VisitAll(ts: Trees) returns (error: Option<Error>)
      requires Ready() && ProperAll(ts) && Apart(NodesAll(ts))
      modifies NodesAll(ts), sherpa, this`context
      ensures BindAll(env, old(Chain()), old(ValuesOf(ts, sherpa.desired))) == Report(error, ValuesOf(ts, sherpa.desired))
      ensures SameOutside(old(sherpa.desired), sherpa.desired, NodesAll(ts))
      ensures error.None? ==> context == old(context) && Ready() && Chain() == old(Chain())
      decreases ts, 0
    {
      if ts.NoTrees? { return None; }
      ghost var notes := sherpa.desired;
      ExistAll(ts);
      error := VisitExpr(ts.head);
      if error.Some? { return; }
      ghost var notes1 := sherpa.desired;
      ValuesFrame(ts.tail, notes, notes1);
      assert ValuesOf(ts.tail, notes1) == old(ValuesOf(ts.tail, sherpa.desired));
      ghost var e1 := ValueOf(ts.head, notes1);
      error := VisitAll(ts.tail);
      if error.Some? { return; }
      ValueFrame(ts.head, notes1, sherpa.desired);
      assert ValueOf(ts.head, sherpa.desired) == e1;
    }

    /** SetDesiredType to BOOLEAN on every operand of a conjunction. */
    method NoteBooleans(ts: Trees)
      requires ProperAll(ts) && sherpa !in NodesAll(ts)
      modifies sherpa
      ensures ValuesOf(ts, sherpa.desired) == RequireBoolean(old(ValuesOf(ts, sherpa.desired)))
      ensures SameOutside(old(sherpa.desired), sherpa.desired, NodesAll(ts))
    {
      if ts.MoreTrees? {
        ghost var notes := sherpa.desired;
        ExistAll(ts);
        RootOf(ts.head, notes);
        sherpa.SetDesiredType(Root(ts.head), BOOLEAN);
        ghost var notes1 := sherpa.desired;
        NoteFrame(ts.head, notes, notes1);
        ValuesFrame(ts.tail, notes, notes1);
        NoteBooleans(ts.tail);
        ValueFrame(ts.head, notes1, sherpa.desired);
      }
    }

    method VisitConjunction(t: Tree) returns (error: Option<Error>)
      requires t.ConjunctionTree? && Ready() && Proper(t) && Apart(Nodes(t))
      modifies Nodes(t), sherpa, this`context
      ensures BindExpr(env, old(Chain()), old(ValueOf(t, sherpa.desired))) == Report(error, ValueOf(t, sherpa.desired))
      ensures SameOutside(old(sherpa.desired), sherpa.desired, Nodes(t))
      ensures error.None? ==> context == old(context) && Ready() && Chain() == old(Chain())
      decreases t, 2
    {
      ghost var chain, e := Chain(), ValueOf(t, sherpa.desired);
      error := VisitAndNoteAll(t);
      ConjunctionByPasses(env, chain, e, error, ValuesOf(t.children, sherpa.desired));
      if error.Some? { return; }
      error := VisitAll(t.children);
      assert NoteOf(sherpa.desired, t.node) == e.desired;
    }

    /** The first pass over a conjunction, its type check, and the notes for the second pass. */
    method VisitAndNoteAll(t: Tree) returns (error: Option<Error>)
      requires t.ConjunctionTree? && Ready() && Proper(t) && Apart(Nodes(t))
      modifies NodesAll(t.children), sherpa, this`context
      ensures NotedAll(env, old(Chain()), old(ValueOf(t, sherpa.desired))) == Report(error, ValuesOf(t.children, sherpa.desired))
      ensures SameOutside(old(sherpa.desired), sherpa.desired, NodesAll(t.children))
      ensures error.None? ==> context == old(context) && Ready() && Chain() == old(Chain())
      decreases t, 1
    {
      error := VisitAll(t.children);
      if error.Some? { return; }
      error := sherpa.CheckDesiredType(t.node, BOOLEAN);
      if error.Some? { return; }
      NoteBooleans(t.children);
    }

    method VisitSubquery(t: Tree) returns (error: Option<Error>)
      requires t.SubqueryTree? && Ready() && Proper(t) && Apart(Nodes(t))
      modifies Nodes(t), sherpa, this`context
      ensures BindExpr(env, old(Chain()), old(ValueOf(t, sherpa.desired))) == Report(error, ValueOf(t, sherpa.desired))
      ensures SameOutside(old(sherpa.desired), sherpa.desired, Nodes(t))
      ensures error.None? ==> context == old(context) && Ready() && Chain() == old(Chain())
      decreases t, 1
    {
      ghost var d := NoteOf(sherpa.desired, t.node);
      error := VisitSelect(t.select);
      assert NoteOf(sherpa.desired, t.node) == d;
    }

    // -------------------------------------------------------------- statements

    /** The clauses and then the select list, in the context that FROM has filled. */
    method VisitBody(s: SelectTree) returns (error: Option<Error>)
      requires context != null && Ready() && ProperAll(s.clauses) && ProperItems(s.items)
      requires NodesAll(s.clauses) !! NodesItems(s.items) && Apart(NodesAll(s.clauses)) && Apart(NodesItems(s.items))
      modifies NodesAll(s.clauses), NodesItems(s.items), sherpa, this`context
      ensures BindBody(env, old(Chain()), old(BodyOf(s.clauses, s.items, sherpa.desired)))
           == Report(error, BodyOf(s.clauses, s.items, sherpa.desired))
      ensures SameOutside(old(sherpa.desired), sherpa.desired, NodesAll(s.clauses) + NodesItems(s.items))
      ensures error.None? ==> context == old(context) && Ready() && Chain() == old(Chain())
      decreases s, 0
    {
      ghost var notes := sherpa.desired;
      ExistAll(s.clauses);
      ExistItems(s.items);
      error := VisitAll(s.clauses);
      if error.Some? { return; }
      ghost var notes1 := sherpa.desired;
      ItemsFrame(s.items, notes, notes1);
      assert ItemsOf(s.items, notes1) == old(ItemsOf(s.items, sherpa.desired));
      ghost var clauses1 := ValuesOf(s.clauses, notes1);
      error := VisitItems(s.items);
      if error.Some? { return; }
      ValuesFrame(s.clauses, notes1, sherpa.desired);
      assert ValuesOf(s.clauses, sherpa.desired) == clauses1;
    }

    method VisitParts(s: SelectTree) returns (error: Option<Error>)
      requires context != null && context.Here() == EMPTY_SCOPE && Ready() && ProperSelect(s) && Apart(NodesSelect(s))
      modifies NodesFrom(s.from), NodesAll(s.clauses), NodesItems(s.items), sherpa, this`context, context
      ensures BindParts(env, old(Chain().above), old(PartsOf(s, sherpa.desired)))
           == Report(error, (PartsOf(s, sherpa.desired), old(context).Here()))
      ensures SameOutside(old(sherpa.desired), sherpa.desired, NodesSelect(s))
      ensures error.None? ==> context == old(context) && Ready() && Chain().above == old(Chain().above)
      decreases s, 1
    {
      ghost var notes := sherpa.desired;
      ExistSelect(s);
      error := VisitFrom(s.from);
      if error.Some? { return; }
      ghost var notes1 := sherpa.desired;
      BodyFrame(s.clauses, s.items, notes, notes1);
      assert BodyOf(s.clauses, s.items, notes1) == old(BodyOf(s.clauses, s.items, sherpa.desired));
      ghost var from1 := FromOf(s.from, notes1);
      error := VisitBody(s);
      if error.Some? { return; }
      FromFrame(s.from, notes1, sherpa.desired);
      assert FromOf(s.from, sherpa.desired) == from1;
    }

    /** A new context is entered, filled and used. */
    method VisitInside(s: SelectTree) returns (error: Option<Error>, ghost scope: Scope)
      requires Ready() && ProperSelect(s) && Apart(NodesSelect(s))
      modifies NodesFrom(s.from), NodesAll(s.clauses), NodesItems(s.items), sherpa, this`context
      ensures BindParts(env, old(Chain()), old(PartsOf(s, sherpa.desired))) == Report(error, (PartsOf(s, sherpa.desired), scope))
      ensures SameOutside(old(sherpa.desired), sherpa.desired, NodesSelect(s))
      ensures error.None? ==>
                && context != null && context.upper == old(context) && fresh(context)
                && Ready() && Chain() == Within(scope, old(Chain()))
      decreases s, 2
    {
      ExistSelect(s);
      var inner := new BinderContext(context);
      context := inner;
      error := VisitParts(s);
      scope := inner.Here();
    }

    /** Then it is left again for the context above it. */
    method VisitSelect(s: SelectTree) returns (error: Option<Error>)
      requires Ready() && ProperSelect(s) && Apart(NodesSelect(s))
      modifies NodesSelect(s), sherpa, this`context
      ensures BindSelect(env, old(Chain()), old(SelectOf(s, sherpa.desired))) == Report(error, SelectOf(s, sherpa.desired))
      ensures SameOutside(old(sherpa.desired), sherpa.desired, NodesSelect(s))
      ensures error.None? ==> context == old(context) && Ready() && Chain() == old(Chain())
      decreases s, 3
    {
      ghost var chain, select := Chain(), SelectOf(s, sherpa.desired);
      ghost var scope;
      ExistSelect(s);
      error, scope := VisitInside(s);
      SelectByParts(env, chain, select, error, PartsOf(s, sherpa.desired), scope);
      if error.Some? { return; }
      LeaveSelect(s);
    }

    /** The depth is recorded and the context of the SELECT is left. */
    method LeaveSelect(s: SelectTree)
      requires context != null && Ready() && ProperSelect(s) && Apart(NodesSelect(s))
      modifies s.stmt, this`context
      ensures s.stmt.depth == old(context).depth && s.stmt.scope == old(context).Here()
      ensures PartsOf(s, sherpa.desired) == old(PartsOf(s, sherpa.desired))
      ensures context == old(context).upper && Ready() && Chain() == old(Chain()).above
    {
      ExistSelect(s);
      context.AncestorsAreShallower();
      s.stmt.depth := context.depth;
      s.stmt.scope := context.Here();
      context := context.upper;
    }

    method VisitItems(items: ItemTrees) returns (error: Option<Error>)
      requires context != null && Ready() && ProperItems(items) && Apart(NodesItems(items))
      modifies NodesItems(items), sherpa, this`context
      ensures BindItems(env, old(Chain()), old(ItemsOf(items, sherpa.desired))) == Report(error, ItemsOf(items, sherpa.desired))
      ensures SameOutside(old(sherpa.desired), sherpa.desired, NodesItems(items))
      ensures error.None? ==> context == old(context) && Ready() && Chain() == old(Chain())
      decreases items, 1
    {
      match items
      case NoItemTrees => error := None;
      case ItemTree(_, _, _) => error := VisitItem(items);
      case StarTree(_, _) => error := VisitStar(items);
    }

    method VisitItem(items: ItemTrees) returns (error: Option<Error>)
      requires items.ItemTree? && context != null && Ready() && ProperItems(items) && Apart(NodesItems(items))
      modifies NodesItems(items), sherpa, this`context
      ensures BindItems(env, old(Chain()), old(ItemsOf(items, sherpa.desired))) == Report(error, ItemsOf(items, sherpa.desired))
      ensures SameOutside(old(sherpa.desired), sherpa.desired, NodesItems(items))
      ensures error.None? ==> context == old(context) && Ready() && Chain() == old(Chain())
      decreases items, 0
    {
      ghost var notes := sherpa.desired;
      ExistItems(items);
      error := VisitExpr(items.e);
      if error.Some? { return; }
      ghost var notes1 := sherpa.desired;
      ItemsFrame(items.rest, notes, notes1);
      assert ItemsOf(items.rest, notes1) == old(ItemsOf(items.rest, sherpa.desired));
      ghost var e1 := ValueOf(items.e, notes1);
      error := VisitItems(items.rest);
      if error.Some? { return; }
      ValueFrame(items.e, notes1, sherpa.desired);
      assert ValueOf(items.e, sherpa.desired) == e1;
    }

    /** The first visit expands a star; later ones visit the columns it was replaced by. */
    method VisitStar(items: ItemTrees) returns (error: Option<Error>)
      requires items.StarTree? && context != null && Ready() && ProperItems(items) && Apart(NodesItems(items))
      modifies NodesItems(items), sherpa, this`context
      ensures BindItems(env, old(Chain()), old(ItemsOf(items, sherpa.desired))) == Report(error, ItemsOf(items, sherpa.desired))
      ensures SameOutside(old(sherpa.desired), sherpa.desired, NodesItems(items))
      ensures error.None? ==> context == old(context) && Ready() && Chain() == old(Chain())
      decreases items, 0
    {
      ExistItems(items);
      error := ExpandStar(items.star);
      if error.Some? { return; }
      error := VisitItems(items.rest);
    }

    method ExpandStar(star: StarExpression) returns (error: Option<Error>)
      requires context != null && Ready() && Apart({star})
      modifies star
      ensures BindStar(env, old(Chain()), old(star.expansion)) == Report(error, star.expansion)
    {
      var refs;
      if star.expansion.None? {
        error := None;
        refs := context.GenerateAllColumnExpressions(env.order);
      } else {
        error, refs := VisitColumns(star.expansion.value);
      }
      star.expansion := Some(refs);
    }

    /** The columns of an expanded star; each satisfies its own note, so only names are bound again. */
    method VisitColumns(cs: seq<ColumnRef>) returns (error: Option<Error>, refs: seq<ColumnRef>)
      requires Ready()
      ensures ResolveAll(Chain(), cs) == Report(error, refs)
      decreases |cs|
    {
      if cs == [] { return None, []; }
      var n := new ColumnValueExpression(cs[0]);
      error := BindNames(n);
      if error.Some? { return error, []; }
      var rest;
      error, rest := VisitColumns(cs[1..]);
      refs := [n.Get()] + rest;
    }

    method VisitFrom(f: FromTree) returns (error: Option<Error>)
      requires context != null && Ready() && ProperFrom(f) && Apart(NodesFrom(f))
      modifies NodesFrom(f), sherpa, this`context, context
      ensures BindFrom(env, old(Chain().above), old(context.Here()), old(FromOf(f, sherpa.desired)))
           == Report(error, (FromOf(f, sherpa.desired), old(context).Here()))
      ensures SameOutside(old(sherpa.desired), sherpa.desired, NodesFrom(f))
      ensures error.None? ==> context == old(context) && Ready() && Chain().above == old(Chain().above)
      decreases f, 1
    {
      match f
      case NoFromTree => error := None;
      case BaseTree(_, _, _, _) => error := VisitBase(f);
      case DerivedTree(_, _) => error := VisitDerived(f);
      case BothTree(_, _) => error := VisitBoth(f);
      case OnTree(_, _) => error := VisitOn(f);
    }

    method VisitBase(f: FromTree) returns (error: Option<Error>)
      requires f.BaseTree? && context != null && Ready()
      modifies context
      ensures BindFrom(env, old(Chain().above), old(context.Here()), Base(f.db, f.ns, f.name, f.alias))
           == Report(error, (Base(f.db, f.ns, f.name, f.alias), context.Here()))
      ensures error.None? ==> Ready() && Chain().above == old(Chain().above)
    {
      context.AncestorsAreShallower();
      error := CheckDatabase(env, f.db);
      if error.Some? { return; }
      if f.name !in env.cat.searchPath { return Some(UndefinedTable); }
      error := context.AddRegularTable(env.cat, env.db, f.ns, f.name, if f.alias == "" then f.name else f.alias);
    }

    method VisitDerived(f: FromTree) returns (error: Option<Error>)
      requires f.DerivedTree? && context != null && Ready() && ProperFrom(f) && Apart(NodesFrom(f))
      modifies NodesFrom(f), sherpa, this`context, context
      ensures BindFrom(env, old(Chain().above), old(context.Here()), old(FromOf(f, sherpa.desired)))
           == Report(error, (FromOf(f, sherpa.desired), old(context).Here()))
      ensures SameOutside(old(sherpa.desired), sherpa.desired, NodesFrom(f))
      ensures error.None? ==> context == old(context) && Ready() && Chain().above == old(Chain().above)
      decreases f, 0
    {
      if f.alias == "" { return Some(UndefinedTable); }
      ghost var chain, s, select := Chain().above, context.Here(), SelectOf(f.select, sherpa.desired);
      var previous := context;
      error := VisitSelect(f.select);
      if error.Some? { return; }
      context := previous;
      assert Chain() == Within(s, chain);
      ghost var select1 := SelectOf(f.select, sherpa.desired);
      assert BindSelect(env, Within(s, chain), select) == Ok(select1);
      error := AddDerived(f);
      DerivedByParts(env, chain, s, select, f.alias, select1, error, context.Here());
    }

    method AddDerived(f: FromTree) returns (error: Option<Error>)
      requires f.DerivedTree? && context != null && Ready() && Apart(NodesFrom(f))
      modifies context
      ensures WithNested(f.alias, NestedColumns(old(Selections(ItemsOf(f.select.items, sherpa.desired)))), old(context.Here()))
           == Report(error, context.Here())
      ensures FromOf(f, sherpa.desired) == old(FromOf(f, sherpa.desired))
      ensures error.None? ==> Ready() && Chain().above == old(Chain().above)
    {
      ExistFrom(f);
      context.AncestorsAreShallower();
      SelectionsOf(f.select.items, sherpa.desired);
      error := context.AddNestedTable(f.alias, SelectionsIn(f.select.items));
    }

    method VisitBoth(f: FromTree) returns (error: Option<Error>)
      requires f.BothTree? && context != null && Ready() && ProperFrom(f) && Apart(NodesFrom(f))
      modifies NodesFrom(f), sherpa, this`context, context
      ensures BindFrom(env, old(Chain().above), old(context.Here()), old(FromOf(f, sherpa.desired)))
           == Report(error, (FromOf(f, sherpa.desired), old(context).Here()))
      ensures SameOutside(old(sherpa.desired), sherpa.desired, NodesFrom(f))
      ensures error.None? ==> context == old(context) && Ready() && Chain().above == old(Chain().above)
      decreases f, 0
    {
      ghost var notes := sherpa.desired;
      ExistFrom(f);
      error := VisitFrom(f.first);
      if error.Some? { return; }
      FromFrame(f.second, notes, sherpa.desired);
      assert FromOf(f.second, sherpa.desired) == old(FromOf(f.second, sherpa.desired));
      error := VisitSecond(f);
    }

    /** The rest of a list of tables; the first ones stay as they are. */
    method VisitSecond(f: FromTree) returns (error: Option<Error>)
      requires f.BothTree? && context != null && Ready() && ProperFrom(f) && Apart(NodesFrom(f))
      modifies NodesFrom(f.second), sherpa, this`context, context
      ensures BindFrom(env, old(Chain().above), old(context.Here()), old(FromOf(f.second, sherpa.desired)))
           == Report(error, (FromOf(f.second, sherpa.desired), old(context).Here()))
      ensures FromOf(f.first, sherpa.desired) == old(FromOf(f.first, sherpa.desired))
      ensures SameOutside(old(sherpa.desired), sherpa.desired, NodesFrom(f.second))
      ensures error.None? ==> context == old(context) && Ready() && Chain().above == old(Chain().above)
      decreases f.second, 2
    {
      ghost var notes := sherpa.desired;
      ExistFrom(f);
      error := VisitFrom(f.second);
      FromFrame(f.first, notes, sherpa.desired);
    }

    method VisitOn(f: FromTree) returns (error: Option<Error>)
      requires f.OnTree? && context != null && Ready() && ProperFrom(f) && Apart(NodesFrom(f))
      modifies NodesFrom(f), sherpa, this`context, context
      ensures BindFrom(env, old(Chain().above), old(context.Here()), old(FromOf(f, sherpa.desired)))
           == Report(error, (FromOf(f, sherpa.desired), old(context).Here()))
      ensures SameOutside(old(sherpa.desired), sherpa.desired, NodesFrom(f))
      ensures error.None? ==> context == old(context) && Ready() && Chain().above == old(Chain().above)
      decreases f, 0
    {
      ghost var notes := sherpa.desired;
      ExistFrom(f);
      error := VisitFrom(f.tables);
      if error.Some? { return; }
      ValueFrame(f.condition, notes, sherpa.desired);
      assert ValueOf(f.condition, sherpa.desired) == old(ValueOf(f.condition, sherpa.desired));
      error := VisitCondition(f);
    }

    /** The condition of a join; its tables stay as they are. */
    method VisitCondition(f: FromTree) returns (error: Option<Error>)
      requires f.OnTree? && Ready() && ProperFrom(f) && Apart(NodesFrom(f))
      modifies Nodes(f.condition), sherpa, this`context
      ensures BindExpr(env, old(Chain()), old(ValueOf(f.condition, sherpa.desired)))
           == Report(error, ValueOf(f.condition, sherpa.desired))
      ensures FromOf(f.tables, sherpa.desired) == old(FromOf(f.tables, sherpa.desired))
      ensures SameOutside(old(sherpa.desired), sherpa.desired, Nodes(f.condition))
      ensures error.None? ==> context == old(context) && Ready() && Chain() == old(Chain())
      decreases f.condition, 4
    {
      ghost var notes := sherpa.desired;
      ExistFrom(f);
      error := VisitExpr(f.condition);
      FromFrame(f.tables, notes, sherpa.desired);
    }
  }

  /** The select list as AddNestedTable reads it. */
  function SelectionsIn(items: ItemTrees): seq<Selected>
    reads NodesItems(items)
  {
    match items
    case NoItemTrees => []
    case ItemTree(alias, t, rest) =>
      [Selected(alias, if t.ColumnTree? then Some(t.column.columnName) else None, ReturnType(t))] + SelectionsIn(rest)
    case StarTree(star, rest) =>
      (if star.expansion.None? then []
       else var cs := star.expansion.value;
            seq(|cs|, i requires 0 <= i < |cs| => Selected("", Some(cs[i].column), cs[i].ty))) + SelectionsIn(rest)
  }

  lemma {:induction false} SelectionsOf(items: ItemTrees, notes: Notes)
    ensures SelectionsIn(items) == Selections(ItemsOf(items, notes))
  {
    match items
    case NoItemTrees =>
    case ItemTree(_, t, rest) => RootOf(t, notes); SelectionsOf(rest, notes);
    case StarTree(_, rest) => SelectionsOf(rest, notes);
  }
}
