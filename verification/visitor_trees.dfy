/**
  * Parse trees as the visitor walks them: their shape is fixed, their nodes are objects that visits update in
  * place, and the sherpa's notes are kept by node identity. Each tree is read as a value of BindSpec.
  */
module VisitorTrees {
  import opened Options
  import opened Promotion
  import opened Scopes
  import opened Context
  import opened BindSpec
  import opened Sherpa

  /** A comparison, conjunction or subquery node; visits change nothing in it. */
  class OperatorNode {
    constructor () { }
  }

  /** The place of a star in a select list; after the first visit it holds the generated columns. */
  class StarExpression {
    var expansion: Option<seq<ColumnRef>>

    constructor ()
      ensures expansion == None
    {
      expansion := None;
    }
  }

  class SelectStatement {
    var depth: int
    /** The context of the last visit, which the visitor itself forgets. */
    ghost var scope: Scope

    constructor ()
      ensures depth == -1 && scope == EMPTY_SCOPE
    {
      depth, scope := -1, EMPTY_SCOPE;
    }
  }

  datatype Tree =
    | ColumnTree(column: ColumnValueExpression)
    | ConstTree(constant: ConstantValueExpression)
    | ComparisonTree(node: OperatorNode, left: Tree, right: Tree)
    | ConjunctionTree(node: OperatorNode, children: Trees)
    | SubqueryTree(node: OperatorNode, select: SelectTree)

  datatype Trees = NoTrees | MoreTrees(head: Tree, tail: Trees)

  datatype SelectTree = SelectTree(stmt: SelectStatement, from: FromTree, clauses: Trees, items: ItemTrees)

  datatype ItemTrees =
    | NoItemTrees
    | ItemTree(alias: string, e: Tree, rest: ItemTrees)
    | StarTree(star: StarExpression, rest: ItemTrees)

  datatype FromTree =
    | NoFromTree
    | BaseTree(db: string, ns: string, name: string, alias: string)
    | DerivedTree(select: SelectTree, alias: string)
    | BothTree(first: FromTree, second: FromTree)
    | OnTree(tables: FromTree, condition: Tree)

  // ---------------------------------------------------------------- the nodes of a tree

  function Root(t: Tree): object {
    match t
    case ColumnTree(n) => n
    case ConstTree(n) => n
    case ComparisonTree(n, _, _) => n
    case ConjunctionTree(n, _) => n
    case SubqueryTree(n, _) => n
  }

  ghost function Nodes(t: Tree): set<object> {
    {Root(t)} +
    match t
    case ComparisonTree(_, l, r) => Nodes(l) + Nodes(r)
    case ConjunctionTree(_, ts) => NodesAll(ts)
    case SubqueryTree(_, s) => NodesSelect(s)
    case _ => {}
  }

  ghost function NodesAll(ts: Trees): set<object> {
    match ts case NoTrees => {} case MoreTrees(t, rest) => Nodes(t) + NodesAll(rest)
  }

  ghost function NodesSelect(s: SelectTree): set<object> {
    {s.stmt} + NodesFrom(s.from) + NodesAll(s.clauses) + NodesItems(s.items)
  }

  ghost function NodesItems(items: ItemTrees): set<object> {
    match items
    case NoItemTrees => {}
    case ItemTree(_, t, rest) => Nodes(t) + NodesItems(rest)
    case StarTree(star, rest) => {star} + NodesItems(rest)
  }

  ghost function NodesFrom(f: FromTree): set<object> {
    match f
    case DerivedTree(s, _) => NodesSelect(s)
    case BothTree(l, r) => NodesFrom(l) + NodesFrom(r)
    case OnTree(g, t) => NodesFrom(g) + Nodes(t)
    case _ => {}
  }

  /** No node occurs twice. */
  ghost predicate Proper(t: Tree) {
    match t
    case ComparisonTree(n, l, r) => Proper(l) && Proper(r) && n !in Nodes(l) && n !in Nodes(r) && Nodes(l) !! Nodes(r)
    case ConjunctionTree(n, ts) => ProperAll(ts) && n !in NodesAll(ts)
    case SubqueryTree(n, s) => ProperSelect(s) && n !in NodesSelect(s)
    case _ => true
  }

  ghost predicate ProperAll(ts: Trees) {
    ts.MoreTrees? ==> Proper(ts.head) && ProperAll(ts.tail) && Nodes(ts.head) !! NodesAll(ts.tail)
  }

  ghost predicate ProperSelect(s: SelectTree) {
    && ProperFrom(s.from) && ProperAll(s.clauses) && ProperItems(s.items)
    && s.stmt !in NodesFrom(s.from) + NodesAll(s.clauses) + NodesItems(s.items)
    && NodesFrom(s.from) !! NodesAll(s.clauses) && NodesFrom(s.from) !! NodesItems(s.items)
    && NodesAll(s.clauses) !! NodesItems(s.items)
  }

  ghost predicate ProperItems(items: ItemTrees) {
    match items
    case NoItemTrees => true
    case ItemTree(_, t, rest) => Proper(t) && ProperItems(rest) && Nodes(t) !! NodesItems(rest)
    case StarTree(star, rest) => ProperItems(rest) && star !in NodesItems(rest)
  }

  ghost predicate ProperFrom(f: FromTree) {
    match f
    case DerivedTree(s, _) => ProperSelect(s)
    case BothTree(l, r) => ProperFrom(l) && ProperFrom(r) && NodesFrom(l) !! NodesFrom(r)
    case OnTree(g, t) => ProperFrom(g) && Proper(t) && NodesFrom(g) !! Nodes(t)
    case _ => true
  }

  // Every node of a tree exists.

  lemma {:induction false} Exist(t: Tree)
    ensures forall o :: o in Nodes(t) ==> allocated(o)
  {
    match t
    case ComparisonTree(_, l, r) => Exist(l); Exist(r);
    case ConjunctionTree(_, ts) => ExistAll(ts);
    case SubqueryTree(_, s) => ExistSelect(s);
    case _ =>
  }

  lemma {:induction false} ExistAll(ts: Trees)
    ensures forall o :: o in NodesAll(ts) ==> allocated(o)
  {
    if ts.MoreTrees? { Exist(ts.head); ExistAll(ts.tail); }
  }

  lemma {:induction false} ExistSelect(s: SelectTree)
    ensures forall o :: o in NodesSelect(s) ==> allocated(o)
  {
    ExistFrom(s.from);
    ExistAll(s.clauses);
    ExistItems(s.items);
  }

  lemma {:induction false} ExistItems(items: ItemTrees)
    ensures forall o :: o in NodesItems(items) ==> allocated(o)
  {
    match items
    case NoItemTrees =>
    case ItemTree(_, t, rest) => Exist(t); ExistItems(rest);
    case StarTree(_, rest) => ExistItems(rest);
  }

  lemma {:induction false} ExistFrom(f: FromTree)
    ensures forall o :: o in NodesFrom(f) ==> allocated(o)
  {
    match f
    case DerivedTree(s, _) => ExistSelect(s);
    case BothTree(l, r) => ExistFrom(l); ExistFrom(r);
    case OnTree(g, t) => ExistFrom(g); Exist(t);
    case _ =>
  }

  // ---------------------------------------------------------------- the value of a tree

  ghost function ValueOf(t: Tree, notes: Notes): Expr
    reads Nodes(t)
  {
    match t
    case ColumnTree(n) => Column(n.Get(), NoteOf(notes, n))
    case ConstTree(n) => Const(n.Get(), NoteOf(notes, n))
    case ComparisonTree(n, l, r) => Comparison(ValueOf(l, notes), ValueOf(r, notes), NoteOf(notes, n))
    case ConjunctionTree(n, ts) => Conjunction(ValuesOf(ts, notes), NoteOf(notes, n))
    case SubqueryTree(n, s) => Subquery(SelectOf(s, notes), NoteOf(notes, n))
  }

  ghost function ValuesOf(ts: Trees, notes: Notes): Exprs
    reads NodesAll(ts)
  {
    match ts case NoTrees => Nil case MoreTrees(t, rest) => Cons(ValueOf(t, notes), ValuesOf(rest, notes))
  }

  ghost function SelectOf(s: SelectTree, notes: Notes): Select
    reads NodesSelect(s)
  {
    Select(FromOf(s.from, notes), ValuesOf(s.clauses, notes), ItemsOf(s.items, notes), s.stmt.depth, s.stmt.scope)
  }

  ghost function ItemsOf(items: ItemTrees, notes: Notes): Items
    reads NodesItems(items)
  {
    match items
    case NoItemTrees => NoItems
    case ItemTree(alias, t, rest) => Item(alias, ValueOf(t, notes), ItemsOf(rest, notes))
    case StarTree(star, rest) => Star(star.expansion, ItemsOf(rest, notes))
  }

  ghost function FromOf(f: FromTree, notes: Notes): From
    reads NodesFrom(f)
  {
    match f
    case NoFromTree => NoFrom
    case BaseTree(db, ns, name, alias) => Base(db, ns, name, alias)
    case DerivedTree(s, alias) => Derived(SelectOf(s, notes), alias)
    case BothTree(l, r) => Both(FromOf(l, notes), FromOf(r, notes))
    case OnTree(g, t) => On(FromOf(g, notes), ValueOf(t, notes))
  }

  // ---------------------------------------------------------------- values depend on their own notes only

  ghost predicate Agree(notes: Notes, notes': Notes, nodes: set<object>) {
    forall o :: o in nodes ==> NoteOf(notes, o) == NoteOf(notes', o)
  }

  lemma {:induction false} ValueFrame(t: Tree, notes: Notes, notes': Notes)
    requires Agree(notes, notes', Nodes(t))
    ensures ValueOf(t, notes) == ValueOf(t, notes')
  {
    match t
    case ComparisonTree(_, l, r) => ValueFrame(l, notes, notes'); ValueFrame(r, notes, notes');
    case ConjunctionTree(_, ts) => ValuesFrame(ts, notes, notes');
    case SubqueryTree(_, s) => SelectFrame(s, notes, notes');
    case _ =>
  }

  lemma {:induction false} ValuesFrame(ts: Trees, notes: Notes, notes': Notes)
    requires Agree(notes, notes', NodesAll(ts))
    ensures ValuesOf(ts, notes) == ValuesOf(ts, notes')
  {
    if ts.MoreTrees? {
      ValueFrame(ts.head, notes, notes');
      ValuesFrame(ts.tail, notes, notes');
    }
  }

  lemma {:induction false} SelectFrame(s: SelectTree, notes: Notes, notes': Notes)
    requires Agree(notes, notes', NodesSelect(s))
    ensures SelectOf(s, notes) == SelectOf(s, notes')
  {
    FromFrame(s.from, notes, notes');
    ValuesFrame(s.clauses, notes, notes');
    ItemsFrame(s.items, notes, notes');
  }

  lemma {:induction false} ItemsFrame(items: ItemTrees, notes: Notes, notes': Notes)
    requires Agree(notes, notes', NodesItems(items))
    ensures ItemsOf(items, notes) == ItemsOf(items, notes')
  {
    match items
    case NoItemTrees =>
    case ItemTree(_, t, rest) => ValueFrame(t, notes, notes'); ItemsFrame(rest, notes, notes');
    case StarTree(_, rest) => ItemsFrame(rest, notes, notes');
  }

  lemma {:induction false} FromFrame(f: FromTree, notes: Notes, notes': Notes)
    requires Agree(notes, notes', NodesFrom(f))
    ensures FromOf(f, notes) == FromOf(f, notes')
  {
    match f
    case DerivedTree(s, _) => SelectFrame(s, notes, notes');
    case BothTree(l, r) => FromFrame(l, notes, notes'); FromFrame(r, notes, notes');
    case OnTree(g, t) => FromFrame(g, notes, notes'); ValueFrame(t, notes, notes');
    case _ =>
  }

  /** Changing the note of the root only. */
  lemma NoteFrame(t: Tree, notes: Notes, notes': Notes)
    requires Proper(t) && Agree(notes, notes', Nodes(t) - {Root(t)})
    ensures ValueOf(t, notes') == Note(ValueOf(t, notes), NoteOf(notes', Root(t)))
  {
    match t
    case ComparisonTree(_, l, r) => ValueFrame(l, notes, notes'); ValueFrame(r, notes, notes');
    case ConjunctionTree(_, ts) => ValuesFrame(ts, notes, notes');
    case SubqueryTree(_, s) => SelectFrame(s, notes, notes');
    case _ =>
  }
}
