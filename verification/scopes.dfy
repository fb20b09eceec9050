/**
  * The scopes a column reference is resolved in, as values. A chain is the innermost context and the chain
  * of contexts above it; the depth of a context is the number of contexts above it.
  */
module Scopes {
  import opened Options
  import opened SqlTypes

  datatype SchemaColumn = SchemaColumn(name: string, ty: TypeId, oid: nat, nullable: bool, stored: ValueExpr)

  /** TableMetadata: database oid, table oid and schema. */
  datatype Table = Table(db: nat, oid: nat, columns: seq<SchemaColumn>)
  {
    /** What the catalog promises: a valid oid, and no two columns of one name. */
    ghost predicate Valid() { oid != 0 && UniqueNames(columns) }
  }

  type NestedTable = map<string, TypeId>

  datatype Scope = Scope(regular: map<string, Table>, order: seq<string>, nested: map<string, NestedTable>)

  datatype ScopeChain = NoScope | Within(here: Scope, above: ScopeChain)
  {
    /** How many contexts there are, which is the depth of the next one. */
    function Height(): nat {
      if NoScope? then 0 else above.Height() + 1
    }

    /** The context of depth d. */
    function At(d: nat): Scope
      requires d < Height()
    {
      if d == above.Height() then here else above.At(d)
    }

    ghost predicate Valid() {
      Within? ==> ValidScope(here) && above.Valid()
    }
  }

  /** The mutable part of a ColumnValueExpression. Oid 0 is INVALID. */
  datatype ColumnRef = ColumnRef(
    table: string, column: string, db: nat, tableOid: nat, columnOid: nat, ty: TypeId, depth: int)

  /** What every context keeps: alias sets are disjoint, and the list enumerates the regular aliases. */
  ghost predicate ValidScope(s: Scope) {
    && s.regular.Keys !! s.nested.Keys
    && (forall a :: a in s.order <==> a in s.regular)
    && (forall i, j :: 0 <= i < j < |s.order| ==> s.order[i] != s.order[j])
    && (forall a :: a in s.regular ==> s.regular[a].Valid())
  }

  const EMPTY_SCOPE := Scope(map[], [], map[])

  // ---------------------------------------------------------------- names

  function LowerChar(c: char): char {
    if 'A' <= c <= 'Z' then ((c as int - 'A' as int) + 'a' as int) as char else c
  }

  function Lower(s: string): (r: string)
    ensures |r| == |s| && forall i :: 0 <= i < |s| ==> r[i] == LowerChar(s[i])
  {
    if s == "" then "" else [LowerChar(s[0])] + Lower(s[1..])
  }

  lemma LowerTwice(s: string)
    ensures Lower(Lower(s)) == Lower(s)
  {
  }

  /** Schema::GetColumn by name: the first column of that name. */
  function FindColumn(cols: seq<SchemaColumn>, name: string): (r: Option<SchemaColumn>)
    ensures r.Some? <==> exists i :: 0 <= i < |cols| && cols[i].name == name
    ensures r.Some? ==> r.value in cols && r.value.name == name
  {
    if cols == [] then None
    else if cols[0].name == name then Some(cols[0])
    else FindColumn(cols[1..], name)
  }

  predicate ColumnInSchema(t: Table, name: string) { FindColumn(t.columns, name).Some? }

  predicate UniqueNames(cols: seq<SchemaColumn>) {
    forall i, j :: 0 <= i < j < |cols| ==> cols[i].name != cols[j].name
  }

  lemma {:induction false} FindColumnUnique(cols: seq<SchemaColumn>, i: nat)
    requires UniqueNames(cols) && i < |cols|
    ensures FindColumn(cols, cols[i].name) == Some(cols[i])
  {
    if i > 0 { FindColumnUnique(cols[1..], i - 1); }
  }

  // ---------------------------------------------------------------- unqualified references

  function RegularMatches(s: Scope, col: string): set<string> {
    set a | a in s.regular && ColumnInSchema(s.regular[a], col)
  }

  function NestedMatches(s: Scope, col: string): set<string> {
    set a | a in s.nested && col in s.nested[a]
  }

  /** How many tables of one context offer a column. */
  function MatchCount(s: Scope, col: string): nat {
    |RegularMatches(s, col)| + |NestedMatches(s, col)|
  }

  function BindRegular(c: ColumnRef, t: Table, col: SchemaColumn): ColumnRef {
    c.(db := t.db, tableOid := t.oid, columnOid := col.oid, column := col.name, ty := col.ty)
  }

  predicate Offers(s: Scope, a: string, col: string) {
    || (a in s.regular && ColumnInSchema(s.regular[a], col))
    || (a in s.nested && col in s.nested[a])
  }

  ghost function TheMatch(s: Scope, col: string): (a: string)
    requires MatchCount(s, col) > 0
    ensures Offers(s, a, col)
  {
    if RegularMatches(s, col) != {} then (var a :| a in RegularMatches(s, col); a)
    else (var a :| a in NestedMatches(s, col); a)
  }

  lemma Singleton<T>(s: set<T>, a: T)
    requires |s| == 1 && a in s
    ensures s == {a}
  {
    assert |s - {a}| == 0;
  }

  lemma AtLeastTwo<T>(s: set<T>, a: T, b: T)
    requires a in s && b in s && a != b
    ensures |s| >= 2
  {
    assert |s - {a}| == |s| - 1 && b in s - {a};
  }

  lemma TheMatchIsOnly(s: Scope, col: string, a: string)
    requires MatchCount(s, col) == 1 && Offers(s, a, col)
    ensures TheMatch(s, col) == a
  {
    var regular, nested := RegularMatches(s, col), NestedMatches(s, col);
    assert a in regular || a in nested;
    if regular != {} {
      assert |regular| == 1 && nested == {};
      Singleton(regular, a);
    } else {
      Singleton(nested, a);
    }
  }

  function BindRegularAs(s: Scope, a: string, col: string, c: ColumnRef): ColumnRef
    requires a in s.regular && ColumnInSchema(s.regular[a], col)
  {
    BindRegular(c, s.regular[a], FindColumn(s.regular[a].columns, col).value).(table := a)
  }

  function BindNestedAs(s: Scope, a: string, col: string, c: ColumnRef): ColumnRef
    requires a in s.nested && col in s.nested[a]
  {
    c.(table := a, column := col, ty := s.nested[a][col])
  }

  /** What binding to table a of context s at depth d does to a reference. */
  ghost function BindTo(s: Scope, d: nat, a: string, c: ColumnRef): (r: ColumnRef)
    requires Offers(s, a, Lower(c.column))
  {
    var col := Lower(c.column);
    if a in s.regular && ColumnInSchema(s.regular[a], col)
    then BindRegularAs(s, a, col, c).(depth := d)
    else BindNestedAs(s, a, col, c).(depth := d)
  }

  /** The search of one context at depth d: no table offers the column, one does, or several do. */
  ghost function ResolveHere(s: Scope, d: nat, c: ColumnRef): Option<Result<ColumnRef>> {
    var n := MatchCount(s, Lower(c.column));
    if n == 0 then None
    else if n > 1 then Some(Err(AmbiguousColumn))
    else Some(Ok(BindTo(s, d, TheMatch(s, Lower(c.column)), c)))
  }

  /** The search of the innermost context and then of the ones above it. */
  ghost function ResolveUnqualified(chain: ScopeChain, c: ColumnRef): Result<ColumnRef> {
    match chain
    case NoScope => Err(UndefinedColumn)
    case Within(s, above) =>
      match ResolveHere(s, above.Height(), c)
      case Some(r) => r
      case None => ResolveUnqualified(above, c)
  }

  // ---------------------------------------------------------------- qualified references

  /** A table and the depth of the context that holds it. */
  datatype Owner<T> = Owner(depth: nat, table: T)

  function NearestRegular(chain: ScopeChain, a: string): Option<Owner<Table>> {
    match chain
    case NoScope => None
    case Within(s, above) =>
      if a in s.regular then Some(Owner(above.Height(), s.regular[a])) else NearestRegular(above, a)
  }

  function NearestNested(chain: ScopeChain, a: string): Option<Owner<NestedTable>> {
    match chain
    case NoScope => None
    case Within(s, above) =>
      if a in s.nested then Some(Owner(above.Height(), s.nested[a])) else NearestNested(above, a)
  }

  function ResolveRegular(o: Owner<Table>, col: string, c: ColumnRef): Result<ColumnRef> {
    match FindColumn(o.table.columns, col)
    case Some(sc) => Ok(BindRegular(c, o.table, sc).(depth := o.depth))
    case None => Err(UndefinedColumn)
  }

  function ResolveNested(o: Owner<NestedTable>, a: string, col: string, c: ColumnRef): Result<ColumnRef> {
    if col in o.table then Ok(c.(table := a, column := col, ty := o.table[col], depth := o.depth))
    else Err(UndefinedColumn)
  }

  /** The branch of the visitor for a reference whose table name is not empty. */
  function ResolveQualified(chain: ScopeChain, c: ColumnRef): Result<ColumnRef> {
    var a, col := Lower(c.table), Lower(c.column);
    match NearestRegular(chain, a)
    case Some(o) => ResolveRegular(o, col, c)
    case None =>
      match NearestNested(chain, a)
      case Some(o) => ResolveNested(o, a, col, c)
      case None => Err(UndefinedTable)
  }

  /** What one visit of a column reference does to it, apart from the type check. */
  ghost function Resolve(chain: ScopeChain, c: ColumnRef): Result<ColumnRef> {
    if c.tableOid != 0 then Ok(c)
    else if c.table == "" && c.column == "" && c.columnOid != 0 then Err(UndefinedColumn)
    else if c.table == "" then ResolveUnqualified(chain, c)
    else ResolveQualified(chain, c)
  }

  // ---------------------------------------------------------------- star expansion

  /** The order in which a hash map with these keys is iterated. */
  type HashOrder = set<string> -> seq<string>

  ghost predicate ValidOrder(order: HashOrder) {
    forall keys :: NoDuplicates(order(keys)) && forall k :: k in order(keys) <==> k in keys
  }

  function RegularRef(a: string, t: Table, col: SchemaColumn, d: nat): ColumnRef {
    ColumnRef(a, col.name, t.db, t.oid, col.oid, col.ty, d)
  }

  /** The columns of table a in schema order. */
  function TableStar(a: string, t: Table, d: nat): (r: seq<ColumnRef>)
    ensures |r| == |t.columns| && forall i :: 0 <= i < |r| ==> r[i] == RegularRef(a, t, t.columns[i], d)
  {
    seq(|t.columns|, i requires 0 <= i < |t.columns| => RegularRef(a, t, t.columns[i], d))
  }

  /** The columns of the first n listed tables, in FROM order and then schema order. */
  function RegularStar(tables: map<string, Table>, aliases: seq<string>, n: nat, d: nat): seq<ColumnRef>
    requires n <= |aliases|
  {
    if n == 0 then []
    else
      var a := aliases[n - 1];
      RegularStar(tables, aliases, n - 1, d) + if a in tables then TableStar(a, tables[a], d) else []
  }

  function NestedTableStar(a: string, cols: NestedTable, names: seq<string>, n: nat, d: nat): seq<ColumnRef>
    requires n <= |names|
  {
    if n == 0 then []
    else
      var name := names[n - 1];
      NestedTableStar(a, cols, names, n - 1, d) + if name in cols then [ColumnRef(a, name, 0, 0, 0, cols[name], d)] else []
  }

  /** The columns of the first n derived tables; they have no oids. */
  function NestedStar(nested: map<string, NestedTable>, order: HashOrder, aliases: seq<string>, n: nat, d: nat): seq<ColumnRef>
    requires n <= |aliases|
    decreases n
  {
    if n == 0 then []
    else
      var a := aliases[n - 1];
      NestedStar(nested, order, aliases, n - 1, d) +
      if a in nested then DerivedStar(order, a, nested[a], d) else []
  }

  /** The columns of one derived table, in the order of its hash map. */
  function DerivedStar(order: HashOrder, a: string, cols: NestedTable, d: nat): seq<ColumnRef> {
    NestedTableStar(a, cols, order(cols.Keys), |order(cols.Keys)|, d)
  }

  /** What * expands to in context s of depth d. */
  function StarOf(order: HashOrder, s: Scope, d: nat): seq<ColumnRef> {
    RegularStar(s.regular, s.order, |s.order|, d) +
    NestedStar(s.nested, order, order(s.nested.Keys), |order(s.nested.Keys)|, d)
  }

  /** r is a column of a derived table of s; such columns have no oids. */
  predicate IsNestedRef(nested: map<string, NestedTable>, d: nat, r: ColumnRef) {
    && r.table in nested && r.column in nested[r.table]
    && r == ColumnRef(r.table, r.column, 0, 0, 0, nested[r.table][r.column], d)
  }

  ghost predicate NoDuplicates<T>(s: seq<T>) {
    forall i, j :: 0 <= i < j < |s| ==> s[i] != s[j]
  }

  lemma NoDuplicatesConcat<T>(s: seq<T>, t: seq<T>)
    requires NoDuplicates(s) && NoDuplicates(t) && forall x :: x in s ==> x !in t
    ensures NoDuplicates(s + t)
  {
    forall i, j | 0 <= i < j < |s + t| ensures (s + t)[i] != (s + t)[j] {
      if i < |s| <= j { assert s[i] in s && t[j - |s|] in t; }
    }
  }

  /** Every column of every derived table exactly once, in no particular order. */
  ghost predicate EachNestedOnce(nested: map<string, NestedTable>, d: nat, refs: seq<ColumnRef>) {
    NoDuplicates(refs) && forall r :: r in refs <==> IsNestedRef(nested, d, r)
  }

  /** An expansion of * in context s of depth d. */
  ghost predicate IsStar(s: Scope, d: nat, refs: seq<ColumnRef>) {
    var n := |RegularStar(s.regular, s.order, |s.order|, d)|;
    && n <= |refs|
    && refs[..n] == RegularStar(s.regular, s.order, |s.order|, d)
    && EachNestedOnce(s.nested, d, refs[n..])
  }
}
