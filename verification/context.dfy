/**
  * src/binder/binder_context.cpp: the context of one query, its alias maps, and the searches up the chain of
  * enclosing contexts.
  */
module Context {
  import opened Options
  import opened SqlTypes
  import opened Scopes

  /** The catalog, by name. */
  datatype Catalog = Catalog(
    databases: map<string, nat>, searchPath: map<string, Table>, namespaces: map<string, map<string, Table>>)
  {
    ghost predicate Valid() {
      && (forall n :: n in searchPath ==> searchPath[n].Valid())
      && (forall ns, n :: ns in namespaces && n in namespaces[ns] ==> namespaces[ns][n].Valid())
    }
  }

  /** An element of a select list, as far as AddNestedTable reads it. */
  datatype Selected = Selected(alias: string, columnName: Option<string>, ty: TypeId)

  // ---------------------------------------------------------------- adds as functions

  function FindTable(cat: Catalog, ns: string, name: string): Result<Table> {
    if ns != "" then
      if ns !in cat.namespaces then Err(UndefinedSchema)
      else if name in cat.namespaces[ns] then Ok(cat.namespaces[ns][name])
      else Err(UndefinedTable)
    else if name in cat.searchPath then Ok(cat.searchPath[name])
    else Err(UndefinedTable)
  }

  function WithRegular(cat: Catalog, db: nat, ns: string, name: string, alias: string, s: Scope): Result<Scope> {
    match FindTable(cat, ns, name)
    case Err(e) => Err(e)
    case Ok(t) =>
      if alias in s.nested || alias in s.regular then Err(DuplicateAlias)
      else Ok(s.(regular := s.regular[alias := t.(db := db)], order := s.order + [alias]))
  }

  function WithNested(alias: string, t: NestedTable, s: Scope): Result<Scope> {
    if alias in s.regular || alias in s.nested then Err(DuplicateAlias)
    else Ok(s.(nested := s.nested[alias := t]))
  }

  /** The name a select item has outside: its alias, or else its column name, in lower case. */
  function OutsideName(e: Selected): Option<string> {
    if e.alias != "" then Some(Lower(e.alias))
    else if e.columnName.Some? then Some(Lower(e.columnName.value))
    else None
  }

  /** The columns that the first k items of a select list give a derived table. */
  function FirstColumns(items: seq<Selected>, k: nat): NestedTable
    requires k <= |items|
  {
    if k == 0 then map[]
    else
      var m, name := FirstColumns(items, k - 1), OutsideName(items[k - 1]);
      if name.Some? then m[name.value := items[k - 1].ty] else m
  }

  function NestedColumns(items: seq<Selected>): NestedTable { FirstColumns(items, |items|) }

  function DefinedColumns(defs: seq<(string, TypeId)>): NestedTable {
    if defs == [] then map[] else DefinedColumns(defs[..|defs| - 1])[defs[|defs| - 1].0 := defs[|defs| - 1].1]
  }

  // ---------------------------------------------------------------- expressions and contexts as objects

  class ColumnValueExpression {
    var tableName: string
    var columnName: string
    var databaseOid: nat
    var tableOid: nat
    var columnOid: nat
    var returnType: TypeId
    var depth: int

    function Get(): ColumnRef
      reads this
    {
      ColumnRef(tableName, columnName, databaseOid, tableOid, columnOid, returnType, depth)
    }

    constructor (c: ColumnRef)
      ensures Get() == c
    {
      tableName, columnName := c.table, c.column;
      databaseOid, tableOid, columnOid := c.db, c.tableOid, c.columnOid;
      returnType, depth := c.ty, c.depth;
    }
  }

  class BinderContext {
    const upper: BinderContext?
    const depth: nat
    ghost const ancestors: set<BinderContext>
    var regular: map<string, Table>
    var aliases: seq<string>
    var nested: map<string, NestedTable>

    /** The chain of upper contexts is finite and depths count it. */
    ghost predicate Linked()
      decreases depth
    {
      if upper == null then depth == 0 && ancestors == {this}
      else depth == upper.depth + 1 && ancestors == {this} + upper.ancestors && upper.Linked()
    }

    ghost function Here(): Scope
      reads this
    {
      Scope(regular, aliases, nested)
    }

    /** This context and the ones above it, as a value. */
    ghost function Contexts(): (chain: ScopeChain)
      requires Linked()
      reads ancestors
      ensures chain.Height() == depth + 1
      decreases depth
    {
      Within(Here(), if upper == null then NoScope else upper.Contexts())
    }

    /** A context is not among the ones above it. */
    lemma {:induction false} AncestorsAreShallower()
      requires Linked()
      ensures forall a :: a in ancestors ==> a == this || a.depth < depth
      ensures upper != null ==> this !in upper.ancestors
      decreases depth
    {
      if upper != null { upper.AncestorsAreShallower(); }
    }

    constructor (upper: BinderContext?)
      requires upper != null ==> upper.Linked()
      ensures Linked() && this.upper == upper
      ensures Here() == EMPTY_SCOPE && ValidScope(Here())
    {
      this.upper := upper;
      depth := if upper == null then 0 else upper.depth + 1;
      ancestors := {this} + if upper == null then {} else upper.ancestors;
      regular, aliases, nested := map[], [], map[];
    }

    method AddRegularTable(cat: Catalog, db: nat, ns: string, name: string, alias: string)
      returns (error: Option<Error>)
      requires cat.Valid() && ValidScope(Here())
      modifies this
      ensures ValidScope(Here())
      ensures match WithRegular(cat, db, ns, name, alias, old(Here()))
              case Ok(s) => error == None && Here() == s
              case Err(e) => error == Some(e) && Here() == old(Here())
    {
      var table: Table;
      if ns != "" {
        if ns !in cat.namespaces { return Some(UndefinedSchema); }
        if name !in cat.namespaces[ns] { return Some(UndefinedTable); }
        table := cat.namespaces[ns][name];
      } else {
        if name !in cat.searchPath { return Some(UndefinedTable); }
        table := cat.searchPath[name];
      }
      if alias in nested { return Some(DuplicateAlias); }
      if alias in regular { return Some(DuplicateAlias); }
      regular := regular[alias := table.(db := db)];
      aliases := aliases + [alias];
      return None;
    }

    method AddNewTable(name: string, columns: seq<(string, TypeId)>) returns (error: Option<Error>)
      requires ValidScope(Here())
      modifies this
      ensures ValidScope(Here())
      ensures match WithNested(name, DefinedColumns(columns), old(Here()))
              case Ok(s) => error == None && Here() == s
              case Err(e) => error == Some(e) && Here() == old(Here())
    {
      if name in regular || name in nested { return Some(DuplicateAlias); }
      var columnMap: NestedTable := map[];
      for i := 0 to |columns|
        invariant columnMap == DefinedColumns(columns[..i])
      {
        assert columns[..i + 1][..i] == columns[..i];
        columnMap := columnMap[columns[i].0 := columns[i].1];
      }
      assert columns[..|columns|] == columns;
      nested := nested[name := columnMap];
      return None;
    }

    method AddNestedTable(alias: string, items: seq<Selected>) returns (error: Option<Error>)
      requires ValidScope(Here())
      modifies this
      ensures ValidScope(Here())
      ensures match WithNested(alias, NestedColumns(items), old(Here()))
              case Ok(s) => error == None && Here() == s
              case Err(e) => error == Some(e) && Here() == old(Here())
    {
      if alias in regular || alias in nested { return Some(DuplicateAlias); }
      var columnMap: NestedTable := map[];
      for i := 0 to |items|
        invariant columnMap == FirstColumns(items, i)
      {
        var name;
        if items[i].alias != "" {
          name := items[i].alias;
        } else if items[i].columnName.Some? {
          name := items[i].columnName.value;
        } else {
          continue;
        }
        columnMap := columnMap[Lower(name) := items[i].ty];
      }
      nested := nested[alias := columnMap];
      return None;
    }

    // -------------------------------------------------------------- unqualified search

    /** The loop over the regular tables of this context, in any order of the hash map. */
    method ScanRegular(col: string, expr: ColumnValueExpression) returns (found: bool, ambiguous: bool)
      modifies expr
      ensures ambiguous <==> |RegularMatches(Here(), col)| > 1
      ensures !ambiguous ==> (found <==> RegularMatches(Here(), col) != {})
      ensures !ambiguous && !found ==> expr.Get() == old(expr.Get())
      ensures !ambiguous && found ==>
                exists a | a in RegularMatches(Here(), col) ::
                  RegularMatches(Here(), col) == {a} && expr.Get() == BindRegularAs(Here(), a, col, old(expr.Get()))
    {
      found, ambiguous := false, false;
      var todo := regular.Keys;
      ghost var matches := RegularMatches(Here(), col);
      ghost var hit := "";
      while todo != {}
        invariant todo <= regular.Keys
        invariant !found ==> matches <= todo && expr.Get() == old(expr.Get())
        invariant found ==> hit in matches && hit !in todo && matches <= todo + {hit}
        invariant found ==> expr.Get() == BindRegularAs(Here(), hit, col, old(expr.Get()))
      {
        var a :| a in todo;
        todo := todo - {a};
        if ColumnInSchema(regular[a], col) {
          if found {
            AtLeastTwo(matches, a, hit);
            return true, true;
          }
          found := true;
          hit := a;
          SetColumnPos(col, regular[a], expr);
          expr.tableName := a;
        }
      }
      if found { assert matches == {hit}; }
    }

    /** The static SetColumnPosTuple: copy oids, name and type of a column that is in the schema. */
    static method SetColumnPos(col: string, table: Table, expr: ColumnValueExpression)
      requires ColumnInSchema(table, col)
      modifies expr
      ensures expr.Get() == BindRegular(old(expr.Get()), table, FindColumn(table.columns, col).value)
    {
      var column := FindColumn(table.columns, col).value;
      expr.databaseOid := table.db;
      expr.tableOid := table.oid;
      expr.columnOid := column.oid;
      expr.columnName := col;
      expr.returnType := column.ty;
    }

    /** The loop over the derived tables of this context, knowing whether a regular table matched. */
    method ScanNested(col: string, expr: ColumnValueExpression, matched: bool) returns (found: bool, ambiguous: bool)
      modifies expr
      ensures ambiguous <==> |NestedMatches(Here(), col)| > (if matched then 0 else 1)
      ensures !ambiguous ==> (found <==> matched || NestedMatches(Here(), col) != {})
      ensures !ambiguous && found == matched ==> expr.Get() == old(expr.Get())
      ensures !ambiguous && found && !matched ==>
                exists a | a in NestedMatches(Here(), col) ::
                  NestedMatches(Here(), col) == {a} && expr.Get() == BindNestedAs(Here(), a, col, old(expr.Get()))
    {
      found, ambiguous := matched, false;
      var todo := nested.Keys;
      ghost var matches := NestedMatches(Here(), col);
      ghost var hit := "";
      while todo != {}
        invariant todo <= nested.Keys && (matched ==> found)
        invariant found == matched ==> matches <= todo && expr.Get() == old(expr.Get())
        invariant found && !matched ==> hit in matches && hit !in todo && matches <= todo + {hit}
        invariant found && !matched ==> expr.Get() == BindNestedAs(Here(), hit, col, old(expr.Get()))
      {
        var a :| a in todo;
        todo := todo - {a};
        if col in nested[a] {
          if found {
            if matched { assert a in matches; } else { AtLeastTwo(matches, a, hit); }
            return true, true;
          }
          found := true;
          hit := a;
          expr.tableName := a;
          expr.returnType := nested[a][col];
          expr.columnName := col;
        }
      }
      if found && !matched { assert matches == {hit}; } else { assert matches == {}; }
    }

    /** Both loops over one context: bind to the only table that offers the column, if there is one. */
    method SearchHere(expr: ColumnValueExpression) returns (found: bool, ambiguous: bool)
      modifies expr
      ensures match ResolveHere(Here(), depth, old(expr.Get()))
              case None => !ambiguous && !found && expr.Get() == old(expr.Get())
              case Some(Err(_)) => ambiguous
              case Some(Ok(c)) => !ambiguous && found && expr.Get() == c
    {
      var col := Lower(expr.columnName);
      var regularFound, nestedAmbiguous;
      regularFound, ambiguous := ScanRegular(col, expr);
      if ambiguous { return true, true; }
      found, nestedAmbiguous := ScanNested(col, expr, regularFound);
      if nestedAmbiguous { return true, true; }
      if found {
        TheMatchIsOnly(Here(), col, expr.tableName);
        expr.depth := depth;
      }
    }

    /** The non-static SetColumnPosTuple: search this context, then the ones above it. */
    method SetColumnPosTuple(expr: ColumnValueExpression) returns (r: Result<bool>)
      requires Linked()
      modifies expr
      ensures match ResolveUnqualified(old(Contexts()), old(expr.Get()))
              case Ok(c) => r == Ok(true) && expr.Get() == c
              case Err(e) => r == if e.AmbiguousColumn? then Err(e) else Ok(false)
    {
      ghost var c, chain := expr.Get(), Contexts();
      var current: BinderContext? := this;
      while current != null
        invariant current != null ==> current.Linked()
        invariant ResolveUnqualified(chain, c)
               == ResolveUnqualified(if current == null then NoScope else current.Contexts(), c)
        invariant expr.Get() == c
        decreases if current == null then 0 else current.depth + 1
      {
        var found, ambiguous := current.SearchHere(expr);
        if ambiguous { return Err(AmbiguousColumn); }
        if found { return Ok(true); }
        current := current.upper;
      }
      return Ok(false);
    }

    // -------------------------------------------------------------- qualified search

    method GetRegularTableObj(alias: string, expr: ColumnValueExpression) returns (table: Option<Table>)
      requires Linked()
      modifies expr
      ensures match NearestRegular(old(Contexts()), alias)
              case Some(o) => table == Some(o.table) && expr.Get() == old(expr.Get()).(depth := o.depth)
              case None => table == None && expr.Get() == old(expr.Get())
    {
      ghost var chain := Contexts();
      var current: BinderContext? := this;
      while current != null
        invariant current != null ==> current.Linked()
        invariant NearestRegular(chain, alias)
               == NearestRegular(if current == null then NoScope else current.Contexts(), alias)
        invariant expr.Get() == old(expr.Get())
        decreases if current == null then 0 else current.depth + 1
      {
        if alias in current.regular {
          expr.depth := current.depth;
          return Some(current.regular[alias]);
        }
        current := current.upper;
      }
      return None;
    }

    method CheckNestedTableColumn(alias: string, col: string, expr: ColumnValueExpression) returns (r: Result<bool>)
      requires Linked()
      modifies expr
      ensures match NearestNested(old(Contexts()), alias)
              case None => r == Ok(false) && expr.Get() == old(expr.Get())
              case Some(o) =>
                match ResolveNested(o, alias, col, old(expr.Get()))
                case Ok(c) => r == Ok(true) && expr.Get() == c
                case Err(e) => r == Err(e)
    {
      ghost var chain := Contexts();
      var current: BinderContext? := this;
      while current != null
        invariant current != null ==> current.Linked()
        invariant NearestNested(chain, alias)
               == NearestNested(if current == null then NoScope else current.Contexts(), alias)
        invariant expr.Get() == old(expr.Get())
        decreases if current == null then 0 else current.depth + 1
      {
        if alias in current.nested {
          if col !in current.nested[alias] { return Err(UndefinedColumn); }
          expr.returnType := current.nested[alias][col];
          expr.depth := current.depth;
          expr.columnName := col;
          expr.tableName := alias;
          return Ok(true);
        }
        current := current.upper;
      }
      return Ok(false);
    }

    // -------------------------------------------------------------- star expansion

    method GenerateSchemaColumns(a: string, table: Table) returns (refs: seq<ColumnRef>)
      ensures refs == TableStar(a, table, depth)
    {
      refs := [];
      for i := 0 to |table.columns|
        invariant |refs| == i && forall j :: 0 <= j < i ==> refs[j] == RegularRef(a, table, table.columns[j], depth)
      {
        var col := table.columns[i];
        refs := refs + [ColumnRef(a, col.name, table.db, table.oid, col.oid, col.ty, depth)];
      }
    }

    method GenerateRegularColumns() returns (refs: seq<ColumnRef>)
      requires forall i :: 0 <= i < |aliases| ==> aliases[i] in regular
      ensures refs == RegularStar(regular, aliases, |aliases|, depth)
    {
      refs := [];
      for i := 0 to |aliases|
        invariant refs == RegularStar(regular, aliases, i, depth)
      {
        var more := GenerateSchemaColumns(aliases[i], regular[aliases[i]]);
        refs := refs + more;
      }
    }

    method GenerateTableColumns(order: HashOrder, a: string, cols: NestedTable) returns (refs: seq<ColumnRef>)
      requires ValidOrder(order)
      ensures refs == DerivedStar(order, a, cols, depth)
    {
      refs := [];
      var names := order(cols.Keys);
      for i := 0 to |names|
        invariant refs == NestedTableStar(a, cols, names, i, depth)
      {
        assert names[i] in names;
        refs := refs + [ColumnRef(a, names[i], 0, 0, 0, cols[names[i]], depth)];
      }
    }

    method GenerateNestedColumns(order: HashOrder) returns (refs: seq<ColumnRef>)
      requires ValidOrder(order)
      ensures refs == NestedStar(nested, order, order(nested.Keys), |order(nested.Keys)|, depth)
    {
      refs := [];
      var names := order(nested.Keys);
      for i := 0 to |names|
        invariant refs == NestedStar(nested, order, names, i, depth)
      {
        assert names[i] in names;
        var more := GenerateTableColumns(order, names[i], nested[names[i]]);
        refs := refs + more;
      }
    }

    /** GenerateAllColumnExpressions: the expressions appended to the select list. */
    method GenerateAllColumnExpressions(order: HashOrder) returns (refs: seq<ColumnRef>)
      requires ValidScope(Here()) && ValidOrder(order)
      ensures refs == StarOf(order, Here(), depth)
    {
      var front := GenerateRegularColumns();
      var back := GenerateNestedColumns(order);
      refs := front + back;
    }
  }
}
