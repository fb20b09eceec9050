/**
  * What name resolution guarantees over every chain of contexts.
  */
module ScopeLaws {
  import opened Options
  import opened SqlTypes
  import opened Scopes
  import opened Context

  // ---------------------------------------------------------------- unqualified references

  /** d is the depth of the innermost context that offers the column. */
  ghost predicate InnermostAt(chain: ScopeChain, col: string, d: int) {
    && 0 <= d < chain.Height() && MatchCount(chain.At(d), col) > 0
    && forall k :: d < k < chain.Height() ==> MatchCount(chain.At(k), col) == 0
  }

  /**
    * The loop binds to the innermost context that offers the column, and to the only table of it that does;
    * it reports ambiguity exactly when that context has several, and failure exactly when no context has one.
    */
  lemma {:induction false} UnqualifiedIsInnermost(chain: ScopeChain, c: ColumnRef)
    ensures var col := Lower(c.column);
            match ResolveUnqualified(chain, c)
            case Ok(r) =>
              && InnermostAt(chain, col, r.depth) && MatchCount(chain.At(r.depth), col) == 1
              && Offers(chain.At(r.depth), r.table, col)
              && r == BindTo(chain.At(r.depth), r.depth, r.table, c)
            case Err(e) =>
              if exists d :: InnermostAt(chain, col, d) && MatchCount(chain.At(d), col) > 1
              then e == AmbiguousColumn
              else e == UndefinedColumn && forall d :: 0 <= d < chain.Height() ==> MatchCount(chain.At(d), col) == 0
  {
    if chain.Within? {
      var col := Lower(c.column);
      var top := chain.above.Height();
      assert chain.At(top) == chain.here;
      assert forall k :: 0 <= k < top ==> chain.At(k) == chain.above.At(k);
      if MatchCount(chain.here, col) > 0 {
        assert InnermostAt(chain, col, top);
      } else {
        UnqualifiedIsInnermost(chain.above, c);
        assert forall d :: InnermostAt(chain, col, d) <==> InnermostAt(chain.above, col, d);
      }
    }
  }

  /**
    * A reference without a table name resolves exactly when the innermost context that offers its column at all
    * offers it once; one that has a column oid but no name at all never does.
    */
  lemma UnqualifiedResolvesExactly(chain: ScopeChain, c: ColumnRef)
    requires c.tableOid == 0 && c.table == ""
    ensures Resolve(chain, c).Ok? <==>
            && (c.column == "" ==> c.columnOid == 0)
            && exists d :: InnermostAt(chain, Lower(c.column), d) && MatchCount(chain.At(d), Lower(c.column)) == 1
  {
    UnqualifiedIsInnermost(chain, c);
  }

  // ---------------------------------------------------------------- letters

  /** The same letter, in upper or lower case, or the same other character. */
  predicate SameLetter(a: char, b: char) {
    || a == b
    || ('A' <= a <= 'Z' && b as int == a as int + 32)
    || ('A' <= b <= 'Z' && a as int == b as int + 32)
  }

  ghost predicate SameButCase(s: string, t: string) {
    |s| == |t| && forall i :: 0 <= i < |s| ==> SameLetter(s[i], t[i])
  }

  /** Names are the same to the binder exactly when they differ in the case of ASCII letters only. */
  lemma LowerExactly(s: string, t: string)
    ensures Lower(s) == Lower(t) <==> SameButCase(s, t)
  {
    forall a, b ensures LowerChar(a) == LowerChar(b) <==> SameLetter(a, b) { LetterExactly(a, b); }
    if Lower(s) == Lower(t) {
      forall i | 0 <= i < |s| ensures SameLetter(s[i], t[i]) {
        assert Lower(s)[i] == Lower(t)[i];
      }
    }
  }

  lemma LetterExactly(a: char, b: char)
    ensures LowerChar(a) == LowerChar(b) <==> SameLetter(a, b)
  {
  }

  lemma {:induction false} UnqualifiedIgnoresCase(chain: ScopeChain, c: ColumnRef, table: string, column: string)
    requires Lower(column) == Lower(c.column)
    ensures ResolveUnqualified(chain, c.(table := table, column := column)) == ResolveUnqualified(chain, c)
  {
    if chain.Within? { UnqualifiedIgnoresCase(chain.above, c, table, column); }
  }

  /** Writing a reference in other letters changes nothing but the table name that a column of a base table shows. */
  lemma ResolveIgnoresCase(chain: ScopeChain, c: ColumnRef, table: string, column: string)
    requires chain.Valid() && c.tableOid == 0 && SameButCase(c.table, table) && SameButCase(c.column, column)
    ensures match Resolve(chain, c.(table := table, column := column))
            case Err(e) => Resolve(chain, c) == Err(e)
            case Ok(r) => Resolve(chain, c) == Ok(if c.table != "" && r.tableOid != 0 then r.(table := c.table) else r)
  {
    LowerExactly(c.table, table);
    LowerExactly(c.column, column);
    if c.table == "" { UnqualifiedIgnoresCase(chain, c, table, column); } else { NearestAt(chain, Lower(table)); }
  }

  // ---------------------------------------------------------------- qualified references

  /** Innermost-alias scoping: the nearest context that knows the alias at all decides. */
  function ResolveLexically(chain: ScopeChain, c: ColumnRef): Result<ColumnRef> {
    var a, col := Lower(c.table), Lower(c.column);
    match chain
    case NoScope => Err(UndefinedTable)
    case Within(s, above) =>
      if a in s.regular then ResolveRegular(Owner(above.Height(), s.regular[a]), col, c)
      else if a in s.nested then ResolveNested(Owner(above.Height(), s.nested[a]), a, col, c)
      else ResolveLexically(above, c)
  }

  /** A derived table's alias hides a regular alias of an enclosing context. */
  predicate NestedHidesRegular(chain: ScopeChain, a: string) {
    chain.Within? && a !in chain.here.regular &&
    if a in chain.here.nested then NearestRegular(chain.above, a).Some? else NestedHidesRegular(chain.above, a)
  }

  /** Neither the nearest regular table nor the nearest derived table of that alias has the column. */
  predicate BothLack(chain: ScopeChain, a: string, col: string) {
    && (match NearestRegular(chain, a) case Some(o) => !ColumnInSchema(o.table, col) case None => true)
    && (match NearestNested(chain, a) case Some(o) => col !in o.table case None => true)
  }

  lemma {:induction false} NearestAt(chain: ScopeChain, a: string)
    requires chain.Valid()
    ensures match NearestRegular(chain, a)
            case Some(o) => o.depth < chain.Height() && a in chain.At(o.depth).regular
                            && o.table == chain.At(o.depth).regular[a] && o.table.Valid()
            case None => true
    ensures match NearestNested(chain, a)
            case Some(o) => o.depth < chain.Height() && a in chain.At(o.depth).nested && o.table == chain.At(o.depth).nested[a]
            case None => true
  {
    if chain.Within? { NearestAt(chain.above, a); }
  }

  /**
    * The visitor's search, regular aliases of the whole chain before derived ones, equals innermost-alias
    * scoping exactly when no derived alias hides a regular one or both would fail to find the column.
    */
  lemma {:induction false} QualifiedIsLexical(chain: ScopeChain, c: ColumnRef)
    requires chain.Valid() && c.tableOid == 0
    ensures var a, col := Lower(c.table), Lower(c.column);
            ResolveQualified(chain, c) == ResolveLexically(chain, c)
            <==> !NestedHidesRegular(chain, a) || BothLack(chain, a, col)
  {
    if chain.Within? {
      var a := Lower(c.table);
      if a !in chain.here.regular {
        if a in chain.here.nested {
          NearestAt(chain.above, a);
        } else {
          QualifiedIsLexical(chain.above, c);
        }
      }
    }
  }

  /** A derived table t in a subquery hides a base table t of the query around it, yet t.x means the base table. */
  lemma HiddenTableIsStillFound()
    ensures var x := SchemaColumn("x", INTEGER, 1, true, DefaultKeyword);
            var outer := EMPTY_SCOPE.(regular := map["t" := Table(1, 7, [x])], order := ["t"]);
            var inner := EMPTY_SCOPE.(nested := map["t" := map["x" := DATE]]);
            var chain := Within(inner, Within(outer, NoScope));
            var c := ColumnRef("t", "x", 0, 0, 0, INVALID, -1);
            && ResolveQualified(chain, c) == Ok(ColumnRef("t", "x", 1, 7, 1, INTEGER, 0))
            && ResolveLexically(chain, c) == Ok(ColumnRef("t", "x", 0, 0, 0, DATE, 1))
  {
    assert Lower("t") == "t" && Lower("x") == "x";
  }

  // ---------------------------------------------------------------- star expansion

  predicate LowerCase(s: string) { Lower(s) == s }

  /** A reference as the parser writes it, before any visit. */
  function Written(table: string, column: string): ColumnRef {
    ColumnRef(table, column, 0, 0, 0, INVALID, -1)
  }

  lemma {:induction false} RegularStarMembers(tables: map<string, Table>, aliases: seq<string>, n: nat, d: nat, r: ColumnRef)
    requires n <= |aliases| && r in RegularStar(tables, aliases, n, d)
    ensures r.table in aliases[..n] && r.table in tables
    ensures exists i :: 0 <= i < |tables[r.table].columns| && r == RegularRef(r.table, tables[r.table], tables[r.table].columns[i], d)
  {
    if r in RegularStar(tables, aliases, n - 1, d) {
      RegularStarMembers(tables, aliases, n - 1, d, r);
    } else {
      var star := TableStar(aliases[n - 1], tables[aliases[n - 1]], d);
      var i :| 0 <= i < |star| && star[i] == r;
    }
  }

  lemma {:induction false} NestedTableStarMembers(a: string, cols: NestedTable, names: seq<string>, n: nat, d: nat)
    requires n <= |names| && NoDuplicates(names)
    ensures NoDuplicates(NestedTableStar(a, cols, names, n, d))
    ensures forall r :: r in NestedTableStar(a, cols, names, n, d) <==>
                        r.table == a && r.column in names[..n] && IsNestedRef(map[a := cols], d, r)
  {
    if n > 0 {
      NestedTableStarMembers(a, cols, names, n - 1, d);
      assert names[..n] == names[..n - 1] + [names[n - 1]];
    }
  }

  lemma DerivedStarMembers(order: HashOrder, a: string, cols: NestedTable, d: nat)
    requires ValidOrder(order)
    ensures EachNestedOnce(map[a := cols], d, DerivedStar(order, a, cols, d))
  {
    var names := order(cols.Keys);
    NestedTableStarMembers(a, cols, names, |names|, d);
    assert names[..|names|] == names;
  }

  lemma {:induction false} NestedStarMembers(nested: map<string, NestedTable>, order: HashOrder, aliases: seq<string>, n: nat, d: nat)
    requires ValidOrder(order) && n <= |aliases| && NoDuplicates(aliases)
    ensures NoDuplicates(NestedStar(nested, order, aliases, n, d))
    ensures forall r :: r in NestedStar(nested, order, aliases, n, d) <==> r.table in aliases[..n] && IsNestedRef(nested, d, r)
    decreases n
  {
    if n > 0 {
      var a := aliases[n - 1];
      NestedStarMembers(nested, order, aliases, n - 1, d);
      assert aliases[..n] == aliases[..n - 1] + [a];
      if a in nested {
        DerivedStarMembers(order, a, nested[a], d);
        NoDuplicatesConcat(NestedStar(nested, order, aliases, n - 1, d), DerivedStar(order, a, nested[a], d));
      }
    }
  }

  /** Whatever the hash order, * lists the regular columns in FROM order and then every derived column once. */
  lemma StarListsEachOnce(order: HashOrder, s: Scope, d: nat)
    requires ValidOrder(order)
    ensures IsStar(s, d, StarOf(order, s, d))
  {
    var names := order(s.nested.Keys);
    var front, back := RegularStar(s.regular, s.order, |s.order|, d), NestedStar(s.nested, order, names, |names|, d);
    NestedStarMembers(s.nested, order, names, |names|, d);
    assert names[..|names|] == names;
    assert (front + back)[..|front|] == front && (front + back)[|front|..] == back;
  }

  /** Table t has the reference's oids, and its column of that name has the reference's column oid and type. */
  predicate SameColumn(t: Table, r: ColumnRef) {
    t.db == r.db && t.oid == r.tableOid &&
    match FindColumn(t.columns, r.column)
    case Some(col) => col.oid == r.columnOid && col.ty == r.ty
    case None => false
  }

  /**
    * A lookup lower-cases the names. It comes back to a listed column of a regular table if the column name is
    * in lower case and the lower-cased alias names a table with that column, and to one of a derived table if
    * both names are in lower case and no enclosing context has a regular table of that alias.
    */
  predicate FoundAgain(chain: ScopeChain, r: ColumnRef)
    requires chain.Within?
  {
    LowerCase(r.column) &&
    if r.table in chain.here.nested then LowerCase(r.table) && NearestRegular(chain.above, r.table).None?
    else Lower(r.table) in chain.here.regular && SameColumn(chain.here.regular[Lower(r.table)], r)
  }

  /** r is a column of a regular table of s. */
  predicate IsRegularRef(s: Scope, d: nat, r: ColumnRef) {
    r.table in s.regular && exists i :: 0 <= i < |s.regular[r.table].columns| &&
                                        r == RegularRef(r.table, s.regular[r.table], s.regular[r.table].columns[i], d)
  }

  lemma StarMembers(s: Scope, d: nat, refs: seq<ColumnRef>, r: ColumnRef)
    requires IsStar(s, d, refs) && r in refs
    ensures IsRegularRef(s, d, r) || IsNestedRef(s.nested, d, r)
  {
    var front := RegularStar(s.regular, s.order, |s.order|, d);
    assert refs == front + refs[|front|..];
    if r in front { RegularStarMembers(s.regular, s.order, |s.order|, d, r); }
  }

  lemma RegularFoundAgain(chain: ScopeChain, r: ColumnRef)
    requires chain.Within? && chain.Valid() && IsRegularRef(chain.here, chain.above.Height(), r) && r.table != ""
    ensures Resolve(chain, Written(r.table, r.column)) == Ok(r) <==> FoundAgain(chain, r)
  {
    NearestAt(chain.above, Lower(r.table));
  }

  lemma NestedFoundAgain(chain: ScopeChain, r: ColumnRef)
    requires chain.Within? && chain.Valid() && IsNestedRef(chain.here.nested, chain.above.Height(), r) && r.table != ""
    ensures Resolve(chain, Written(r.table, r.column)) == Ok(r) <==> FoundAgain(chain, r)
  {
    NearestAt(chain, Lower(r.table));
  }

  /** A column that * expands to is what the qualified lookup of its alias and name gives exactly when it is found again. */
  lemma StarAgreesWithLookup(chain: ScopeChain, refs: seq<ColumnRef>, r: ColumnRef)
    requires chain.Within? && chain.Valid()
    requires IsStar(chain.here, chain.above.Height(), refs) && r in refs && r.table != ""
    ensures Resolve(chain, Written(r.table, r.column)) == Ok(r) <==> FoundAgain(chain, r)
  {
    StarMembers(chain.here, chain.above.Height(), refs, r);
    if IsRegularRef(chain.here, chain.above.Height(), r) { RegularFoundAgain(chain, r); } else { NestedFoundAgain(chain, r); }
  }

  /** In lower case, only a column of a derived table can fail to be found again. */
  lemma LowerCaseFoundAgain(chain: ScopeChain, refs: seq<ColumnRef>, r: ColumnRef)
    requires chain.Within? && chain.Valid() && LowerCase(r.table) && LowerCase(r.column)
    requires IsStar(chain.here, chain.above.Height(), refs) && r in refs
    ensures FoundAgain(chain, r) <==> (r.table in chain.here.nested ==> NearestRegular(chain.above, r.table).None?)
  {
    StarMembers(chain.here, chain.above.Height(), refs, r);
    if IsRegularRef(chain.here, chain.above.Height(), r) {
      var t, d := chain.here.regular[r.table], chain.above.Height();
      var i :| 0 <= i < |t.columns| && r == RegularRef(r.table, t, t.columns[i], d);
      FindColumnUnique(t.columns, i);
    }
  }

  // ---------------------------------------------------------------- the columns of a derived table

  /** A derived table offers the name of a select item with the type of the last item so named, ... */
  lemma {:induction false} LastItemWins(items: seq<Selected>, k: nat, i: nat, col: string)
    requires i < k <= |items| && OutsideName(items[i]) == Some(col)
    requires forall j :: i < j < k ==> OutsideName(items[j]) != Some(col)
    ensures col in FirstColumns(items, k) && FirstColumns(items, k)[col] == items[i].ty
    decreases k
  {
    if i < k - 1 { LastItemWins(items, k - 1, i, col); }
  }

  /** ... and no other names. */
  lemma {:induction false} OnlyItemNames(items: seq<Selected>, k: nat, col: string)
    requires k <= |items| && col in FirstColumns(items, k)
    ensures exists i :: 0 <= i < k && OutsideName(items[i]) == Some(col)
  {
    if OutsideName(items[k - 1]) != Some(col) { OnlyItemNames(items, k - 1, col); }
  }

  /** A table defined by the statement has the type of the last definition of each column ... */
  lemma {:induction false} LastDefinitionWins(defs: seq<(string, TypeId)>, i: nat)
    requires i < |defs| && forall j :: i < j < |defs| ==> defs[j].0 != defs[i].0
    ensures defs[i].0 in DefinedColumns(defs) && DefinedColumns(defs)[defs[i].0] == defs[i].1
    decreases |defs|
  {
    if i < |defs| - 1 {
      LastDefinitionWins(defs[..|defs| - 1], i);
      assert defs[|defs| - 1].0 != defs[i].0;
    }
  }

  /** ... and no other columns. */
  lemma {:induction false} OnlyDefinedNames(defs: seq<(string, TypeId)>, col: string)
    requires col in DefinedColumns(defs)
    ensures exists i :: 0 <= i < |defs| && defs[i].0 == col
  {
    if defs[|defs| - 1].0 != col {
      OnlyDefinedNames(defs[..|defs| - 1], col);
      var i :| 0 <= i < |defs| - 1 && defs[..|defs| - 1][i].0 == col;
      assert defs[i].0 == col;
    }
  }

  // ---------------------------------------------------------------- every run of adds

  datatype Add =
    | AddRegular(ns: string, name: string, alias: string)
    | AddNew(name: string, columns: seq<(string, TypeId)>)
    | AddNested(alias: string, items: seq<Selected>)

  function Apply(cat: Catalog, db: nat, s: Scope, op: Add): Result<Scope> {
    match op
    case AddRegular(ns, name, alias) => WithRegular(cat, db, ns, name, alias, s)
    case AddNew(name, columns) => WithNested(name, DefinedColumns(columns), s)
    case AddNested(alias, items) => WithNested(alias, NestedColumns(items), s)
  }

  /** A run of adds from an empty context; a rejected add leaves the context as it was. */
  function RunAdds(cat: Catalog, db: nat, ops: seq<Add>): Scope {
    if ops == [] then EMPTY_SCOPE
    else
      var s := RunAdds(cat, db, ops[..|ops| - 1]);
      match Apply(cat, db, s, ops[|ops| - 1])
      case Ok(s') => s'
      case Err(_) => s
  }

  /** The aliases of the accepted regular adds, in the order they came. */
  function AcceptedAliases(cat: Catalog, db: nat, ops: seq<Add>): seq<string> {
    if ops == [] then []
    else
      var n := |ops| - 1;
      AcceptedAliases(cat, db, ops[..n]) +
      if ops[n].AddRegular? && Apply(cat, db, RunAdds(cat, db, ops[..n]), ops[n]).Ok? then [ops[n].alias] else []
  }

  lemma ApplyKeepsValid(cat: Catalog, db: nat, s: Scope, op: Add)
    requires cat.Valid() && ValidScope(s)
    ensures var r := Apply(cat, db, s, op);
            r.Ok? ==> ValidScope(r.value) && r.value.order == s.order + if op.AddRegular? then [op.alias] else []
  {
    if op.AddRegular? && Apply(cat, db, s, op).Ok? {
      NoDuplicatesConcat(s.order, [op.alias]);
    }
  }

  /**
    * Over every run of adds the alias sets stay disjoint and the alias list enumerates the regular tables
    * without repetition, in the order of the accepted adds; so * lists the regular columns in FROM order.
    */
  lemma {:induction false} AddsKeepContextValid(cat: Catalog, db: nat, ops: seq<Add>)
    requires cat.Valid()
    ensures ValidScope(RunAdds(cat, db, ops))
    ensures RunAdds(cat, db, ops).order == AcceptedAliases(cat, db, ops)
  {
    if ops != [] {
      var n := |ops| - 1;
      AddsKeepContextValid(cat, db, ops[..n]);
      ApplyKeepsValid(cat, db, RunAdds(cat, db, ops[..n]), ops[n]);
    }
  }

  /** In a valid context * lists every column of every regular table ... */
  lemma {:induction false} RegularStarComplete(tables: map<string, Table>, aliases: seq<string>, n: nat, d: nat, k: nat, i: nat)
    requires k < n <= |aliases| && aliases[k] in tables && i < |tables[aliases[k]].columns|
    ensures RegularRef(aliases[k], tables[aliases[k]], tables[aliases[k]].columns[i], d) in RegularStar(tables, aliases, n, d)
    decreases n
  {
    if k == n - 1 {
      var star := TableStar(aliases[k], tables[aliases[k]], d);
      assert star[i] in star;
    } else {
      RegularStarComplete(tables, aliases, n - 1, d, k, i);
    }
  }

  /** ... and none of them twice. */
  lemma {:induction false} RegularStarOnce(tables: map<string, Table>, aliases: seq<string>, n: nat, d: nat)
    requires forall a :: a in tables ==> tables[a].Valid()
    requires NoDuplicates(aliases) && n <= |aliases|
    ensures NoDuplicates(RegularStar(tables, aliases, n, d))
    decreases n
  {
    if n > 0 && aliases[n - 1] in tables {
      var b := aliases[n - 1];
      var front, star := RegularStar(tables, aliases, n - 1, d), TableStar(b, tables[b], d);
      RegularStarOnce(tables, aliases, n - 1, d);
      forall r | r in front ensures r !in star {
        RegularStarMembers(tables, aliases, n - 1, d, r);
      }
      NoDuplicatesConcat(front, star);
    } else if n > 0 {
      RegularStarOnce(tables, aliases, n - 1, d);
    }
  }
}
