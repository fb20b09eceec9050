/**
  * What the INSERT rewrite guarantees, for one row and for many.
  */
module InsertLaws {
  import opened SqlTypes
  import opened Promotion
  import PromotionLaws
  import opened Scopes
  import opened Insert

  // ---------------------------------------------------------------- one row

  /** The column was not given, has no default and may not be NULL. */
  predicate Unfillable(sc: SchemaColumn, cols: seq<string>) {
    sc.name !in cols && sc.stored == TypedNull(sc) && !sc.nullable
  }

  predicate Fillable(schema: seq<SchemaColumn>, cols: seq<string>) {
    forall i :: 0 <= i < |schema| ==> !Unfillable(schema[i], cols)
  }

  /** Column by column, out is what the row gives. */
  ghost predicate FilledAs(schema: seq<SchemaColumn>, cols: seq<string>, row: Row, k: nat, out: Row)
    requires k <= |schema|
  {
    |out| == k && forall i :: 0 <= i < k ==> FillColumn(schema[i], cols, row) == Ok(out[i])
  }

  lemma {:induction false} FillPointwise(schema: seq<SchemaColumn>, cols: seq<string>, row: Row, k: nat)
    requires k <= |schema| && Fill(schema, cols, row, k).Ok?
    ensures FilledAs(schema, cols, row, k, Fill(schema, cols, row, k).value)
  {
    if k > 0 { FillPointwise(schema, cols, row, k - 1); }
  }

  lemma {:induction false} FillCulprit(schema: seq<SchemaColumn>, cols: seq<string>, row: Row, k: nat) returns (i: nat)
    requires k <= |schema| && Fill(schema, cols, row, k).Err?
    ensures i < k && FillColumn(schema[i], cols, row) == Err(Fill(schema, cols, row, k).error)
  {
    if Fill(schema, cols, row, k - 1).Err? {
      i := FillCulprit(schema, cols, row, k - 1);
    } else {
      i := k - 1;
    }
  }

  /** With a value for every listed column, only an unfillable column fails. */
  lemma ColumnFails(sc: SchemaColumn, cols: seq<string>, row: Row)
    requires |cols| <= |row|
    ensures FillColumn(sc, cols, row) == Err(SyntaxError) <==> Unfillable(sc, cols)
    ensures FillColumn(sc, cols, row).Err? ==> FillColumn(sc, cols, row) == Err(SyntaxError)
    ensures sc.name !in cols && !Unfillable(sc, cols) ==>
              FillColumn(sc, cols, row) == Ok(sc.stored)
  {
    if sc.name in cols {
      var j :| 0 <= j < |cols| && cols[j] == sc.name;
    }
  }

  /** A row is filled exactly when the list leaves no unfillable column, and otherwise reports a syntax error. */
  lemma FillsExactly(schema: seq<SchemaColumn>, cols: seq<string>, row: Row)
    requires |cols| <= |row|
    ensures var r := Fill(schema, cols, row, |schema|);
            if Fillable(schema, cols) then r.Ok? && FilledAs(schema, cols, row, |schema|, r.value)
            else r == Err(SyntaxError)
  {
    if Fill(schema, cols, row, |schema|).Err? {
      var i := FillCulprit(schema, cols, row, |schema|);
      ColumnFails(schema[i], cols, row);
    } else {
      FillPointwise(schema, cols, row, |schema|);
      forall i | 0 <= i < |schema| ensures !Unfillable(schema[i], cols) {
        ColumnFails(schema[i], cols, row);
      }
    }
  }

  predicate Distinct(cols: seq<string>) { forall i, j :: 0 <= i < j < |cols| ==> cols[i] != cols[j] }

  /** Every supplied value stands under its own column, and every other column has its default, which may be NULL. */
  ghost predicate MeansAsWritten(schema: seq<SchemaColumn>, cols: seq<string>, row: Row, out: Row)
    requires |row| == |cols|
  {
    && |out| == |schema|
    && (forall j :: 0 <= j < |cols| ==> exists i :: 0 <= i < |schema| && schema[i].name == cols[j])
    && (forall i, j :: 0 <= i < |schema| && 0 <= j < |cols| && schema[i].name == cols[j] ==> out[i] == row[j])
    && (forall i :: 0 <= i < |schema| && schema[i].name !in cols ==> out[i] == schema[i].stored)
  }

  /**
    * With distinct, existing columns and a value for each, the row comes out in schema order: a supplied value
    * under its own column, otherwise the default, which is a NULL of the column's type if none was declared. It
    * fails exactly when some missing column has neither a default nor nullability.
    */
  lemma RowKeepsMeaning(schema: seq<SchemaColumn>, cols: seq<string>, row: Row)
    requires AllExist(schema, cols) && Distinct(cols) && |row| == |cols| > 0
    ensures match FillRow(schema, |cols|, cols, row)
            case Ok(out) => Fillable(schema, cols) && MeansAsWritten(schema, cols, row, out)
            case Err(e) => !Fillable(schema, cols) && e == SyntaxError
  {
    FillsExactly(schema, cols, row);
    if Fillable(schema, cols) {
      var out := Fill(schema, cols, row, |schema|).value;
      forall i | 0 <= i < |schema| && schema[i].name !in cols
        ensures out[i] == schema[i].stored
      {
        ColumnFails(schema[i], cols, row);
      }
      forall i, j | 0 <= i < |schema| && 0 <= j < |cols| && schema[i].name == cols[j] ensures out[i] == row[j] {
        assert IndexOf(cols, cols[j]) == j;
      }
    }
  }

  /** The row filled with another value in position j. */
  function FilledWith(schema: seq<SchemaColumn>, cols: seq<string>, row: Row, j: nat, v: ValueExpr): Result<Row>
    requires j < |row|
  {
    FillRow(schema, |cols|, cols, row[j := v])
  }

  /** A supplied value is dropped exactly when its column was already named earlier in the list. */
  lemma DroppedExactly(schema: seq<SchemaColumn>, cols: seq<string>, row: Row, j: nat)
    requires AllExist(schema, cols) && Fillable(schema, cols) && j < |cols| == |row|
    ensures (forall v :: FilledWith(schema, cols, row, j, v) == FillRow(schema, |cols|, cols, row))
       <==> IndexOf(cols, cols[j]) < j
  {
    if IndexOf(cols, cols[j]) < j {
      forall v ensures FilledWith(schema, cols, row, j, v) == FillRow(schema, |cols|, cols, row) {
        FillIgnores(schema, cols, row, j, v, |schema|);
      }
    } else {
      var v := if row[j].DefaultKeyword? then TypedNull(schema[0]) else DefaultKeyword;
      var i :| 0 <= i < |schema| && schema[i].name == cols[j];
      FillsExactly(schema, cols, row);
      FillsExactly(schema, cols, row[j := v]);
      assert FillColumn(schema[i], cols, row[j := v]) == Ok(v) && FillColumn(schema[i], cols, row) == Ok(row[j]);
      assert FilledWith(schema, cols, row, j, v) != FillRow(schema, |cols|, cols, row);
    }
  }

  lemma {:induction false} FillIgnores(schema: seq<SchemaColumn>, cols: seq<string>, row: Row, j: nat, v: ValueExpr, k: nat)
    requires k <= |schema| && j < |cols| == |row| && IndexOf(cols, cols[j]) < j
    ensures Fill(schema, cols, row[j := v], k) == Fill(schema, cols, row, k)
  {
    if k > 0 { FillIgnores(schema, cols, row, j, v, k - 1); }
  }

  // ---------------------------------------------------------------- columns of a bound row

  /** The bound value of one column: filled and then typed. */
  function ColumnValue(lib: TextParsers, sc: SchemaColumn, cols: seq<string>, row: Row): Result<ValueExpr> {
    var v :- FillColumn(sc, cols, row);
    TypeValue(lib, sc, v)
  }

  lemma {:induction false} TypedPointwise(lib: TextParsers, schema: seq<SchemaColumn>, row: Row, k: nat)
    requires k <= |schema| == |row|
    ensures TypeRow(lib, schema, row, k).Ok? <==> forall i :: 0 <= i < k ==> TypeValue(lib, schema[i], row[i]).Ok?
    ensures TypeRow(lib, schema, row, k).Ok? ==>
              forall i :: 0 <= i < k ==> TypeValue(lib, schema[i], row[i]) == Ok(TypeRow(lib, schema, row, k).value[i])
    decreases k
  {
    if k > 0 { TypedPointwise(lib, schema, row, k - 1); }
  }

  /** A row of the right length binds exactly when each of its columns does, to the values of the columns. */
  lemma RowByColumns(lib: TextParsers, schema: seq<SchemaColumn>, cols: seq<string>, n: nat, row: Row)
    requires n > 0 && |row| == n
    ensures BindRow(lib, schema, n, cols, row).Ok?
       <==> forall i :: 0 <= i < |schema| ==> ColumnValue(lib, schema[i], cols, row).Ok?
    ensures BindRow(lib, schema, n, cols, row).Ok? ==>
              && |BindRow(lib, schema, n, cols, row).value| == |schema|
              && forall i :: 0 <= i < |schema| ==>
                               ColumnValue(lib, schema[i], cols, row) == Ok(BindRow(lib, schema, n, cols, row).value[i])
  {
    var filled := Fill(schema, cols, row, |schema|);
    if filled.Ok? {
      FillPointwise(schema, cols, row, |schema|);
      TypedPointwise(lib, schema, filled.value, |schema|);
    } else {
      var i := FillCulprit(schema, cols, row, |schema|);
      assert ColumnValue(lib, schema[i], cols, row).Err?;
    }
  }

  // ---------------------------------------------------------------- the statement as written

  /** Rows r and up, every one read under the list as written. */
  function IntendedRows(lib: TextParsers, schema: seq<SchemaColumn>, cols: seq<string>, values: seq<Row>, r: nat): Result<seq<Row>>
    requires r <= |values|
    decreases |values| - r
  {
    if r == |values| then Ok(values)
    else
      var row :- BindRow(lib, schema, |cols|, cols, values[r]);
      IntendedRows(lib, schema, cols, values[r := row], r + 1)
  }

  /** What an INSERT says: its columns exist, and each row is bound under the list as written. */
  function IntendedInsert(lib: TextParsers, schema: seq<SchemaColumn>, st: Rows): Result<seq<Row>> {
    if !AllExist(schema, st.columns) then Err(UndefinedColumn)
    else IntendedRows(lib, schema, st.columns, st.values, 0)
  }

  function BoundValues(r: Result<Rows>): Result<seq<Row>> {
    var st :- r;
    Ok(st.values)
  }

  predicate BindsRows(lib: TextParsers, schema: seq<SchemaColumn>, st: Rows) {
    BoundValues(BindInsert(lib, schema, st)) == IntendedInsert(lib, schema, st)
  }

  /** Every statement with this column list binds as it says, errors included. */
  ghost predicate BindsAsWritten(lib: TextParsers, schema: seq<SchemaColumn>, cols: seq<string>) {
    forall values :: BindsRows(lib, schema, Rows(cols, values))
  }

  // ---------------------------------------------------------------- the condition

  /** Column names are unique and no column has the type INVALID. */
  ghost predicate ValidSchema(schema: seq<SchemaColumn>) {
    UniqueNames(schema) && forall i :: 0 <= i < |schema| ==> schema[i].ty != INVALID
  }

  /** The list is missing, or begins with all columns in schema order. */
  predicate InSchemaOrder(schema: seq<SchemaColumn>, cols: seq<string>) {
    cols == [] || Names(schema) <= cols
  }

  /** Every column the list leaves out has a default or is nullable, and its default can be typed. */
  predicate OthersBind(lib: TextParsers, schema: seq<SchemaColumn>, cols: seq<string>) {
    forall i :: 0 <= i < |schema| && schema[i].name !in cols ==>
                  !Unfillable(schema[i], cols) && TypeValue(lib, schema[i], schema[i].stored).Ok?
  }

  lemma MissingColumn(lib: TextParsers, sc: SchemaColumn, cols: seq<string>, row: Row)
    requires sc.name !in cols
    ensures ColumnValue(lib, sc, cols, row)
         == if Unfillable(sc, cols) then Err(SyntaxError) else TypeValue(lib, sc, sc.stored)
  {
  }

  /** Otherwise no row at all can be bound. */
  lemma NoRowBinds(lib: TextParsers, schema: seq<SchemaColumn>, cols: seq<string>, row: Row)
    requires cols != [] && !OthersBind(lib, schema, cols)
    ensures BindRow(lib, schema, |cols|, cols, row).Err?
  {
    if |row| == |cols| {
      var i :| 0 <= i < |schema| && schema[i].name !in cols &&
               !(!Unfillable(schema[i], cols) && TypeValue(lib, schema[i], schema[i].stored).Ok?);
      MissingColumn(lib, schema[i], cols, row);
      RowByColumns(lib, schema, cols, |cols|, row);
    }
  }

  // ---------------------------------------------------------------- it suffices

  lemma IndexInOrder(schema: seq<SchemaColumn>, cols: seq<string>, i: nat)
    requires UniqueNames(schema) && Names(schema) <= cols && i < |schema|
    ensures IndexOf(cols, schema[i].name) == i
  {
    assert cols[i] == Names(schema)[i];
    assert forall j :: 0 <= j < i ==> cols[j] == Names(schema)[j];
  }

  lemma {:induction false} FillInOrder(schema: seq<SchemaColumn>, cols: seq<string>, row: Row, k: nat)
    requires UniqueNames(schema) && Names(schema) <= cols && |row| == |cols| && k <= |schema|
    ensures Fill(schema, Names(schema), row, k) == Fill(schema, cols, row, k)
  {
    if k > 0 {
      FillInOrder(schema, cols, row, k - 1);
      IndexInOrder(schema, cols, k - 1);
      IndexInOrder(schema, Names(schema), k - 1);
    }
  }

  lemma RowInOrder(lib: TextParsers, schema: seq<SchemaColumn>, cols: seq<string>, row: Row)
    requires UniqueNames(schema) && cols != [] && Names(schema) <= cols
    ensures BindRow(lib, schema, |cols|, Names(schema), row) == BindRow(lib, schema, |cols|, cols, row)
  {
    if |row| == |cols| { FillInOrder(schema, cols, row, |schema|); }
  }

  lemma {:induction false} RowsInOrder(lib: TextParsers, schema: seq<SchemaColumn>, cols: seq<string>, st: Rows, r: nat)
    requires UniqueNames(schema) && InSchemaOrder(schema, cols) && r <= |st.values|
    requires st.columns == cols || (cols != [] && st.columns == Names(schema))
    ensures BoundValues(BindRows(lib, schema, |cols|, st, r)) == IntendedRows(lib, schema, cols, st.values, r)
    decreases |st.values| - r
  {
    if r < |st.values| {
      var bound := BindRow(lib, schema, |cols|, st.columns, st.values[r]);
      if st.columns != cols { RowInOrder(lib, schema, cols, st.values[r]); }
      if bound.Ok? {
        var next := Rows(if |cols| == 0 then st.columns else Names(schema), st.values[r := bound.value]);
        RowsInOrder(lib, schema, cols, next, r + 1);
      }
    }
  }

  // ---------------------------------------------------------------- it is necessary

  /** A constant of a column's type that is not NULL, well formed if the type has values at all. */
  function Sample(t: TypeId): (c: Constant)
    ensures c.ty == t && !c.val.NullVal? && (WellFormed(c) || t in {INVALID, PARAMETER_OFFSET, VARIADIC})
  {
    match t
    case DECIMAL => Constant(t, RealVal(1.0))
    case TIMESTAMP => Constant(t, TimestampVal(1))
    case DATE => Constant(t, DateVal(1))
    case VARCHAR | VARBINARY => Constant(t, TextVal("x"))
    case TINYINT | SMALLINT | INTEGER | BIGINT => Constant(t, IntVal(1))
    case _ => Constant(t, BoolVal(true))
  }

  const UNTYPED_NULL := Literal(Constant(INVALID, NullVal))

  /** NULL everywhere but in position p. */
  function Probe(n: nat, p: nat, v: ValueExpr): (row: Row)
    ensures |row| == n && forall j :: 0 <= j < n ==> row[j] == if j == p then v else UNTYPED_NULL
  {
    seq(n, j => if j == p then v else UNTYPED_NULL)
  }

  /** v can be bound in position p: it is a constant of the type of the column named there. */
  ghost predicate Suits(schema: seq<SchemaColumn>, cols: seq<string>, p: nat, v: ValueExpr) {
    p < |cols| ==> exists q :: 0 <= q < |schema| && schema[q].name == cols[p] && v == Literal(Sample(schema[q].ty))
  }

  lemma ProbeColumn(lib: TextParsers, schema: seq<SchemaColumn>, cols: seq<string>, p: nat, v: ValueExpr, k: nat)
    requires ValidSchema(schema) && OthersBind(lib, schema, cols) && Suits(schema, cols, p, v) && k < |schema|
    ensures ColumnValue(lib, schema[k], cols, Probe(|cols|, p, v)).Ok?
  {
    var sc, row := schema[k], Probe(|cols|, p, v);
    var i := IndexOf(cols, sc.name);
    if i == |cols| {
      assert sc.name !in cols;
      MissingColumn(lib, sc, cols, row);
    } else if i == p {
      var q :| 0 <= q < |schema| && schema[q].name == cols[p] && v == Literal(Sample(schema[q].ty));
      assert q == k;
    }
  }

  lemma ProbeBinds(lib: TextParsers, schema: seq<SchemaColumn>, cols: seq<string>, p: nat, v: ValueExpr)
    requires ValidSchema(schema) && cols != [] && OthersBind(lib, schema, cols) && Suits(schema, cols, p, v)
    ensures BindRow(lib, schema, |cols|, cols, Probe(|cols|, p, v)).Ok?
  {
    var row := Probe(|cols|, p, v);
    forall k | 0 <= k < |schema| ensures ColumnValue(lib, schema[k], cols, row).Ok? {
      ProbeColumn(lib, schema, cols, p, v, k);
    }
    RowByColumns(lib, schema, cols, |cols|, row);
  }

  /** A typed value is NULL exactly when the literal it comes from is. */
  lemma TypingKeepsNull(lib: TextParsers, sc: SchemaColumn, t: TypeId)
    requires t != INVALID
    ensures TypeValue(lib, sc, UNTYPED_NULL) == Ok(TypedNull(sc))
    ensures TypeValue(lib, sc, Literal(Sample(t))) != Ok(TypedNull(sc))
  {
  }

  lemma ColumnNamed(schema: seq<SchemaColumn>, cols: seq<string>, p: nat) returns (q: nat)
    requires AllExist(schema, cols) && p < |cols|
    ensures q < |schema| && schema[q].name == cols[p]
  {
    assert FindColumn(schema, cols[p]).Some?;
    q :| 0 <= q < |schema| && schema[q].name == cols[p];
  }

  /** A row that binds under the list as written, but whose column i differs under the list in schema order. */
  lemma TellingRow(lib: TextParsers, schema: seq<SchemaColumn>, cols: seq<string>, i: nat) returns (row: Row)
    requires ValidSchema(schema) && cols != [] && AllExist(schema, cols) && OthersBind(lib, schema, cols)
    requires i < |schema| && !(i < |cols| && cols[i] == schema[i].name)
    ensures |row| == |cols| && BindRow(lib, schema, |cols|, cols, row).Ok?
    ensures ColumnValue(lib, schema[i], cols, row) != ColumnValue(lib, schema[i], Names(schema), row)
  {
    var sc := schema[i];
    IndexInOrder(schema, Names(schema), i);
    if i >= |cols| {
      row := TellingRowBeyond(lib, schema, cols, i);
    } else if sc.name in cols {
      row := TellingRowMoved(lib, schema, cols, i);
    } else {
      row := TellingRowMissing(lib, schema, cols, i);
    }
  }

  /** The list is shorter than the schema: the second row is read beyond its end. */
  lemma TellingRowBeyond(lib: TextParsers, schema: seq<SchemaColumn>, cols: seq<string>, i: nat) returns (row: Row)
    requires ValidSchema(schema) && cols != [] && OthersBind(lib, schema, cols) && |cols| <= i < |schema|
    ensures |row| == |cols| && BindRow(lib, schema, |cols|, cols, row).Ok?
    ensures ColumnValue(lib, schema[i], cols, row) != ColumnValue(lib, schema[i], Names(schema), row)
  {
    row := Probe(|cols|, |cols|, UNTYPED_NULL);
    ProbeBinds(lib, schema, cols, |cols|, UNTYPED_NULL);
    RowByColumns(lib, schema, cols, |cols|, row);
    IndexInOrder(schema, Names(schema), i);
  }

  /** The column is named elsewhere in the list: a value there, NULL in its schema position. */
  lemma TellingRowMoved(lib: TextParsers, schema: seq<SchemaColumn>, cols: seq<string>, i: nat) returns (row: Row)
    requires ValidSchema(schema) && OthersBind(lib, schema, cols)
    requires i < |schema| && i < |cols| && cols[i] != schema[i].name && schema[i].name in cols
    ensures |row| == |cols| && BindRow(lib, schema, |cols|, cols, row).Ok?
    ensures ColumnValue(lib, schema[i], cols, row) != ColumnValue(lib, schema[i], Names(schema), row)
  {
    var sc := schema[i];
    var p, v := IndexOf(cols, sc.name), Literal(Sample(sc.ty));
    row := Probe(|cols|, p, v);
    ProbeBinds(lib, schema, cols, p, v);
    IndexInOrder(schema, Names(schema), i);
    TypingKeepsNull(lib, sc, sc.ty);
  }

  /** The column is left out: a value or a NULL in its schema position, whichever it would not get. */
  lemma TellingRowMissing(lib: TextParsers, schema: seq<SchemaColumn>, cols: seq<string>, i: nat) returns (row: Row)
    requires ValidSchema(schema) && AllExist(schema, cols) && OthersBind(lib, schema, cols)
    requires i < |schema| && i < |cols| && schema[i].name !in cols
    ensures |row| == |cols| && BindRow(lib, schema, |cols|, cols, row).Ok?
    ensures ColumnValue(lib, schema[i], cols, row) != ColumnValue(lib, schema[i], Names(schema), row)
  {
    var sc := schema[i];
    var q := ColumnNamed(schema, cols, i);
    var p := if TypeValue(lib, sc, sc.stored) == Ok(TypedNull(sc)) then i else |cols|;
    var v := Literal(Sample(schema[q].ty));
    row := Probe(|cols|, p, v);
    ProbeBinds(lib, schema, cols, p, v);
    MissingColumn(lib, sc, cols, row);
    IndexInOrder(schema, Names(schema), i);
    TypingKeepsNull(lib, sc, schema[q].ty);
  }

  /** For every other list, two equal rows that both say the same and come out differently. */
  lemma SecondRowDiffers(lib: TextParsers, schema: seq<SchemaColumn>, cols: seq<string>) returns (row: Row)
    requires ValidSchema(schema) && AllExist(schema, cols) && OthersBind(lib, schema, cols) && !InSchemaOrder(schema, cols)
    ensures IntendedInsert(lib, schema, Rows(cols, [row, row])).Ok?
    ensures !BindsRows(lib, schema, Rows(cols, [row, row]))
  {
    var i :| 0 <= i < |schema| && !(i < |cols| && cols[i] == Names(schema)[i]);
    row := TellingRow(lib, schema, cols, i);
    RowByColumns(lib, schema, cols, |cols|, row);
    RowByColumns(lib, schema, Names(schema), |cols|, row);
    TwoRows(lib, schema, cols, row, BindRow(lib, schema, |cols|, cols, row).value);
  }

  lemma TwoRows(lib: TextParsers, schema: seq<SchemaColumn>, cols: seq<string>, row: Row, out: Row)
    requires cols != [] && AllExist(schema, cols)
    requires BindRow(lib, schema, |cols|, cols, row) == Ok(out)
    ensures IntendedInsert(lib, schema, Rows(cols, [row, row])) == Ok([out, out])
    ensures BoundValues(BindInsert(lib, schema, Rows(cols, [row, row]))) ==
            match BindRow(lib, schema, |cols|, Names(schema), row)
            case Ok(second) => Ok([out, second])
            case Err(e) => Err(e)
  {
    var two, one := [row, row], [out, row];
    assert two[0 := out] == one && one[1 := out] == [out, out];
    assert IntendedRows(lib, schema, cols, [out, out], 2) == Ok([out, out]);
    assert IntendedRows(lib, schema, cols, one, 1) == Ok([out, out]);
    var n := |cols|;
    match BindRow(lib, schema, n, Names(schema), row)
    case Err(_) => assert BindRows(lib, schema, n, Rows(Names(schema), one), 1).Err?;
    case Ok(second) =>
      assert one[1 := second] == [out, second];
      assert BindRows(lib, schema, n, Rows(Names(schema), [out, second]), 2) == Ok(Rows(Names(schema), [out, second]));
      assert BindRows(lib, schema, n, Rows(Names(schema), one), 1) == Ok(Rows(Names(schema), [out, second]));
  }

  /**
    * Every INSERT with a given column list binds as it says, errors included, exactly when the list is missing,
    * begins with all columns in schema order, names an unknown column, or leaves a column out that no row can do
    * without.
    */
  lemma ManyRowsExactly(lib: TextParsers, schema: seq<SchemaColumn>, cols: seq<string>)
    requires ValidSchema(schema)
    ensures BindsAsWritten(lib, schema, cols)
       <==> InSchemaOrder(schema, cols) || !AllExist(schema, cols) || !OthersBind(lib, schema, cols)
  {
    if InSchemaOrder(schema, cols) {
      forall values ensures BindsRows(lib, schema, Rows(cols, values)) {
        RowsInOrder(lib, schema, cols, Rows(cols, values), 0);
      }
    } else if AllExist(schema, cols) {
      if OthersBind(lib, schema, cols) {
        var row := SecondRowDiffers(lib, schema, cols);
      } else {
        forall values ensures BindsRows(lib, schema, Rows(cols, values)) {
          if values != [] { NoRowBinds(lib, schema, cols, values[0]); }
        }
      }
    }
  }

  /** INSERT INTO t (b, a) VALUES (1, 2), (3, 4): the second row goes in as a = 3, b = 4. */
  lemma SecondRowIsSwapped(lib: TextParsers)
    ensures var a := SchemaColumn("a", INTEGER, 1, true, Literal(Constant(INTEGER, NullVal)));
            var b := a.(name := "b", oid := 2);
            var st := Rows(["b", "a"], [[Number(1), Number(2)], [Number(3), Number(4)]]);
            && BoundValues(BindInsert(lib, [a, b], st)) == Ok([[Number(2), Number(1)], [Number(3), Number(4)]])
            && IntendedInsert(lib, [a, b], st) == Ok([[Number(2), Number(1)], [Number(4), Number(3)]])
  {
    var a := SchemaColumn("a", INTEGER, 1, true, Literal(Constant(INTEGER, NullVal)));
    var schema, cols := [a, a.(name := "b", oid := 2)], ["b", "a"];
    assert Names(schema) == ["a", "b"];
    assert FindColumn(schema, "a").Some? && FindColumn(schema, "b").Some?;
    SwappedRow(lib, schema, cols, 1, 2);
    SwappedRow(lib, schema, cols, 3, 4);
    var v1, v2 := [[Number(1), Number(2)], [Number(3), Number(4)]], [[Number(2), Number(1)], [Number(3), Number(4)]];
    var v3 := [[Number(2), Number(1)], [Number(4), Number(3)]];
    assert v1[0 := v2[0]] == v2 && v2[1 := v3[1]] == v3 && v2[1 := v2[1]] == v2;
    assert IntendedRows(lib, schema, cols, v3, 2) == Ok(v3);
    assert IntendedRows(lib, schema, cols, v2, 1) == Ok(v3);
    assert BindRows(lib, schema, 2, Rows(["a", "b"], v2), 2) == Ok(Rows(["a", "b"], v2));
    assert BindRows(lib, schema, 2, Rows(["a", "b"], v2), 1) == Ok(Rows(["a", "b"], v2));
  }

  function Number(n: int): ValueExpr { Literal(Constant(INTEGER, IntVal(n))) }

  lemma SwappedRow(lib: TextParsers, schema: seq<SchemaColumn>, cols: seq<string>, x: int, y: int)
    requires |schema| == 2 && schema[0].name == "a" && schema[1].name == "b" && cols == ["b", "a"]
    requires schema[0].ty == INTEGER && schema[1].ty == INTEGER
    ensures BindRow(lib, schema, 2, cols, [Number(x), Number(y)]) == Ok([Number(y), Number(x)])
    ensures BindRow(lib, schema, 2, ["a", "b"], [Number(x), Number(y)]) == Ok([Number(x), Number(y)])
  {
    var row, names := [Number(x), Number(y)], ["a", "b"];
    assert cols[0] == "b" && cols[1] == "a" && names[0] == "a" && names[1] == "b";
    assert ColumnValue(lib, schema[0], cols, row) == Ok(Number(y)) && ColumnValue(lib, schema[1], cols, row) == Ok(Number(x));
    assert ColumnValue(lib, schema[0], names, row) == Ok(Number(x)) && ColumnValue(lib, schema[1], names, row) == Ok(Number(y));
    RowByColumns(lib, schema, cols, 2, row);
    RowByColumns(lib, schema, names, 2, row);
    var swapped, kept := BindRow(lib, schema, 2, cols, row).value, BindRow(lib, schema, 2, names, row).value;
    assert swapped == [swapped[0], swapped[1]] && kept == [kept[0], kept[1]];
  }

  // ---------------------------------------------------------------- rows of a bound statement

  lemma {:induction false} RowsPointwise(lib: TextParsers, schema: seq<SchemaColumn>, n: nat, st: Rows, r: nat)
    requires r <= |st.values| && BindRows(lib, schema, n, st, r).Ok?
    ensures var st' := BindRows(lib, schema, n, st, r).value;
            && |st'.values| == |st.values| && st'.values[..r] == st.values[..r]
            && forall k :: r <= k < |st.values| ==>
                             var cols := if n == 0 || k == r then st.columns else Names(schema);
                             BindRow(lib, schema, n, cols, st.values[k]) == Ok(st'.values[k])
    decreases |st.values| - r
  {
    if r < |st.values| {
      var row := BindRow(lib, schema, n, st.columns, st.values[r]).value;
      var next := Rows(if n == 0 then st.columns else Names(schema), st.values[r := row]);
      RowsPointwise(lib, schema, n, next, r + 1);
      var st' := BindRows(lib, schema, n, next, r + 1).value;
      assert st'.values[..r + 1][..r] == next.values[..r + 1][..r] == st.values[..r];
      assert st'.values[r] == st'.values[..r + 1][r] == row;
    }
  }

  /** The column list that row r is read under: the first row leaves schema order behind. */
  function ListFor(schema: seq<SchemaColumn>, cols: seq<string>, r: nat): seq<string> {
    if cols == [] || r == 0 then cols else Names(schema)
  }

  /** Row r of a bound INSERT was bound under the list that the rows before it left behind. */
  lemma RowOfInsert(lib: TextParsers, schema: seq<SchemaColumn>, st: Rows, r: nat)
    requires BindInsert(lib, schema, st).Ok? && r < |st.values|
    ensures var st' := BindInsert(lib, schema, st).value;
            && |st'.values| == |st.values|
            && BindRow(lib, schema, |st.columns|, ListFor(schema, st.columns, r), st.values[r]) == Ok(st'.values[r])
  {
    RowsPointwise(lib, schema, |st.columns|, st, 0);
  }

  /** The first row always, and every row under a list in schema order, is bound as written. */
  lemma InsertBindsAsWritten(lib: TextParsers, schema: seq<SchemaColumn>, st: Rows, r: nat)
    requires UniqueNames(schema) && BindInsert(lib, schema, st).Ok? && r < |st.values|
    requires r == 0 || InSchemaOrder(schema, st.columns)
    ensures var st' := BindInsert(lib, schema, st).value;
            && |st'.values| == |st.values|
            && BindRow(lib, schema, |st.columns|, st.columns, st.values[r]) == Ok(st'.values[r])
  {
    RowOfInsert(lib, schema, st, r);
    if st.columns != [] && r > 0 { RowInOrder(lib, schema, st.columns, st.values[r]); }
  }

  /**
    * The position in row r that column i is read from. The first row is read by name; without a list, and after
    * the first row, in schema order.
    */
  function Position(schema: seq<SchemaColumn>, cols: seq<string>, r: nat, i: nat): nat
    requires i < |schema|
  {
    if cols == [] || r > 0 then i else IndexOf(cols, schema[i].name)
  }

  /** The expression that stands for column i in row r of a bound statement: the stored one if it is left out. */
  function Given(schema: seq<SchemaColumn>, cols: seq<string>, r: nat, row: Row, i: nat): ValueExpr
    requires i < |schema|
  {
    var k := Position(schema, cols, r, i);
    if k < |row| then row[k] else schema[i].stored
  }

  lemma GivenIsBound(lib: TextParsers, schema: seq<SchemaColumn>, cols: seq<string>, r: nat, row: Row, i: nat)
    requires UniqueNames(schema) && i < |schema| && BindRow(lib, schema, |cols|, ListFor(schema, cols, r), row).Ok?
    ensures var out := BindRow(lib, schema, |cols|, ListFor(schema, cols, r), row).value;
            |out| == |schema| && TypeValue(lib, schema[i], Given(schema, cols, r, row, i)) == Ok(out[i])
  {
    if cols == [] {
      TypedPointwise(lib, schema, row, |schema|);
    } else {
      RowByColumns(lib, schema, ListFor(schema, cols, r), |cols|, row);
      if r > 0 { IndexInOrder(schema, Names(schema), i); }
    }
  }

  // ---------------------------------------------------------------- types

  /** What is given for a column ends up with the column's type. */
  predicate TypeFits(sc: SchemaColumn, given: ValueExpr) {
    match given
    case Literal(_) => true
    case DefaultKeyword => TypeOfValue(sc.stored) == sc.ty
    case Cast(_, child) => child.Literal? || TypeOfValue(child) == sc.ty
  }

  lemma TypedExactly(lib: TextParsers, sc: SchemaColumn, v: ValueExpr)
    requires sc.ty != INVALID && TypeValue(lib, sc, v).Ok?
    ensures TypeOfValue(TypeValue(lib, sc, v).value) == sc.ty <==> TypeFits(sc, v)
  {
  }

  lemma BoundTypeExactly(lib: TextParsers, schema: seq<SchemaColumn>, st: Rows, r: nat, i: nat)
    requires ValidSchema(schema) && BindInsert(lib, schema, st).Ok? && r < |st.values| && i < |schema|
    ensures var values := BindInsert(lib, schema, st).value.values;
            && |values| == |st.values| && |values[r]| == |schema|
            && (TypeOfValue(values[r][i]) == schema[i].ty <==> TypeFits(schema[i], Given(schema, st.columns, r, st.values[r], i)))
  {
    RowOfInsert(lib, schema, st, r);
    GivenIsBound(lib, schema, st.columns, r, st.values[r], i);
    TypedExactly(lib, schema[i], Given(schema, st.columns, r, st.values[r], i));
  }

  ghost predicate AllTyped(schema: seq<SchemaColumn>, values: seq<Row>) {
    forall r, i :: 0 <= r < |values| && 0 <= i < |schema| ==> i < |values[r]| && TypeOfValue(values[r][i]) == schema[i].ty
  }

  ghost predicate AllFit(schema: seq<SchemaColumn>, st: Rows) {
    forall r, i :: 0 <= r < |st.values| && 0 <= i < |schema| ==> TypeFits(schema[i], Given(schema, st.columns, r, st.values[r], i))
  }

  /**
    * In a bound INSERT every value has the type of its column exactly when no DEFAULT stands for a stored
    * expression of another type and no cast for an expression of another type that is not a literal.
    */
  lemma BoundTypesExactly(lib: TextParsers, schema: seq<SchemaColumn>, st: Rows, st': Rows)
    requires ValidSchema(schema) && BindInsert(lib, schema, st) == Ok(st')
    ensures AllTyped(schema, st'.values) <==> AllFit(schema, st)
  {
    RowsPointwise(lib, schema, |st.columns|, st, 0);
    forall r, i | 0 <= r < |st.values| && 0 <= i < |schema|
      ensures i < |st'.values[r]|
      ensures TypeOfValue(st'.values[r][i]) == schema[i].ty <==> TypeFits(schema[i], Given(schema, st.columns, r, st.values[r], i))
    {
      BoundTypeExactly(lib, schema, st, r, i);
    }
  }

  /** A text default "7" of an INTEGER column: promoted when the column is left out, kept as text under DEFAULT. */
  lemma DefaultKeywordIsNotPromoted(lib: TextParsers)
    ensures var seven := Literal(Constant(VARCHAR, TextVal("7")));
            var a := SchemaColumn("a", INTEGER, 1, true, seven);
            var schema := [a, SchemaColumn("b", INTEGER, 2, true, Number(0))];
            && BindInsert(lib, schema, Rows(["b"], [[Number(1)]])) == Ok(Rows(["a", "b"], [[Number(7), Number(1)]]))
            && BindInsert(lib, schema, Rows(["a", "b"], [[DefaultKeyword, Number(1)]])) == Ok(Rows(["a", "b"], [[seven, Number(1)]]))
  {
    var seven := Literal(Constant(VARCHAR, TextVal("7")));
    var schema := [SchemaColumn("a", INTEGER, 1, true, seven), SchemaColumn("b", INTEGER, 2, true, Number(0))];
    SevenReads();
    assert TypeValue(lib, schema[0], seven) == Ok(Number(7));
    OneRow(lib, schema, ["b"], [Number(1)], Number(7), Number(1));
    OneRow(lib, schema, ["a", "b"], [DefaultKeyword, Number(1)], seven, Number(1));
  }

  lemma SevenReads()
    ensures Stol("7") == Parsed(7)
  {
    assert "" + PromotionLaws.Numeral("", "7").Text() + "" == "7";
    assert "7"[..0] == "";
    PromotionLaws.StolReadsNumeral("", PromotionLaws.Numeral("", "7"), "");
  }

  /** A statement of one row over two columns a and b. */
  lemma OneRow(lib: TextParsers, schema: seq<SchemaColumn>, cols: seq<string>, row: Row, x: ValueExpr, y: ValueExpr)
    requires |schema| == 2 && schema[0].name == "a" && schema[1].name == "b" && |row| == |cols| > 0
    requires forall i :: 0 <= i < |cols| ==> cols[i] == "a" || cols[i] == "b"
    requires ColumnValue(lib, schema[0], cols, row) == Ok(x) && ColumnValue(lib, schema[1], cols, row) == Ok(y)
    ensures BindInsert(lib, schema, Rows(cols, [row])) == Ok(Rows(["a", "b"], [[x, y]]))
  {
    RowByColumns(lib, schema, cols, |cols|, row);
    var out := BindRow(lib, schema, |cols|, cols, row).value;
    assert out == [x, y] && Names(schema) == ["a", "b"];
    assert [row][0 := [x, y]] == [[x, y]];
    assert BindRows(lib, schema, |cols|, Rows(["a", "b"], [[x, y]]), 1) == Ok(Rows(["a", "b"], [[x, y]]));
    assert FindColumn(schema, "a").Some? && FindColumn(schema, "b").Some?;
  }
}
