/**
  * The INSERT visit of src/binder/bind_node_visitor.cpp: rows are rewritten into schema order and typed.
  */
module Insert {
  import opened Options
  import opened SqlTypes
  import opened Promotion
  import opened Scopes

  type Row = seq<ValueExpr>

  // ---------------------------------------------------------------- filling columns

  /** std::find from position i: the first position of a name, or the length of the list. */
  function FindFrom(cols: seq<string>, name: string, i: nat): (k: nat)
    requires i <= |cols|
    ensures i <= k <= |cols| && (k < |cols| ==> cols[k] == name) && forall j :: i <= j < k ==> cols[j] != name
    decreases |cols| - i
  {
    if i == |cols| || cols[i] == name then i else FindFrom(cols, name, i + 1)
  }

  function IndexOf(cols: seq<string>, name: string): (k: nat)
    ensures k <= |cols| && (k < |cols| ==> cols[k] == name) && forall j :: 0 <= j < k ==> cols[j] != name
  {
    FindFrom(cols, name, 0)
  }

  function TypedNull(sc: SchemaColumn): ValueExpr { Literal(Constant(sc.ty, NullVal)) }

  predicate HasDefault(sc: SchemaColumn) { sc.stored != TypedNull(sc) }

  /** The value of one schema column for a row given under the column list cols. */
  function FillColumn(sc: SchemaColumn, cols: seq<string>, row: Row): Result<ValueExpr> {
    var i := IndexOf(cols, sc.name);
    if i < |cols| then (if i < |row| then Ok(row[i]) else Err(UndefinedBehaviour))
    else if HasDefault(sc) then Ok(sc.stored)
    else if sc.nullable then Ok(TypedNull(sc))
    else Err(SyntaxError)
  }

  /** The first k columns of a row in schema order. */
  function Fill(schema: seq<SchemaColumn>, cols: seq<string>, row: Row, k: nat): (r: Result<Row>)
    requires k <= |schema|
    ensures r.Ok? ==> |r.value| == k
  {
    if k == 0 then Ok([])
    else
      var front :- Fill(schema, cols, row, k - 1);
      var v :- FillColumn(schema[k - 1], cols, row);
      Ok(front + [v])
  }

  function Names(schema: seq<SchemaColumn>): (names: seq<string>)
    ensures |names| == |schema| && forall i :: 0 <= i < |schema| ==> names[i] == schema[i].name
  {
    seq(|schema|, i requires 0 <= i < |schema| => schema[i].name)
  }

  // ---------------------------------------------------------------- typing values

  function TypeOfValue(v: ValueExpr): TypeId {
    match v case Literal(c) => c.ty case DefaultKeyword => INVALID case Cast(t, _) => t
  }

  /** The visit of a value with or without a desired type noted for it; only literals react. */
  function Visited(lib: TextParsers, v: ValueExpr, desired: Option<TypeId>): Result<ValueExpr> {
    if v.Literal? && desired.Some? then
      var c :- Promote(lib, v.constant, desired.value);
      Ok(Literal(c))
    else Ok(v)
  }

  /**
    * The value v for column sc: DEFAULT stands for the stored expression, a cast to the column's type for its
    * child. The desired type is noted for v itself and for the child of a cast, not for the stored expression.
    */
  function TypeValue(lib: TextParsers, sc: SchemaColumn, v: ValueExpr): Result<ValueExpr> {
    var u := if v.DefaultKeyword? then sc.stored else v;
    if u.Cast? then
      if TypeOfValue(v) != sc.ty then Err(NumericOutOfRange) else Visited(lib, u.child, Some(sc.ty))
    else Visited(lib, u, if v.DefaultKeyword? then None else Some(sc.ty))
  }

  function TypeRow(lib: TextParsers, schema: seq<SchemaColumn>, row: Row, k: nat): (r: Result<Row>)
    requires k <= |schema| == |row|
    ensures r.Ok? ==> |r.value| == k
  {
    if k == 0 then Ok([])
    else
      var front :- TypeRow(lib, schema, row, k - 1);
      var v :- TypeValue(lib, schema[k - 1], row[k - 1]);
      Ok(front + [v])
  }

  // ---------------------------------------------------------------- rows

  /** One row under the current column list; n is the length of the list as written. */
  function FillRow(schema: seq<SchemaColumn>, n: nat, cols: seq<string>, row: Row): (r: Result<Row>)
    ensures r.Ok? ==> |r.value| == |schema|
  {
    if |row| != (if n == 0 then |schema| else n) then Err(SyntaxError)
    else if n == 0 then Ok(row)
    else Fill(schema, cols, row, |schema|)
  }

  function BindRow(lib: TextParsers, schema: seq<SchemaColumn>, n: nat, cols: seq<string>, row: Row): Result<Row> {
    var filled :- FillRow(schema, n, cols, row);
    TypeRow(lib, schema, filled, |schema|)
  }

  datatype Rows = Rows(columns: seq<string>, values: seq<Row>)

  /** Rows r and up. The first row rewrites the shared column list, but n stays. */
  function BindRows(lib: TextParsers, schema: seq<SchemaColumn>, n: nat, st: Rows, r: nat): Result<Rows>
    requires r <= |st.values|
    decreases |st.values| - r
  {
    if r == |st.values| then Ok(st)
    else
      var row :- BindRow(lib, schema, n, st.columns, st.values[r]);
      BindRows(lib, schema, n, Rows(if n == 0 then st.columns else Names(schema), st.values[r := row]), r + 1)
  }

  predicate AllExist(schema: seq<SchemaColumn>, cols: seq<string>) {
    forall i :: 0 <= i < |cols| ==> FindColumn(schema, cols[i]).Some?
  }

  function BindInsert(lib: TextParsers, schema: seq<SchemaColumn>, st: Rows): Result<Rows> {
    if !AllExist(schema, st.columns) then Err(UndefinedColumn)
    else BindRows(lib, schema, |st.columns|, st, 0)
  }

  // ---------------------------------------------------------------- the code, in place

  class InsertStatement {
    var columns: seq<string>
    var values: seq<Row>

    function Get(): Rows
      reads this
    {
      Rows(columns, values)
    }

    constructor (st: Rows)
      ensures Get() == st
    {
      columns, values := st.columns, st.values;
    }
  }

  method FillInSchemaOrder(schema: seq<SchemaColumn>, cols: seq<string>, row: Row)
    returns (error: Option<Error>, filled: Row)
    ensures Fill(schema, cols, row, |schema|) == if error.None? then Ok(filled) else Err(error.value)
  {
    error, filled := None, [];
    for k := 0 to |schema|
      invariant Fill(schema, cols, row, k) == Ok(filled)
    {
      var sc := schema[k];
      var i := IndexOf(cols, sc.name);
      if i < |cols| {
        if i >= |row| {
          FillFails(schema, cols, row, k + 1, |schema|);
          return Some(UndefinedBehaviour), [];
        }
        filled := filled + [row[i]];
      } else if sc.stored != TypedNull(sc) {
        filled := filled + [sc.stored];
      } else if sc.nullable {
        filled := filled + [TypedNull(sc)];
      } else {
        FillFails(schema, cols, row, k + 1, |schema|);
        return Some(SyntaxError), [];
      }
    }
  }

  lemma {:induction false} FillFails(schema: seq<SchemaColumn>, cols: seq<string>, row: Row, k: nat, m: nat)
    requires k <= m <= |schema| && Fill(schema, cols, row, k).Err?
    ensures Fill(schema, cols, row, m) == Fill(schema, cols, row, k)
  {
    if k < m { FillFails(schema, cols, row, k, m - 1); }
  }

  /** The visit of one value of a row: DEFAULT and casts are taken away, then a literal is promoted. */
  method VisitValue(lib: TextParsers, sc: SchemaColumn, v: ValueExpr) returns (r: Result<ValueExpr>)
    ensures r == TypeValue(lib, sc, v)
  {
    var value, noted := v, true;
    var returnType := TypeOfValue(value);
    if value.DefaultKeyword? {
      value, noted := sc.stored, false;
    }
    if value.Cast? {
      if returnType != sc.ty { return Err(NumericOutOfRange); }
      value, noted := value.child, true;
    }
    if value.Literal? {
      var constant := new ConstantValueExpression(value.constant);
      var error := CheckAndTryPromoteType(lib, constant, if noted then sc.ty else value.constant.ty);
      if error.Some? { return Err(error.value); }
      value := Literal(constant.Get());
    }
    return Ok(value);
  }

  method TypeInOrder(lib: TextParsers, schema: seq<SchemaColumn>, row: Row)
    returns (error: Option<Error>, typed: Row)
    requires |row| == |schema|
    ensures TypeRow(lib, schema, row, |schema|) == if error.None? then Ok(typed) else Err(error.value)
  {
    error, typed := None, [];
    for k := 0 to |schema|
      invariant TypeRow(lib, schema, row, k) == Ok(typed)
    {
      var value := VisitValue(lib, schema[k], row[k]);
      if value.Err? {
        TypeFails(lib, schema, row, k + 1, |schema|);
        return Some(value.error), [];
      }
      typed := typed + [value.value];
    }
  }

  lemma {:induction false} TypeFails(lib: TextParsers, schema: seq<SchemaColumn>, row: Row, k: nat, m: nat)
    requires k <= m <= |schema| == |row| && TypeRow(lib, schema, row, k).Err?
    ensures TypeRow(lib, schema, row, m) == TypeRow(lib, schema, row, k)
    decreases m
  {
    if k < m { TypeFails(lib, schema, row, k, m - 1); }
  }

  /** One turn of the loop over the rows; it also rewrites the shared column list. */
  method VisitRow(lib: TextParsers, schema: seq<SchemaColumn>, n: nat, node: InsertStatement, row: Row)
    returns (error: Option<Error>, bound: Row)
    modifies node
    ensures BindRow(lib, schema, n, old(node.columns), row) == if error.None? then Ok(bound) else Err(error.value)
    ensures error.None? ==> node.Get() == old(node.Get()).(columns := if n == 0 then old(node.columns) else Names(schema))
  {
    if !((n != 0 && |row| == n) || (n == 0 && |row| == |schema|)) { return Some(SyntaxError), []; }
    bound := row;
    if n != 0 {
      error, bound := FillInSchemaOrder(schema, node.columns, row);
      if error.Some? { return; }
      node.columns := Names(schema);
    }
    error, bound := TypeInOrder(lib, schema, bound);
  }

  method VisitRows(lib: TextParsers, schema: seq<SchemaColumn>, node: InsertStatement) returns (error: Option<Error>)
    modifies node
    ensures match BindRows(lib, schema, old(|node.columns|), old(node.Get()), 0)
            case Ok(st) => error == None && node.Get() == st
            case Err(e) => error == Some(e)
  {
    var n := |node.columns|;
    var r := 0;
    while r < |node.values|
      invariant 0 <= r <= |node.values|
      invariant BindRows(lib, schema, n, node.Get(), r) == BindRows(lib, schema, old(|node.columns|), old(node.Get()), 0)
      decreases |node.values| - r
    {
      var row;
      error, row := VisitRow(lib, schema, n, node, node.values[r]);
      if error.Some? { return; }
      node.values := node.values[r := row];
      r := r + 1;
    }
    error := None;
  }

  method VisitInsert(lib: TextParsers, schema: seq<SchemaColumn>, node: InsertStatement) returns (error: Option<Error>)
    modifies node
    ensures match BindInsert(lib, schema, old(node.Get()))
            case Ok(st) => error == None && node.Get() == st
            case Err(e) => error == Some(e)
  {
    for i := 0 to |node.columns|
      invariant forall j :: 0 <= j < i ==> FindColumn(schema, node.columns[j]).Some?
      invariant node.Get() == old(node.Get())
    {
      if FindColumn(schema, node.columns[i]).None? { return Some(UndefinedColumn); }
    }
    error := VisitRows(lib, schema, node);
  }
}
