/**
  * Which INSERT statements bind, and the value that each column of each row then holds.
  */
module ValueLaws {
  import opened Options
  import opened SqlTypes
  import opened Promotion
  import opened PromotionLaws
  import opened Scopes
  import opened Insert
  import opened InsertLaws

  // ---------------------------------------------------------------- the values of a bound statement

  /** The value of column i of row r of a bound statement, and what was given for it. */
  lemma BoundColumn(lib: TextParsers, schema: seq<SchemaColumn>, st: Rows, st': Rows, r: nat, i: nat)
    requires ValidSchema(schema) && BindInsert(lib, schema, st) == Ok(st') && r < |st.values| && i < |schema|
    ensures |st'.values| == |st.values| && |st'.values[r]| == |schema|
    ensures TypeValue(lib, schema[i], Given(schema, st.columns, r, st.values[r], i)) == Ok(st'.values[r][i])
  {
    RowOfInsert(lib, schema, st, r);
    GivenIsBound(lib, schema, st.columns, r, st.values[r], i);
  }

  /** The literal that a value is: written as such, or cast. */
  function LiteralIn(v: ValueExpr): Option<Constant> {
    match v
    case Literal(c) => Some(c)
    case Cast(_, Literal(c)) => Some(c)
    case _ => None
  }

  /** A literal, cast or not, is bound to the value it means in its column's type. */
  lemma LiteralBound(lib: TextParsers, schema: seq<SchemaColumn>, st: Rows, st': Rows, r: nat, i: nat, c: Constant)
    requires ValidSchema(schema) && BindInsert(lib, schema, st) == Ok(st') && r < |st.values| && i < |schema|
    requires LiteralIn(Given(schema, st.columns, r, st.values[r], i)) == Some(c) && WellFormed(c)
    ensures |st'.values| == |st.values| && |st'.values[r]| == |schema| && st'.values[r][i].Literal?
    ensures var c' := st'.values[r][i].constant; c'.ty == schema[i].ty && Means(lib, c, c'.ty, c'.val)
  {
    BoundColumn(lib, schema, st, st', r, i);
    assert Promote(lib, c, schema[i].ty) == Ok(st'.values[r][i].constant);
    PromotesExactly(lib, c, schema[i].ty, st'.values[r][i].constant.val);
  }

  /** Integers stay what they are, numerals become what they denote, and NULL is NULL and nothing else is. */
  lemma NumbersBound(lib: TextParsers, schema: seq<SchemaColumn>, st: Rows, st': Rows, r: nat, i: nat, c: Constant, n: int)
    requires ValidSchema(schema) && BindInsert(lib, schema, st) == Ok(st') && r < |st.values| && i < |schema|
    requires LiteralIn(Given(schema, st.columns, r, st.values[r], i)) == Some(c) && WellFormed(c)
    ensures |st'.values| == |st.values| && |st'.values[r]| == |schema| && st'.values[r][i].Literal?
    ensures var v, t := st'.values[r][i].constant.val, schema[i].ty;
            && (v.NullVal? <==> c.val.NullVal?)
            && (c.val == IntVal(n) && IsIntegerType(t) ==> v == IntVal(n))
            && (c.val == IntVal(n) && t.DECIMAL? ==> v == RealVal(n as real))
            && (c.val.TextVal? && Spells(c.val.s, n) && IsIntegerType(t) ==> v == IntVal(n))
  {
    LiteralBound(lib, schema, st, st', r, i, c);
    if c.val.TextVal? && Spells(c.val.s, n) && IsIntegerType(schema[i].ty) {
      OnlyNumeralsConvert(c.val.s);
      TextReadExactly(lib, c.val.s, schema[i].ty, st'.values[r][i].constant.val);
    }
  }

  /** DEFAULT is bound to the stored expression, and a cast of anything but a literal to what is cast, as they are. */
  lemma OthersBound(lib: TextParsers, schema: seq<SchemaColumn>, st: Rows, st': Rows, r: nat, i: nat)
    requires ValidSchema(schema) && BindInsert(lib, schema, st) == Ok(st') && r < |st.values| && i < |schema|
    ensures |st'.values| == |st.values| && |st'.values[r]| == |schema|
    ensures var given := Given(schema, st.columns, r, st.values[r], i);
            && (given.DefaultKeyword? ==> st'.values[r][i] == schema[i].stored)
            && (given.Cast? && !given.child.Literal? ==> st'.values[r][i] == given.child)
  {
    BoundColumn(lib, schema, st, st', r, i);
  }

  // ---------------------------------------------------------------- which statements bind

  /** A value can be bound to a column: a literal that can be promoted, a cast to its type, or a DEFAULT that is no cast. */
  predicate Acceptable(lib: TextParsers, sc: SchemaColumn, v: ValueExpr) {
    match v
    case Literal(c) => Promote(lib, c, sc.ty).Ok?
    case DefaultKeyword => !sc.stored.Cast?
    case Cast(t, child) => t == sc.ty && (child.Literal? ==> Promote(lib, child.constant, sc.ty).Ok?)
  }

  /** Something stands for column i in row r. */
  predicate HasValue(schema: seq<SchemaColumn>, cols: seq<string>, r: nat, row: Row, i: nat)
    requires i < |schema|
  {
    Position(schema, cols, r, i) < |row| || (r == 0 && !Unfillable(schema[i], cols))
  }

  /** Column i of row r gets something that can be bound to it. */
  predicate ColumnBinds(lib: TextParsers, schema: seq<SchemaColumn>, cols: seq<string>, r: nat, row: Row, i: nat)
    requires i < |schema|
  {
    && HasValue(schema, cols, r, row, i)
    && Acceptable(lib, schema[i], Given(schema, cols, r, row, i))
  }

  /** Row r has a value or something that stands for it in every column, and each can be bound. */
  ghost predicate RowBinds(lib: TextParsers, schema: seq<SchemaColumn>, cols: seq<string>, r: nat, row: Row) {
    && |row| == (if cols == [] then |schema| else |cols|)
    && forall i :: 0 <= i < |schema| ==> ColumnBinds(lib, schema, cols, r, row, i)
  }

  lemma TypesExactly(lib: TextParsers, sc: SchemaColumn, v: ValueExpr)
    requires sc.ty != INVALID
    ensures TypeValue(lib, sc, v).Ok? <==> Acceptable(lib, sc, v)
  {
  }

  lemma ColumnBindsExactly(lib: TextParsers, schema: seq<SchemaColumn>, cols: seq<string>, r: nat, row: Row, i: nat)
    requires ValidSchema(schema) && i < |schema| && |row| == |cols| > 0
    ensures ColumnValue(lib, schema[i], ListFor(schema, cols, r), row).Ok? <==> ColumnBinds(lib, schema, cols, r, row, i)
  {
    TypesExactly(lib, schema[i], Given(schema, cols, r, row, i));
    if r > 0 { IndexInOrder(schema, Names(schema), i); }
  }

  lemma RowBindsExactly(lib: TextParsers, schema: seq<SchemaColumn>, cols: seq<string>, r: nat, row: Row)
    requires ValidSchema(schema)
    ensures BindRow(lib, schema, |cols|, ListFor(schema, cols, r), row).Ok? <==> RowBinds(lib, schema, cols, r, row)
  {
    if cols == [] {
      if |row| == |schema| {
        TypedPointwise(lib, schema, row, |schema|);
        forall i | 0 <= i < |schema| ensures TypeValue(lib, schema[i], row[i]).Ok? <==> ColumnBinds(lib, schema, cols, r, row, i) {
          TypesExactly(lib, schema[i], row[i]);
        }
      }
    } else if |row| == |cols| {
      RowByColumns(lib, schema, ListFor(schema, cols, r), |cols|, row);
      forall i | 0 <= i < |schema|
        ensures ColumnValue(lib, schema[i], ListFor(schema, cols, r), row).Ok? <==> ColumnBinds(lib, schema, cols, r, row, i)
      {
        ColumnBindsExactly(lib, schema, cols, r, row, i);
      }
    }
  }

  /** Row k binds, under the list as it is if the loop stands at k, and in schema order if it comes later. */
  predicate RowOk(lib: TextParsers, schema: seq<SchemaColumn>, n: nat, st: Rows, r: nat, k: nat)
    requires k < |st.values|
  {
    BindRow(lib, schema, n, if n == 0 || k == r then st.columns else Names(schema), st.values[k]).Ok?
  }

  lemma {:induction false} RowsBindExactly(lib: TextParsers, schema: seq<SchemaColumn>, n: nat, st: Rows, r: nat)
    requires r <= |st.values|
    ensures BindRows(lib, schema, n, st, r).Ok? <==> forall k :: r <= k < |st.values| ==> RowOk(lib, schema, n, st, r, k)
    decreases |st.values| - r
  {
    if r < |st.values| {
      match BindRow(lib, schema, n, st.columns, st.values[r])
      case Err(_) =>
        assert !RowOk(lib, schema, n, st, r, r) && BindRows(lib, schema, n, st, r).Err?;
      case Ok(row) =>
        var next := Rows(if n == 0 then st.columns else Names(schema), st.values[r := row]);
        RowsBindExactly(lib, schema, n, next, r + 1);
        assert BindRows(lib, schema, n, st, r) == BindRows(lib, schema, n, next, r + 1);
        if BindRows(lib, schema, n, next, r + 1).Ok? {
          forall k | r <= k < |st.values| ensures RowOk(lib, schema, n, st, r, k) {
            if k > r { assert RowOk(lib, schema, n, next, r + 1, k); }
          }
        } else {
          var k :| r + 1 <= k < |next.values| && !RowOk(lib, schema, n, next, r + 1, k);
          assert !RowOk(lib, schema, n, st, r, k);
        }
    }
  }

  /**
    * A statement binds exactly when its columns exist, every row has as many values as the list or the schema, and
    * every column of every row gets something that can be bound to it.
    */
  lemma InsertBindsExactly(lib: TextParsers, schema: seq<SchemaColumn>, st: Rows)
    requires ValidSchema(schema)
    ensures BindInsert(lib, schema, st).Ok?
       <==> && (forall j :: 0 <= j < |st.columns| ==> exists i :: 0 <= i < |schema| && schema[i].name == st.columns[j])
            && forall r :: 0 <= r < |st.values| ==> RowBinds(lib, schema, st.columns, r, st.values[r])
  {
    RowsBindExactly(lib, schema, |st.columns|, st, 0);
    forall r | 0 <= r < |st.values|
      ensures RowOk(lib, schema, |st.columns|, st, 0, r) <==> RowBinds(lib, schema, st.columns, r, st.values[r])
    {
      RowBindsExactly(lib, schema, st.columns, r, st.values[r]);
    }
  }

  // ---------------------------------------------------------------- how the others fail

  lemma {:induction false} FillFails(schema: seq<SchemaColumn>, list: seq<string>, row: Row, m: nat, i: nat)
    requires i < m <= |schema| && FillColumn(schema[i], list, row).Err?
    requires forall k :: 0 <= k < i ==> FillColumn(schema[k], list, row).Ok?
    ensures Fill(schema, list, row, m) == Err(FillColumn(schema[i], list, row).error)
  {
    if i < m - 1 {
      FillFails(schema, list, row, m - 1, i);
    } else if Fill(schema, list, row, i).Err? {
      var k := FillCulprit(schema, list, row, i);
    }
  }

  lemma {:induction false} TypingFails(lib: TextParsers, schema: seq<SchemaColumn>, row: Row, m: nat, i: nat)
    requires i < m <= |schema| == |row| && TypeValue(lib, schema[i], row[i]).Err?
    requires forall k :: 0 <= k < i ==> TypeValue(lib, schema[k], row[k]).Ok?
    ensures TypeRow(lib, schema, row, m) == Err(TypeValue(lib, schema[i], row[i]).error)
  {
    if i < m - 1 { TypingFails(lib, schema, row, m - 1, i); } else { TypedPointwise(lib, schema, row, i); }
  }

  /** How binding a value that is not acceptable fails. */
  predicate ValueFails(lib: TextParsers, sc: SchemaColumn, v: ValueExpr, e: Error) {
    match v
    case Literal(c) => Promote(lib, c, sc.ty) == Err(e)
    case DefaultKeyword => sc.stored.Cast? && e == NumericOutOfRange
    case Cast(t, child) =>
      if t != sc.ty then e == NumericOutOfRange else child.Literal? && Promote(lib, child.constant, sc.ty) == Err(e)
  }

  /**
    * Row r fails with error e, because of column i: rows of the wrong length and columns without a value come
    * before values that cannot be bound, and columns from left to right. After the first row, a column without a
    * value is read past the end of the row.
    */
  ghost predicate RowFails(lib: TextParsers, schema: seq<SchemaColumn>, cols: seq<string>, r: nat, row: Row, i: nat, e: Error) {
    if |row| != (if cols == [] then |schema| else |cols|) then e == SyntaxError
    else if i >= |schema| || (exists k :: 0 <= k < i && !HasValue(schema, cols, r, row, k)) then false
    else if !HasValue(schema, cols, r, row, i) then e == if r == 0 then SyntaxError else UndefinedBehaviour
    else
      && (forall k :: 0 <= k < |schema| ==> HasValue(schema, cols, r, row, k))
      && (forall k :: 0 <= k < i ==> Acceptable(lib, schema[k], Given(schema, cols, r, row, k)))
      && ValueFails(lib, schema[i], Given(schema, cols, r, row, i), e)
  }

  lemma FillsColumn(schema: seq<SchemaColumn>, cols: seq<string>, r: nat, row: Row, i: nat)
    requires UniqueNames(schema) && i < |schema| && |row| == |cols| > 0
    ensures FillColumn(schema[i], ListFor(schema, cols, r), row)
         == if HasValue(schema, cols, r, row, i) then Ok(Given(schema, cols, r, row, i))
            else Err(if r == 0 then SyntaxError else UndefinedBehaviour)
  {
    if r > 0 { IndexInOrder(schema, Names(schema), i); }
  }

  lemma FillsRow(schema: seq<SchemaColumn>, cols: seq<string>, r: nat, row: Row)
    requires UniqueNames(schema) && |row| == (if cols == [] then |schema| else |cols|)
    requires forall k :: 0 <= k < |schema| ==> HasValue(schema, cols, r, row, k)
    ensures var filled := FillRow(schema, |cols|, ListFor(schema, cols, r), row);
            filled.Ok? && forall k :: 0 <= k < |schema| ==> filled.value[k] == Given(schema, cols, r, row, k)
  {
    if cols != [] {
      var list := ListFor(schema, cols, r);
      forall k | 0 <= k < |schema| ensures FillColumn(schema[k], list, row) == Ok(Given(schema, cols, r, row, k)) {
        FillsColumn(schema, cols, r, row, k);
      }
      if Fill(schema, list, row, |schema|).Err? {
        var k := FillCulprit(schema, list, row, |schema|);
      } else {
        FillPointwise(schema, list, row, |schema|);
      }
    }
  }

  lemma TypesAs(lib: TextParsers, sc: SchemaColumn, v: ValueExpr, e: Error)
    requires sc.ty != INVALID
    ensures TypeValue(lib, sc, v) == Err(e) <==> ValueFails(lib, sc, v, e)
  {
  }

  lemma RowFailure(lib: TextParsers, schema: seq<SchemaColumn>, cols: seq<string>, r: nat, row: Row, i: nat, e: Error)
    requires ValidSchema(schema) && RowFails(lib, schema, cols, r, row, i, e)
    ensures BindRow(lib, schema, |cols|, ListFor(schema, cols, r), row) == Err(e)
  {
    if |row| == if cols == [] then |schema| else |cols| {
      if HasValue(schema, cols, r, row, i) {
        FillsRow(schema, cols, r, row);
        forall k | 0 <= k < i ensures TypeValue(lib, schema[k], Given(schema, cols, r, row, k)).Ok? {
          TypesExactly(lib, schema[k], Given(schema, cols, r, row, k));
        }
        TypesAs(lib, schema[i], Given(schema, cols, r, row, i), e);
        TypingFails(lib, schema, FillRow(schema, |cols|, ListFor(schema, cols, r), row).value, |schema|, i);
      } else {
        forall k | 0 <= k <= i ensures FillColumn(schema[k], ListFor(schema, cols, r), row).Ok? <==> k < i {
          FillsColumn(schema, cols, r, row, k);
        }
        FillsColumn(schema, cols, r, row, i);
        FillFails(schema, ListFor(schema, cols, r), row, |schema|, i);
      }
    }
  }

  lemma {:induction false} RowsFail(lib: TextParsers, schema: seq<SchemaColumn>, n: nat, st: Rows, j: nat, r: nat)
    requires j <= r < |st.values| && !RowOk(lib, schema, n, st, j, r)
    requires forall k :: j <= k < r ==> RowOk(lib, schema, n, st, j, k)
    ensures BindRows(lib, schema, n, st, j)
         == Err(BindRow(lib, schema, n, if n == 0 || r == j then st.columns else Names(schema), st.values[r]).error)
    decreases r - j
  {
    if j < r {
      assert RowOk(lib, schema, n, st, j, j);
      var row := BindRow(lib, schema, n, st.columns, st.values[j]).value;
      var next, j' := Rows(if n == 0 then st.columns else Names(schema), st.values[j := row]), j + 1;
      forall k | j' <= k < r ensures RowOk(lib, schema, n, next, j', k) { assert RowOk(lib, schema, n, st, j, k); }
      RowsFail(lib, schema, n, next, j', r);
    }
  }

  lemma RowFailsSomehow(lib: TextParsers, schema: seq<SchemaColumn>, cols: seq<string>, r: nat, row: Row)
    returns (i: nat, e: Error)
    requires ValidSchema(schema) && !RowBinds(lib, schema, cols, r, row)
    ensures RowFails(lib, schema, cols, r, row, i, e)
  {
    i, e := 0, SyntaxError;
    if |row| == if cols == [] then |schema| else |cols| {
      while i < |schema| && HasValue(schema, cols, r, row, i)
        invariant i <= |schema| && forall k :: 0 <= k < i ==> HasValue(schema, cols, r, row, k)
      {
        i := i + 1;
      }
      if i < |schema| { return i, if r == 0 then SyntaxError else UndefinedBehaviour; }
      i := 0;
      while i < |schema| && Acceptable(lib, schema[i], Given(schema, cols, r, row, i))
        invariant i <= |schema|
        invariant forall k :: 0 <= k < i ==> Acceptable(lib, schema[k], Given(schema, cols, r, row, k))
      {
        i := i + 1;
      }
      TypesExactly(lib, schema[i], Given(schema, cols, r, row, i));
      e := TypeValue(lib, schema[i], Given(schema, cols, r, row, i)).error;
      TypesAs(lib, schema[i], Given(schema, cols, r, row, i), e);
    }
  }

  /** Row r is the first that does not bind, and fails with error e because of column i. */
  ghost predicate FailsAt(lib: TextParsers, schema: seq<SchemaColumn>, st: Rows, r: nat, i: nat, e: Error) {
    && r < |st.values| && RowFails(lib, schema, st.columns, r, st.values[r], i, e)
    && forall k :: 0 <= k < r ==> RowBinds(lib, schema, st.columns, k, st.values[k])
  }

  lemma FailsAtRow(lib: TextParsers, schema: seq<SchemaColumn>, st: Rows, r: nat, i: nat, e: Error)
    requires ValidSchema(schema) && FailsAt(lib, schema, st, r, i, e)
    ensures BindRows(lib, schema, |st.columns|, st, 0) == Err(e)
  {
    forall k | 0 <= k < r ensures RowOk(lib, schema, |st.columns|, st, 0, k) {
      RowBindsExactly(lib, schema, st.columns, k, st.values[k]);
    }
    RowFailure(lib, schema, st.columns, r, st.values[r], i, e);
    RowsFail(lib, schema, |st.columns|, st, 0, r);
  }

  lemma FailsSomewhere(lib: TextParsers, schema: seq<SchemaColumn>, st: Rows) returns (r: nat, i: nat, e: Error)
    requires ValidSchema(schema) && BindRows(lib, schema, |st.columns|, st, 0).Err?
    ensures FailsAt(lib, schema, st, r, i, e)
  {
    RowsBindExactly(lib, schema, |st.columns|, st, 0);
    var bad :| 0 <= bad < |st.values| && !RowOk(lib, schema, |st.columns|, st, 0, bad);
    RowBindsExactly(lib, schema, st.columns, bad, st.values[bad]);
    r := 0;
    while RowBinds(lib, schema, st.columns, r, st.values[r])
      invariant r <= bad && forall k :: 0 <= k < r ==> RowBinds(lib, schema, st.columns, k, st.values[k])
      decreases bad - r
    {
      r := r + 1;
    }
    i, e := RowFailsSomehow(lib, schema, st.columns, r, st.values[r]);
  }

  /** A statement fails over a listed column that does not exist, or else as its first row that does not bind. */
  lemma InsertFailsExactly(lib: TextParsers, schema: seq<SchemaColumn>, st: Rows, e: Error)
    requires ValidSchema(schema)
    ensures BindInsert(lib, schema, st) == Err(e) <==>
            if exists j :: 0 <= j < |st.columns| && forall i :: 0 <= i < |schema| ==> schema[i].name != st.columns[j]
            then e == UndefinedColumn
            else exists r: nat, i: nat :: FailsAt(lib, schema, st, r, i, e)
  {
    if BindRows(lib, schema, |st.columns|, st, 0).Err? {
      var r, i, e' := FailsSomewhere(lib, schema, st);
      FailsAtRow(lib, schema, st, r, i, e');
    }
    forall r: nat, i: nat | FailsAt(lib, schema, st, r, i, e) ensures BindRows(lib, schema, |st.columns|, st, 0) == Err(e) {
      FailsAtRow(lib, schema, st, r, i, e);
    }
  }

  // ---------------------------------------------------------------- casts

  /** Position k of a row holds another value, which types like the one it replaces in every column read from there. */
  ghost predicate SameTyped(lib: TextParsers, schema: seq<SchemaColumn>, list: seq<string>, row: Row, k: nat, v: ValueExpr) {
    k < |row| && forall i :: 0 <= i < |schema| && (if list == [] then i else IndexOf(list, schema[i].name)) == k ==>
                               TypeValue(lib, schema[i], v) == TypeValue(lib, schema[i], row[k])
  }

  lemma {:induction false} TypedSame(lib: TextParsers, schema: seq<SchemaColumn>, row: Row, row': Row, m: nat)
    requires m <= |schema| == |row| == |row'|
    requires forall i :: 0 <= i < m ==> TypeValue(lib, schema[i], row[i]) == TypeValue(lib, schema[i], row'[i])
    ensures TypeRow(lib, schema, row, m) == TypeRow(lib, schema, row', m)
    decreases m
  {
    if m > 0 { TypedSame(lib, schema, row, row', m - 1); }
  }

  /** The two fillings agree as far as typing goes. */
  ghost predicate FillsAlike(lib: TextParsers, schema: seq<SchemaColumn>, x: Result<Row>, y: Result<Row>) {
    match x
    case Err(e) => y == Err(e)
    case Ok(out) =>
      && y.Ok? && |y.value| == |out| <= |schema|
      && forall i :: 0 <= i < |out| ==> TypeValue(lib, schema[i], out[i]) == TypeValue(lib, schema[i], y.value[i])
  }

  lemma ColumnSame(lib: TextParsers, schema: seq<SchemaColumn>, list: seq<string>, row: Row, k: nat, v: ValueExpr, i: nat)
    requires list != [] && SameTyped(lib, schema, list, row, k, v) && i < |schema|
    ensures match FillColumn(schema[i], list, row)
            case Err(e) => FillColumn(schema[i], list, row[k := v]) == Err(e)
            case Ok(w) =>
              && FillColumn(schema[i], list, row[k := v]).Ok?
              && TypeValue(lib, schema[i], w) == TypeValue(lib, schema[i], FillColumn(schema[i], list, row[k := v]).value)
  {
  }

  lemma {:induction false} FilledSame(lib: TextParsers, schema: seq<SchemaColumn>, list: seq<string>, row: Row, k: nat, v: ValueExpr, m: nat)
    requires list != [] && SameTyped(lib, schema, list, row, k, v) && m <= |schema|
    ensures FillsAlike(lib, schema, Fill(schema, list, row, m), Fill(schema, list, row[k := v], m))
  {
    if m > 0 {
      FilledSame(lib, schema, list, row, k, v, m - 1);
      ColumnSame(lib, schema, list, row, k, v, m - 1);
    }
  }

  lemma RowSame(lib: TextParsers, schema: seq<SchemaColumn>, n: nat, list: seq<string>, row: Row, k: nat, v: ValueExpr)
    requires SameTyped(lib, schema, if n == 0 then [] else list, row, k, v) && (n > 0 ==> list != [] || schema == [])
    ensures BindRow(lib, schema, n, list, row[k := v]) == BindRow(lib, schema, n, list, row)
  {
    if |row| == (if n == 0 then |schema| else n) {
      if n == 0 {
        TypedSame(lib, schema, row, row[k := v], |schema|);
      } else if schema != [] {
        FilledSame(lib, schema, list, row, k, v, |schema|);
        var filled := Fill(schema, list, row, |schema|);
        if filled.Ok? { TypedSame(lib, schema, filled.value, Fill(schema, list, row[k := v], |schema|).value, |schema|); }
      }
    }
  }

  /** The statement with another value in position k of row r. */
  function With(st: Rows, r: nat, k: nat, v: ValueExpr): Rows
    requires r < |st.values| && k < |st.values[r]|
  {
    st.(values := st.values[r := st.values[r][k := v]])
  }

  lemma {:induction false} RowsSame(lib: TextParsers, schema: seq<SchemaColumn>, n: nat, st: Rows, j: nat, r: nat, k: nat, v: ValueExpr)
    requires j <= r < |st.values| && k < |st.values[r]|
    requires var list := if n == 0 || r == j then st.columns else Names(schema);
             BindRow(lib, schema, n, list, st.values[r][k := v]) == BindRow(lib, schema, n, list, st.values[r])
    ensures BindRows(lib, schema, n, With(st, r, k, v), j) == BindRows(lib, schema, n, st, j)
    decreases r - j
  {
    var bound := BindRow(lib, schema, n, st.columns, st.values[j]);
    if bound.Ok? {
      var cols := if n == 0 then st.columns else Names(schema);
      if j == r {
        assert With(st, r, k, v).values[r := bound.value] == st.values[r := bound.value];
      } else {
        var next := Rows(cols, st.values[j := bound.value]);
        RowsSame(lib, schema, n, next, j + 1, r, k, v);
        assert With(st, r, k, v).values[j := bound.value] == With(next, r, k, v).values;
      }
    }
  }

  /** A literal may be written as a cast to the type of its column: the statement binds to the same, or fails the same way. */
  lemma CastIsTransparent(lib: TextParsers, schema: seq<SchemaColumn>, st: Rows, r: nat, k: nat, t: TypeId)
    requires UniqueNames(schema) && r < |st.values| && k < |st.values[r]| && st.values[r][k].Literal?
    requires forall i :: 0 <= i < |schema| && Position(schema, st.columns, r, i) == k ==> schema[i].ty == t
    ensures BindInsert(lib, schema, With(st, r, k, Cast(t, st.values[r][k]))) == BindInsert(lib, schema, st)
  {
    var n, list, v := |st.columns|, ListFor(schema, st.columns, r), Cast(t, st.values[r][k]);
    forall i | 0 <= i < |schema| && (if n == 0 then i else IndexOf(list, schema[i].name)) == k
      ensures TypeValue(lib, schema[i], v) == TypeValue(lib, schema[i], st.values[r][k])
    {
      if n > 0 && r > 0 { IndexInOrder(schema, Names(schema), i); }
      assert Position(schema, st.columns, r, i) == k;
    }
    RowSame(lib, schema, n, list, st.values[r], k, v);
    RowsSame(lib, schema, n, st, 0, r, k, v);
  }
}
