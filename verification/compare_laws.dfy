/**
  * Which comparisons bind, and to what: a column with a column, a column with a constant, two constants. The
  * types that give way are written out here.
  */
module CompareLaws {
  import opened Options
  import opened SqlTypes
  import opened Promotion
  import opened Scopes
  import opened BindSpec
  import opened RebindLaws

  /** The types that give way to another type: an untyped NULL, text, and the type of small literals. */
  const SOFT: set<TypeId> := {INVALID, VARCHAR, INTEGER}

  /** An unvisited column that a visit binds and another one leaves alone. */
  ghost predicate Plain(chain: ScopeChain, c: ColumnRef) {
    Resolve(chain, c).Ok? && KeepsMeaning(chain, c)
  }

  lemma PlainStays(chain: ScopeChain, c: ColumnRef)
    requires chain.Valid() && Plain(chain, c)
    ensures var c1 := Resolve(chain, c).value; Resolve(chain, c1) == Ok(c1)
  {
    StableExactly(chain, c);
  }

  /** Two columns can be compared exactly when they have the same type, or neither type gives way. */
  lemma ColumnsCompareExactly(env: Env, chain: ScopeChain, c: ColumnRef, d: ColumnRef)
    requires chain.Valid() && Plain(chain, c) && Plain(chain, d)
    ensures var c1, d1 := Resolve(chain, c).value, Resolve(chain, d).value;
            BindExpr(env, chain, Comparison(Column(c, None), Column(d, None), None)) ==
            if c1.ty == d1.ty || (c1.ty !in SOFT && d1.ty !in SOFT)
            then Ok(Comparison(Column(c1, Some(c1.ty)), Column(d1, Some(d1.ty)), None))
            else Err(SyntaxError)
  {
    PlainStays(chain, c);
    PlainStays(chain, d);
  }

  function Ordered(flip: bool, c: Expr, k: Expr): Expr {
    if flip then Comparison(k, c, None) else Comparison(c, k, None)
  }

  /** A constant takes the type of the column it is compared with, on either side, or the comparison fails as it does. */
  lemma ConstantMeetsColumn(env: Env, chain: ScopeChain, flip: bool, c: ColumnRef, k: Constant)
    requires chain.Valid() && Plain(chain, c) && Resolve(chain, c).value.ty != INVALID
    ensures var c1 := Resolve(chain, c).value;
            BindExpr(env, chain, Ordered(flip, Column(c, None), Const(k, None))) ==
            match Promote(env.lib, k, c1.ty)
            case Ok(k') => Ok(Ordered(flip, Column(c1, Some(c1.ty)), Const(k', Some(c1.ty))))
            case Err(e) => Err(e)
  {
    PlainStays(chain, c);
  }

  /** The type that a constant of type t takes beside one of type u. */
  function Beside(t: TypeId, u: TypeId): TypeId { if t in SOFT && u != INVALID then u else t }

  /** Of two constants each that can give way takes the type of the other; two that both can take each other's. */
  lemma ConstantsMeet(env: Env, chain: ScopeChain, k: Constant, m: Constant)
    ensures var t, u := Beside(k.ty, m.ty), Beside(m.ty, k.ty);
            BindExpr(env, chain, Comparison(Const(k, None), Const(m, None), None)) ==
            match Promote(env.lib, k, t)
            case Err(e) => Err(e)
            case Ok(k') =>
              match Promote(env.lib, m, u)
              case Err(e) => Err(e)
              case Ok(m') => Ok(Comparison(Const(k', if t == k.ty then None else Some(t)),
                                           Const(m', if u == m.ty then None else Some(u)), None))
  {
  }

  /** Two visits of a SELECT. */
  ghost function BindTwice(env: Env, chain: ScopeChain, s: Select): Result<Select> {
    var s1 :- BindSelect(env, chain, s);
    BindSelect(env, chain, s1)
  }

  /**
    * A subquery has no type, so a constant beside it stays as it is; the SELECT is visited twice, and the constant's
    * type is noted for the subquery, which no visit looks at.
    */
  lemma ConstantMeetsSubquery(env: Env, chain: ScopeChain, flip: bool, k: Constant, s: Select)
    ensures BindExpr(env, chain, Ordered(flip, Subquery(s, None), Const(k, None))) ==
            match BindTwice(env, chain, s)
            case Err(e) => Err(e)
            case Ok(s') => Ok(Ordered(flip, Subquery(s', if k.ty.INVALID? then None else Some(k.ty)), Const(k, None)))
  {
    assert Promote(env.lib, k, k.ty) == Ok(k);
  }

  /** A decimal and a text: the text is read as a decimal. */
  lemma TextMeetsDecimal(env: Env, chain: ScopeChain, x: real, s: string)
    ensures var k, m := Constant(DECIMAL, RealVal(x)), Constant(VARCHAR, TextVal(s));
            BindExpr(env, chain, Comparison(Const(k, None), Const(m, None), None)) ==
            match env.lib.decimal(s)
            case Some(y) => Ok(Comparison(Const(k, None), Const(Constant(DECIMAL, RealVal(y)), Some(DECIMAL)), None))
            case None => Err(NumericOutOfRange)
  {
    ConstantsMeet(env, chain, Constant(DECIMAL, RealVal(x)), Constant(VARCHAR, TextVal(s)));
  }

  /** An INTEGER literal and a text never bind: each is asked to take the type of the other. */
  lemma IntegerNeverMeetsText(env: Env, chain: ScopeChain, n: int, s: string)
    ensures var k, m := Constant(INTEGER, IntVal(n)), Constant(VARCHAR, TextVal(s));
            BindExpr(env, chain, Comparison(Const(k, None), Const(m, None), None)) == Err(DataException)
  {
    ConstantsMeet(env, chain, Constant(INTEGER, IntVal(n)), Constant(VARCHAR, TextVal(s)));
  }
}
