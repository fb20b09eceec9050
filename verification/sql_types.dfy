/**
  * Vocabulary shared by the binder's modules: SQL type ids, constants as the parser hands them over,
  * and the outcomes a visit can have.
  */
module SqlTypes {

  /** What a visit throws: a binder error code, or a library exception that no handler catches. */
  datatype Error =
    | NumericOutOfRange
    | InvalidTextRepresentation
    | DataException
    | SyntaxError
    | UndefinedColumn
    | UndefinedTable
    | UndefinedSchema
    | UndefinedDatabase
    | FeatureNotSupported
    | AmbiguousColumn
    | DuplicateAlias
    | UncaughtInvalidArgument   // std::invalid_argument out of std::stol
    | UncaughtBadVariant        // std::bad_variant_access out of std::get
    | UncaughtConversion        // a failed date or timestamp conversion
    | UndefinedBehaviour        // an unchecked out-of-bounds vector access

  datatype Result<T> = Ok(value: T) | Err(error: Error)
  {
    predicate IsFailure() { Err? }

    function PropagateFailure<U>(): Result<U>
      requires IsFailure()
    {
      Err(error)
    }

    function Extract(): T
      requires !IsFailure()
    {
      value
    }
  }

  datatype TypeId =
    | INVALID | BOOLEAN | TINYINT | SMALLINT | INTEGER | BIGINT | DECIMAL | TIMESTAMP | DATE
    | VARCHAR | VARBINARY | PARAMETER_OFFSET | VARIADIC

  /** The variant held by a constant; NullVal is the base Val(true). */
  datatype Value =
    | NullVal
    | BoolVal(b: bool)
    | IntVal(n: int)
    | RealVal(r: real)
    | TextVal(s: string)
    | DateVal(days: int)
    | TimestampVal(micros: int)

  datatype Constant = Constant(ty: TypeId, val: Value)

  /** The expressions an INSERT row or a stored column default is made of. */
  datatype ValueExpr =
    | Literal(constant: Constant)
    | DefaultKeyword
    | Cast(ty: TypeId, child: ValueExpr)

  predicate IsIntegerType(t: TypeId) {
    t.TINYINT? || t.SMALLINT? || t.INTEGER? || t.BIGINT?
  }

  /** Half the number of values of an integer type, so its range is [-h, h). */
  function HalfRange(t: TypeId): int
    requires IsIntegerType(t)
  {
    match t
    case TINYINT => 0x80
    case SMALLINT => 0x8000
    case INTEGER => 0x8000_0000
    case BIGINT => 0x8000_0000_0000_0000
  }

  predicate Fits(t: TypeId, n: int)
    requires IsIntegerType(t)
  {
    -HalfRange(t) <= n < HalfRange(t)
  }

  /** What ConstantValueExpression::Validate demands, with integers within their declared width. */
  predicate WellFormed(c: Constant) {
    match c.val
    case NullVal => true
    case BoolVal(_) => c.ty.BOOLEAN?
    case IntVal(n) => IsIntegerType(c.ty) && Fits(c.ty, n)
    case RealVal(_) => c.ty.DECIMAL?
    case TextVal(_) => c.ty.VARCHAR? || c.ty.VARBINARY?
    case DateVal(_) => c.ty.DATE?
    case TimestampVal(_) => c.ty.TIMESTAMP?
  }
}
