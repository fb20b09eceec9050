/**
  * src/binder/binder_util.cpp: promotion of constants and parameters to a desired type.
  */
module Promotion {
  import opened Options
  import opened SqlTypes

  /** The library conversions that are not modelled, as arbitrary partial functions. */
  datatype TextParsers = TextParsers(
    date: string -> Option<int>,
    timestamp: string -> Option<int>,
    decimal: string -> Option<real>)

  const BOOLEAN_TRUES: seq<string> := ["t", "true", "yes", "y", "on", "1"]
  const BOOLEAN_FALSES: seq<string> := ["f", "false", "no", "n", "off", "0"]

  // ---------------------------------------------------------------- std::stol

  datatype StolResult = Parsed(n: int) | OutOfLongRange | NoConversion

  predicate IsSpace(c: char) {
    c == ' ' || c == '\t' || c == '\n' || c == '\r' || c == 11 as char || c == 12 as char
  }

  predicate IsDigit(c: char) { '0' <= c <= '9' }

  function SkipSpaces(s: string): string {
    if s != "" && IsSpace(s[0]) then SkipSpaces(s[1..]) else s
  }

  /** The longest prefix of decimal digits. */
  function DigitPrefix(s: string): string {
    if s != "" && IsDigit(s[0]) then [s[0]] + DigitPrefix(s[1..]) else ""
  }

  function DigitsValue(s: string): int {
    if s == "" then 0 else 10 * DigitsValue(s[..|s| - 1]) + (s[|s| - 1] as int - '0' as int)
  }

  function InLongRange(n: int): StolResult {
    if Fits(BIGINT, n) then Parsed(n) else OutOfLongRange
  }

  /** An optional sign and then digits; text after the digits is ignored. */
  function StolUnpadded(t: string): StolResult {
    var digits := DigitPrefix(if t != "" && (t[0] == '-' || t[0] == '+') then t[1..] else t);
    if digits == "" then NoConversion
    else InLongRange(if t[0] == '-' then -DigitsValue(digits) else DigitsValue(digits))
  }

  /** std::stol in base 10, section 7.22.1.4 of ISO C11, with a 64-bit long. */
  function Stol(s: string): StolResult {
    StolUnpadded(SkipSpaces(s))
  }

  // ---------------------------------------------------------------- specification

  /** A two's complement static_cast of n to the width of t. */
  function Truncate(t: TypeId, n: int): (r: int)
    requires IsIntegerType(t)
    ensures Fits(t, r) && (Fits(t, n) ==> r == n)
  {
    (n + HalfRange(t)) % (2 * HalfRange(t)) - HalfRange(t)
  }

  /** TryCastNumericAll on the peeked integer n of constant c. */
  function CastNumeric(c: Constant, n: int, desired: TypeId): Result<Constant> {
    if IsIntegerType(desired) then
      if Fits(desired, n) then Ok(c.(ty := desired)) else Err(NumericOutOfRange)
    else if desired.DECIMAL? then Ok(Constant(DECIMAL, RealVal(n as real)))
    else Err(DataException)
  }

  function ConvertText(lib: TextParsers, s: string, desired: TypeId): Result<Constant> {
    if IsIntegerType(desired) then
      match Stol(s)
      case NoConversion => Err(UncaughtInvalidArgument)
      case OutOfLongRange => Err(NumericOutOfRange)
      case Parsed(n) =>
        if Fits(desired, n) then Ok(Constant(desired, IntVal(n))) else Err(NumericOutOfRange)
    else match desired
         case DATE => (match lib.date(s) case Some(d) => Ok(Constant(DATE, DateVal(d))) case None => Err(UncaughtConversion))
         case TIMESTAMP =>
           (match lib.timestamp(s) case Some(m) => Ok(Constant(TIMESTAMP, TimestampVal(m))) case None => Err(UncaughtConversion))
         case BOOLEAN =>
           if s in BOOLEAN_TRUES then Ok(Constant(BOOLEAN, BoolVal(true)))
           else if s in BOOLEAN_FALSES then Ok(Constant(BOOLEAN, BoolVal(false)))
           else Err(InvalidTextRepresentation)
         case DECIMAL =>
           (match lib.decimal(s) case Some(r) => Ok(Constant(DECIMAL, RealVal(r))) case None => Err(NumericOutOfRange))
         case _ => Err(NumericOutOfRange)
  }

  /** CheckAndTryPromoteType as a function of the constant. */
  function Promote(lib: TextParsers, c: Constant, desired: TypeId): Result<Constant> {
    if c.ty == desired then Ok(c)
    else if c.ty.INVALID? then Ok(Constant(desired, NullVal))
    else if IsIntegerType(c.ty) then
      if c.val.IntVal? then CastNumeric(c, Truncate(c.ty, c.val.n), desired) else Err(UncaughtBadVariant)
    else if c.ty.VARCHAR? then
      if c.val.TextVal? then ConvertText(lib, c.val.s, desired) else Err(UncaughtBadVariant)
    else Err(NumericOutOfRange)
  }

  // ---------------------------------------------------------------- the code, in place

  class ConstantValueExpression {
    var returnType: TypeId
    var value: Value

    constructor (c: Constant)
      ensures Get() == c
    {
      returnType, value := c.ty, c.val;
    }

    function Get(): Constant
      reads this
    {
      Constant(returnType, value)
    }

    method SetValue(t: TypeId, v: Value)
      modifies this
      ensures Get() == Constant(t, v)
    {
      returnType, value := t, v;
    }
  }

  method TryCastNumericAll(value: ConstantValueExpression, n: int, desired: TypeId) returns (error: Option<Error>)
    modifies value
    ensures match CastNumeric(old(value.Get()), n, desired)
            case Ok(c) => error == None && value.Get() == c
            case Err(e) => error == Some(e) && value.Get() == old(value.Get())
  {
    error := None;
    match desired
    case TINYINT =>
      if -0x80 <= n <= 0x7f { value.returnType := desired; return; }
      error := Some(NumericOutOfRange);
    case SMALLINT =>
      if -0x8000 <= n <= 0x7fff { value.returnType := desired; return; }
      error := Some(NumericOutOfRange);
    case INTEGER =>
      if -0x8000_0000 <= n <= 0x7fff_ffff { value.returnType := desired; return; }
      error := Some(NumericOutOfRange);
    case BIGINT =>
      if -0x8000_0000_0000_0000 <= n <= 0x7fff_ffff_ffff_ffff { value.returnType := desired; return; }
      error := Some(NumericOutOfRange);
    case DECIMAL =>
      value.SetValue(DECIMAL, RealVal(n as real));
    case _ =>
      error := Some(DataException);
  }

  /** The switch over the desired type of a text. */
  method PromoteText(lib: TextParsers, value: ConstantValueExpression, text: string, desired: TypeId)
    returns (error: Option<Error>)
    modifies value
    ensures match ConvertText(lib, text, desired)
            case Ok(c) => error == None && value.Get() == c
            case Err(e) => error == Some(e) && value.Get() == old(value.Get())
  {
    error := None;
    match desired
    case DATE =>
      var date := lib.date(text);
      if date.None? { return Some(UncaughtConversion); }
      value.SetValue(DATE, DateVal(date.value));
    case TIMESTAMP =>
      var timestamp := lib.timestamp(text);
      if timestamp.None? { return Some(UncaughtConversion); }
      value.SetValue(TIMESTAMP, TimestampVal(timestamp.value));
    case BOOLEAN =>
      if text in BOOLEAN_TRUES {
        value.SetValue(BOOLEAN, BoolVal(true));
      } else if text in BOOLEAN_FALSES {
        value.SetValue(BOOLEAN, BoolVal(false));
      } else {
        error := Some(InvalidTextRepresentation);
      }
    case TINYINT | SMALLINT | INTEGER | BIGINT =>
      match Stol(text) {
        case NoConversion => error := Some(UncaughtInvalidArgument);
        case OutOfLongRange => error := Some(NumericOutOfRange);
        case Parsed(n) =>
          if -HalfRange(desired) <= n <= HalfRange(desired) - 1 {
            value.SetValue(desired, IntVal(n));
          } else {
            error := Some(NumericOutOfRange);
          }
      }
    case DECIMAL =>
      var decimal := lib.decimal(text);
      if decimal.None? { return Some(NumericOutOfRange); }
      value.SetValue(DECIMAL, RealVal(decimal.value));
    case _ =>
      error := Some(NumericOutOfRange);
  }

  method CheckAndTryPromoteType(lib: TextParsers, value: ConstantValueExpression, desired: TypeId)
    returns (error: Option<Error>)
    modifies value
    ensures match Promote(lib, old(value.Get()), desired)
            case Ok(c) => error == None && value.Get() == c
            case Err(e) => error == Some(e) && value.Get() == old(value.Get())
  {
    var current := value.returnType;
    error := None;
    if current != desired {
      match current
      case INVALID =>
        value.SetValue(desired, NullVal);
      case TINYINT | SMALLINT | INTEGER | BIGINT =>
        if !value.value.IntVal? {
          error := Some(UncaughtBadVariant);
        } else {
          error := TryCastNumericAll(value, Truncate(current, value.value.n), desired);
        }
      case VARCHAR =>
        if !value.value.TextVal? {
          error := Some(UncaughtBadVariant);
        } else {
          error := PromoteText(lib, value, value.value.s, desired);
        }
      case _ =>
        error := Some(NumericOutOfRange);
    }
  }
}
