/**
  * What promotion guarantees: text denotes the integer it spells, and the fast path for prepared
  * statements agrees with full binding.
  */
module PromotionLaws {
  import opened Options
  import opened SqlTypes
  import opened Promotion

  // ---------------------------------------------------------------- text to integer

  function Digits(n: nat): string {
    if n < 10 then [n as char + '0'] else Digits(n / 10) + [(n % 10) as char + '0']
  }

  /** The decimal text of an integer. */
  function DecimalText(n: int): string {
    if n < 0 then "-" + Digits(-n) else Digits(n)
  }

  predicate AllDigits(s: string) { forall i :: 0 <= i < |s| ==> '0' <= s[i] <= '9' }

  /** Spaces, and the control characters from tab to carriage return. */
  predicate AllSpaces(s: string) { forall i :: 0 <= i < |s| ==> s[i] == ' ' || 9 <= s[i] as int <= 13 }

  lemma {:induction false} DigitsSpell(n: nat)
    ensures AllDigits(Digits(n)) && Digits(n) != "" && DigitsValue(Digits(n)) == n
  {
    var s := Digits(n);
    if n >= 10 {
      DigitsSpell(n / 10);
      assert s[..|s| - 1] == Digits(n / 10);
    } else {
      assert s[..|s| - 1] == "";
    }
  }

  lemma {:induction false} SpacesSkipped(ws: string, s: string)
    requires AllSpaces(ws)
    requires s != "" && !IsSpace(s[0])
    ensures SkipSpaces(ws + s) == s
  {
    if ws == "" {
      assert ws + s == s;
    } else {
      assert (ws + s)[1..] == ws[1..] + s;
      SpacesSkipped(ws[1..], s);
    }
  }

  lemma {:induction false} DigitsTaken(ds: string, junk: string)
    requires AllDigits(ds)
    requires junk == "" || !IsDigit(junk[0])
    ensures DigitPrefix(ds + junk) == ds
  {
    if ds == "" {
      assert ds + junk == junk;
    } else {
      assert (ds + junk)[1..] == ds[1..] + junk;
      DigitsTaken(ds[1..], junk);
    }
  }

  /** A decimal numeral with an optional sign, and the integer it denotes. */
  datatype Numeral = Numeral(sign: string, digits: string) {
    predicate Valid() { (sign == "" || sign == "-" || sign == "+") && AllDigits(digits) && digits != "" }

    function Text(): string { sign + digits }

    function Denotes(): int { if sign == "-" then -DigitsValue(digits) else DigitsValue(digits) }
  }

  lemma StolReadsUnpadded(m: Numeral, junk: string)
    requires m.Valid()
    requires junk == "" || !IsDigit(junk[0])
    ensures StolUnpadded(m.Text() + junk) == InLongRange(m.Denotes())
    ensures m.Text() != "" && !IsSpace(m.Text()[0])
  {
    DigitsTaken(m.digits, junk);
    var t := m.Text() + junk;
    if m.sign == "" {
      assert t == m.digits + junk && t[0] == m.digits[0];
      assert StolUnpadded(t) == InLongRange(DigitsValue(m.digits));
    } else {
      assert t[0] == m.sign[0] && t[1..] == m.digits + junk;
      assert DigitPrefix(t[1..]) == m.digits;
    }
  }

  /** stol reads back the integer a numeral denotes, whatever blanks precede it and text follows it. */
  lemma StolReadsNumeral(ws: string, m: Numeral, junk: string)
    requires m.Valid() && AllSpaces(ws)
    requires junk == "" || !IsDigit(junk[0])
    ensures Stol(ws + m.Text() + junk) == InLongRange(m.Denotes())
  {
    StolReadsUnpadded(m, junk);
    assert ws + m.Text() + junk == ws + (m.Text() + junk);
    SpacesSkipped(ws, m.Text() + junk);
  }

  /**
    * Promoting a numeral to an integer type yields the integer it denotes exactly when that integer fits the
    * type, and otherwise the out-of-range error, for every width and even beyond the range of long.
    */
  lemma TextPromotionExact(lib: TextParsers, ws: string, m: Numeral, junk: string, t: TypeId)
    requires IsIntegerType(t)
    requires m.Valid() && AllSpaces(ws)
    requires junk == "" || !IsDigit(junk[0])
    ensures Promote(lib, Constant(VARCHAR, TextVal(ws + m.Text() + junk)), t)
         == if Fits(t, m.Denotes()) then Ok(Constant(t, IntVal(m.Denotes()))) else Err(NumericOutOfRange)
  {
    StolReadsNumeral(ws, m, junk);
  }

  /** Every mathematical integer has a numeral, so the law above speaks of all of them. */
  lemma EveryIntegerHasANumeral(n: int) returns (m: Numeral)
    ensures m.Valid() && m.Denotes() == n && m.Text() == DecimalText(n)
  {
    if n < 0 {
      DigitsSpell(-n);
      m := Numeral("-", Digits(-n));
    } else {
      DigitsSpell(n);
      m := Numeral("", Digits(n));
    }
  }

  lemma {:induction false} SkipsSpaces(s: string) returns (ws: string)
    ensures AllSpaces(ws) && s == ws + SkipSpaces(s)
  {
    if s != "" && IsSpace(s[0]) {
      var rest := SkipsSpaces(s[1..]);
      ws := [s[0]] + rest;
    } else {
      ws := "";
    }
  }

  lemma {:induction false} TakesDigits(s: string) returns (junk: string)
    ensures AllDigits(DigitPrefix(s)) && s == DigitPrefix(s) + junk && (junk == "" || !IsDigit(junk[0]))
  {
    if s != "" && IsDigit(s[0]) {
      junk := TakesDigits(s[1..]);
    } else {
      junk := s;
    }
  }

  /** s begins with a numeral for n, after blanks; text that is no longer a digit may follow. */
  ghost predicate Spells(s: string, n: int) {
    exists ws, m: Numeral, junk :: SpellsAs(s, n, ws, m, junk)
  }

  ghost predicate SpellsAs(s: string, n: int, ws: string, m: Numeral, junk: string) {
    && m.Valid() && AllSpaces(ws) && (junk == "" || !IsDigit(junk[0]))
    && s == ws + m.Text() + junk && m.Denotes() == n
  }

  /** The text after an optional sign. */
  function Unsigned(t: string): string { if t != "" && (t[0] == '-' || t[0] == '+') then t[1..] else t }

  lemma ConversionHasDigits(t: string)
    requires !StolUnpadded(t).NoConversion?
    ensures DigitPrefix(Unsigned(t)) != ""
  {
  }

  lemma UnpaddedSpells(t: string) returns (m: Numeral, junk: string)
    requires DigitPrefix(Unsigned(t)) != ""
    ensures m.Valid() && t == m.Text() + junk && (junk == "" || !IsDigit(junk[0]))
  {
    var d := Unsigned(t);
    junk := TakesDigits(d);
    var sign := t[..|t| - |d|];
    m := Numeral(sign, DigitPrefix(d));
    assert t == sign + d;
    assert sign == "" || sign == [t[0]];
  }

  lemma ConvertedSpells(s: string) returns (n: int)
    requires !Stol(s).NoConversion?
    ensures Spells(s, n)
  {
    var ws := SkipsSpaces(s);
    ConversionHasDigits(SkipSpaces(s));
    var m, junk := UnpaddedSpells(SkipSpaces(s));
    n := m.Denotes();
    assert s == ws + m.Text() + junk;
    assert SpellsAs(s, n, ws, m, junk);
  }

  /** A text is converted exactly when it begins with a numeral, and then to the integer that denotes. */
  lemma OnlyNumeralsConvert(s: string)
    ensures Stol(s).NoConversion? <==> forall n :: !Spells(s, n)
    ensures forall n :: Spells(s, n) ==> Stol(s) == InLongRange(n)
  {
    forall n | Spells(s, n) ensures Stol(s) == InLongRange(n) {
      var ws, m: Numeral, junk :| SpellsAs(s, n, ws, m, junk);
      StolReadsNumeral(ws, m, junk);
    }
    if !Stol(s).NoConversion? {
      var n := ConvertedSpells(s);
    }
  }

  // ---------------------------------------------------------------- exactly what a constant becomes

  /** The ranges of the integer types. */
  predicate InRange(t: TypeId, n: int) {
    match t
    case TINYINT => -128 <= n <= 127
    case SMALLINT => -32768 <= n <= 32767
    case INTEGER => -2147483648 <= n <= 2147483647
    case BIGINT => -9223372036854775808 <= n <= 9223372036854775807
    case _ => false
  }

  /** Text s means v as a value of type t. */
  ghost predicate Reads(lib: TextParsers, s: string, t: TypeId, v: Value) {
    match t
    case BOOLEAN =>
      || (v == BoolVal(true) && s in {"t", "true", "yes", "y", "on", "1"})
      || (v == BoolVal(false) && s in {"f", "false", "no", "n", "off", "0"})
    case DECIMAL => v.RealVal? && lib.decimal(s) == Some(v.r)
    case DATE => v.DateVal? && lib.date(s) == Some(v.days)
    case TIMESTAMP => v.TimestampVal? && lib.timestamp(s) == Some(v.micros)
    case _ => v.IntVal? && InRange(t, v.n) && Spells(s, v.n)
  }

  /** Constant c means v as a value of type t. */
  ghost predicate Means(lib: TextParsers, c: Constant, t: TypeId, v: Value) {
    if c.ty == t then v == c.val
    else if c.ty.INVALID? then v == NullVal
    else if c.val.IntVal? then v == (if t.DECIMAL? then RealVal(c.val.n as real) else c.val) && (t.DECIMAL? || InRange(t, c.val.n))
    else c.ty.VARCHAR? && c.val.TextVal? && Reads(lib, c.val.s, t, v)
  }

  lemma RangesFit(t: TypeId, n: int)
    ensures IsIntegerType(t) && Fits(t, n) <==> InRange(t, n)
  {
  }

  lemma TextReadExactly(lib: TextParsers, s: string, t: TypeId, v: Value)
    requires !t.VARCHAR?
    ensures Promote(lib, Constant(VARCHAR, TextVal(s)), t) == Ok(Constant(t, v)) <==> Reads(lib, s, t, v)
  {
    if IsIntegerType(t) {
      OnlyNumeralsConvert(s);
      if v.IntVal? { RangesFit(t, v.n); }
      if Stol(s).Parsed? { RangesFit(t, Stol(s).n); }
    }
  }

  /** A constant is promoted to type t exactly when it means a value of that type, and then to that value. */
  lemma PromotesExactly(lib: TextParsers, c: Constant, t: TypeId, v: Value)
    requires WellFormed(c)
    ensures Promote(lib, c, t) == Ok(Constant(t, v)) <==> Means(lib, c, t, v)
    ensures Promote(lib, c, t).Ok? ==> Promote(lib, c, t).value.ty == t
  {
    if c.ty != t && c.ty.VARCHAR? && c.val.TextVal? {
      TextReadExactly(lib, c.val.s, t, v);
    } else if c.ty != t && c.val.IntVal? {
      RangesFit(t, c.val.n);
    }
  }

  /** Which exception a failed promotion throws. */
  function Failure(c: Constant, t: TypeId, spells: bool): Error {
    if (IsIntegerType(c.ty) || c.ty.VARCHAR?) && c.val.NullVal? then UncaughtBadVariant
    else if IsIntegerType(c.ty) then (if IsIntegerType(t) then NumericOutOfRange else DataException)
    else if c.ty.VARCHAR? then
      match t
      case BOOLEAN => InvalidTextRepresentation
      case DATE => UncaughtConversion
      case TIMESTAMP => UncaughtConversion
      case TINYINT | SMALLINT | INTEGER | BIGINT => if spells then NumericOutOfRange else UncaughtInvalidArgument
      case _ => NumericOutOfRange
    else NumericOutOfRange
  }

  lemma FailsExactly(lib: TextParsers, c: Constant, t: TypeId, spells: bool)
    requires WellFormed(c) && Promote(lib, c, t).Err?
    requires c.val.TextVal? ==> (spells <==> exists n :: Spells(c.val.s, n))
    ensures Promote(lib, c, t) == Err(Failure(c, t, spells))
  {
    if c.val.TextVal? { OnlyNumeralsConvert(c.val.s); }
  }

  // ---------------------------------------------------------------- chains of promotions

  /** One visit of a parameter: nothing is promoted towards INVALID. */
  function PromoteIfTyped(lib: TextParsers, c: Constant, desired: TypeId): Result<Constant> {
    if desired.INVALID? then Ok(c) else Promote(lib, c, desired)
  }

  function Chain(lib: TextParsers, c: Constant, ds: seq<TypeId>): Result<Constant>
    decreases ds
  {
    if ds == [] then Ok(c)
    else match PromoteIfTyped(lib, c, ds[0])
         case Err(e) => Err(e)
         case Ok(c') => Chain(lib, c', ds[1..])
  }

  predicate HasInteger(ds: seq<TypeId>) { ds != [] && (IsIntegerType(ds[0]) || HasInteger(ds[1..])) }

  predicate HasDecimal(ds: seq<TypeId>) { ds != [] && (ds[0].DECIMAL? || HasDecimal(ds[1..])) }

  /** Text that is read as an integer on the way to DECIMAL, and means another number when read as a decimal. */
  predicate ReadsTwice(lib: TextParsers, c: Constant, ds: seq<TypeId>) {
    && c.ty.VARCHAR? && c.val.TextVal? && HasInteger(ds) && HasDecimal(ds)
    && Stol(c.val.s).Parsed? && lib.decimal(c.val.s) != Some(Stol(c.val.s).n as real)
  }

  /** A constant that is neither an integer, a text nor an untyped NULL never changes. */
  lemma {:induction false} StuckConstant(lib: TextParsers, c: Constant, ds: seq<TypeId>)
    requires !c.ty.INVALID?
    requires (IsIntegerType(c.ty) ==> !c.val.IntVal?) && (c.ty.VARCHAR? ==> !c.val.TextVal?)
    requires Chain(lib, c, ds).Ok?
    ensures Chain(lib, c, ds) == Ok(c)
    ensures HasInteger(ds) ==> IsIntegerType(c.ty)
    ensures HasDecimal(ds) ==> c.ty.DECIMAL?
  {
    if ds != [] {
      StuckConstant(lib, c, ds[1..]);
    }
  }

  /** What one visit does to an integer, without the peek. */
  lemma IntegerStep(lib: TextParsers, c: Constant, d: TypeId)
    requires WellFormed(c) && c.val.IntVal?
    ensures PromoteIfTyped(lib, c, d)
         == if d.INVALID? then Ok(c) else CastNumeric(c, c.val.n, d)
  {
  }

  /** An integer keeps its value until it becomes a decimal. */
  lemma {:induction false} IntegerChain(lib: TextParsers, c: Constant, ds: seq<TypeId>)
    requires WellFormed(c) && c.val.IntVal?
    requires Chain(lib, c, ds).Ok?
    ensures var f := Chain(lib, c, ds).value;
            Promote(lib, c, f.ty) == Ok(f) && (f.ty.DECIMAL? <==> HasDecimal(ds))
    decreases ds
  {
    if ds != [] {
      IntegerStep(lib, c, ds[0]);
      var c' := PromoteIfTyped(lib, c, ds[0]).value;
      if c'.val.IntVal? {
        IntegerChain(lib, c', ds[1..]);
        IntegerStep(lib, c, Chain(lib, c', ds[1..]).value.ty);
      } else {
        StuckConstant(lib, c', ds[1..]);
      }
    }
  }

  lemma {:induction false} NullChain(lib: TextParsers, c: Constant, ds: seq<TypeId>)
    requires WellFormed(c) && c.ty.INVALID?
    requires Chain(lib, c, ds).Ok?
    ensures var f := Chain(lib, c, ds).value; PromoteIfTyped(lib, c, f.ty) == Ok(f)
  {
    if ds != [] {
      if ds[0].INVALID? {
        NullChain(lib, c, ds[1..]);
      } else {
        StuckConstant(lib, Constant(ds[0], NullVal), ds[1..]);
      }
    }
  }

  lemma {:induction false} TextChain(lib: TextParsers, s: string, ds: seq<TypeId>)
    requires Chain(lib, Constant(VARCHAR, TextVal(s)), ds).Ok?
    ensures var c := Constant(VARCHAR, TextVal(s));
            var f := Chain(lib, c, ds).value;
            Promote(lib, c, f.ty) == Ok(f) <==> !ReadsTwice(lib, c, ds)
  {
    var c := Constant(VARCHAR, TextVal(s));
    if ds != [] {
      var c' := PromoteIfTyped(lib, c, ds[0]).value;
      if c' == c {
        TextChain(lib, s, ds[1..]);
      } else if IsIntegerType(ds[0]) {
        IntegerChain(lib, c', ds[1..]);
      } else {
        StuckConstant(lib, c', ds[1..]);
      }
    }
  }

  /**
    * A successful chain of promotions collapses to a single promotion to its final type exactly when it does
    * not read a text twice.
    */
  lemma {:induction false} ChainCollapses(lib: TextParsers, c: Constant, ds: seq<TypeId>)
    requires WellFormed(c)
    requires Chain(lib, c, ds).Ok?
    ensures var f := Chain(lib, c, ds).value;
            PromoteIfTyped(lib, c, f.ty) == Ok(f) <==> !ReadsTwice(lib, c, ds)
  {
    if c.val.IntVal? {
      IntegerChain(lib, c, ds);
    } else if c.ty.VARCHAR? && c.val.TextVal? {
      TextChain(lib, c.val.s, ds);
    } else if !c.ty.INVALID? {
      StuckConstant(lib, c, ds);
    } else {
      NullChain(lib, c, ds);
    }
  }

  lemma ExponentIgnored()
    ensures Stol("1e1") == Parsed(1)
  {
    assert "" + Numeral("", "1").Text() + "e1" == "1e1";
    assert "1"[..0] == "";
    StolReadsNumeral("", Numeral("", "1"), "e1");
  }

  /** "1e1" reads as the integer 1 and as the decimal 10. */
  lemma TextReadTwice(lib: TextParsers)
    requires lib.decimal("1e1") == Some(10.0)
    ensures var c := Constant(VARCHAR, TextVal("1e1"));
            && Chain(lib, c, [INTEGER, DECIMAL]) == Ok(Constant(DECIMAL, RealVal(1.0)))
            && Promote(lib, c, DECIMAL) == Ok(Constant(DECIMAL, RealVal(10.0)))
  {
    var c, n := Constant(VARCHAR, TextVal("1e1")), Constant(INTEGER, IntVal(1));
    ExponentIgnored();
    IntegerStep(lib, n, DECIMAL);
    assert PromoteIfTyped(lib, c, INTEGER) == Ok(n);
    assert [INTEGER, DECIMAL][1..] == [DECIMAL] && [DECIMAL][1..] == [];
    assert Chain(lib, n, [DECIMAL]) == Ok(Constant(DECIMAL, RealVal(1.0)));
  }
}
