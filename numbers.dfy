/**
 * Materialising a numeric literal under the configured big-number strategy (`parseNumber` in
 * Lexer.java and LexConfig.java, both the integer and the floating branch). Java's boxed numbers become the
 * constructors of NumberValue; their equality is that of Java's `equals` (an Integer never
 * equals a Long or a BigInteger, whatever the value).
 */
module Numbers {
  import opened Wrappers

  datatype BigNumberStrategy = NONE | ALWAYS | RANGE

  datatype NumberValue =
    | IntNum(i: int)               // java.lang.Integer
    | LongNum(l: int)              // java.lang.Long
    | BigIntegerNum(b: int)        // java.math.BigInteger
    | DoubleNum(literal: string)   // java.lang.Double parsed from the literal; the value itself is not modelled
    | BigDecimalNum(literal: string)  // java.math.BigDecimal parsed from the literal

  const IntMin: int := -0x8000_0000
  const IntMax: int := 0x7fff_ffff
  const LongMin: int := -0x8000_0000_0000_0000
  const LongMax: int := 0x7fff_ffff_ffff_ffff

  predicate InIntRange(n: int) { IntMin <= n <= IntMax }
  predicate InLongRange(n: int) { LongMin <= n <= LongMax }

  predicate IsDigit(c: char) { '0' <= c <= '9' }

  predicate AllDigits(s: string) { forall k :: 0 <= k < |s| ==> IsDigit(s[k]) }

  /** The value of a string of decimal digits, most significant first. */
  function DigitsValue(s: string): (n: nat)
    requires AllDigits(s)
  {
    if s == [] then 0 else DigitsValue(s[..|s| - 1]) * 10 + (s[|s| - 1] as int - '0' as int)
  }

  /** `new BigInteger(literal)`: an optional sign, then one or more decimal digits; otherwise a NumberFormatException. */
  function ParseDecimal(literal: string): Option<int> {
    if |literal| > 0 && (literal[0] == '-' || literal[0] == '+') then
      var digits := literal[1..];
      if |digits| > 0 && AllDigits(digits) then
        var magnitude: int := DigitsValue(digits);
        Some(if literal[0] == '-' then -magnitude else magnitude)
      else None
    else if |literal| > 0 && AllDigits(literal) then Some(DigitsValue(literal))
    else None
  }

  /** Decimal text of a natural number without leading zeros, as `BigInteger.toString` writes it. */
  function ShowNat(n: nat): (s: string)
    ensures |s| > 0 && AllDigits(s)
  {
    if n < 10 then [('0' as int + n) as char] else ShowNat(n / 10) + [('0' as int + n % 10) as char]
  }

  function ShowDecimal(n: int): string {
    if n < 0 then "-" + ShowNat(-n) else ShowNat(n)
  }

  lemma {:induction false} DigitsOfShowNat(n: nat)
    ensures DigitsValue(ShowNat(n)) == n
  {
    var s := ShowNat(n);
    if n >= 10 {
      DigitsOfShowNat(n / 10);
      assert s[..|s| - 1] == ShowNat(n / 10);
    }
  }

  /** Parsing the decimal text of any integer gives that integer back. */
  lemma ParseShowRoundTrip(n: int)
    ensures ParseDecimal(ShowDecimal(n)) == Some(n)
  {
    if n < 0 {
      DigitsOfShowNat(-n);
      assert ShowDecimal(n)[1..] == ShowNat(-n);
    } else {
      DigitsOfShowNat(n);
    }
  }

  /**
   * The integer branch under ALWAYS or RANGE: parse as BigInteger; under RANGE narrow to an
   * Integer when the value fits 32 bits, else to a Long when it fits 64 bits. A malformed
   * literal is the NumberFormatException, carried as Failure(literal).
   */
  function ParseInteger(strategy: BigNumberStrategy, literal: string): (r: Result<NumberValue, string>)
    requires strategy != NONE
    ensures r.Success? <==> ParseDecimal(literal).Some?
    ensures r.Success? ==> IntegerOf(r.value) == Some(ParseDecimal(literal).value)
    ensures r.Success? && strategy == ALWAYS ==> r.value.BigIntegerNum?
    ensures r.Success? && strategy == RANGE ==> var n := ParseDecimal(literal).value;
      && (r.value.IntNum? <==> InIntRange(n))
      && (r.value.LongNum? <==> InLongRange(n) && !InIntRange(n))
      && (r.value.BigIntegerNum? <==> !InLongRange(n))
  {
    match ParseDecimal(literal)
    case None => Failure(literal)
    case Some(n) =>
      if strategy == RANGE && InLongRange(n) then
        Success(if InIntRange(n) then IntNum(n) else LongNum(n))
      else Success(BigIntegerNum(n))
  }

  /** The integer a value holds, whatever box it is in. */
  function IntegerOf(v: NumberValue): Option<int> {
    match v
    case IntNum(i) => Some(i)
    case LongNum(l) => Some(l)
    case BigIntegerNum(b) => Some(b)
    case _ => None
  }

  /** The first index of `s` holding one of `cs`, or `|s|`. */
  function IndexOf(s: string, cs: set<char>): (k: nat)
    ensures k <= |s| && (k < |s| ==> s[k] in cs)
    ensures forall j :: 0 <= j < k ==> s[j] !in cs
  {
    if s == [] || s[0] in cs then 0 else 1 + IndexOf(s[1..], cs)
  }

  /** `s` without its leading sign, if it has one. */
  function Unsigned(s: string): string {
    if |s| > 0 && (s[0] == '+' || s[0] == '-') then s[1..] else s
  }

  /** Digits with at most one decimal point among them, and at least one digit. */
  predicate IsSignificand(t: string) {
    var d := IndexOf(t, {'.'});
    AllDigits(t[..d]) && (d < |t| ==> AllDigits(t[d + 1..])) && |t| > (if d < |t| then 1 else 0)
  }

  /**
   * The syntax `new BigDecimal(literal)` accepts: an optional sign, a significand, then
   * optionally `e` or `E` and an exponent of one or more digits with an optional sign.
   */
  predicate IsDecimalLiteral(literal: string) {
    var body := Unsigned(literal);
    var e := IndexOf(body, {'e', 'E'});
    IsSignificand(body[..e]) && (e < |body| ==> var x := Unsigned(body[e + 1..]); |x| > 0 && AllDigits(x))
  }

  /** Every literal the integer parser accepts is also a decimal literal. */
  lemma IntegerLiteralIsDecimal(literal: string)
    requires ParseDecimal(literal).Some?
    ensures IsDecimalLiteral(literal)
  {
    var body := Unsigned(literal);
    assert AllDigits(body) && |body| > 0;
    assert IndexOf(body, {'e', 'E'}) == |body|;
    assert body[..|body|] == body;
    assert IndexOf(body, {'.'}) == |body|;
  }

  /** A fraction with a signed exponent is decimal. */
  lemma FractionWithExponentIsDecimal()
    ensures IsDecimalLiteral("1.5e-3")
  {
    assert IndexOf("1.5e-3", {'e', 'E'}) == 3 && "1.5e-3"[..3] == "1.5";
    assert IsSignificand("1.5") by {
      assert IndexOf("1.5", {'.'}) == 1 && "1.5"[..1] == "1" && "1.5"[2..] == "5";
    }
    assert "1.5e-3"[4..] == "-3" && Unsigned("-3") == "3";
  }

  /** A leading point is decimal. */
  lemma LeadingPointIsDecimal()
    ensures IsDecimalLiteral(".5")
  {
    assert IndexOf(".5", {'e', 'E'}) == 2 && ".5"[..2] == ".5";
    assert IndexOf(".5", {'.'}) == 0 && ".5"[1..] == "5";
  }

  /** Signs on the number and on its exponent are decimal. */
  lemma SignedExponentIsDecimal()
    ensures IsDecimalLiteral("-2E+10")
  {
    assert Unsigned("-2E+10") == "2E+10";
    assert IndexOf("2E+10", {'e', 'E'}) == 1 && "2E+10"[..1] == "2";
    assert IsSignificand("2") by { assert IndexOf("2", {'.'}) == 1 && "2"[..1] == "2"; }
    assert "2E+10"[2..] == "+10" && Unsigned("+10") == "10";
  }

  /** A lone point, a bare exponent marker and a second point are not. */
  lemma DecimalLiteralRejects()
    ensures !IsDecimalLiteral(".") && !IsDecimalLiteral("1e") && !IsDecimalLiteral("1.2.3")
  {
    assert IndexOf(".", {'e', 'E'}) == 1 && "."[..1] == ".";
    assert IndexOf("1e", {'e', 'E'}) == 1 && "1e"[2..] == "";
    assert IndexOf("1.2.3", {'e', 'E'}) == 5 && "1.2.3"[..5] == "1.2.3" && IndexOf("1.2.3", {'.'}) == 1;
    assert "1.2.3"[2..] == "2.3" && !IsDigit("2.3"[1]);
  }

  /**
   * `parseNumber(value, floating)`. NONE delegates to a library parser (`machine`); the floating
   * branch parses the literal as a BigDecimal and narrows it to a Double when `isDoubleRange`
   * holds under RANGE. A malformed literal is the NumberFormatException, carried as
   * Failure(literal).
   */
  function ParseNumber(strategy: BigNumberStrategy, literal: string, floating: bool,
                       machine: (string, bool) -> NumberValue, isDoubleRange: string -> bool): (r: Result<NumberValue, string>)
    ensures strategy == NONE ==> r == Success(machine(literal, floating))
    ensures r.Failure? ==> strategy != NONE && r.error == literal
    ensures strategy != NONE && !floating ==>
              (r.Success? <==> ParseDecimal(literal).Some?) && (r.Success? ==> IntegerOf(r.value) == ParseDecimal(literal))
    ensures strategy != NONE && floating ==> (r.Success? <==> IsDecimalLiteral(literal))
    ensures strategy != NONE && floating && r.Success? ==>
              (r.value.DoubleNum? || r.value.BigDecimalNum?) && r.value.literal == literal
    ensures strategy != NONE && floating && r.Success? ==> (r.value.DoubleNum? <==> strategy == RANGE && isDoubleRange(literal))
  {
    if strategy == NONE then Success(machine(literal, floating))
    else if floating then
      if !IsDecimalLiteral(literal) then Failure(literal)
      else Success(if strategy == RANGE && isDoubleRange(literal) then DoubleNum(literal) else BigDecimalNum(literal))
    else ParseInteger(strategy, literal)
  }

  /** 2147483648 (one past the 32-bit range) under RANGE becomes a Long, under ALWAYS a BigInteger. */
  lemma JustPastIntRange()
    ensures ParseInteger(RANGE, "2147483648") == Success(LongNum(2147483648))
    ensures ParseInteger(ALWAYS, "2147483648") == Success(BigIntegerNum(2147483648))
  {
    var s := "2147483648";
    assert AllDigits(s);
    assert DigitsValue(s[..1]) == 2;
    assert DigitsValue(s[..2]) == 21 by { assert s[..2][..1] == s[..1]; }
    assert DigitsValue(s[..3]) == 214 by { assert s[..3][..2] == s[..2]; }
    assert DigitsValue(s[..4]) == 2147 by { assert s[..4][..3] == s[..3]; }
    assert DigitsValue(s[..5]) == 21474 by { assert s[..5][..4] == s[..4]; }
    assert DigitsValue(s[..6]) == 214748 by { assert s[..6][..5] == s[..5]; }
    assert DigitsValue(s[..7]) == 2147483 by { assert s[..7][..6] == s[..6]; }
    assert DigitsValue(s[..8]) == 21474836 by { assert s[..8][..7] == s[..7]; }
    assert DigitsValue(s[..9]) == 214748364 by { assert s[..9][..8] == s[..8]; }
    assert DigitsValue(s) == 2147483648 by { assert s[..9] == s[..|s| - 1]; }
  }
}
