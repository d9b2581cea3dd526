/**
 * The token model (Token.java and the classes implementing it): one closed sum type whose
 * constructors are the concrete token classes, the capability queries that default to false,
 * the accessors that are unsupported outside their own kind, and Java's equality and hashing
 * rules for identifier and value tokens.
 */
module Tokens {
  import opened Wrappers
  import opened Numbers
  import Operators
  import Punctuation

  /** `Token.Type`: the six kinds. */
  datatype Type = IDENTIFIER | STRING | NUMBER | OPERATOR | PUNCTUATION | COMMENT

  datatype Token =
    | IdentifierToken(raw: string)
      /** `value` is the unescaped text; `sep` the single or left separator; `secondSep` the right one. */
    | StringToken(value: string, raw: string, prefix: Option<string>, sep: string, secondSep: Option<string>)
    | NumberToken(number: NumberValue, raw: string)
    | OperatorTok(op: Operators.OperatorToken)
    | PunctuationTok(p: Punctuation.PunctuationToken)
      /** `lineSep` is set by the single-line factory, `startSep`/`endSep` by the multi-line one. */
    | CommentToken(raw: string, lineSep: Option<string>, startSep: Option<string>, endSep: Option<string>)

  /** What `getValue` returns for a value token. */
  datatype Value = StringValue(s: string) | NumberVal(n: NumberValue)

  function TypeOf(t: Token): Type {
    match t
    case IdentifierToken(_) => IDENTIFIER
    case StringToken(_, _, _, _, _) => STRING
    case NumberToken(_, _) => NUMBER
    case OperatorTok(_) => OPERATOR
    case PunctuationTok(_) => PUNCTUATION
    case CommentToken(_, _, _, _) => COMMENT
  }

  /** The value tokens (ValueToken.java): string and number literals. */
  predicate IsValueToken(t: Token) { t.StringToken? || t.NumberToken? }

  /** The capability queries of Token.java; each one defaults to false. */
  datatype Capability =
    | IsIdentifier | IsValue | IsOperator
    | IsLeftParenthesis | IsRightParenthesis | IsLeftBracket | IsRightBracket
    | IsLeftBrace | IsRightBrace | IsSemicolon | IsComma | IsColon | IsAt | IsSharp | IsDollar
    | IsDot

  /** The punctuation constant whose own query a capability is. */
  function PunctuationOf(c: Capability): Option<Punctuation.PunctuationToken> {
    match c
    case IsLeftParenthesis => Some(Punctuation.LEFT_PARENTHESIS)
    case IsRightParenthesis => Some(Punctuation.RIGHT_PARENTHESIS)
    case IsLeftBracket => Some(Punctuation.LEFT_BRACKET)
    case IsRightBracket => Some(Punctuation.RIGHT_BRACKET)
    case IsLeftBrace => Some(Punctuation.LEFT_BRACE)
    case IsRightBrace => Some(Punctuation.RIGHT_BRACE)
    case IsSemicolon => Some(Punctuation.SEMICOLON)
    case IsComma => Some(Punctuation.COMMA)
    case IsColon => Some(Punctuation.COLON)
    case IsAt => Some(Punctuation.AT)
    case IsSharp => Some(Punctuation.SHARP)
    case IsDollar => Some(Punctuation.DOLLAR)
    case _ => None
  }

  /** The query of each punctuation constant. */
  function OwnCapability(p: Punctuation.PunctuationToken): Capability {
    match p
    case LEFT_PARENTHESIS => IsLeftParenthesis
    case RIGHT_PARENTHESIS => IsRightParenthesis
    case LEFT_BRACKET => IsLeftBracket
    case RIGHT_BRACKET => IsRightBracket
    case LEFT_BRACE => IsLeftBrace
    case RIGHT_BRACE => IsRightBrace
    case SEMICOLON => IsSemicolon
    case COMMA => IsComma
    case COLON => IsColon
    case AT => IsAt
    case SHARP => IsSharp
    case DOLLAR => IsDollar
  }

  /**
   * Answer of query `c` on `t`: identifier tokens override `isIdentifier`, value tokens
   * `isValue`, operators `isOperator` and `isDot` (DOT only), punctuation each `isX` by
   * comparison with its own constant; everything else keeps the default false.
   */
  predicate Has(t: Token, c: Capability) {
    match t
    case IdentifierToken(_) => c == IsIdentifier
    case StringToken(_, _, _, _, _) => c == IsValue
    case NumberToken(_, _) => c == IsValue
    case OperatorTok(op) => c == IsOperator || (c == IsDot && Operators.IsDot(op))
    case PunctuationTok(p) => PunctuationOf(c) == Some(p)
    case CommentToken(_, _, _, _) => false
  }

  /** The capability queries agree with the kind: a token answers only for its own kind. */
  lemma CapabilitiesFollowType(t: Token)
    ensures Has(t, IsIdentifier) <==> TypeOf(t) == IDENTIFIER
    ensures Has(t, IsValue) <==> TypeOf(t) == STRING || TypeOf(t) == NUMBER
    ensures Has(t, IsOperator) <==> TypeOf(t) == OPERATOR
    ensures Has(t, IsDot) <==> t == OperatorTok(Operators.DOT)
    ensures forall c :: PunctuationOf(c).Some? && Has(t, c) ==> TypeOf(t) == PUNCTUATION
    ensures TypeOf(t) == COMMENT ==> forall c :: !Has(t, c)
  {
  }

  /** Each punctuation query holds for exactly its own constant. */
  lemma PunctuationQueriesExact(p: Punctuation.PunctuationToken, c: Capability)
    ensures Has(PunctuationTok(p), c) <==> c == OwnCapability(p)
  {
  }

  /** `getRaw`: the source text of any concrete token. */
  function GetRaw(t: Token): string {
    match t
    case OperatorTok(op) => Operators.Raw(op)
    case PunctuationTok(p) => Punctuation.Raw(p)
    case _ => t.raw
  }

  /** `getIdentifier`: unsupported outside identifier tokens; the raw text for them. */
  function GetIdentifier(t: Token): string
    requires Has(t, IsIdentifier)
  {
    t.raw
  }

  /** `IdentifierToken.is(s)`. */
  predicate IdentifierIs(t: Token, s: string)
    requires t.IdentifierToken?
  {
    GetIdentifier(t) == s
  }

  /** `getValue`: unsupported outside value tokens. */
  function GetValue(t: Token): Value
    requires Has(t, IsValue)
  {
    if t.StringToken? then StringValue(t.value) else NumberVal(t.number)
  }

  /** `getOperator`: unsupported outside operators; the operator itself. */
  function GetOperator(t: Token): Operators.OperatorToken
    requires Has(t, IsOperator)
  {
    t.op
  }

  /**
   * `a.equals(b)`: identifier tokens by spelling, value tokens by value (kind and raw text
   * ignored), enum constants by identity.
   */
  predicate TokenEquals(a: Token, b: Token)
    ensures TokenEquals(a, b) ==> TypeOf(a) == TypeOf(b)
    ensures TokenEquals(a, b) && !IsValueToken(a) ==> GetRaw(a) == GetRaw(b)
  {
    if a.IdentifierToken? then b.IdentifierToken? && GetIdentifier(a) == GetIdentifier(b)
    else if IsValueToken(a) then IsValueToken(b) && GetValue(a) == GetValue(b)
    else a == b
  }

  /** Token equality is an equivalence relation. */
  lemma TokenEqualsIsEquivalence(a: Token, b: Token, c: Token)
    ensures TokenEquals(a, a)
    ensures TokenEquals(a, b) ==> TokenEquals(b, a)
    ensures TokenEquals(a, b) && TokenEquals(b, c) ==> TokenEquals(a, c)
  {
  }

  // ---- hashing (only what Java fully determines) ----

  /** Truncation of an integer to Java's 32-bit `int`. */
  function Wrap32(x: int): (r: int)
    ensures InIntRange(r) && (x - r) % 0x1_0000_0000 == 0
  {
    (x - IntMin) % 0x1_0000_0000 + IntMin
  }

  /** `String.hashCode`: h = 31 * h + c over the characters, in 32-bit arithmetic. */
  function StringHash(s: string): (h: int)
    ensures InIntRange(h)
  {
    if s == [] then 0 else Wrap32(31 * StringHash(s[..|s| - 1]) + s[|s| - 1] as int)
  }

  /** `Long.hashCode`: the low 32 bits of `l ^ (l >>> 32)`. */
  function LongHash(l: int): int
    requires InLongRange(l)
  {
    var u := l % 0x1_0000_0000_0000_0000;
    var lo := (u % 0x1_0000_0000) as bv32;
    var hi := (u / 0x1_0000_0000) as bv32;
    Wrap32((lo ^ hi) as int)
  }

  /** The fold `h = 31 * h + word` over the big-endian 32-bit words of a magnitude. */
  function MagnitudeHash(n: nat): int {
    if n == 0 then 0 else Wrap32(31 * MagnitudeHash(n / 0x1_0000_0000) + n % 0x1_0000_0000)
  }

  /** `BigInteger.hashCode`: the magnitude hash times the sign. */
  function BigIntegerHash(b: int): int {
    if b < 0 then Wrap32(-MagnitudeHash(-b)) else MagnitudeHash(b)
  }

  /** `hashCode` of a boxed value; doubles and BigDecimals are not modelled. */
  function ValueHash(v: Value): Option<int> {
    match v
    case StringValue(s) => Some(StringHash(s))
    case NumberVal(IntNum(i)) => Some(Wrap32(i))
    case NumberVal(LongNum(l)) => if InLongRange(l) then Some(LongHash(l)) else None
    case NumberVal(BigIntegerNum(b)) => Some(BigIntegerHash(b))
    case NumberVal(_) => None
  }

  /**
   * `hashCode`: identifiers hash their spelling, value tokens `Objects.hash(value)`, which is
   * 31 + the value's hash. Enum and comment tokens keep the identity hash, not modelled here.
   */
  function HashCode(t: Token): (r: Option<int>)
    ensures r.Some? ==> InIntRange(r.value)
    ensures r.Some? <==> t.IdentifierToken? || (IsValueToken(t) && ValueHash(GetValue(t)).Some?)
  {
    if t.IdentifierToken? then Some(StringHash(GetIdentifier(t)))
    else if IsValueToken(t) then
      match ValueHash(GetValue(t))
      case Some(h) => Some(Wrap32(31 + h))
      case None => None
    else None
  }

  /** Equal tokens have equal hash codes. */
  lemma HashAgreesWithEquals(a: Token, b: Token)
    requires TokenEquals(a, b)
    ensures HashCode(a) == HashCode(b)
  {
  }

  // ---- string tokens (StringToken.java) ----

  /** A string literal quoted by `q` on both sides, with the raw content between the quotes. */
  function Quoted(q: char, rawValue: string, unescape: string -> string): (t: Token)
    ensures t.StringToken? && TypeOf(t) == STRING
    ensures |t.raw| == |rawValue| + 2 && t.raw[0] == q && t.raw[|t.raw| - 1] == q
    ensures t.raw[1..|t.raw| - 1] == rawValue
    ensures t.value == unescape(rawValue) && t.sep == [q]
    ensures t.prefix.None? && t.secondSep.None?
  {
    var raw := [q] + rawValue + [q];
    assert raw[1..|raw| - 1] == rawValue;
    StringToken(unescape(rawValue), raw, None, [q], None)
  }

  predicate IsSingle(t: Token) requires t.StringToken? { t.sep == "'" }
  predicate IsDouble(t: Token) requires t.StringToken? { t.sep == "\"" }
  predicate IsBacktick(t: Token) requires t.StringToken? { t.sep == "`" }
  predicate IsPrefix(t: Token) requires t.StringToken? { t.prefix.Some? }
  predicate IsSeparator(t: Token) requires t.StringToken? { t.secondSep.Some? }

  function OfSingle(rawValue: string, unescape: string -> string): (t: Token)
    ensures t.StringToken? && IsSingle(t) && !IsDouble(t) && !IsBacktick(t)
    ensures !IsPrefix(t) && !IsSeparator(t)
  {
    Quoted('\'', rawValue, unescape)
  }

  function OfDouble(rawValue: string, unescape: string -> string): (t: Token)
    ensures t.StringToken? && !IsSingle(t) && IsDouble(t) && !IsBacktick(t)
    ensures !IsPrefix(t) && !IsSeparator(t)
  {
    Quoted('"', rawValue, unescape)
  }

  function OfBacktick(rawValue: string, unescape: string -> string): (t: Token)
    ensures t.StringToken? && !IsSingle(t) && !IsDouble(t) && IsBacktick(t)
    ensures !IsPrefix(t) && !IsSeparator(t)
  {
    Quoted('`', rawValue, unescape)
  }

  /** `ofPrefix`: a templated literal such as `f'...'`; raw is prefix, left, content, right. */
  function OfPrefix(rawValue: string, prefix: string, left: char, right: char, unescape: string -> string): (t: Token)
    ensures t.StringToken? && IsPrefix(t) && IsSeparator(t)
    ensures |t.raw| == |prefix| + |rawValue| + 2 && t.raw[|prefix| + 1..|t.raw| - 1] == rawValue
    ensures t.raw[..|prefix|] == prefix && t.raw[|prefix|] == left && t.raw[|t.raw| - 1] == right
    ensures t.value == unescape(rawValue)
  {
    var raw := prefix + [left] + rawValue + [right];
    assert raw[..|prefix|] == prefix;
    assert raw[|prefix| + 1..|raw| - 1] == rawValue;
    StringToken(unescape(rawValue), raw, Some(prefix), [left], Some([right]))
  }

  /** `ofSeparator`: a literal between two (possibly multi-character) separators. */
  function OfSeparator(rawValue: string, left: string, right: string, unescape: string -> string): (t: Token)
    ensures t.StringToken? && !IsPrefix(t) && IsSeparator(t)
    ensures |t.raw| == |left| + |rawValue| + |right|
    ensures t.raw[..|left|] == left && t.raw[|left|..|left| + |rawValue|] == rawValue && t.raw[|left| + |rawValue|..] == right
    ensures t.value == unescape(rawValue)
  {
    var raw := left + rawValue + right;
    assert raw[..|left|] == left && raw[|left|..|left| + |rawValue|] == rawValue && raw[|left| + |rawValue|..] == right;
    StringToken(unescape(rawValue), raw, None, left, Some(right))
  }

  /** Value equality ignores the quote style: `'a'` and `"a"` are equal tokens with different raw text. */
  lemma QuoteStyleIgnoredByEquality(rawValue: string, unescape: string -> string)
    ensures TokenEquals(OfSingle(rawValue, unescape), OfDouble(rawValue, unescape))
    ensures GetRaw(OfSingle(rawValue, unescape)) != GetRaw(OfDouble(rawValue, unescape))
  {
    assert GetRaw(OfSingle(rawValue, unescape))[0] == '\'';
  }

  // ---- comment tokens (CommentToken.java) ----

  predicate IsSingleLine(t: Token) requires t.CommentToken? { t.lineSep.Some? }
  predicate IsMultiLine(t: Token) requires t.CommentToken? { !IsSingleLine(t) }

  function SingleLineComment(raw: string, sep: string): (t: Token)
    ensures t.CommentToken? && TypeOf(t) == COMMENT && GetRaw(t) == raw
    ensures IsSingleLine(t) && !IsMultiLine(t) && t.lineSep == Some(sep)
  {
    CommentToken(raw, Some(sep), None, None)
  }

  function MultiLineComment(raw: string, startSep: string, endSep: string): (t: Token)
    ensures t.CommentToken? && TypeOf(t) == COMMENT && GetRaw(t) == raw
    ensures IsMultiLine(t) && !IsSingleLine(t)
    ensures t.startSep == Some(startSep) && t.endSep == Some(endSep)
  {
    CommentToken(raw, None, Some(startSep), Some(endSep))
  }
}
