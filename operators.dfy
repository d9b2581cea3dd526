/**
 * The operator table of the expression language (OperatorToken.java): each constant carries
 * its raw symbol, an optional alias usable as a function name, a priority (a smaller number
 * binds tighter) and an associativity flag.
 */
module Operators {
  import opened Wrappers

  datatype OperatorToken =
    | ASSIGN | IDENTIFIER | OR | AND | BIT_OR | BIT_XOR | BIT_AND | BIT_NOT
    | EQ | NE | GT | GE | LT | LE | ADD | SUB | MUL | DOUBLE_MUL | DIV | REM
    | NOT | BRACKET | DOT | DOUBLE_DOT | DOUBLE_COLON

  /** The fields every constant is built with. */
  datatype Entry = Entry(raw: string, name: Option<string>, priority: int, lefty: bool)

  // The three constructor paths of the enum: only the first takes an explicit associativity,
  // the other two default `lefty` to true.
  function WithAssociativity(raw: string, priority: int, lefty: bool): Entry { Entry(raw, None, priority, lefty) }
  function Named(raw: string, name: string, priority: int): Entry { Entry(raw, Some(name), priority, true) }
  function Unnamed(raw: string, priority: int): Entry { Entry(raw, None, priority, true) }

  function EntryOf(op: OperatorToken): Entry {
    match op
    case ASSIGN => WithAssociativity("=", 15, false)
    case IDENTIFIER => Unnamed("?", 14)
    case OR => Named("||", "or", 13)
    case AND => Named("&&", "and", 12)
    case BIT_OR => Unnamed("|", 11)
    case BIT_XOR => Unnamed("^", 10)
    case BIT_AND => Unnamed("&", 9)
    case BIT_NOT => Unnamed("~", 8)
    case EQ => Named("==", "eq", 7)
    case NE => Named("!=", "ne", 7)
    case GT => Named(">", "gt", 6)
    case GE => Named(">=", "ge", 6)
    case LT => Named("<", "lt", 6)
    case LE => Named("<=", "le", 6)
    case ADD => Unnamed("+", 4)
    case SUB => Unnamed("-", 4)
    case MUL => Unnamed("*", 3)
    case DOUBLE_MUL => Unnamed("**", 3)
    case DIV => Unnamed("/", 3)
    case REM => Unnamed("%", 3)
    case NOT => Named("!", "not", 2)
    case BRACKET => Unnamed("[]", 1)
    case DOT => Unnamed(".", 1)
    case DOUBLE_DOT => Unnamed("..", 1)
    case DOUBLE_COLON => Unnamed("::", 1)
  }

  function Raw(op: OperatorToken): string { EntryOf(op).raw }
  function Priority(op: OperatorToken): int { EntryOf(op).priority }
  function Lefty(op: OperatorToken): bool { EntryOf(op).lefty }

  /** Only ASSIGN is built with an explicit `false`; every other path defaults to left-associative. */
  lemma OnlyAssignIsRightAssociative(op: OperatorToken)
    ensures !Lefty(op) <==> op == ASSIGN
  {
  }

  /**
   * `a.comparePriority(b)`: true when `b` has a larger priority number, or on a tie when `a` is
   * left-associative, which every operator but the assignment is.
   */
  function ComparePriority(a: OperatorToken, b: OperatorToken): (r: bool)
    ensures r <==> Priority(a) < Priority(b) || (Priority(a) == Priority(b) && a != ASSIGN)
  {
    var cmp := Priority(b) - Priority(a);
    if cmp != 0 then cmp > 0 else Lefty(a)
  }

  /** Between operators of different priority exactly one side wins. */
  lemma ComparePriorityAntisymmetric(a: OperatorToken, b: OperatorToken)
    requires Priority(a) != Priority(b)
    ensures ComparePriority(a, b) == !ComparePriority(b, a)
  {
  }

  /** The operators whose right operand may be left unevaluated: the spellings `&&` and `||`. */
  function IsShortCircuit(op: OperatorToken): (r: bool)
    ensures r <==> Raw(op) == "&&" || Raw(op) == "||"
  {
    op == AND || op == OR
  }

  /** The member-access operator: the spelling `.`, not `..`. */
  function IsDot(op: OperatorToken): (r: bool)
    ensures r <==> Raw(op) == "."
  {
    op == DOT
  }

  /** The constants `search` can return: all but IDENTIFIER, BRACKET and DOUBLE_COLON. */
  predicate Searchable(op: OperatorToken) {
    op != IDENTIFIER && op != BRACKET && op != DOUBLE_COLON
  }

  /** `s` occurs in `text` at `offset`. */
  predicate MatchesAt(s: string, text: string, offset: nat) {
    offset + |s| <= |text| && text[offset..offset + |s|] == s
  }

  /**
   * `OperatorToken.search`: a dispatch on the first character, then a one-character lookahead
   * that prefers the two-character operator. Returns the operator and the exclusive end offset.
   */
  function Search(text: string, offset: nat): (r: Option<(OperatorToken, nat)>)
    requires offset < |text|
    ensures r.Some? ==> var (op, end) := r.value;
      && (end == offset + 1 || end == offset + 2)
      && end <= |text|
      && text[offset..end] == Raw(op)
      && Searchable(op)
  {
    var next := if offset < |text| - 1 then Some(text[offset + 1]) else None;
    match Dispatch(text[offset], next)
    case None => None
    case Some((op, width)) =>
      assert text[offset..offset + width] == Raw(op);
      Some((op, offset + width))
  }

  /**
   * The dispatch of `search` on the character `c` and the one after it, if any: the operator
   * found and how many characters it spans.
   */
  function Dispatch(c: char, next: Option<char>): (r: Option<(OperatorToken, nat)>)
    ensures r.Some? ==> Searchable(r.value.0)
    ensures r.Some? ==> |Raw(r.value.0)| == r.value.1 && Raw(r.value.0)[0] == c
    ensures r.Some? && r.value.1 == 2 ==> next.Some? && Raw(r.value.0)[1] == next.value
    ensures r.Some? ==> r.value.1 == 1 || r.value.1 == 2
  {
    match SingleOnly(c)
    case Some(op) => Some((op, 1))
    case None => WithLookahead(c, next)
  }

  /** The characters that are an operator on their own whatever follows. */
  function SingleOnly(c: char): (r: Option<OperatorToken>)
    ensures r.Some? ==> Searchable(r.value) && Raw(r.value) == [c]
  {
    if c == '+' then Some(ADD)
    else if c == '-' then Some(SUB)
    else if c == '/' then Some(DIV)
    else if c == '%' then Some(REM)
    else if c == '^' then Some(BIT_XOR)
    else if c == '~' then Some(BIT_NOT)
    else None
  }

  /** The characters whose operator may extend over the next character. */
  function WithLookahead(c: char, next: Option<char>): (r: Option<(OperatorToken, nat)>)
    ensures r.Some? ==> Searchable(r.value.0)
    ensures r.Some? ==> |Raw(r.value.0)| == r.value.1 && Raw(r.value.0)[0] == c
    ensures r.Some? && r.value.1 == 2 ==> next.Some? && Raw(r.value.0)[1] == next.value
    ensures r.Some? ==> r.value.1 == 1 || r.value.1 == 2
  {
    if c == '.' then (if next == Some('.') then Some((DOUBLE_DOT, 2)) else Some((DOT, 1)))
    else if c == '*' then (if next == Some('*') then Some((DOUBLE_MUL, 2)) else Some((MUL, 1)))
    else if c == '=' then (if next == Some('=') then Some((EQ, 2)) else Some((ASSIGN, 1)))
    else if c == '&' then (if next == Some('&') then Some((AND, 2)) else Some((BIT_AND, 1)))
    else if c == '|' then (if next == Some('|') then Some((OR, 2)) else Some((BIT_OR, 1)))
    else if c == '!' then (if next == Some('=') then Some((NE, 2)) else Some((NOT, 1)))
    else if c == '<' then (if next == Some('=') then Some((LE, 2)) else Some((LT, 1)))
    else if c == '>' then (if next == Some('=') then Some((GE, 2)) else Some((GT, 1)))
    else None
  }

  /**
   * Longest match against the table as written: `search` finds an operator exactly when some
   * searchable operator occurs at `offset`, and no searchable operator occurring there is longer
   * than the one it returns.
   */
  lemma SearchIsLongestMatch(text: string, offset: nat, op': OperatorToken)
    requires offset < |text|
    requires Searchable(op') && MatchesAt(Raw(op'), text, offset)
    ensures Search(text, offset).Some?
    ensures |Raw(op')| <= Search(text, offset).value.1 - offset
  {
    assert text[offset] == Raw(op')[0] by {
      assert text[offset..offset + |Raw(op')|][0] == text[offset];
    }
    var next := if offset < |text| - 1 then Some(text[offset + 1]) else None;
    if |Raw(op')| == 2 {
      assert text[offset + 1] == Raw(op')[1] by {
        assert text[offset..offset + 2][1] == text[offset + 1];
      }
    }
    DispatchIsLongestMatch(text[offset], next, op');
  }

  /** The dispatch finds an operator wherever a searchable one starts, and none longer than it. */
  lemma DispatchIsLongestMatch(c: char, next: Option<char>, op': OperatorToken)
    requires Searchable(op') && Raw(op')[0] == c
    requires |Raw(op')| == 2 ==> next == Some(Raw(op')[1])
    ensures Dispatch(c, next).Some?
    ensures |Raw(op')| <= Dispatch(c, next).value.1
  {
  }

  /** `search` returns null exactly when no searchable operator starts with the character at `offset`. */
  lemma SearchNoneIffNoOperator(text: string, offset: nat)
    requires offset < |text|
    ensures Search(text, offset).None? <==> text[offset] !in "+-*/%=&|!<>^~."
  {
  }

  /** The table as written has no arrow: `->` scans as SUB followed by GT. */
  lemma NoArrowOperator()
    ensures Search("a->b", 1) == Some((SUB, 2))
    ensures Search("a->b", 2) == Some((GT, 3))
  {
  }

  /** The table as written has no triple dot: `...` scans as DOUBLE_DOT followed by DOT. */
  lemma NoTripleDotOperator()
    ensures Search("...", 0) == Some((DOUBLE_DOT, 2))
    ensures Search("...", 2) == Some((DOT, 3))
  {
  }
}
