/**
 * The rule machine both lexers run at each position of the expression: skip blanks, then try
 * single-line comments, block comments, identifiers, numbers, string literals, punctuation and
 * operators in that order. Helpers the lexer calls but does not define (identifier, number and
 * literal searchers, unescaping, the library number parser) are parameters, together with the
 * span contracts the lexer relies on.
 */
module Scanner {
  import opened Wrappers
  import opened Numbers
  import opened Tokens
  import Operators
  import Punctuation

  /** The helpers of the surrounding library, as functions. */
  datatype Collaborators = Collaborators(
    isFirstVariableChar: char -> bool,
    isNumberChar: char -> bool,
    searchVar: (string, nat) -> string,
    searchNumber: (string, nat) -> Option<(nat, bool)>,
    searchLiteral: (string, nat) -> Option<string>,
    unescape: string -> string,
    parseMachine: (string, bool) -> NumberValue,
    isDoubleRange: string -> bool)
  {
    /** An identifier found at `i` is a non-empty piece of the text starting there. */
    predicate VarSpan(text: string, i: nat)
      requires i < |text|
    {
      var v := searchVar(text, i);
      0 < |v| <= |text| - i && text[i..i + |v|] == v
    }

    /** A number found at `i` ends after `i` and inside the text. */
    predicate NumberSpan(text: string, i: nat) {
      match searchNumber(text, i)
      case None => true
      case Some((end, _)) => i < end <= |text|
    }

    /** A literal found at `i` fits, with both quotes, inside the text. */
    predicate LiteralSpan(text: string, i: nat) {
      match searchLiteral(text, i)
      case None => true
      case Some(v) => i + |v| + 2 <= |text|
    }

    /** The contracts above, wherever the lexer calls the helpers on `text`. */
    predicate ValidOn(text: string) {
      && (forall i :: 0 <= i < |text| && isFirstVariableChar(text[i]) ==> VarSpan(text, i))
      && (forall i :: 0 <= i < |text| && isNumberChar(text[i]) ==> NumberSpan(text, i))
      && (forall i :: 0 <= i < |text| ==> LiteralSpan(text, i))
    }
  }

  /**
   * Where scanning resumes after a block comment: one past its end, which is what both lexers
   * do (the end marker's last character is followed by the loop's own increment), or at its end.
   */
  datatype BlockResume = PastEnd | AtEnd

  /**
   * The configuration the machine reads (LexConfig's fields), and where it resumes after a block
   * comment.
   */
  datatype Rules = Rules(
    singleComments: seq<string>,
    multipleComments: seq<(string, string)>,
    keywords: map<string, Token>,
    identifierValues: map<string, Token>,
    strategy: BigNumberStrategy,
    blockResume: BlockResume)
  {
    /** Comment markers are read from their first character on, so none may be empty. */
    predicate WellFormed() {
      && (forall k :: 0 <= k < |singleComments| ==> singleComments[k] != [])
      && (forall k :: 0 <= k < |multipleComments| ==> multipleComments[k].0 != [] && multipleComments[k].1 != [])
    }
  }

  /** The lexer's interning caches, keyed by source text. */
  datatype Caches = Caches(identifiers: map<string, Token>, numbers: map<string, Token>)

  datatype ScanError =
    | InvalidToken(offset: nat)       // reported at this offset
    | BadNumber(literal: string)      // the number constructor rejected the literal

  /** One step of the machine. */
  datatype Step =
    | Emit(token: Token, start: nat, end: nat, resume: nat, caches: Caches)
    | Fail(error: ScanError)
    | End(caches: Caches)

  predicate IsBlank(c: char) { c <= ' ' }

  predicate IsQuote(c: char) { c == '\'' || c == '"' || c == '`' }

  /**
   * A comment marker opens at `i` when the text continues with it and at least one more
   * character follows (the bound is strict).
   */
  predicate Opens(marker: string, text: string, i: nat) {
    i + |marker| < |text| && text[i..i + |marker|] == marker
  }

  /** The index of the first marker of the list that opens at `i`. */
  function FirstOpening(markers: seq<string>, text: string, i: nat): (r: Option<nat>)
    ensures r.Some? ==> r.value < |markers| && Opens(markers[r.value], text, i)
    ensures r.Some? ==> forall k :: 0 <= k < r.value ==> !Opens(markers[k], text, i)
    ensures r.None? ==> forall k :: 0 <= k < |markers| ==> !Opens(markers[k], text, i)
  {
    if markers == [] then None
    else if Opens(markers[0], text, i) then Some(0)
    else match FirstOpening(markers[1..], text, i)
      case None => None
      case Some(k) => Some(k + 1)
  }

  /** The opening markers of the block-comment pairs. */
  function Openers(pairs: seq<(string, string)>): (r: seq<string>)
    ensures |r| == |pairs| && forall k :: 0 <= k < |pairs| ==> r[k] == pairs[k].0
  {
    seq(|pairs|, k requires 0 <= k < |pairs| => pairs[k].0)
  }

  /** The first newline at or after `j`, or the end of the text. */
  function LineEnd(text: string, j: nat): (r: nat)
    requires j <= |text|
    ensures j <= r <= |text| && (r < |text| ==> text[r] == '\n')
    ensures forall k :: j <= k < r ==> text[k] != '\n'
    decreases |text| - j
  {
    if j == |text| || text[j] == '\n' then j else LineEnd(text, j + 1)
  }

  predicate ClosesAt(text: string, k: nat, closer: string) {
    k + |closer| <= |text| && text[k..k + |closer|] == closer
  }

  /** The first position at or after `j` where `closer` occurs. */
  function FindCloser(text: string, j: nat, closer: string): (r: Option<nat>)
    ensures r.Some? ==> j <= r.value && ClosesAt(text, r.value, closer)
    ensures r.Some? ==> forall k :: j <= k < r.value ==> !ClosesAt(text, k, closer)
    ensures r.None? ==> forall k :: j <= k ==> !ClosesAt(text, k, closer)
    decreases |text| - j
  {
    if j + |closer| > |text| then None
    else if ClosesAt(text, j, closer) then Some(j)
    else FindCloser(text, j + 1, closer)
  }

  /** The position scanning resumes at after a block comment that ends at `end`. */
  function BlockCommentResume(rule: BlockResume, end: nat): nat {
    match rule
    case PastEnd => end + 1
    case AtEnd => end
  }

  /**
   * The block-comment rule is the one that applies at `i`: no line-comment marker opens there
   * and a block-comment opener does.
   */
  predicate BlockCommentRuleAt(rules: Rules, text: string, i: nat) {
    FirstOpening(rules.singleComments, text, i).None? && FirstOpening(Openers(rules.multipleComments), text, i).Some?
  }

  /** The identifier rule: keywords first, then identifier values, then the interning cache. */
  function IdentifierStep(rules: Rules, caches: Caches, v: string, i: nat): (s: Step)
    requires |v| > 0
    ensures s.Emit? && s.start == i && s.end == s.resume == i + |v|
    ensures v !in rules.keywords && v !in rules.identifierValues ==>
              s.token == if v in caches.identifiers then caches.identifiers[v] else IdentifierToken(v)
    ensures s.caches.numbers == caches.numbers
    ensures s.caches.identifiers.Keys == caches.identifiers.Keys + (if v in rules.keywords || v in rules.identifierValues then {} else {v})
    ensures CachesExtend(caches, s.caches) && (Interned(caches) ==> Interned(s.caches))
  {
    if v in rules.keywords then Emit(rules.keywords[v], i, i + |v|, i + |v|, caches)
    else if v in rules.identifierValues then Emit(rules.identifierValues[v], i, i + |v|, i + |v|, caches)
    else if v in caches.identifiers then Emit(caches.identifiers[v], i, i + |v|, i + |v|, caches)
    else
      var t := IdentifierToken(v);
      Emit(t, i, i + |v|, i + |v|, caches.(identifiers := caches.identifiers[v := t]))
  }

  /**
   * The number rule: the literal is parsed first (a failure is raised even when the literal is
   * cached), then the cached token for that literal, if any, is reused.
   */
  function NumberStep(rules: Rules, co: Collaborators, caches: Caches, literal: string, floating: bool, i: nat): (s: Step)
    requires |literal| > 0
    ensures s.Emit? || s.Fail?
    ensures s.Emit? ==> s.start == i && s.end == s.resume == i + |literal|
    ensures s.Emit? && literal in caches.numbers ==> s.token == caches.numbers[literal] && s.caches == caches
    ensures s.Emit? ==> s.caches.identifiers == caches.identifiers && literal in s.caches.numbers
    ensures s.Fail? ==> s.error == BadNumber(literal)
    ensures s.Emit? ==> CachesExtend(caches, s.caches) && (Interned(caches) ==> Interned(s.caches))
  {
    match ParseNumber(rules.strategy, literal, floating, co.parseMachine, co.isDoubleRange)
    case Failure(_) => Fail(BadNumber(literal))
    case Success(num) =>
      if literal in caches.numbers then Emit(caches.numbers[literal], i, i + |literal|, i + |literal|, caches)
      else
        var t := NumberToken(num, literal);
        Emit(t, i, i + |literal|, i + |literal|, caches.(numbers := caches.numbers[literal := t]))
  }

  /** The string rule: the quote character picks the factory. */
  function QuotedLiteral(quote: char, v: string, unescape: string -> string): (t: Token)
    requires IsQuote(quote)
    ensures t.StringToken? && t.sep == [quote] && t.value == unescape(v) && |t.raw| == |v| + 2
  {
    if quote == '\'' then OfSingle(v, unescape)
    else if quote == '"' then OfDouble(v, unescape)
    else OfBacktick(v, unescape)
  }

  /** The single-line comment rule: the first marker that opens here runs to the end of the line. */
  function SingleCommentStep(rules: Rules, caches: Caches, text: string, i: nat): (r: Option<Step>)
    requires rules.WellFormed() && i < |text|
    ensures r.Some? <==> FirstOpening(rules.singleComments, text, i).Some?
    ensures r.Some? ==> r.value.Emit? && r.value.start == i < r.value.end <= |text| && r.value.resume == r.value.end + 1
    ensures r.Some? ==> r.value.caches == caches && (r.value.end < |text| ==> text[r.value.end] == '\n')
  {
    match FirstOpening(rules.singleComments, text, i)
    case None => None
    case Some(k) =>
      var marker := rules.singleComments[k];
      var j := LineEnd(text, i + |marker|);
      Some(Emit(SingleLineComment(text[i..j], marker), i, j, j + 1, caches))
  }

  /**
   * The block comment rule: the first pair whose opener is here; its closer must follow, or the
   * comment is an invalid token at its start.
   */
  function BlockCommentStep(rules: Rules, caches: Caches, text: string, i: nat): (r: Option<Step>)
    requires rules.WellFormed() && i < |text|
    ensures r.Some? ==> r.value.Emit? || r.value == Fail(InvalidToken(i))
    ensures r.Some? <==> FirstOpening(Openers(rules.multipleComments), text, i).Some?
    ensures r.Some? && r.value.Emit? ==> r.value.start == i < r.value.end <= |text| && r.value.caches == caches
    ensures r.Some? && r.value.Emit? ==>
              r.value.resume == if rules.blockResume == PastEnd then r.value.end + 1 else r.value.end
  {
    match FirstOpening(Openers(rules.multipleComments), text, i)
    case None => None
    case Some(k) =>
      var (opener, closer) := rules.multipleComments[k];
      match FindCloser(text, i + |opener|, closer)
      case None => Some(Fail(InvalidToken(i)))
      case Some(j) =>
        var end := j + |closer|;
        Some(Emit(MultiLineComment(text[i..end], opener, closer), i, end, BlockCommentResume(rules.blockResume, end), caches))
  }

  /** The remaining rules: identifier, number, string literal, punctuation, operator, else an error. */
  function TokenStep(rules: Rules, co: Collaborators, caches: Caches, text: string, i: nat): (s: Step)
    requires co.ValidOn(text) && i < |text|
    ensures s.Emit? || s.Fail?
    ensures s.Emit? ==> s.start == i < s.end == s.resume <= |text|
    ensures s.Fail? && s.error.InvalidToken? ==> s.error.offset < |text|
    ensures s.Emit? ==> CachesExtend(caches, s.caches) && (Interned(caches) ==> Interned(s.caches))
  {
    var c := text[i];
    if co.isFirstVariableChar(c) then
      assert co.VarSpan(text, i);
      IdentifierStep(rules, caches, co.searchVar(text, i), i)
    else if co.isNumberChar(c) then
      assert co.NumberSpan(text, i);
      match co.searchNumber(text, i)
      case None => Fail(InvalidToken(|text| - 1))
      case Some((end, floating)) => NumberStep(rules, co, caches, text[i..end], floating, i)
    else if IsQuote(c) then
      assert co.LiteralSpan(text, i);
      match co.searchLiteral(text, i)
      case None => Fail(InvalidToken(|text| - 1))
      case Some(v) => Emit(QuotedLiteral(c, v, co.unescape), i, i + |v| + 2, i + |v| + 2, caches)
    else
      match Punctuation.Search(c)
      case Some(p) => Emit(PunctuationTok(p), i, i + 1, i + 1, caches)
      case None =>
        match Operators.Search(text, i)
        case Some((op, end)) => Emit(OperatorTok(op), i, end, end, caches)
        case None => Fail(InvalidToken(i))
  }

  /** The rules tried, in order, at the non-blank character `text[i]`. */
  function MatchAt(rules: Rules, co: Collaborators, caches: Caches, text: string, i: nat): (s: Step)
    requires rules.WellFormed() && co.ValidOn(text)
    requires i < |text| && !IsBlank(text[i])
    ensures s.Emit? || s.Fail?
    ensures s.Emit? ==> s.start == i < s.end <= s.resume <= |text| + 1 && s.end <= |text|
    ensures s.Emit? && (rules.blockResume == AtEnd || !BlockCommentRuleAt(rules, text, i)) ==>
              forall k :: s.end <= k < s.resume && k < |text| ==> IsBlank(text[k])
    ensures s.Emit? && BlockCommentRuleAt(rules, text, i) ==> s.resume == BlockCommentResume(rules.blockResume, s.end)
    ensures s.Fail? && s.error.InvalidToken? ==> s.error.offset < |text|
    ensures s.Emit? ==> CachesExtend(caches, s.caches) && (Interned(caches) ==> Interned(s.caches))
  {
    match SingleCommentStep(rules, caches, text, i)
    case Some(s) => s
    case None =>
      match BlockCommentStep(rules, caches, text, i)
      case Some(s) => s
      case None => TokenStep(rules, co, caches, text, i)
  }

  /** From `i` on: skip blanks, then match one token, or report the end of the text. */
  function NextToken(rules: Rules, co: Collaborators, caches: Caches, text: string, i: nat): (s: Step)
    requires rules.WellFormed() && co.ValidOn(text)
    ensures s.Emit? ==> i <= s.start < s.end <= s.resume <= |text| + 1 && s.end <= |text|
    ensures s.Emit? ==> !IsBlank(text[s.start]) && forall k :: i <= k < s.start ==> IsBlank(text[k])
    ensures s.Emit? && (rules.blockResume == AtEnd || !BlockCommentRuleAt(rules, text, s.start)) ==>
              forall k :: s.end <= k < s.resume && k < |text| ==> IsBlank(text[k])
    ensures s.Emit? && BlockCommentRuleAt(rules, text, s.start) ==> s.resume == BlockCommentResume(rules.blockResume, s.end)
    ensures s.End? ==> s.caches == caches && forall k :: i <= k < |text| ==> IsBlank(text[k])
    ensures s.Fail? && s.error.InvalidToken? ==> s.error.offset < |text|
    ensures !s.Fail? ==> CachesExtend(caches, s.caches) && (Interned(caches) ==> Interned(s.caches))
    decreases |text| - i
  {
    if i >= |text| then End(caches)
    else if IsBlank(text[i]) then NextToken(rules, co, caches, text, i + 1)
    else MatchAt(rules, co, caches, text, i)
  }

  /** A token with its span. */
  datatype Span = Span(token: Token, start: nat, end: nat)

  /** The outcome of lexing to the end: the spans found, the caches after, and the error if one stopped the scan. */
  datatype Scanned = Scanned(spans: seq<Span>, caches: Caches, error: Option<ScanError>)

  /**
   * Turns of the scanning loop from `i` until the end of the text or the first error: blanks
   * are skipped, any other character starts a match.
   */
  function ScanAll(rules: Rules, co: Collaborators, caches: Caches, text: string, i: nat): (r: Scanned)
    requires rules.WellFormed() && co.ValidOn(text)
    ensures r.error.Some? && r.error.value.InvalidToken? ==> r.error.value.offset < |text|
    decreases |text| + 1 - i, 1
  {
    if i >= |text| then Scanned([], caches, None)
    else if IsBlank(text[i]) then ScanAll(rules, co, caches, text, i + 1)
    else ScanMatched(rules, co, caches, text, i)
  }

  /** The scan from the non-blank character `text[i]`: the match there, then the rest. */
  function ScanMatched(rules: Rules, co: Collaborators, caches: Caches, text: string, i: nat): (r: Scanned)
    requires rules.WellFormed() && co.ValidOn(text) && i < |text| && !IsBlank(text[i])
    ensures r.error.Some? && r.error.value.InvalidToken? ==> r.error.value.offset < |text|
    decreases |text| + 1 - i, 0
  {
    match MatchAt(rules, co, caches, text, i)
    case Fail(e) => Scanned([], caches, Some(e))
    case Emit(t, start, end, resume, c) =>
      var rest := ScanAll(rules, co, c, text, resume);
      rest.(spans := [Span(t, start, end)] + rest.spans)
  }

  /** The scan seen one token at a time: it continues from wherever `NextToken` leaves off. */
  lemma {:induction false} ScanFollowsNextToken(rules: Rules, co: Collaborators, caches: Caches, text: string, i: nat)
    requires rules.WellFormed() && co.ValidOn(text)
    ensures ScanAll(rules, co, caches, text, i) ==
              match NextToken(rules, co, caches, text, i)
              case End(c) => Scanned([], c, None)
              case Fail(e) => Scanned([], caches, Some(e))
              case Emit(t, start, end, resume, c) => Join([Span(t, start, end)], ScanAll(rules, co, c, text, resume))
    decreases |text| - i
  {
    if i < |text| {
      if IsBlank(text[i]) {
        ScanFollowsNextToken(rules, co, caches, text, i + 1);
      } else {
        assert ScanAll(rules, co, caches, text, i) == ScanMatched(rules, co, caches, text, i);
      }
    }
  }

  /** A run of blanks before `i` is skipped: the next token from `from` is the next token from `i`. */
  lemma {:induction false} NextTokenAfterBlanks(rules: Rules, co: Collaborators, caches: Caches, text: string, from: nat, i: nat)
    requires rules.WellFormed() && co.ValidOn(text)
    requires from <= i && (i <= |text| || i == from)
    requires forall k :: from <= k < i ==> IsBlank(text[k])
    ensures NextToken(rules, co, caches, text, from) == NextToken(rules, co, caches, text, i)
    ensures i < |text| && !IsBlank(text[i]) ==> NextToken(rules, co, caches, text, from) == MatchAt(rules, co, caches, text, i)
    ensures i >= |text| ==> NextToken(rules, co, caches, text, from) == End(caches)
    decreases i - from
  {
    if from < i {
      NextTokenAfterBlanks(rules, co, caches, text, from + 1, i);
    }
  }

  /**
   * Reading one token at a time follows the whole scan: from a scan in progress at `i`, the
   * next token extends the spans found, and the end or an error is where the scan stops.
   */
  lemma ScanContinues(rules: Rules, co: Collaborators, text: string, whole: Scanned, spans: seq<Span>, caches: Caches, i: nat)
    requires rules.WellFormed() && co.ValidOn(text)
    requires ScannedSoFar(rules, co, text, whole, spans, caches, i)
    ensures var s := NextToken(rules, co, caches, text, i);
            && (s.Emit? ==> ScannedSoFar(rules, co, text, whole, spans + [Span(s.token, s.start, s.end)], s.caches, s.resume))
            && (s.End? ==> whole == Scanned(spans, s.caches, None))
            && (s.Fail? ==> whole == Scanned(spans, caches, Some(s.error)))
  {
    ScanFollowsNextToken(rules, co, caches, text, i);
    var s := NextToken(rules, co, caches, text, i);
    if s.Emit? {
      var rest := ScanAll(rules, co, s.caches, text, s.resume);
      assert spans + ([Span(s.token, s.start, s.end)] + rest.spans) == (spans + [Span(s.token, s.start, s.end)]) + rest.spans;
    } else {
      assert spans + [] == spans;
    }
  }

  /** The scan from `i`, with `prefix` found before it. */
  function Join(prefix: seq<Span>, rest: Scanned): Scanned {
    rest.(spans := prefix + rest.spans)
  }

  /** `whole` is `spans` followed by the scan from `i` with `caches`: the state of a scan in progress. */
  ghost predicate ScannedSoFar(rules: Rules, co: Collaborators, text: string, whole: Scanned, spans: seq<Span>, caches: Caches, i: nat)
    requires rules.WellFormed() && co.ValidOn(text)
  {
    whole == Join(spans, ScanAll(rules, co, caches, text, i))
  }

  // One turn of the scanning loop, seen from the whole scan: the end of the text, a blank, an
  // error, or a token.

  lemma ScanAtEnd(rules: Rules, co: Collaborators, caches: Caches, text: string, i: nat)
    requires rules.WellFormed() && co.ValidOn(text) && i >= |text|
    ensures ScanAll(rules, co, caches, text, i) == Scanned([], caches, None)
  {
  }

  lemma ScanSkipsBlank(rules: Rules, co: Collaborators, caches: Caches, text: string, i: nat)
    requires rules.WellFormed() && co.ValidOn(text) && i < |text| && IsBlank(text[i])
    ensures ScanAll(rules, co, caches, text, i) == ScanAll(rules, co, caches, text, i + 1)
  {
  }

  /** A scan in progress that meets a blank is the same scan one character later. */
  lemma ScanPassesBlank(rules: Rules, co: Collaborators, text: string, whole: Scanned, spans: seq<Span>, caches: Caches, i: nat)
    requires rules.WellFormed() && co.ValidOn(text) && i < |text| && IsBlank(text[i])
    requires ScannedSoFar(rules, co, text, whole, spans, caches, i)
    ensures ScannedSoFar(rules, co, text, whole, spans, caches, i + 1)
  {
    ScanSkipsBlank(rules, co, caches, text, i);
  }

  /** A scan in progress that reaches the end of the text has found all its spans, and stays so one further on. */
  lemma ScanFinishes(rules: Rules, co: Collaborators, text: string, whole: Scanned, spans: seq<Span>, caches: Caches, i: nat)
    requires rules.WellFormed() && co.ValidOn(text) && i >= |text|
    requires ScannedSoFar(rules, co, text, whole, spans, caches, i)
    ensures whole == Scanned(spans, caches, None)
    ensures ScannedSoFar(rules, co, text, whole, spans, caches, i + 1)
  {
    ScanAtEnd(rules, co, caches, text, i);
    ScanAtEnd(rules, co, caches, text, i + 1);
    assert spans + [] == spans;
  }

  lemma ScanStopsAtError(rules: Rules, co: Collaborators, caches: Caches, text: string, i: nat, s: Step)
    requires rules.WellFormed() && co.ValidOn(text) && i < |text| && !IsBlank(text[i])
    requires s == MatchAt(rules, co, caches, text, i) && s.Fail?
    ensures ScanAll(rules, co, caches, text, i) == Scanned([], caches, Some(s.error))
  {
    assert ScanAll(rules, co, caches, text, i) == ScanMatched(rules, co, caches, text, i);
  }

  lemma ScanTakesToken(rules: Rules, co: Collaborators, caches: Caches, text: string, i: nat, s: Step, prefix: seq<Span>)
    requires rules.WellFormed() && co.ValidOn(text) && i < |text| && !IsBlank(text[i])
    requires s == MatchAt(rules, co, caches, text, i) && s.Emit?
    ensures Join(prefix, ScanAll(rules, co, caches, text, i))
              == Join(prefix + [Span(s.token, s.start, s.end)], ScanAll(rules, co, s.caches, text, s.resume))
  {
    assert ScanAll(rules, co, caches, text, i) == ScanMatched(rules, co, caches, text, i);
    var rest := ScanAll(rules, co, s.caches, text, s.resume);
    assert prefix + ([Span(s.token, s.start, s.end)] + rest.spans) == (prefix + [Span(s.token, s.start, s.end)]) + rest.spans;
  }

  /** A scan in progress after the match at the non-blank `text[i]`: stopped by its error, or one span further on. */
  lemma ScanAdvances(rules: Rules, co: Collaborators, text: string, whole: Scanned, spans: seq<Span>, caches: Caches, i: nat, s: Step)
    requires rules.WellFormed() && co.ValidOn(text) && i < |text| && !IsBlank(text[i])
    requires ScannedSoFar(rules, co, text, whole, spans, caches, i)
    requires s == MatchAt(rules, co, caches, text, i)
    ensures s.Fail? ==> whole == Scanned(spans, caches, Some(s.error))
    ensures s.Emit? ==> ScannedSoFar(rules, co, text, whole, spans + [Span(s.token, s.start, s.end)], s.caches, s.resume)
  {
    if s.Fail? {
      ScanStopsAtError(rules, co, caches, text, i, s);
      assert spans + [] == spans;
    } else {
      ScanTakesToken(rules, co, caches, text, i, s, spans);
    }
  }

  /** Spans lie in the text, are non-empty, start at non-blank characters and follow each other. */
  predicate Ordered(spans: seq<Span>, text: string, from: nat) {
    && (forall m :: 0 <= m < |spans| ==> from <= spans[m].start < spans[m].end <= |text|)
    && (forall m :: 0 <= m < |spans| ==> !IsBlank(text[spans[m].start]))
    && (forall m :: 0 < m < |spans| ==> spans[m - 1].end <= spans[m].start)
  }

  /** The scan yields ordered spans. */
  lemma {:induction false} ScanOrdered(rules: Rules, co: Collaborators, caches: Caches, text: string, i: nat)
    requires rules.WellFormed() && co.ValidOn(text)
    ensures Ordered(ScanAll(rules, co, caches, text, i).spans, text, i)
    decreases |text| + 1 - i
  {
    ScanFollowsNextToken(rules, co, caches, text, i);
    var s := NextToken(rules, co, caches, text, i);
    if s.Emit? {
      ScanOrdered(rules, co, s.caches, text, s.resume);
      OrderedCons(Span(s.token, s.start, s.end), ScanAll(rules, co, s.caches, text, s.resume).spans, text, i, s.resume);
    }
  }

  lemma OrderedCons(first: Span, rest: seq<Span>, text: string, from: nat, next: nat)
    requires from <= first.start < first.end <= next && first.end <= |text| && !IsBlank(text[first.start])
    requires Ordered(rest, text, next)
    ensures Ordered([first] + rest, text, from)
  {
    var all := [first] + rest;
    assert forall m :: 0 < m < |all| ==> all[m] == rest[m - 1];
  }

  /** Some span covers offset `k`. */
  predicate Covered(spans: seq<Span>, k: nat) {
    exists m :: 0 <= m < |spans| && spans[m].start <= k < spans[m].end
  }

  /** Under `PastEnd`, `k` is the character right after one of the block comments in `spans`. */
  predicate HiddenAfterComment(rules: Rules, text: string, spans: seq<Span>, k: nat) {
    && rules.blockResume == PastEnd
    && exists m :: 0 <= m < |spans| && spans[m].end == k && BlockCommentRuleAt(rules, text, spans[m].start)
  }

  /**
   * What the scan covers: when it reaches the end without error, every non-blank character lies
   * inside some token's span, except, under `PastEnd` only, a character right after a block
   * comment. Under `AtEnd` nothing is lost.
   */
  lemma {:induction false} ScanCoversNonBlank(rules: Rules, co: Collaborators, caches: Caches, text: string, i: nat)
    requires rules.WellFormed() && co.ValidOn(text)
    requires ScanAll(rules, co, caches, text, i).error.None?
    ensures var spans := ScanAll(rules, co, caches, text, i).spans;
            forall k :: i <= k < |text| && !IsBlank(text[k]) ==>
              Covered(spans, k) || HiddenAfterComment(rules, text, spans, k)
    decreases |text| + 1 - i
  {
    ScanFollowsNextToken(rules, co, caches, text, i);
    var s := NextToken(rules, co, caches, text, i);
    if s.Emit? {
      var first := Span(s.token, s.start, s.end);
      var rest := ScanAll(rules, co, s.caches, text, s.resume).spans;
      ScanCoversNonBlank(rules, co, s.caches, text, s.resume);
      forall k | i <= k < |text| && !IsBlank(text[k])
        ensures Covered([first] + rest, k) || HiddenAfterComment(rules, text, [first] + rest, k)
      {
        if k < s.resume {
          if s.end <= k {
            assert ([first] + rest)[0] == first;
          } else {
            CoveredExtend(first, rest, k);
          }
        } else if Covered(rest, k) {
          CoveredExtend(first, rest, k);
        } else {
          var m :| 0 <= m < |rest| && rest[m].end == k && BlockCommentRuleAt(rules, text, rest[m].start);
          assert ([first] + rest)[m + 1] == rest[m];
        }
      }
    }
  }

  /** With the corrected resume, every non-blank character of an error-free scan is covered. */
  lemma CorrectedScanCoversNonBlank(rules: Rules, co: Collaborators, caches: Caches, text: string, i: nat)
    requires rules.WellFormed() && co.ValidOn(text) && rules.blockResume == AtEnd
    requires ScanAll(rules, co, caches, text, i).error.None?
    ensures forall k :: i <= k < |text| && !IsBlank(text[k]) ==> Covered(ScanAll(rules, co, caches, text, i).spans, k)
  {
    ScanCoversNonBlank(rules, co, caches, text, i);
  }

  lemma CoveredExtend(first: Span, rest: seq<Span>, k: nat)
    requires first.start <= k < first.end || Covered(rest, k)
    ensures Covered([first] + rest, k)
  {
    var all := [first] + rest;
    if first.start <= k < first.end {
      assert all[0] == first;
    } else {
      var m :| 0 <= m < |rest| && rest[m].start <= k < rest[m].end;
      assert all[m + 1] == rest[m];
    }
  }

  /**
   * What resuming one past a block comment loses: the character right after any block comment
   * that does not end the text lies in no token's span, whatever that character is.
   */
  lemma {:induction false} BlockCommentHidesNextCharacter(rules: Rules, co: Collaborators, caches: Caches, text: string, i: nat)
    requires rules.WellFormed() && co.ValidOn(text) && rules.blockResume == PastEnd
    ensures var spans := ScanAll(rules, co, caches, text, i).spans;
            forall m :: 0 <= m < |spans| && BlockCommentRuleAt(rules, text, spans[m].start) && spans[m].end < |text| ==>
              !Covered(spans, spans[m].end)
    decreases |text| + 1 - i
  {
    ScanFollowsNextToken(rules, co, caches, text, i);
    var s := NextToken(rules, co, caches, text, i);
    if s.Emit? {
      var first := Span(s.token, s.start, s.end);
      var rest := ScanAll(rules, co, s.caches, text, s.resume).spans;
      var spans := [first] + rest;
      BlockCommentHidesNextCharacter(rules, co, s.caches, text, s.resume);
      ScanOrdered(rules, co, s.caches, text, s.resume);
      forall m | 0 <= m < |spans| && BlockCommentRuleAt(rules, text, spans[m].start) && spans[m].end < |text|
        ensures !Covered(spans, spans[m].end)
      {
        var e := spans[m].end;
        if m == 0 {
          assert s.resume == e + 1;
          NotCoveredCons(first, rest, e);
        } else {
          assert spans[m] == rest[m - 1];
          NotCoveredCons(first, rest, e);
        }
      }
    }
  }

  lemma NotCoveredCons(first: Span, rest: seq<Span>, k: nat)
    requires !(first.start <= k < first.end) && !Covered(rest, k)
    ensures !Covered([first] + rest, k)
  {
    var all := [first] + rest;
    forall m | 0 <= m < |all|
      ensures !(all[m].start <= k < all[m].end)
    {
      if m > 0 {
        assert all[m] == rest[m - 1];
      }
    }
  }

  /** An expression of blanks only has no tokens. */
  lemma BlankTextHasNoTokens(rules: Rules, co: Collaborators, caches: Caches, text: string)
    requires rules.WellFormed() && co.ValidOn(text)
    requires forall k :: 0 <= k < |text| ==> IsBlank(text[k])
    ensures ScanAll(rules, co, caches, text, 0) == Scanned([], caches, None)
  {
    BlanksReachEnd(rules, co, caches, text, 0);
    ScanFollowsNextToken(rules, co, caches, text, 0);
  }

  lemma {:induction false} BlanksReachEnd(rules: Rules, co: Collaborators, caches: Caches, text: string, i: nat)
    requires rules.WellFormed() && co.ValidOn(text)
    requires forall k :: i <= k < |text| ==> IsBlank(text[k])
    ensures NextToken(rules, co, caches, text, i) == End(caches)
    decreases |text| - i
  {
    if i < |text| {
      BlanksReachEnd(rules, co, caches, text, i + 1);
    }
  }

  // ---- caches ----

  /** `m2` keeps every entry of `m1` unchanged. */
  predicate Extends<K, V(==)>(m1: map<K, V>, m2: map<K, V>) {
    forall key :: key in m1 ==> key in m2 && m2[key] == m1[key]
  }

  predicate CachesExtend(c1: Caches, c2: Caches) {
    Extends(c1.identifiers, c2.identifiers) && Extends(c1.numbers, c2.numbers)
  }

  /** Each cache entry is the token for its own text, as `computeIfAbsent` creates it. */
  predicate Interned(c: Caches) {
    && (forall v :: v in c.identifiers ==> c.identifiers[v] == IdentifierToken(v))
    && (forall v :: v in c.numbers ==> c.numbers[v].NumberToken? && c.numbers[v].raw == v)
  }

  /** Keywords are registered under their own spelling. */
  predicate KeywordsKeyed(rules: Rules) {
    forall v :: v in rules.keywords ==> rules.keywords[v] == IdentifierToken(v)
  }

  /** Interned tokens are stable over a whole scan. */
  lemma {:induction false} ScanExtendsCaches(rules: Rules, co: Collaborators, caches: Caches, text: string, i: nat)
    requires rules.WellFormed() && co.ValidOn(text)
    ensures CachesExtend(caches, ScanAll(rules, co, caches, text, i).caches)
    decreases |text| + 1 - i
  {
    ScanFollowsNextToken(rules, co, caches, text, i);
    var s := NextToken(rules, co, caches, text, i);
    if s.Emit? {
      ScanExtendsCaches(rules, co, s.caches, text, s.resume);
    }
  }

  /**
   * Identifier lookup order: a keyword wins over an identifier value, which wins over the cache.
   * Unless the spelling is an identifier value, the token is the identifier of that spelling, and
   * it is interned.
   */
  lemma IdentifierLookupOrder(rules: Rules, caches: Caches, v: string, i: nat)
    requires |v| > 0
    ensures v in rules.keywords ==> IdentifierStep(rules, caches, v, i).token == rules.keywords[v]
    ensures v !in rules.keywords && v in rules.identifierValues ==>
              IdentifierStep(rules, caches, v, i).token == rules.identifierValues[v]
    ensures KeywordsKeyed(rules) && Interned(caches) && (v in rules.keywords || v !in rules.identifierValues) ==>
              IdentifierStep(rules, caches, v, i).token == IdentifierToken(v)
    ensures v !in rules.keywords && v !in rules.identifierValues ==>
              v in IdentifierStep(rules, caches, v, i).caches.identifiers
  {
  }

  // ---- comments ----

  /** The rules of a configuration left at its defaults, run as the lexers run them. */
  const DefaultRules := Rules(["//"], [("/*", "*/")], map[], map[], NONE, PastEnd)

  // In the text  /*c*/x  the block comment ends at 5; resuming at 6 as the lexers do finds no
  // further token and `x` is lost, while resuming at the comment's end finds `x`.
  lemma BlockCommentSkipsFollowingCharacter(co: Collaborators, caches: Caches)
    requires co.ValidOn("/*c*/x") && co.isFirstVariableChar('x')
    ensures NextToken(DefaultRules, co, caches, "/*c*/x", 0) ==
              Emit(MultiLineComment("/*c*/", "/*", "*/"), 0, 5, 6, caches)
    ensures ScanAll(DefaultRules, co, caches, "/*c*/x", 0).spans == [Span(MultiLineComment("/*c*/", "/*", "*/"), 0, 5)]
    ensures NextToken(DefaultRules.(blockResume := AtEnd), co, caches, "/*c*/x", 0).resume == 5
    ensures NextToken(DefaultRules.(blockResume := AtEnd), co, caches, "/*c*/x", 5).Emit?
    ensures NextToken(DefaultRules.(blockResume := AtEnd), co, caches, "/*c*/x", 5).start == 5
  {
    var text := "/*c*/x";
    assert !Opens("//", text, 0) by { assert text[0..2] != "//" by { assert text[0..2][1] == '*'; } }
    assert Opens("/*", text, 0) by { assert text[0..2] == "/*"; }
    assert FirstOpening(["//"], text, 0) == None;
    assert Openers([("/*", "*/")]) == ["/*"];
    assert FirstOpening(["/*"], text, 0) == Some(0);
    assert !ClosesAt(text, 2, "*/") by { assert text[2] == 'c'; }
    assert ClosesAt(text, 3, "*/") by { assert text[3..5] == "*/"; }
    assert FindCloser(text, 2, "*/") == Some(3);
    assert text[0..5] == "/*c*/";
    assert !Opens("//", text, 5) && FirstOpening(["//"], text, 5) == None;
    assert FirstOpening(["/*"], text, 5) == None;
    ScanFollowsNextToken(DefaultRules, co, caches, text, 0);
  }

  /** A block comment without its end marker is an invalid token at its start. */
  lemma UnterminatedBlockComment(co: Collaborators, caches: Caches)
    requires co.ValidOn("/*x")
    ensures NextToken(DefaultRules, co, caches, "/*x", 0) == Fail(InvalidToken(0))
  {
    var text := "/*x";
    assert !Opens("//", text, 0) by { assert text[0..2][1] == '*'; }
    assert Opens("/*", text, 0) by { assert text[0..2] == "/*"; }
    assert Openers([("/*", "*/")]) == ["/*"];
    assert !ClosesAt(text, 2, "*/");
    assert FindCloser(text, 2, "*/") == None;
  }

  /**
   * A comment marker with nothing after it is not a comment: `//` at the very end lexes as two
   * division operators.
   */
  lemma TrailingMarkerIsNotAComment(co: Collaborators, caches: Caches)
    requires co.ValidOn("//") && !co.isFirstVariableChar('/') && !co.isNumberChar('/')
    ensures NextToken(DefaultRules, co, caches, "//", 0) ==
              Emit(OperatorTok(Operators.DIV), 0, 1, 1, caches)
    ensures NextToken(DefaultRules, co, caches, "//", 1) ==
              Emit(OperatorTok(Operators.DIV), 1, 2, 2, caches)
  {
    var text := "//";
    assert !Opens("//", text, 0) && !Opens("/*", text, 0);
    assert Openers([("/*", "*/")]) == ["/*"];
    assert Punctuation.Search('/') == None by { Punctuation.SearchExact('/'); }
    assert Operators.Search(text, 0) == Some((Operators.DIV, 1));
    assert Operators.Search(text, 1) == Some((Operators.DIV, 2));
  }

  /** A line comment runs to the newline (excluded) and scanning resumes after it. */
  lemma LineCommentStopsAtNewline(co: Collaborators, caches: Caches)
    requires co.ValidOn("//c\nx")
    ensures NextToken(DefaultRules, co, caches, "//c\nx", 0) ==
              Emit(SingleLineComment("//c", "//"), 0, 3, 4, caches)
  {
    var text := "//c\nx";
    assert Opens("//", text, 0) by { assert text[0..2] == "//"; }
    assert LineEnd(text, 2) == 3;
    assert text[0..3] == "//c";
  }
}
