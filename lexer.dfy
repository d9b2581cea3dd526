/**
 * Lexer: runs the rule machine over a whole expression into a SimpleTokenStream, interning
 * identifier and number tokens in caches that live as long as the lexer.
 */
module Lexers {
  import opened Wrappers
  import opened Numbers
  import opened Tokens
  import opened Positions
  import opened TokenInfos
  import opened Scanner
  import opened LexConfigs
  import opened SimpleStreams
  import Operators
  import Punctuation

  /** The exception raised for a scan error. */
  function LexErrorOf(text: string, e: ScanError): LexError
    requires e.InvalidToken? ==> e.offset < |text|
  {
    match e
    case InvalidToken(o) =>
      var p := Walk(text, 0, o + 1, Position(1, 1));
      LexCompileError(text, o, p.line, p.col)
    case BadNumber(literal) => NumberFormatError(literal)
  }

  class Lexer {
    const config: LexConfig
    /** The library helpers the lexer calls. */
    const co: Collaborators
    var identifierCache: map<string, Token>
    var numberCache: map<string, Token>

    function Caches(): Caches
      reads this
    {
      Scanner.Caches(identifierCache, numberCache)
    }

    constructor (config: LexConfig, co: Collaborators)
      ensures this.config == config && this.co == co
      ensures identifierCache == map[] && numberCache == map[] && Interned(Caches())
    {
      this.config := config;
      this.co := co;
      identifierCache := map[];
      numberCache := map[];
    }

    /** `clear`: empties both caches. */
    method Clear()
      modifies this
      ensures identifierCache == map[] && numberCache == map[] && Interned(Caches())
    {
      identifierCache := map[];
      numberCache := map[];
    }

    /** The single-line comment loop of `lex`: try each marker in order, then scan to the newline. */
    method MatchSingleComment(rules: Rules, text: string, i: nat) returns (r: Option<Step>)
      requires rules.WellFormed() && i < |text|
      ensures r == SingleCommentStep(rules, Caches(), text, i)
    {
      var c := text[i];
      var size := |text|;
      var k := 0;
      while k < |rules.singleComments|
        invariant 0 <= k <= |rules.singleComments|
        invariant forall m :: 0 <= m < k ==> !Opens(rules.singleComments[m], text, i)
      {
        var marker := rules.singleComments[k];
        var width := |marker|;
        if c == marker[0] && i < size - width && text[i..i + width] == marker {
          var j := FindLineEnd(text, i + width);
          assert FirstOpening(rules.singleComments, text, i) == Some(k);
          return Some(Emit(SingleLineComment(text[i..j], marker), i, j, j + 1, Caches()));
        }
        k := k + 1;
      }
      return None;
    }

    /** The scan of a line comment's body: forward from `j` to the first newline or the end. */
    static method FindLineEnd(text: string, j: nat) returns (r: nat)
      requires j <= |text|
      ensures r == LineEnd(text, j)
    {
      r := j;
      while r < |text| && text[r] != '\n'
        invariant j <= r <= |text|
        invariant LineEnd(text, r) == LineEnd(text, j)
      {
        r := r + 1;
      }
    }

    /**
     * The search for a block comment's end marker: its first character is compared before the
     * whole marker, from `j` to the last place the marker fits.
     */
    static method FindCloserAt(text: string, j: nat, closer: string) returns (r: Option<nat>)
      requires closer != []
      ensures r == FindCloser(text, j, closer)
    {
      var last := closer[0];
      var endWidth := |closer|;
      var lastEnd := |text| - endWidth;
      var k := j;
      while k <= lastEnd
        invariant j <= k
        invariant FindCloser(text, k, closer) == FindCloser(text, j, closer)
        decreases lastEnd - k
      {
        if text[k] == last && text[k..k + endWidth] == closer {
          assert ClosesAt(text, k, closer);
          return Some(k);
        }
        assert !ClosesAt(text, k, closer);
        k := k + 1;
      }
      return None;
    }

    /** The block comment loop of `lex`: the first opener found here, then the search for its closer. */
    method MatchBlockComment(rules: Rules, text: string, i: nat) returns (r: Option<Step>)
      requires rules.WellFormed() && rules.blockResume == PastEnd && i < |text|
      ensures r == BlockCommentStep(rules, Caches(), text, i)
    {
      var c := text[i];
      var size := |text|;
      ghost var openers := Openers(rules.multipleComments);
      var k := 0;
      while k < |rules.multipleComments|
        invariant 0 <= k <= |rules.multipleComments|
        invariant forall m :: 0 <= m < k ==> !Opens(openers[m], text, i)
      {
        var opener := rules.multipleComments[k].0;
        var startWidth := |opener|;
        if c == opener[0] && i < size - startWidth && text[i..i + startWidth] == opener {
          assert FirstOpening(openers, text, i) == Some(k);
          var s := BlockCommentFrom(rules, text, i, k);
          return Some(s);
        }
        k := k + 1;
      }
      return None;
    }

    /**
     * The block comment whose opener, the `k`-th, was found at `i`: it ends at its closer or is an
     * error. The scan index is left on the comment's end and the loop's increment follows, so
     * scanning resumes one past the end.
     */
    method BlockCommentFrom(rules: Rules, text: string, i: nat, k: nat) returns (s: Step)
      requires rules.WellFormed() && rules.blockResume == PastEnd && i < |text| && k < |rules.multipleComments|
      requires FirstOpening(Openers(rules.multipleComments), text, i) == Some(k)
      ensures Some(s) == BlockCommentStep(rules, Caches(), text, i)
    {
      var (opener, closer) := rules.multipleComments[k];
      var j := FindCloserAt(text, i + |opener|, closer);
      if j.Some? {
        var end := j.value + |closer|;
        return Emit(MultiLineComment(text[i..end], opener, closer), i, end, end + 1, Caches());
      }
      return Fail(InvalidToken(i));
    }

    /** The identifier, number, literal, punctuation and operator branches of `lex`. */
    method MatchToken(rules: Rules, text: string, i: nat) returns (s: Step)
      requires co.ValidOn(text) && i < |text|
      modifies this
      ensures s == TokenStep(rules, co, old(Caches()), text, i)
      ensures s.Emit? ==> Caches() == s.caches
      ensures s.Fail? ==> Caches() == old(Caches())
    {
      var c := text[i];
      var size := |text|;

      // identifier, keyword or identifier value
      if co.isFirstVariableChar(c) {
        var v := co.searchVar(text, i);
        assert co.VarSpan(text, i);
        var token: Token;
        if v in rules.keywords {
          token := rules.keywords[v];
        } else if v in rules.identifierValues {
          token := rules.identifierValues[v];
        } else {
          if v !in identifierCache {
            identifierCache := identifierCache[v := IdentifierToken(v)];
          }
          token := identifierCache[v];
        }
        return Emit(token, i, i + |v|, i + |v|, Caches());
      }

      // number
      if co.isNumberChar(c) {
        assert co.NumberSpan(text, i);
        var pair := co.searchNumber(text, i);
        if pair.None? {
          return Fail(InvalidToken(size - 1));
        }
        var (end, floating) := pair.value;
        var value := text[i..end];
        var num := ParseNumber(rules.strategy, value, floating, co.parseMachine, co.isDoubleRange);
        if num.Failure? {
          return Fail(BadNumber(value));
        }
        if value !in numberCache {
          numberCache := numberCache[value := NumberToken(num.value, value)];
        }
        return Emit(numberCache[value], i, end, end, Caches());
      }

      // string literal
      if c == '\'' || c == '"' || c == '`' {
        assert co.LiteralSpan(text, i);
        var value := co.searchLiteral(text, i);
        if value.None? {
          return Fail(InvalidToken(size - 1));
        }
        var token: Token;
        if c == '\'' {
          token := OfSingle(value.value, co.unescape);
        } else if c == '"' {
          token := OfDouble(value.value, co.unescape);
        } else {
          token := OfBacktick(value.value, co.unescape);
        }
        var end := i + |value.value| + 2;
        return Emit(token, i, end, end, Caches());
      }

      // punctuation
      var p := Punctuation.Search(c);
      if p.Some? {
        return Emit(PunctuationTok(p.value), i, i + 1, i + 1, Caches());
      }

      // operator
      var op := Operators.Search(text, i);
      if op.Some? {
        return Emit(OperatorTok(op.value.0), i, op.value.1, op.value.1, Caches());
      }

      return Fail(InvalidToken(i));
    }

    /**
     * The rules tried at the non-blank character `text[i]`, as the loop body of `lex` (and of
     * the lazy stream's `readNextToken`) runs them; a step that fails leaves the caches alone.
     */
    method Match(rules: Rules, text: string, i: nat) returns (s: Step)
      requires rules.WellFormed() && rules.blockResume == PastEnd && co.ValidOn(text)
      requires i < |text| && !IsBlank(text[i])
      modifies this
      ensures s == MatchAt(rules, co, old(Caches()), text, i)
      ensures s.Emit? ==> Caches() == s.caches
      ensures s.Fail? ==> Caches() == old(Caches())
    {
      var single := MatchSingleComment(rules, text, i);
      if single.Some? {
        return single.value;
      }
      var block := MatchBlockComment(rules, text, i);
      if block.Some? {
        return block.value;
      }
      s := MatchToken(rules, text, i);
    }

    /**
     * `throwInvalidToken`: the error at `offset`, located by walking from (1, 1) over the text up
     * to and including that offset.
     */
    method ThrowInvalidToken(expression: string, offset: nat) returns (e: LexError)
      requires offset < |expression|
      ensures e == LexErrorOf(expression, InvalidToken(offset))
      ensures e.line == 1 + Newlines(expression, 0, offset + 1)
    {
      var pos := ReportPosition(expression, offset);
      e := LexCompileError(expression, offset, pos.line, pos.col);
    }

    /** `stream.add(TokenInfo.of(token, start, end))` for a token that follows the last one. */
    static method AddToken(stream: SimpleTokenStream, t: Token, start: nat, end: nat)
      requires stream.Valid() && stream.PositionsExact() && stream.Ordered()
      requires start <= end <= |stream.expression|
      requires stream.size == 0 || stream.tokenInfos[stream.size - 1].end <= start
      modifies stream
      ensures stream.Valid() && stream.PositionsExact() && stream.Ordered()
      ensures stream.Spans() == old(stream.Spans()) + [Span(t, start, end)]
      ensures stream.offset == old(stream.offset) && stream.mark == old(stream.mark) && stream.Origin() == old(stream.Origin())
      ensures stream.size > 0 && stream.tokenInfos[stream.size - 1].end == end
      ensures fresh(stream.tokenInfos[stream.size - 1]) && stream.tokenInfos[stream.size - 1].token == t
    {
      ghost var spans := stream.Spans();
      var info := new TokenInfo(t, start, end);
      stream.Add(info);
      assert stream.Spans() == spans + [Span(t, start, end)];
    }

    /** The exception raised for a scan error. */
    method ThrowScanError(text: string, e: ScanError) returns (r: LexError)
      requires e.InvalidToken? ==> e.offset < |text|
      ensures r == LexErrorOf(text, e)
    {
      if e.InvalidToken? {
        r := ThrowInvalidToken(text, e.offset);
      } else {
        r := NumberFormatError(e.literal);
      }
    }

    /**
     * One token of `lex` at the non-blank character `text[i]`: match it and append it to the
     * stream, or produce the exception. Seen from the whole scan, the stream's spans grow by
     * exactly what the scan takes from `i` on.
     */
    method LexToken(stream: SimpleTokenStream, rules: Rules, text: string, i: nat, ghost whole: Scanned)
      returns (next: nat, error: Option<LexError>)
      requires rules.WellFormed() && rules.blockResume == PastEnd && co.ValidOn(text) && i < |text| && !IsBlank(text[i])
      requires stream.Valid() && stream.PositionsExact() && stream.Ordered() && stream.expression == text
      requires stream.size == 0 || stream.tokenInfos[stream.size - 1].end <= i
      requires ScannedSoFar(rules, co, text, whole, stream.Spans(), Caches(), i)
      modifies this, stream
      ensures stream.Valid() && stream.PositionsExact() && stream.Ordered()
      ensures stream.offset == old(stream.offset) && stream.mark == old(stream.mark) && stream.Origin() == old(stream.Origin())
      ensures error.None? ==> i < next <= |text| + 1 && stream.size > 0 && stream.tokenInfos[stream.size - 1].end <= next
      ensures error.None? ==> ScannedSoFar(rules, co, text, whole, stream.Spans(), Caches(), next)
      ensures error.Some? ==>
                && whole.spans == stream.Spans() && whole.caches == Caches() && whole.error.Some?
                && error.value == LexErrorOf(text, whole.error.value)
    {
      ghost var spans := stream.Spans();
      var s := Match(rules, text, i);
      ScanAdvances(rules, co, text, whole, spans, old(Caches()), i, s);
      if s.Fail? {
        var e := ThrowScanError(text, s.error);
        return i, Some(e);
      }
      AddToken(stream, s.token, s.start, s.end);
      return s.resume, None;
    }

    /**
     * The state of `lex`'s loop at `i`: the stream holds, in order and with exact positions, the
     * spans the scan `whole` has found before `i`, and the rest of `whole` is the scan from `i`.
     */
    ghost predicate Filling(stream: SimpleTokenStream, text: string, whole: Scanned, i: nat)
      reads this, config, stream, stream.tokenInfos
    {
      && config.Rules().WellFormed() && co.ValidOn(text) && stream.expression == text
      && stream.Valid() && stream.PositionsExact() && stream.Ordered()
      && (stream.size == 0 || stream.tokenInfos[stream.size - 1].end <= i)
      && ScannedSoFar(config.Rules(), co, text, whole, stream.Spans(), Caches(), i)
    }

    /**
     * The scanning loop of `lex` over the empty `stream`: each token found is appended to it,
     * and the first error stops the loop.
     */
    method LexInto(stream: SimpleTokenStream, text: string) returns (error: Option<LexError>)
      requires config.Rules().WellFormed() && co.ValidOn(text)
      requires stream.expression == text && stream.tokenInfos == [] && stream.offset == 0 && stream.mark == 0
      requires stream.Valid() && stream.PositionsExact() && stream.Ordered()
      modifies this, stream
      ensures var scanned := ScanAll(config.Rules(), co, old(Caches()), text, 0);
              && Caches() == scanned.caches
              && (scanned.error.None? <==> error.None?)
              && (scanned.error.Some? ==> error == Some(LexErrorOf(text, scanned.error.value)))
              && (error.None? ==> stream.Spans() == scanned.spans)
      ensures stream.Valid() && stream.PositionsExact() && stream.Ordered()
      ensures stream.offset == 0 && stream.mark == 0 && stream.Origin() == old(stream.Origin())
    {
      var rules := config.Rules();
      ghost var whole := ScanAll(rules, co, Caches(), text, 0);
      var i := 0;
      while i < |text|
        invariant 0 <= i <= |text| + 1 && Filling(stream, text, whole, i)
        invariant stream.offset == 0 && stream.mark == 0 && stream.Origin() == old(stream.Origin())
        decreases |text| + 1 - i
      {
        if IsBlank(text[i]) {
          ScanPassesBlank(rules, co, text, whole, stream.Spans(), Caches(), i);
          i := i + 1;
        } else {
          var next;
          next, error := LexToken(stream, rules, text, i, whole);
          if error.Some? {
            return;
          }
          i := next;
        }
      }
      ScanFinishes(rules, co, text, whole, stream.Spans(), Caches(), i);
      error := None;
    }

    /**
     * `lex`: the whole expression as a stream of its tokens with exact positions, or the error
     * that stopped the scan. The caches end as the scan leaves them in either case.
     */
    method Lex(text: string) returns (r: Result<SimpleTokenStream, LexError>)
      requires config.Rules().WellFormed() && co.ValidOn(text)
      modifies this
      ensures var scanned := ScanAll(config.Rules(), co, old(Caches()), text, 0);
              && Caches() == scanned.caches
              && (scanned.error.None? <==> r.Success?)
              && (scanned.error.Some? ==> r == Failure(LexErrorOf(text, scanned.error.value)))
              && (r.Success? ==> r.value.Spans() == scanned.spans)
      ensures r.Success? ==>
                && fresh(r.value) && r.value.expression == text && r.value.config == config
                && r.value.Valid() && r.value.PositionsExact() && r.value.Ordered()
                && r.value.offset == 0 && r.value.mark == 0 && r.value.Origin() == Position(1, 1)
    {
      var stream := new SimpleTokenStream(text, config);
      var error := LexInto(stream, text);
      if error.Some? {
        return Failure(error.value);
      }
      r := Success(stream);
    }
  }
}
