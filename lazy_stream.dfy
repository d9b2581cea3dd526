/**
 * LazyTokenStream: a token stream that scans the expression on demand, one token each time the
 * buffered tokens run out. It runs the same rule machine as the eager lexer, without identifier
 * values, sharing the lexer's interning caches; its TokenInfos carry spans but no positions.
 */
module LazyStreams {
  import opened Wrappers
  import opened Tokens
  import opened TokenInfos
  import opened Scanner
  import opened LexConfigs
  import opened Lexers

  /**
   * A call of `throwWrongSyntax` on `raisedOn`: the syntax exception producer receives the
   * adjusted current token (none when nothing was scanned) and the stream `passed` to it.
   */
  datatype LazyWrongSyntax = LazyWrongSyntax(raisedOn: LazyTokenStream, adjusted: Option<TokenInfo>, passed: LazyTokenStream)

  /** What a stream operation can raise: a lexical error while scanning, or a syntax error. */
  datatype StreamError = LexFailure(lexError: LexError) | SyntaxFailure(request: LazyWrongSyntax)

  /** Token infos as the spans they record. */
  function SpansOf(infos: seq<TokenInfo>): (r: seq<Span>)
    ensures |r| == |infos|
    ensures forall m :: 0 <= m < |r| ==> r[m] == Span(infos[m].rawToken, infos[m].start, infos[m].end)
  {
    seq(|infos|, m requires 0 <= m < |infos| => Span(infos[m].rawToken, infos[m].start, infos[m].end))
  }

  /** Non-empty spans, each ending no later than the next one starts, the last one by `bound`. */
  predicate InOrder(infos: seq<TokenInfo>, bound: nat)
    decreases |infos|
  {
    if infos == [] then true
    else
      var last := infos[|infos| - 1];
      last.start < last.end <= bound && InOrder(infos[..|infos| - 1], last.start)
  }

  /** What `InOrder` says of each element and of each pair. */
  lemma {:induction false} InOrderElements(infos: seq<TokenInfo>, bound: nat)
    requires InOrder(infos, bound)
    ensures forall m :: 0 <= m < |infos| ==> infos[m].start < infos[m].end <= bound
    ensures forall m, n :: 0 <= m < n < |infos| ==> infos[m].end <= infos[n].start
    decreases |infos|
  {
    if infos != [] {
      var init := infos[..|infos| - 1];
      InOrderElements(init, infos[|infos| - 1].start);
      assert forall m :: 0 <= m < |init| ==> init[m] == infos[m];
    }
  }

  /** A span that starts after the last one ends extends an ordered buffer. */
  lemma InOrderAppend(infos: seq<TokenInfo>, bound: nat, x: TokenInfo, bound': nat)
    requires InOrder(infos, bound) && x.start < x.end <= bound'
    requires infos != [] ==> infos[|infos| - 1].end <= x.start
    ensures InOrder(infos + [x], bound')
  {
    assert (infos + [x])[..|infos|] == infos;
  }

  class LazyTokenStream {
    const lexer: Lexer
    const expression: string
    const config: LexConfig
    const len: nat
    /** The scan position: the last character examined, -1 before the first read. */
    var i: int
    var tokenInfos: seq<TokenInfo>
    /** Index of the next token to return. */
    var offset: int
    var mark: int
    /**
     * The scan of the whole expression that this stream reads a token at a time. After a read
     * raised a lexical error, the next read resumes one past the failing character: `whole` is
     * then re-anchored there (`Resync`).
     */
    ghost var whole: Scanned

    /**
     * The cursor and the mark stay within the buffer, and the buffered spans are non-empty,
     * lie in the expression, follow each other and end by the position after `i`.
     */
    ghost predicate Valid()
      reads this
    {
      && config == lexer.config && len == |expression|
      && -1 <= i
      && 0 <= offset <= |tokenInfos| && 0 <= mark <= |tokenInfos|
      && InOrder(tokenInfos, |expression|)
      && (|tokenInfos| > 0 ==> tokenInfos[|tokenInfos| - 1].end <= i + 1)
    }

    /** Valid, and the configuration and helpers can run the rule machine on this expression. */
    ghost predicate Ready()
      reads this, config
    {
      Valid() && config.Rules().WellFormed() && lexer.co.ValidOn(expression)
    }

    /** Nothing but blanks is left after the scan position: every further read finds no token. */
    ghost predicate Exhausted()
      reads this
    {
      forall k :: 0 <= k < |expression| && i < k ==> IsBlank(expression[k])
    }

    /** The buffered tokens with their spans. */
    ghost function Spans(): seq<Span>
      reads this
    {
      SpansOf(tokenInfos)
    }

    /** The rules this stream scans with, read from the configuration at each call. */
    function Rules(): Rules
      reads config
    {
      config.LazyRules()
    }

    /** Buffered tokens from `before` on: the old ones kept, at most one appended. */
    ghost predicate Grew(before: seq<TokenInfo>)
      reads this
    {
      |before| <= |tokenInfos| <= |before| + 1 && tokenInfos[..|before|] == before
    }

    /** `whole` is the buffered spans followed by what scanning from `j` with the lexer's current caches yields. */
    ghost predicate ScannedUpTo(j: nat)
      reads this, config, lexer
    {
      Ready() && ScannedSoFar(Rules(), lexer.co, expression, whole, Spans(), lexer.Caches(), j)
    }

    /** The stream is in step with `whole`: reading on from the position after `i` finishes it. */
    ghost predicate Follows()
      reads this, config, lexer
    {
      -1 <= i && ScannedUpTo(i + 1)
    }

    /** What the stream reads from here on: the buffered spans, then the scan from the position after `i`. */
    ghost function Resumed(): Scanned
      requires Ready()
      reads this, config, lexer
    {
      Join(Spans(), ScanAll(Rules(), lexer.co, lexer.Caches(), expression, i + 1))
    }

    /**
     * Re-anchors `whole` where the next read starts. On a stream in step with its scan this
     * changes nothing; after a read that raised a lexical error, `i` is still on the failing
     * character and the next read starts one past it, with the caches as they are.
     */
    ghost method Resync()
      requires Ready()
      modifies this
      ensures Follows() && whole == old(Resumed()) && (old(Follows()) ==> whole == old(whole))
      ensures i == old(i) && tokenInfos == old(tokenInfos) && offset == old(offset) && mark == old(mark)
    {
      whole := Resumed();
    }

    constructor (lexer: Lexer, expression: string)
      ensures this.lexer == lexer && this.expression == expression && config == lexer.config
      ensures len == |expression| && i == -1 && tokenInfos == [] && offset == 0 && mark == 0
      ensures Valid() && Exhausted() == (forall k :: 0 <= k < |expression| ==> IsBlank(expression[k]))
      ensures Ready() ==> Follows() && whole == ScanAll(Rules(), lexer.co, lexer.Caches(), expression, 0)
    {
      this.lexer := lexer;
      this.expression := expression;
      config := lexer.config;
      len := |expression|;
      i := -1;
      tokenInfos := [];
      offset := 0;
      mark := 0;
      whole := if lexer.config.LazyRules().WellFormed() && lexer.co.ValidOn(expression)
        then ScanAll(lexer.config.LazyRules(), lexer.co, lexer.Caches(), expression, 0)
        else Scanned([], lexer.Caches(), None);
      new;
      assert Ready() ==> Join([], whole) == whole;
    }

    /**
     * `readNextToken`: skips blanks from the position after `i`, then matches one token and
     * appends it, leaving `i` on the last character the token consumed. Seen from `whole`, a read
     * takes exactly its next span; `false` means the tokens read are all of it, and a failure is
     * the error that stops it after the tokens read. A stream left behind by a raised error reads
     * on from one past the failing character, as the loop's `i++` does.
     */
    method ReadNextToken() returns (r: Result<bool, LexError>)
      requires Ready()
      modifies this, lexer
      ensures Ready() && Grew(old(tokenInfos)) && whole == old(Resumed()) && (old(Follows()) ==> whole == old(whole))
      ensures offset == old(offset) && mark == old(mark) && old(i) < i
      ensures r.Success? ==> Follows()
      ensures r == Success(true) ==>
                && |tokenInfos| == |old(tokenInfos)| + 1 && fresh(tokenInfos[|old(tokenInfos)|])
                && old(i) < tokenInfos[|old(tokenInfos)|].start && old(i) + 1 < len && i <= len
      ensures !(r == Success(true)) ==> tokenInfos == old(tokenInfos) && lexer.Caches() == old(lexer.Caches())
      ensures r == Success(false) ==>
                whole == Scanned(Spans(), lexer.Caches(), None) && i == (if old(i) + 1 < len then len else old(i) + 1)
      ensures r.Failure? ==>
                && whole == Scanned(Spans(), lexer.Caches(), whole.error) && whole.error.Some?
                && r.error == LexErrorOf(expression, whole.error.value)
      ensures old(Exhausted()) || old(i) + 1 >= len ==> r == Success(false)
      ensures r.Failure? ==>
                && old(i) < i < len && !IsBlank(expression[i]) && forall k :: old(i) < k < i ==> IsBlank(expression[k])
    {
      Resync();
      r := ReadFollowing();
    }

    /** The read of a stream in step with its scan. */
    method ReadFollowing() returns (r: Result<bool, LexError>)
      requires Follows()
      modifies this, lexer
      ensures Ready() && Grew(old(tokenInfos)) && whole == old(whole)
      ensures offset == old(offset) && mark == old(mark) && old(i) < i
      ensures r.Success? ==> Follows()
      ensures r == Success(true) ==>
                && |tokenInfos| == |old(tokenInfos)| + 1 && fresh(tokenInfos[|old(tokenInfos)|])
                && old(i) < tokenInfos[|old(tokenInfos)|].start && old(i) + 1 < len && i <= len
      ensures !(r == Success(true)) ==> tokenInfos == old(tokenInfos) && lexer.Caches() == old(lexer.Caches())
      ensures r == Success(false) ==>
                whole == Scanned(Spans(), lexer.Caches(), None) && i == (if old(i) + 1 < len then len else old(i) + 1)
      ensures r.Failure? ==>
                && whole == Scanned(Spans(), lexer.Caches(), whole.error) && whole.error.Some?
                && r.error == LexErrorOf(expression, whole.error.value)
      ensures old(Exhausted()) || old(i) + 1 >= len ==> r == Success(false)
      ensures r.Failure? ==>
                && old(i) < i < len && !IsBlank(expression[i]) && forall k :: old(i) < k < i ==> IsBlank(expression[k])
    {
      ghost var spans := Spans();
      ghost var caches := lexer.Caches();
      var rules := config.LazyRules();
      var j := NextNonBlank(i + 1, rules, whole, spans, caches);
      i := j;
      if i < len {
        r := ReadAt(rules);
      } else {
        ScanFinishes(rules, lexer.co, expression, whole, spans, caches, i);
        r := Success(false);
      }
    }

    /** The blank-skipping part of the reading loop: the first non-blank position from `from` on, or the end. */
    method NextNonBlank(from: nat, rules: Rules, ghost scan: Scanned, ghost spans: seq<Span>, ghost caches: Caches) returns (j: nat)
      requires len == |expression| && rules.WellFormed() && lexer.co.ValidOn(expression)
      requires ScannedSoFar(rules, lexer.co, expression, scan, spans, caches, from)
      ensures from <= j && (j <= len || j == from)
      ensures forall k :: from <= k < j ==> IsBlank(expression[k])
      ensures j < len ==> !IsBlank(expression[j])
      ensures ScannedSoFar(rules, lexer.co, expression, scan, spans, caches, j)
    {
      j := from;
      while j < len && IsBlank(expression[j])
        invariant from <= j && (j <= len || j == from)
        invariant forall k :: from <= k < j ==> IsBlank(expression[k])
        invariant ScannedSoFar(rules, lexer.co, expression, scan, spans, caches, j)
        decreases len - j
      {
        ScanPassesBlank(rules, lexer.co, expression, scan, spans, caches, j);
        j := j + 1;
      }
    }

    /** The match at the non-blank character `expression[i]`, appended to the buffer. */
    method ReadAt(rules: Rules) returns (r: Result<bool, LexError>)
      requires 0 <= i < len && rules == Rules() && ScannedUpTo(i) && !IsBlank(expression[i])
      requires |tokenInfos| > 0 ==> tokenInfos[|tokenInfos| - 1].end <= i
      modifies this, lexer
      ensures Ready() && offset == old(offset) && mark == old(mark) && whole == old(whole) && old(i) <= i
      ensures r.Success? ==>
                && r.value && i <= len && Follows()
                && |tokenInfos| == |old(tokenInfos)| + 1 && tokenInfos[..|old(tokenInfos)|] == old(tokenInfos)
                && fresh(tokenInfos[|old(tokenInfos)|]) && old(i) == tokenInfos[|old(tokenInfos)|].start
      ensures r.Failure? ==>
                && tokenInfos == old(tokenInfos) && lexer.Caches() == old(lexer.Caches()) && i == old(i)
                && whole == Scanned(Spans(), lexer.Caches(), whole.error) && whole.error.Some?
                && r.error == LexErrorOf(expression, whole.error.value)
    {
      var s := MatchHere(rules);
      if s.Fail? {
        var e := lexer.ThrowScanError(expression, s.error);
        return Failure(e);
      }
      Append(s);
      return Success(true);
    }

    /** `tokenInfos.add(TokenInfo.of(...))` for the token just matched, and the scan position moved onto its last character. */
    method Append(s: Step)
      requires Valid() && s.Emit? && 0 <= i == s.start < s.end <= s.resume <= len + 1 && s.end <= len
      requires |tokenInfos| > 0 ==> tokenInfos[|tokenInfos| - 1].end <= i
      modifies this
      ensures Valid() && offset == old(offset) && mark == old(mark) && whole == old(whole) && i == s.resume - 1
      ensures |tokenInfos| == |old(tokenInfos)| + 1 && tokenInfos[..|old(tokenInfos)|] == old(tokenInfos)
      ensures fresh(tokenInfos[|old(tokenInfos)|]) && tokenInfos[|old(tokenInfos)|].start == s.start
      ensures Spans() == old(Spans()) + [Span(s.token, s.start, s.end)]
    {
      var info := new TokenInfo(s.token, s.start, s.end);
      InOrderAppend(tokenInfos, |expression|, info, |expression|);
      tokenInfos := tokenInfos + [info];
      i := s.resume - 1;
      assert tokenInfos[..|old(tokenInfos)|] == old(tokenInfos);
    }

    /** The rule chain run by the lexer at `expression[i]`, seen as the next turn of `whole`. */
    method MatchHere(rules: Rules) returns (s: Step)
      requires 0 <= i < len && rules == Rules() && ScannedUpTo(i) && !IsBlank(expression[i])
      modifies lexer
      ensures Ready() && (s.Emit? || s.Fail?)
      ensures s.Emit? ==>
                && s.start == i < s.end <= s.resume <= len + 1 && s.end <= len && lexer.Caches() == s.caches
                && ScannedSoFar(rules, lexer.co, expression, whole, Spans() + [Span(s.token, s.start, s.end)], s.caches, s.resume)
      ensures s.Fail? ==>
                && lexer.Caches() == old(lexer.Caches()) && whole == Scanned(Spans(), lexer.Caches(), Some(s.error))
                && (s.error.InvalidToken? ==> s.error.offset < len)
    {
      s := lexer.Match(rules, expression, i);
      ScanAdvances(rules, lexer.co, expression, whole, Spans(), old(lexer.Caches()), i, s);
    }

    /** `hasNext`: a buffered token is left, or one more could be read. */
    method HasNext() returns (r: Result<bool, LexError>)
      requires Ready()
      modifies this, lexer
      ensures Ready() && Grew(old(tokenInfos)) && (old(Follows()) ==> whole == old(whole))
      ensures offset == old(offset) && mark == old(mark) && old(i) <= i
      ensures r.Success? && (old(Follows()) || old(offset) >= |old(tokenInfos)|) ==> Follows()
      ensures old(offset) < |old(tokenInfos)| ==>
                && r == Success(true) && tokenInfos == old(tokenInfos) && i == old(i) && whole == old(whole)
                && lexer.Caches() == old(lexer.Caches())
      ensures old(offset) >= |old(tokenInfos)| ==> whole == old(Resumed())
      ensures r == Success(true) ==> offset < |tokenInfos|
      ensures r == Success(true) && old(offset) >= |old(tokenInfos)| ==> old(i) + 1 < len && old(i) < i <= len
      ensures !(r == Success(true)) ==> old(offset) >= |old(tokenInfos)| && tokenInfos == old(tokenInfos)
      ensures r == Success(false) ==> whole == Scanned(Spans(), lexer.Caches(), None)
      ensures r.Failure? ==>
                && whole.spans == Spans() && whole.error.Some?
                && r.error == LexErrorOf(expression, whole.error.value)
      ensures old(Exhausted()) && old(offset) >= |old(tokenInfos)| ==> r == Success(false) && Exhausted()
      ensures r.Failure? ==>
                && old(i) < i < len && !IsBlank(expression[i]) && forall k :: old(i) < k < i ==> IsBlank(expression[k])
    {
      if offset < |tokenInfos| {
        return Success(true);
      }
      r := ReadNextToken();
    }

    /** `next`: the token under the cursor, advancing past it, after reading one if none is buffered. */
    method Next() returns (r: Result<Token, StreamError>)
      requires Ready()
      modifies this, lexer
      ensures Ready() && Grew(old(tokenInfos)) && (old(Follows()) ==> whole == old(whole)) && mark == old(mark) && old(i) <= i
      ensures old(offset) < |old(tokenInfos)| ==>
                && r == Success(tokenInfos[old(offset)].token) && whole == old(whole)
                && tokenInfos == old(tokenInfos) && i == old(i) && lexer.Caches() == old(lexer.Caches())
      ensures old(offset) >= |old(tokenInfos)| ==> whole == old(Resumed())
      ensures r.Success? ==> offset == old(offset) + 1 && r.value == tokenInfos[old(offset)].token
      ensures r.Success? && (old(Follows()) || old(offset) >= |old(tokenInfos)|) ==> Follows()
      ensures r.Success? && old(offset) >= |old(tokenInfos)| ==> old(i) + 1 < len && old(i) < i <= len
      ensures r.Failure? ==> offset == old(offset) && old(offset) >= |old(tokenInfos)| && tokenInfos == old(tokenInfos)
      ensures r.Failure? && r.error.LexFailure? ==>
                && whole.spans == Spans() && whole.error.Some?
                && r.error.lexError == LexErrorOf(expression, whole.error.value)
                && old(i) < i < len && !IsBlank(expression[i]) && forall k :: old(i) < k < i ==> IsBlank(expression[k])
      ensures r.Failure? && r.error.SyntaxFailure? ==>
                && Follows() && r.error.request.raisedOn == this && whole == Scanned(Spans(), lexer.Caches(), None)
      ensures old(Exhausted()) && old(offset) >= |old(tokenInfos)| ==>
                r.Failure? && r.error.SyntaxFailure? && Exhausted()
    {
      var more := HasNext();
      if more.Failure? {
        return Failure(LexFailure(more.error));
      }
      if !more.value {
        var e := ThrowWrongSyntaxAsWritten();
        return Failure(SyntaxFailure(e));
      }
      var t := Advance();
      r := Success(t);
    }

    /** `tokenInfos.get(offset++).getToken()`: the buffered token under the cursor, and the cursor past it. */
    method Advance() returns (t: Token)
      requires Ready() && offset < |tokenInfos|
      modifies this
      ensures t == old(tokenInfos[offset]).token && offset == old(offset) + 1
      ensures i == old(i) && tokenInfos == old(tokenInfos) && mark == old(mark) && whole == old(whole)
      ensures Ready() && (old(Follows()) ==> Follows())
    {
      t := tokenInfos[offset].token;
      offset := offset + 1;
    }

    predicate HasPrevious()
      reads this
    {
      offset > 0
    }

    /** `previous`: steps back over a token and returns it; never scans. */
    method Previous() returns (r: Result<Token, StreamError>)
      requires Valid()
      modifies this
      ensures Valid() && tokenInfos == old(tokenInfos) && i == old(i) && mark == old(mark) && whole == old(whole)
      ensures old(Follows()) ==> Follows()
      ensures old(offset) > 0 ==> r == Success(tokenInfos[old(offset) - 1].token) && offset == old(offset) - 1
      ensures old(offset) == 0 ==> r.Failure? && r.error.SyntaxFailure? && r.error.request.raisedOn == this && offset == 0
    {
      if !HasPrevious() {
        var e := ThrowWrongSyntaxAsWritten();
        return Failure(SyntaxFailure(e));
      }
      offset := offset - 1;
      r := Success(tokenInfos[offset].token);
    }

    /** `get`: the token info under the cursor, without moving; an error off the buffer. */
    method Get() returns (r: Result<TokenInfo, StreamError>)
      requires Valid()
      ensures 0 <= offset < |tokenInfos| ==> r == Success(tokenInfos[offset])
      ensures offset >= |tokenInfos| ==> r.Failure? && r.error.SyntaxFailure? && r.error.request.raisedOn == this
    {
      if offset < 0 || offset >= |tokenInfos| {
        var e := ThrowWrongSyntaxAsWritten();
        return Failure(SyntaxFailure(e));
      }
      r := Success(tokenInfos[offset]);
    }

    method Mark()
      modifies this
      ensures mark == offset == old(offset) && tokenInfos == old(tokenInfos) && i == old(i) && whole == old(whole)
      ensures old(Valid()) ==> Valid()
      ensures old(Follows()) ==> Follows()
    {
      mark := offset;
    }

    /** `reset`: back to the mark, which is cleared to the head. */
    method Reset()
      modifies this
      ensures offset == old(mark) && mark == 0 && tokenInfos == old(tokenInfos) && i == old(i) && whole == old(whole)
      ensures old(Valid()) ==> Valid()
      ensures old(Follows()) ==> Follows()
    {
      offset := mark;
      mark := 0;
    }

    /** `copy`: a new stream on the same lexer and expression, with its own buffer holding the same token infos. */
    method Copy() returns (c: LazyTokenStream)
      requires Valid()
      ensures fresh(c) && c.lexer == lexer && c.expression == expression && c.config == config && c.len == len
      ensures c.i == i && c.tokenInfos == tokenInfos && c.offset == offset && c.mark == mark
      ensures c.Valid() && c.whole == whole && (Exhausted() ==> c.Exhausted()) && (Follows() ==> c.Follows())
    {
      c := new LazyTokenStream(lexer, expression);
      c.whole := whole;
      c.i := i;
      c.tokenInfos := tokenInfos;
      c.offset := offset;
      c.mark := mark;
      if Follows() {
        SameStateFollows(this, c);
      }
    }

    /** `getAdjusted`'s index: the cursor clamped onto the buffer. */
    function AdjustedOffset(): (k: int)
      requires |tokenInfos| > 0
      reads this
      ensures 0 <= k < |tokenInfos|
      ensures 0 <= offset < |tokenInfos| ==> k == offset
      ensures offset >= |tokenInfos| ==> k == |tokenInfos| - 1
    {
      LimitRange(offset, 0, |tokenInfos| - 1)
    }

    /**
     * `throwWrongSyntax` as written: with an empty buffer the producer gets no token and this
     * stream; otherwise the adjusted token and a copy whose cursor is left where it was, which
     * may be past the last token.
     */
    method ThrowWrongSyntaxAsWritten() returns (e: LazyWrongSyntax)
      requires Valid()
      ensures e.raisedOn == this
      ensures tokenInfos == [] ==> e.adjusted == None && e.passed == this
      ensures tokenInfos != [] ==>
                && e.adjusted == Some(tokenInfos[AdjustedOffset()])
                && fresh(e.passed) && e.passed.lexer == lexer && e.passed.expression == expression
                && e.passed.i == i && e.passed.tokenInfos == tokenInfos && e.passed.Valid()
                && e.passed.offset == offset && e.passed.mark == mark && e.passed.whole == whole
                && (Exhausted() ==> e.passed.Exhausted()) && (Follows() ==> e.passed.Follows())
    {
      if |tokenInfos| == 0 {
        return LazyWrongSyntax(this, None, this);
      }
      var c := Copy();
      e := LazyWrongSyntax(this, Some(tokenInfos[LimitRange(offset, 0, |tokenInfos| - 1)]), c);
    }

    /**
     * `throwWrongSyntax` with the copy positioned on the adjusted token, which is where the
     * producer's sampling walk expects the token it reports.
     */
    method ThrowWrongSyntax() returns (e: LazyWrongSyntax)
      requires Valid()
      ensures e.raisedOn == this
      ensures tokenInfos == [] ==> e.adjusted == None && e.passed == this
      ensures tokenInfos != [] ==>
                && e.adjusted == Some(tokenInfos[AdjustedOffset()])
                && fresh(e.passed) && e.passed.lexer == lexer && e.passed.expression == expression
                && e.passed.i == i && e.passed.tokenInfos == tokenInfos && e.passed.Valid()
                && e.passed.offset == AdjustedOffset() && e.passed.mark == mark && e.passed.whole == whole
                && (Exhausted() ==> e.passed.Exhausted()) && (Follows() ==> e.passed.Follows())
    {
      if |tokenInfos| == 0 {
        return LazyWrongSyntax(this, None, this);
      }
      var adjusted := LimitRange(offset, 0, |tokenInfos| - 1);
      var c := Copy();
      c.offset := adjusted;
      e := LazyWrongSyntax(this, Some(tokenInfos[adjusted]), c);
    }
  }

  /** Following a scan depends only on the stream's state: a stream holding the same state follows it too. */
  lemma SameStateFollows(a: LazyTokenStream, b: LazyTokenStream)
    requires a.Follows()
    requires b.lexer == a.lexer && b.expression == a.expression && b.config == a.config && b.len == a.len
    requires b.i == a.i && b.tokenInfos == a.tokenInfos && b.offset == a.offset && b.mark == a.mark && b.whole == a.whole
    ensures b.Follows()
  {
  }

  /** Two streams holding the same buffer and scan position on the same lexer read on alike, whatever their cursors. */
  lemma SameStateResumes(a: LazyTokenStream, b: LazyTokenStream)
    requires a.Ready() && b.Ready()
    requires b.lexer == a.lexer && b.expression == a.expression && b.config == a.config
    requires b.i == a.i && b.tokenInfos == a.tokenInfos
    ensures b.Resumed() == a.Resumed()
  {
  }
}
