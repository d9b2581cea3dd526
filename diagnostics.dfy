/**
 * The default syntax exception producer of LexConfig (`produceSyntaxCompileException` and
 * `computeNearBy`) as the lazy stream's `throwWrongSyntax` drives it: the reported token, its
 * position fields, and a sample of the expression around it, found by walking the stream the
 * producer is handed left and right of the token.
 */
module Diagnostics {
  import opened Wrappers
  import opened TokenInfos
  import opened Tokens
  import opened Scanner
  import opened LexConfigs
  import opened Lexers
  import opened LazyStreams

  /** The SyntaxCompileException the default producer builds; the message text is not modelled. */
  datatype SyntaxError =
    | EmptyInput(stream: LazyTokenStream)                  // no token: the "empty" message
    | NotPositioned(token: Token, stream: LazyTokenStream)  // a bare token: the "invalid token" message
    | At(info: TokenInfo, line: int, col: int, nearBy: Option<string>, stream: LazyTokenStream)

  /**
   * What calling the producer comes to: the exception it builds, a lexical error raised while it
   * reads the stream on, or a nested `throwWrongSyntax` on the stream it was handed, which calls
   * the producer again.
   */
  datatype Produced =
    | Raised(error: SyntaxError)
    | LexFailed(lexError: LexError)
    | Reentered(request: LazyWrongSyntax)

  /** The cursor of `stream` is on `info`. */
  ghost predicate PositionedOn(stream: LazyTokenStream, info: TokenInfo)
    reads stream
  {
    0 <= stream.offset < |stream.tokenInfos| && stream.tokenInfos[stream.offset] == info
  }

  /** The cursor is past the last buffered token and only blanks are left to scan. */
  ghost predicate AtExhaustedEnd(stream: LazyTokenStream)
    reads stream
  {
    |stream.tokenInfos| > 0 && stream.offset == |stream.tokenInfos| && stream.Exhausted()
  }

  /** `e` is the lexical error the scan of the whole expression stops at, met by reading on. */
  ghost predicate LexFailedOn(stream: LazyTokenStream, e: StreamError)
    reads stream, stream.lexer
  {
    && e.LexFailure? && stream.whole.spans == stream.Spans() && stream.whole.error.Some?
    && (stream.whole.error.value.InvalidToken? ==> stream.whole.error.value.offset < |stream.expression|)
    && e.lexError == LexErrorOf(stream.expression, stream.whole.error.value)
  }

  /** The buffer still starts with the tokens it held before: it only grew at the end. */
  ghost predicate Kept(stream: LazyTokenStream, before: seq<TokenInfo>)
    reads stream
  {
    |before| <= |stream.tokenInfos| && stream.tokenInfos[..|before|] == before
  }

  /**
   * `e` is a syntax error raised on `stream` itself, left past its last token with only blanks
   * to scan and holding `tokens`: the state the producer was handed in the first place.
   */
  ghost predicate RaisedAgain(stream: LazyTokenStream, e: StreamError, tokens: seq<TokenInfo>)
    reads stream, stream.config, stream.lexer
  {
    && e.SyntaxFailure? && e.request.raisedOn == stream
    && stream.Follows() && AtExhaustedEnd(stream) && stream.tokenInfos == tokens
  }

  /**
   * Tokens `lo` up to (not including) `k` all start right of `leftMargin`, and the one before
   * `lo`, if any, does not: the left walk stops at the first token too far left.
   */
  ghost predicate LeftRun(infos: seq<TokenInfo>, lo: int, k: int, leftMargin: int) {
    && 0 <= lo <= k <= |infos|
    && (forall j :: lo <= j < k ==> infos[j].start > leftMargin)
    && (lo > 0 ==> infos[lo - 1].start <= leftMargin)
  }

  /** Tokens after `k` up to `hi` all end left of `rightMargin`. */
  ghost predicate RightSoFar(infos: seq<TokenInfo>, k: int, hi: int, rightMargin: int)
    decreases hi - k
  {
    && 0 <= k <= hi < |infos|
    && (hi == k || (infos[hi].end < rightMargin && RightSoFar(infos, k, hi - 1, rightMargin)))
  }

  /** The run taken so far, stated token by token. */
  lemma {:induction false} RightSoFarElements(infos: seq<TokenInfo>, k: int, hi: int, rightMargin: int)
    requires RightSoFar(infos, k, hi, rightMargin)
    ensures forall j :: k < j <= hi ==> infos[j].end < rightMargin
    decreases hi - k
  {
    if hi > k {
      RightSoFarElements(infos, k, hi - 1, rightMargin);
    }
  }

  /**
   * Tokens after `k` up to `hi` all end left of `rightMargin`, and the one after `hi` does not,
   * unless `hi` is the last token and the scan is `complete`.
   */
  ghost predicate RightRun(infos: seq<TokenInfo>, k: int, hi: int, rightMargin: int, complete: bool) {
    && RightSoFar(infos, k, hi, rightMargin)
    && (hi + 1 < |infos| ==> infos[hi + 1].end >= rightMargin)
    && (hi + 1 == |infos| ==> complete)
  }

  /** Appending to the buffer keeps the run taken so far. */
  lemma {:induction false} RightSoFarGrown(infos: seq<TokenInfo>, infos': seq<TokenInfo>, k: int, hi: int, rightMargin: int)
    requires RightSoFar(infos, k, hi, rightMargin)
    requires |infos| <= |infos'| && infos'[..|infos|] == infos
    ensures RightSoFar(infos', k, hi, rightMargin)
    ensures infos'[hi] == infos[hi]
    decreases hi - k
  {
    assert infos'[..|infos|][hi] == infos'[hi];
    if hi > k {
      RightSoFarGrown(infos, infos', k, hi - 1, rightMargin);
    }
  }

  /** Taking the token after the run, when it ends left of the margin, extends the run. */
  lemma RightSoFarStep(infos: seq<TokenInfo>, k: int, hi: int, rightMargin: int)
    requires RightSoFar(infos, k, hi, rightMargin)
    requires hi + 1 < |infos| && infos[hi + 1].end < rightMargin
    ensures RightSoFar(infos, k, hi + 1, rightMargin)
  {
  }

  /**
   * The left walk of `computeNearBy`: steps back over the tokens before the cursor while they
   * start right of `leftMargin`; `left` is the last one taken, or `info` if none was.
   */
  method WalkLeft(stream: LazyTokenStream, info: TokenInfo, leftMargin: int) returns (left: TokenInfo, ghost lo: int)
    requires stream.Valid()
    modifies stream
    ensures stream.Valid() && stream.whole == old(stream.whole) && stream.mark == old(stream.mark)
    ensures stream.tokenInfos == old(stream.tokenInfos) && stream.i == old(stream.i)
    ensures old(stream.Follows()) ==> stream.Follows()
    ensures LeftRun(stream.tokenInfos, lo, old(stream.offset), leftMargin)
    ensures left == if lo == old(stream.offset) then info else stream.tokenInfos[lo]
  {
    left := info;
    lo := stream.offset;
    while stream.HasPrevious()
      invariant stream.Valid() && stream.whole == old(stream.whole) && stream.mark == old(stream.mark)
      invariant stream.tokenInfos == old(stream.tokenInfos) && stream.i == old(stream.i)
      invariant old(stream.Follows()) ==> stream.Follows()
      invariant 0 <= stream.offset == lo <= old(stream.offset)
      invariant forall j :: lo <= j < old(stream.offset) ==> stream.tokenInfos[j].start > leftMargin
      invariant left == if lo == old(stream.offset) then info else stream.tokenInfos[lo]
      decreases stream.offset
    {
      var _ := stream.Previous();
      var got := stream.Get();
      var prev := got.value;
      if prev.start > leftMargin {
        left := prev;
        lo := stream.offset;
      } else {
        break;
      }
    }
  }

  /** A buffer that grew by appending twice still starts with what it held first. */
  lemma PrefixKept(base: seq<TokenInfo>, before: seq<TokenInfo>, after: seq<TokenInfo>)
    requires |base| <= |before| && before[..|base|] == base
    requires |before| <= |after| && after[..|before|] == before
    ensures after[..|base|] == base
  {
    assert after[..|base|] == after[..|before|][..|base|];
  }

  /**
   * The right walk's loop state: the cursor is after `hi`, the tokens after `k` up to `hi` were
   * taken, and `right` is the last of them, or `info` if none was.
   */
  ghost predicate Walked(stream: LazyTokenStream, info: TokenInfo, k: int, hi: int, right: TokenInfo, rightMargin: int)
    reads stream
  {
    && hi == stream.offset - 1 && RightSoFar(stream.tokenInfos, k, hi, rightMargin)
    && right == if hi == k then info else stream.tokenInfos[hi]
  }

  /** How much scanning the stream has left: what the right walk's loop measures first. */
  function Unread(stream: LazyTokenStream): nat
    reads stream
  {
    if stream.i < stream.len then stream.len - stream.i else 0
  }

  /**
   * One step of the right walk: `hasNext`, then `get` and, if that token ends left of
   * `rightMargin`, `next`. Yields the token taken, or None where the walk stops.
   */
  method StepRight(stream: LazyTokenStream, info: TokenInfo, ghost k: int, ghost hi: int, ghost right: TokenInfo, rightMargin: int)
    returns (r: Result<Option<TokenInfo>, StreamError>)
    requires stream.Follows() && Walked(stream, info, k, hi, right, rightMargin)
    modifies stream, stream.lexer
    ensures stream.Ready() && stream.whole == old(stream.whole) && stream.mark == old(stream.mark)
    ensures stream.Grew(old(stream.tokenInfos))
    ensures r.Success? ==> stream.Follows()
    ensures r.Success? && r.value.Some? ==>
              && Walked(stream, info, k, hi + 1, r.value.value, rightMargin)
              && ((old(stream.i) + 1 < stream.len && old(stream.i) < stream.i <= stream.len)
                  || (stream.i == old(stream.i) && |stream.tokenInfos| == |old(stream.tokenInfos)|))
    ensures r.Success? && r.value.None? ==>
              && Walked(stream, info, k, hi, right, rightMargin)
              && RightRun(stream.tokenInfos, k, hi, rightMargin,
                          stream.whole == Scanned(stream.Spans(), stream.lexer.Caches(), None))
    ensures r.Failure? ==> LexFailedOn(stream, r.error)
  {
    ghost var before := stream.tokenInfos;
    var more := stream.HasNext();
    RightSoFarGrown(before, stream.tokenInfos, k, hi, rightMargin);
    if more.Failure? {
      return Failure(LexFailure(more.error));
    }
    if !more.value {
      return Success(None);
    }
    var taken := TakeRight(stream, info, k, hi, right, rightMargin);
    return Success(taken);
  }

  /** The rest of a step of the right walk, with a token buffered under the cursor: `get`, then `next` if it ends left of `rightMargin`. */
  method TakeRight(stream: LazyTokenStream, info: TokenInfo, ghost k: int, ghost hi: int, ghost right: TokenInfo, rightMargin: int)
    returns (r: Option<TokenInfo>)
    requires stream.Follows() && Walked(stream, info, k, hi, right, rightMargin) && stream.offset < |stream.tokenInfos|
    modifies stream, stream.lexer
    ensures stream.Follows() && stream.whole == old(stream.whole) && stream.mark == old(stream.mark)
    ensures stream.tokenInfos == old(stream.tokenInfos) && stream.i == old(stream.i)
    ensures r.Some? ==> Walked(stream, info, k, hi + 1, r.value, rightMargin)
    ensures r.None? ==> Walked(stream, info, k, hi, right, rightMargin) && stream.tokenInfos[hi + 1].end >= rightMargin
  {
    var got := stream.Get();
    var next := got.value;
    if next.end >= rightMargin {
      return None;
    }
    RightSoFarStep(stream.tokenInfos, k, hi, rightMargin);
    var _ := stream.Next();
    return Some(next);
  }

  /**
   * The right walk of `computeNearBy`, after the token under the cursor was consumed: takes the
   * following tokens, reading more as needed, while they end left of `rightMargin`; `right` is
   * the last one taken, or `info` if none was.
   */
  method WalkRight(stream: LazyTokenStream, info: TokenInfo, rightMargin: int) returns (r: Result<TokenInfo, StreamError>, ghost hi: int)
    requires stream.Follows() && 0 < stream.offset
    modifies stream, stream.lexer
    ensures stream.Ready() && stream.whole == old(stream.whole) && stream.mark == old(stream.mark)
    ensures Kept(stream, old(stream.tokenInfos))
    ensures r.Success? ==>
              && stream.Follows()
              && RightRun(stream.tokenInfos, old(stream.offset) - 1, hi, rightMargin,
                          stream.whole == Scanned(stream.Spans(), stream.lexer.Caches(), None))
              && r.value == if hi == old(stream.offset) - 1 then info else stream.tokenInfos[hi]
    ensures r.Failure? ==> LexFailedOn(stream, r.error)
  {
    var right := info;
    hi := stream.offset - 1;
    ghost var k := hi;
    while true
      invariant stream.Follows() && stream.whole == old(stream.whole) && stream.mark == old(stream.mark)
      invariant Kept(stream, old(stream.tokenInfos))
      invariant Walked(stream, info, k, hi, right, rightMargin)
      decreases Unread(stream), |stream.tokenInfos| - stream.offset
    {
      ghost var before := stream.tokenInfos;
      var step := StepRight(stream, info, k, hi, right, rightMargin);
      PrefixKept(old(stream.tokenInfos), before, stream.tokenInfos);
      if step.Failure? {
        return Failure(step.error), hi;
      }
      if step.value.None? {
        return Success(right), hi;
      }
      right := step.value.value;
      hi := hi + 1;
    }
  }

  /** `mark`, the left walk and `reset`: the cursor is back where it was and the mark cleared. */
  method SampleLeft(stream: LazyTokenStream, info: TokenInfo, leftMargin: int) returns (left: TokenInfo, ghost lo: int)
    requires stream.Follows()
    modifies stream
    ensures stream.Follows() && stream.whole == old(stream.whole)
    ensures stream.tokenInfos == old(stream.tokenInfos) && stream.i == old(stream.i)
    ensures stream.offset == old(stream.offset) && stream.mark == 0
    ensures LeftRun(stream.tokenInfos, lo, old(stream.offset), leftMargin)
    ensures left == if lo == old(stream.offset) then info else stream.tokenInfos[lo]
  {
    stream.Mark();
    left, lo := WalkLeft(stream, info, leftMargin);
    stream.Reset();
  }

  /**
   * The unconditional `next` that consumes the cursor token, then the right walk. On a stream
   * whose cursor is past the last token with only blanks left, that `next` raises the syntax
   * error again, on the same stream.
   */
  method SampleRight(stream: LazyTokenStream, info: TokenInfo, rightMargin: int) returns (r: Result<TokenInfo, StreamError>, ghost hi: int)
    requires stream.Follows()
    modifies stream, stream.lexer
    ensures stream.Ready() && stream.whole == old(stream.whole) && stream.mark == old(stream.mark)
    ensures Kept(stream, old(stream.tokenInfos))
    ensures r.Success? ==>
              && stream.Follows()
              && RightRun(stream.tokenInfos, old(stream.offset), hi, rightMargin,
                          stream.whole == Scanned(stream.Spans(), stream.lexer.Caches(), None))
              && r.value == if hi == old(stream.offset) then info else stream.tokenInfos[hi]
    ensures old(stream.offset) < |old(stream.tokenInfos)| ==> !(r.Failure? && r.error.SyntaxFailure?)
    ensures old(AtExhaustedEnd(stream)) ==> r.Failure? && RaisedAgain(stream, r.error, old(stream.tokenInfos))
    ensures r.Failure? && r.error.LexFailure? ==> LexFailedOn(stream, r.error)
  {
    ghost var before := stream.tokenInfos;
    var first := stream.Next();
    if first.Failure? {
      return Failure(first.error), stream.offset;
    }
    ghost var middle := stream.tokenInfos;
    r, hi := WalkRight(stream, info, rightMargin);
    PrefixKept(before, middle, stream.tokenInfos);
  }

  /**
   * `sample` is the text from the start of the leftmost token taken to the end of the rightmost
   * one, where index `o` stands for the cursor token `info`; it covers `info`.
   */
  ghost predicate SampleOf(text: string, infos: seq<TokenInfo>, info: TokenInfo, o: int, lo: int, hi: int, sample: string) {
    && 0 <= lo <= o <= hi < |infos|
    && var left := if lo == o then info else infos[lo];
       var right := if hi == o then info else infos[hi];
       && left.start <= info.start < info.end <= right.end <= |text|
       && sample == text[left.start..right.end]
  }

  /**
   * Where the sample's ends come from: the left end is the cursor token `info`, at index `a`
   * of the buffer, or a token before it, the right end the cursor token or one after it. So
   * the sample covers the cursor token and lies inside the text, however the buffer grew.
   */
  lemma SampleCovers(before: seq<TokenInfo>, infos: seq<TokenInfo>, text: string, info: TokenInfo, a: int, o: int,
                     lo: int, hi: int, left: TokenInfo, right: TokenInfo)
    requires InOrder(infos, |text|) && |before| <= |infos| && infos[..|before|] == before
    requires 0 <= a < |before| && info == before[a] && (a == o || a == o - 1)
    requires 0 <= lo <= o <= hi < |infos|
    requires left == if lo == o then info else infos[lo]
    requires right == if hi == o then info else infos[hi]
    ensures left.start <= right.end <= |text|
    ensures SampleOf(text, infos, info, o, lo, hi, text[left.start..right.end])
  {
    assert infos[..|before|][a] == infos[a];
    InOrderElements(infos, |text|);
  }

  /** Appending to the buffer keeps the run the left walk took. */
  lemma LeftRunGrown(infos: seq<TokenInfo>, infos': seq<TokenInfo>, lo: int, k: int, leftMargin: int)
    requires LeftRun(infos, lo, k, leftMargin)
    requires |infos| <= |infos'| && infos'[..|infos|] == infos
    ensures LeftRun(infos', lo, k, leftMargin)
  {
    assert forall j :: 0 <= j < |infos| ==> infos'[..|infos|][j] == infos'[j];
  }

  /**
   * The walks of `computeNearBy` around the token handed to the producer, which is the one at the
   * stream's adjusted offset: the text from the start of the leftmost token taken to the end of
   * the rightmost one.
   */
  method SampleAround(stream: LazyTokenStream, info: TokenInfo, leftMargin: int, rightMargin: int)
    returns (r: Result<string, StreamError>, ghost lo: int, ghost hi: int)
    requires stream.Follows() && |stream.tokenInfos| > 0 && info == stream.tokenInfos[stream.AdjustedOffset()]
    modifies stream, stream.lexer
    ensures stream.Ready() && stream.whole == old(stream.whole) && stream.mark == 0
    ensures Kept(stream, old(stream.tokenInfos))
    ensures r.Success? ==>
              && stream.Follows()
              && LeftRun(stream.tokenInfos, lo, old(stream.offset), leftMargin)
              && RightRun(stream.tokenInfos, old(stream.offset), hi, rightMargin,
                          stream.whole == Scanned(stream.Spans(), stream.lexer.Caches(), None))
              && SampleOf(stream.expression, stream.tokenInfos, info, old(stream.offset), lo, hi, r.value)
    ensures old(stream.offset) < |old(stream.tokenInfos)| ==> !(r.Failure? && r.error.SyntaxFailure?)
    ensures old(AtExhaustedEnd(stream)) ==> r.Failure? && RaisedAgain(stream, r.error, old(stream.tokenInfos))
    ensures r.Failure? && r.error.LexFailure? ==> LexFailedOn(stream, r.error)
  {
    ghost var a := stream.AdjustedOffset();
    ghost var before := stream.tokenInfos;
    var left;
    left, lo := SampleLeft(stream, info, leftMargin);
    var right;
    right, hi := SampleRight(stream, info, rightMargin);
    if right.Failure? {
      return Failure(right.error), lo, hi;
    }
    LeftRunGrown(before, stream.tokenInfos, lo, old(stream.offset), leftMargin);
    SampleCovers(before, stream.tokenInfos, stream.expression, info, a, old(stream.offset), lo, hi, left, right.value);
    r := Success(stream.expression[left.start..right.value.end]);
  }

  /** `(sampleCharCount - width) >> 1`: the room left on each side of the token. */
  function Margin(sampleCharCount: int, width: int): int {
    (sampleCharCount - width) / 2
  }

  /**
   * A sample whose left end starts after `start - margin` (or is the token) and whose right end
   * ends before `end + margin` (or is the token) fits in `sampleCharCount` characters.
   */
  lemma SampleWithin(text: string, infos: seq<TokenInfo>, info: TokenInfo, o: int, lo: int, hi: int, sample: string,
                     sampleCharCount: int, complete: bool)
    requires info.end - info.start <= sampleCharCount
    requires SampleOf(text, infos, info, o, lo, hi, sample)
    requires LeftRun(infos, lo, o, info.start - Margin(sampleCharCount, info.end - info.start))
    requires RightRun(infos, o, hi, info.end + Margin(sampleCharCount, info.end - info.start), complete)
    ensures |sample| <= sampleCharCount
  {
    RightSoFarElements(infos, o, hi, info.end + Margin(sampleCharCount, info.end - info.start));
  }

  /**
   * `computeNearBy` for a token no wider than `sampleCharCount`: the walks with the token's
   * margins, whose sample fits in `sampleCharCount` characters.
   */
  method NearByAround(sampleCharCount: int, info: TokenInfo, stream: LazyTokenStream)
    returns (r: Result<string, StreamError>, ghost lo: int, ghost hi: int)
    requires stream.Follows() && |stream.tokenInfos| > 0 && info == stream.tokenInfos[stream.AdjustedOffset()]
    requires info.end - info.start <= sampleCharCount
    modifies stream, stream.lexer
    ensures stream.Ready() && stream.whole == old(stream.whole) && stream.mark == 0 && Kept(stream, old(stream.tokenInfos))
    ensures r.Success? ==>
              var margin := Margin(sampleCharCount, info.end - info.start);
              && stream.Follows()
              && LeftRun(stream.tokenInfos, lo, old(stream.offset), info.start - margin)
              && RightRun(stream.tokenInfos, old(stream.offset), hi, info.end + margin,
                          stream.whole == Scanned(stream.Spans(), stream.lexer.Caches(), None))
              && SampleOf(stream.expression, stream.tokenInfos, info, old(stream.offset), lo, hi, r.value)
              && |r.value| <= sampleCharCount
    ensures old(stream.offset) < |old(stream.tokenInfos)| ==> !(r.Failure? && r.error.SyntaxFailure?)
    ensures old(AtExhaustedEnd(stream)) ==> r.Failure? && RaisedAgain(stream, r.error, old(stream.tokenInfos))
    ensures r.Failure? && r.error.LexFailure? ==> LexFailedOn(stream, r.error)
  {
    var margin := Margin(sampleCharCount, info.end - info.start);
    r, lo, hi := SampleAround(stream, info, info.start - margin, info.end + margin);
    if r.Success? {
      SampleWithin(stream.expression, stream.tokenInfos, info, old(stream.offset), lo, hi, r.value, sampleCharCount,
                   stream.whole == Scanned(stream.Spans(), stream.lexer.Caches(), None));
    }
  }

  /**
   * `computeNearBy`: a token wider than `sampleCharCount` is sampled by its first
   * `sampleCharCount` characters; otherwise the sample runs from the leftmost token starting
   * after `start - margin` to the rightmost ending before `end + margin`, read off the stream.
   * `sampleCharCount` is the configuration's field, read once by the producer.
   */
  method ComputeNearBy(sampleCharCount: int, info: TokenInfo, stream: LazyTokenStream)
    returns (r: Result<string, StreamError>, ghost lo: int, ghost hi: int)
    requires stream.Ready() && |stream.tokenInfos| > 0 && info == stream.tokenInfos[stream.AdjustedOffset()]
    requires info.start < info.end <= |stream.expression|
    requires sampleCharCount > 0
    modifies stream, stream.lexer
    ensures stream.Ready() && stream.whole == old(stream.Resumed()) && Kept(stream, old(stream.tokenInfos))
    ensures old(stream.Follows()) ==> stream.whole == old(stream.whole)
    ensures info.end - info.start > sampleCharCount ==>
              && r == Success(stream.expression[info.start..info.start + sampleCharCount])
              && stream.Follows() && stream.offset == old(stream.offset) && stream.tokenInfos == old(stream.tokenInfos)
    ensures info.end - info.start <= sampleCharCount && r.Success? ==>
              var margin := Margin(sampleCharCount, info.end - info.start);
              && stream.Follows()
              && LeftRun(stream.tokenInfos, lo, old(stream.offset), info.start - margin)
              && RightRun(stream.tokenInfos, old(stream.offset), hi, info.end + margin,
                          stream.whole == Scanned(stream.Spans(), stream.lexer.Caches(), None))
              && SampleOf(stream.expression, stream.tokenInfos, info, old(stream.offset), lo, hi, r.value)
              && |r.value| <= sampleCharCount
    ensures info.end - info.start <= sampleCharCount && old(AtExhaustedEnd(stream)) ==>
              r.Failure? && RaisedAgain(stream, r.error, old(stream.tokenInfos))
    ensures old(stream.offset) < |old(stream.tokenInfos)| ==> !(r.Failure? && r.error.SyntaxFailure?)
    ensures r.Failure? && r.error.LexFailure? ==> LexFailedOn(stream, r.error)
  {
    stream.Resync();
    if info.end - info.start > sampleCharCount {
      return Success(stream.expression[info.start..info.start + sampleCharCount]), 0, 0;
    }
    r, lo, hi := NearByAround(sampleCharCount, info, stream);
  }

  /**
   * The producer's exception for a token info when `sampleCharCount` is positive: at the token's
   * start position, with the sample `computeNearBy` reads off the stream.
   */
  method ProduceNearBy(sampleCharCount: int, info: TokenInfo, stream: LazyTokenStream)
    returns (p: Produced, ghost lo: int, ghost hi: int)
    requires sampleCharCount > 0
    requires stream.Ready() && |stream.tokenInfos| > 0 && info == stream.tokenInfos[stream.AdjustedOffset()]
    modifies stream, stream.lexer
    ensures stream.Ready() && stream.whole == old(stream.Resumed()) && Kept(stream, old(stream.tokenInfos))
    ensures old(stream.Follows()) ==> stream.whole == old(stream.whole)
    ensures p.Raised? ==>
              && p.error.At? && p.error == At(info, info.startLine, info.startCol, p.error.nearBy, stream)
              && p.error.nearBy.Some?
              && (info.end - info.start > sampleCharCount ==>
                    && info.end <= |stream.expression|
                    && p.error.nearBy.value == stream.expression[info.start..info.start + sampleCharCount])
              && (info.end - info.start <= sampleCharCount ==>
                    && SampleOf(stream.expression, stream.tokenInfos, info, old(stream.offset), lo, hi, p.error.nearBy.value)
                    && |p.error.nearBy.value| <= sampleCharCount)
    ensures old(stream.offset) < |old(stream.tokenInfos)| ==> !p.Reentered?
    ensures info.end - info.start <= sampleCharCount && old(AtExhaustedEnd(stream)) ==>
              p.Reentered? && RaisedAgain(stream, SyntaxFailure(p.request), old(stream.tokenInfos))
    ensures p.LexFailed? ==> LexFailedOn(stream, LexFailure(p.lexError))
  {
    InOrderElements(stream.tokenInfos, |stream.expression|);
    var nearBy;
    nearBy, lo, hi := ComputeNearBy(sampleCharCount, info, stream);
    match nearBy
    case Failure(LexFailure(e)) =>
      p := LexFailed(e);
    case Failure(SyntaxFailure(request)) =>
      p := Reentered(request);
    case Success(sample) =>
      p := Raised(At(info, info.startLine, info.startCol, Some(sample), stream));
  }

  /**
   * The default syntax exception producer. No token: the empty-input exception. A token that is
   * not a token info: the invalid-token exception. Otherwise an exception at the token's start
   * position, with a sample of the text near it unless `sampleCharCount` is not positive. The
   * token info is the one `throwWrongSyntax` hands over: the stream's token at its adjusted offset.
   */
  method ProduceSyntaxCompileException(config: LexConfig, token: Option<TokenRef>, stream: LazyTokenStream)
    returns (p: Produced, ghost lo: int, ghost hi: int)
    requires token.Some? && token.value.Wrapped? && config.sampleCharCount > 0 ==>
               stream.Ready() && |stream.tokenInfos| > 0 && token.value.info == stream.tokenInfos[stream.AdjustedOffset()]
    modifies stream, stream.lexer
    ensures token.None? ==> p == Raised(EmptyInput(stream)) && unchanged(stream)
    ensures token.Some? && token.value.Bare? ==> p == Raised(NotPositioned(token.value.t, stream)) && unchanged(stream)
    ensures token.Some? && token.value.Wrapped? && old(config.sampleCharCount) <= 0 ==>
              var info := token.value.info;
              p == Raised(At(info, info.startLine, info.startCol, None, stream)) && unchanged(stream)
    ensures token.Some? && token.value.Wrapped? && old(config.sampleCharCount) > 0 ==>
              var info := token.value.info;
              var w := old(config.sampleCharCount);
              && stream.Ready() && stream.whole == old(stream.Resumed()) && Kept(stream, old(stream.tokenInfos))
              && (old(stream.Follows()) ==> stream.whole == old(stream.whole))
              && (p.Raised? ==>
                    && p.error.At? && p.error == At(info, info.startLine, info.startCol, p.error.nearBy, stream)
                    && p.error.nearBy.Some?
                    && (info.end - info.start > w ==>
                          && info.end <= |stream.expression|
                          && p.error.nearBy.value == stream.expression[info.start..info.start + w])
                    && (info.end - info.start <= w ==>
                          && SampleOf(stream.expression, stream.tokenInfos, info, old(stream.offset), lo, hi, p.error.nearBy.value)
                          && |p.error.nearBy.value| <= w))
              && (old(stream.offset) < |old(stream.tokenInfos)| ==> !p.Reentered?)
              && (info.end - info.start <= w && old(AtExhaustedEnd(stream)) ==>
                    p.Reentered? && RaisedAgain(stream, SyntaxFailure(p.request), old(stream.tokenInfos)))
              && (p.LexFailed? ==> LexFailedOn(stream, LexFailure(p.lexError)))
  {
    lo, hi := 0, 0;
    if token.None? {
      return Raised(EmptyInput(stream)), lo, hi;
    }
    if token.value.Bare? {
      return Raised(NotPositioned(token.value.t, stream)), lo, hi;
    }
    var info := token.value.info;
    if config.sampleCharCount <= 0 {
      return Raised(At(info, info.startLine, info.startCol, None, stream)), lo, hi;
    }
    p, lo, hi := ProduceNearBy(config.sampleCharCount, info, stream);
  }

  /**
   * A stream on which `throwWrongSyntax` as written re-enters itself: its cursor is past its last
   * token with only blanks left to scan, the configuration samples, and that token fits in the
   * sample.
   */
  ghost predicate Reenters(stream: LazyTokenStream)
    reads stream, stream.config, stream.lexer
  {
    && stream.Follows() && AtExhaustedEnd(stream) && stream.config.sampleCharCount > 0
    && var last := stream.tokenInfos[|stream.tokenInfos| - 1];
       last.end - last.start <= stream.config.sampleCharCount
  }

  /**
   * `throwWrongSyntax` as written, with the default producer. The copy handed to the producer
   * keeps the cursor where it was; past the last token, with only blanks left, the producer's
   * unconditional `next` on that copy raises the syntax error again, on a stream in the very same
   * situation, so the nested call re-enters once more, without end.
   */
  method RaiseWrongSyntaxAsWritten(stream: LazyTokenStream) returns (p: Produced, ghost passed: LazyTokenStream, ghost lo: int, ghost hi: int)
    requires stream.Ready()
    modifies stream, stream.lexer
    ensures old(stream.tokenInfos) == [] ==> p == Raised(EmptyInput(stream))
    ensures old(stream.offset) < |old(stream.tokenInfos)| ==> !p.Reentered?
    ensures old(Reenters(stream)) ==>
              && p.Reentered? && p.request.raisedOn == passed && Reenters(passed)
              && passed.tokenInfos == old(stream.tokenInfos) && passed.config == stream.config
  {
    var e := stream.ThrowWrongSyntaxAsWritten();
    passed := e.passed;
    if e.adjusted.None? {
      p, lo, hi := ProduceSyntaxCompileException(stream.config, None, e.passed);
      return;
    }
    p, lo, hi := ProduceSyntaxCompileException(stream.config, Some(Wrapped(e.adjusted.value)), e.passed);
  }

  /**
   * `throwWrongSyntax` with the copy positioned on the adjusted token, with the default
   * producer: the producer never re-enters, and its sample covers the reported token.
   */
  method RaiseWrongSyntax(stream: LazyTokenStream) returns (p: Produced, ghost passed: LazyTokenStream, ghost lo: int, ghost hi: int)
    requires stream.Ready()
    modifies stream, stream.lexer
    ensures stream.i == old(stream.i) && stream.tokenInfos == old(stream.tokenInfos) && stream.whole == old(stream.whole)
    ensures stream.offset == old(stream.offset) && stream.mark == old(stream.mark)
    ensures !p.Reentered?
    ensures old(stream.tokenInfos) == [] ==> p == Raised(EmptyInput(stream))
    ensures old(stream.tokenInfos) != [] ==>
              var info := old(stream.tokenInfos[stream.AdjustedOffset()]);
              var w := old(stream.config.sampleCharCount);
              && (p.Raised? ==>
                    && p.error.At? && p.error == At(info, info.startLine, info.startCol, p.error.nearBy, passed)
                    && (w <= 0 ==> p.error.nearBy == None)
                    && (w > 0 ==> p.error.nearBy.Some?)
                    && (w > 0 && info.end - info.start > w ==>
                          && info.end <= |stream.expression|
                          && p.error.nearBy.value == stream.expression[info.start..info.start + w])
                    && (w > 0 && info.end - info.start <= w ==>
                          && SampleOf(stream.expression, passed.tokenInfos, info, old(stream.AdjustedOffset()), lo, hi, p.error.nearBy.value)
                          && |p.error.nearBy.value| <= w))
              && (p.LexFailed? ==>
                    var resumed := old(stream.Resumed());
                    resumed.error.Some? && p.lexError == LexErrorOf(stream.expression, resumed.error.value))
  {
    var e := stream.ThrowWrongSyntax();
    passed := e.passed;
    if e.adjusted.None? {
      p, lo, hi := ProduceSyntaxCompileException(stream.config, None, e.passed);
      return;
    }
    SameStateResumes(stream, e.passed);
    var info := e.adjusted.value;
    assert info == stream.tokenInfos[stream.AdjustedOffset()];
    p, lo, hi := ProduceSyntaxCompileException(stream.config, Some(Wrapped(info)), e.passed);
  }
}
