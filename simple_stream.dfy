/**
 * SimpleTokenStream: the eagerly filled token list with a cursor (`offset`) and a mark. Each
 * added token gets its line and column computed incrementally from the previous token's end.
 */
module SimpleStreams {
  import opened Wrappers
  import opened Tokens
  import opened Positions
  import opened TokenInfos
  import opened LexConfigs
  import Scanner

  class SimpleTokenStream {
    const expression: string
    const config: LexConfig
    var tokenInfos: seq<TokenInfo>
    var size: int
    /** Index of the next token to return. */
    var offset: int
    var mark: int
    var firstLineNo: int
    var firstCol: int

    ghost predicate Valid()
      reads this
    {
      && size == |tokenInfos|
      && 0 <= offset <= size && 0 <= mark <= size
      && forall m :: 0 <= m < |tokenInfos| ==> tokenInfos[m].start <= tokenInfos[m].end <= |expression|
    }

    /** Where the first line starts. */
    function Origin(): Position
      reads this
    {
      Position(firstLineNo, firstCol)
    }

    /** Tokens follow each other without overlapping. */
    ghost predicate Ordered()
      reads this
    {
      forall m :: 0 < m < |tokenInfos| ==> tokenInfos[m - 1].end <= tokenInfos[m].start
    }

    /** Every token's stored positions are the walks from `origin` to its start and its end. */
    ghost predicate PositionsExactFrom(origin: Position)
      reads this, tokenInfos
    {
      && Valid()
      && forall m :: 0 <= m < |tokenInfos| ==>
           && tokenInfos[m].StartPosition() == Walk(expression, 0, tokenInfos[m].start, origin)
           && tokenInfos[m].EndPosition() == Walk(expression, 0, tokenInfos[m].end, origin)
    }

    /** Positions are exact with respect to this stream's own first line and column. */
    ghost predicate PositionsExact()
      reads this, tokenInfos
    {
      PositionsExactFrom(Origin())
    }

    /** The tokens with their spans, as the lexer produced them. */
    ghost function Spans(): (r: seq<Scanner.Span>)
      reads this
      ensures |r| == |tokenInfos|
      ensures forall m :: 0 <= m < |r| ==>
                r[m] == Scanner.Span(tokenInfos[m].rawToken, tokenInfos[m].start, tokenInfos[m].end)
    {
      seq(|tokenInfos|, m requires 0 <= m < |tokenInfos| reads this =>
        Scanner.Span(tokenInfos[m].rawToken, tokenInfos[m].start, tokenInfos[m].end))
    }

    constructor (expression: string, config: LexConfig)
      ensures this.expression == expression && this.config == config
      ensures tokenInfos == [] && offset == 0 && mark == 0 && Origin() == Position(1, 1)
      ensures Valid() && PositionsExact() && Ordered()
    {
      this.expression := expression;
      this.config := config;
      tokenInfos := [];
      size := 0;
      offset := 0;
      mark := 0;
      firstLineNo := 1;
      firstCol := 1;
    }

    /**
     * `computeTokenInfo` with the first line starting at `origin`: continue from the previous
     * token's end when its positions are computed (start line above 0), else from the origin.
     */
    method ComputeTokenInfo(info: TokenInfo, origin: Position)
      requires Valid() && info.start <= info.end <= |expression|
      modifies info
      ensures info.token == old(info.token)
      ensures info.EndPosition() == Walk(expression, info.start, info.end, info.StartPosition())
      ensures (old(PositionsExactFrom(origin)) && info !in tokenInfos
               && (size == 0 || tokenInfos[size - 1].end <= info.start)) ==>
                info.StartPosition() == Walk(expression, 0, info.start, origin)
                && info.EndPosition() == Walk(expression, 0, info.end, origin)
    {
      var prev := 0;
      var base := origin;
      if size > 0 && tokenInfos[size - 1].startLine > 0 {
        var last := tokenInfos[size - 1];
        prev := last.end;
        base := last.EndPosition();
      }
      var startPos, endPos := WalkSpan(expression, prev, info.start, info.end, base);
      if PositionsExactFrom(origin) && info !in tokenInfos
         && (size == 0 || tokenInfos[size - 1].end <= info.start)
      {
        if prev > 0 {
          WalkComposes(expression, 0, prev, info.start, origin);
        }
        WalkComposes(expression, 0, info.start, info.end, origin);
      }
      info.startLine, info.startCol := startPos.line, startPos.col;
      info.endLine, info.endCol := endPos.line, endPos.col;
    }

    /** `add`: computes the token's positions, then appends it. */
    method Add(info: TokenInfo)
      requires Valid() && info.start <= info.end <= |expression|
      modifies this, info
      ensures Valid() && tokenInfos == old(tokenInfos) + [info]
      ensures offset == old(offset) && mark == old(mark) && Origin() == old(Origin())
      ensures info.token == old(info.token)
      ensures old(Ordered()) && (old(size) == 0 || old(tokenInfos[size - 1].end) <= info.start) ==> Ordered()
      ensures (old(PositionsExact()) && info !in old(tokenInfos)
               && (old(size) == 0 || old(tokenInfos[size - 1].end) <= info.start)) ==> PositionsExact()
    {
      ghost var exact := PositionsExact();
      ComputeTokenInfo(info, Origin());
      tokenInfos := tokenInfos + [info];
      size := size + 1;
    }

    predicate HasNext()
      reads this
    {
      offset < size
    }

    predicate HasPrevious()
      reads this
    {
      offset > 0
    }

    /** The token under the cursor, or an error when the cursor is off the list. */
    method Get() returns (r: Result<TokenInfo, WrongSyntax>)
      requires Valid()
      modifies this
      ensures Valid() && tokenInfos == old(tokenInfos) && mark == old(mark)
      ensures Origin() == old(Origin()) && (old(PositionsExact()) ==> PositionsExact())
      ensures old(offset) < size ==> r == Success(tokenInfos[old(offset)]) && offset == old(offset)
      ensures old(offset) >= size ==> r.Failure? && offset == LimitRange(old(offset), 0, size - 1)
    {
      if offset < 0 || offset >= size {
        var e := ThrowWrongSyntax();
        return Failure(e);
      }
      r := Success(tokenInfos[offset]);
    }

    /** `next`: the token under the cursor, advancing past it. */
    method Next() returns (r: Result<Token, WrongSyntax>)
      requires Valid()
      modifies this
      ensures Valid() && tokenInfos == old(tokenInfos) && mark == old(mark)
      ensures Origin() == old(Origin()) && (old(PositionsExact()) ==> PositionsExact())
      ensures old(offset) < size ==> r == Success(tokenInfos[old(offset)].token) && offset == old(offset) + 1
      ensures old(offset) >= size ==> r.Failure? && offset == LimitRange(old(offset), 0, size - 1)
    {
      if !HasNext() {
        var e := ThrowWrongSyntax();
        return Failure(e);
      }
      r := Success(tokenInfos[offset].token);
      offset := offset + 1;
    }

    /** `previous`: steps back and returns the token stepped over. */
    method Previous() returns (r: Result<Token, WrongSyntax>)
      requires Valid()
      modifies this
      ensures Valid() && tokenInfos == old(tokenInfos) && mark == old(mark)
      ensures Origin() == old(Origin()) && (old(PositionsExact()) ==> PositionsExact())
      ensures old(offset) > 0 ==> r == Success(tokenInfos[old(offset) - 1].token) && offset == old(offset) - 1
      ensures old(offset) == 0 ==> r.Failure? && offset == 0
    {
      if !HasPrevious() {
        var e := ThrowWrongSyntax();
        return Failure(e);
      }
      offset := offset - 1;
      r := Success(tokenInfos[offset].token);
    }

    method Mark()
      modifies this
      ensures mark == offset == old(offset) && tokenInfos == old(tokenInfos) && size == old(size)
      ensures old(Valid()) ==> Valid()
      ensures Origin() == old(Origin()) && (old(PositionsExact()) ==> PositionsExact())
    {
      mark := offset;
    }

    /** `reset`: back to the mark, which is cleared to the head. */
    method Reset()
      modifies this
      ensures offset == old(mark) && mark == 0 && tokenInfos == old(tokenInfos) && size == old(size)
      ensures old(Valid()) ==> Valid()
      ensures Origin() == old(Origin()) && (old(PositionsExact()) ==> PositionsExact())
    {
      offset := mark;
      mark := 0;
    }

    /**
     * `throwWrongSyntax`: clamps the cursor onto the last token, then raises the configured
     * syntax error for the token there (none when the stream is empty).
     */
    method ThrowWrongSyntax() returns (e: WrongSyntax)
      requires Valid()
      modifies this
      ensures Valid() && tokenInfos == old(tokenInfos) && mark == old(mark)
      ensures Origin() == old(Origin()) && (old(PositionsExact()) ==> PositionsExact())
      ensures offset == LimitRange(old(offset), 0, size - 1)
      ensures size == 0 ==> e.adjusted == None
      ensures size > 0 ==> offset < size && e.adjusted == Some(tokenInfos[offset])
    {
      offset := LimitRange(offset, 0, size - 1);
      if size == 0 {
        e := WrongSyntax(None);
      } else {
        e := WrongSyntax(Some(tokenInfos[offset]));
      }
    }
  }
}
