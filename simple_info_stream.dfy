/**
 * SimpleTokenInfoStream: a simple stream that builds the TokenInfo itself from a token and its
 * span, with its own first line and column. The inherited state and cursor operations are those
 * of the underlying SimpleTokenStream (`base`).
 */
module SimpleInfoStreams {
  import opened Tokens
  import opened Positions
  import opened TokenInfos
  import opened LexConfigs
  import opened SimpleStreams

  class SimpleTokenInfoStream {
    const base: SimpleTokenStream
    var firstLineNo: int
    var firstCol: int

    function Origin(): Position
      reads this
    {
      Position(firstLineNo, firstCol)
    }

    constructor (expression: string, config: LexConfig)
      ensures fresh(base) && base.expression == expression && base.config == config
      ensures base.tokenInfos == [] && base.offset == 0 && base.mark == 0 && base.Valid()
      ensures Origin() == Position(1, 1) && base.Origin() == Position(1, 1) && base.PositionsExactFrom(Origin())
    {
      base := new SimpleTokenStream(expression, config);
      firstLineNo := 1;
      firstCol := 1;
    }

    /** `add(token, start, end)`: wraps the token, computes its positions from this stream's origin, appends it. */
    method Add(t: Token, start: nat, end: nat) returns (info: TokenInfo)
      requires base.Valid() && start <= end <= |base.expression|
      modifies base
      ensures fresh(info) && info.rawToken == t && info.token == t && info.start == start && info.end == end
      ensures base.Valid() && base.tokenInfos == old(base.tokenInfos) + [info]
      ensures base.offset == old(base.offset) && base.mark == old(base.mark)
      ensures (old(base.PositionsExactFrom(Origin())) && old(base.Ordered())
               && (old(base.size) == 0 || old(base.tokenInfos[base.size - 1].end) <= start)) ==>
                base.PositionsExactFrom(Origin()) && base.Ordered()
    {
      info := new TokenInfo(t, start, end);
      base.ComputeTokenInfo(info, Origin());
      base.tokenInfos := base.tokenInfos + [info];
      base.size := base.size + 1;
    }

    /**
     * `copy`: a new stream over the same TokenInfo objects with the same cursor, mark and origin;
     * the inherited origin of the copy is the default (1, 1).
     */
    method Copy() returns (c: SimpleTokenInfoStream)
      ensures fresh(c) && fresh(c.base)
      ensures c.base.expression == base.expression && c.base.config == base.config
      ensures c.base.tokenInfos == base.tokenInfos && c.base.size == base.size
      ensures c.base.offset == base.offset && c.base.mark == base.mark
      ensures c.Origin() == Origin() && c.base.Origin() == Position(1, 1)
      ensures base.Valid() ==> c.base.Valid()
    {
      c := new SimpleTokenInfoStream(base.expression, base.config);
      c.base.tokenInfos := base.tokenInfos;
      c.base.size := base.size;
      c.base.offset := base.offset;
      c.base.mark := base.mark;
      c.firstLineNo := firstLineNo;
      c.firstCol := firstCol;
    }
  }
}
