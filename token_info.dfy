/**
 * TokenInfo: a token wrapper that remembers where the token sits in the expression. The span
 * and the original token are fixed at construction; the wrapped token can be replaced and the
 * line/column fields are filled in later by the stream that owns it (0 means "not computed").
 */
module TokenInfos {
  import opened Tokens
  import opened Positions

  class TokenInfo {
    const rawToken: Token
    const start: nat
    const end: nat
    var token: Token
    var startLine: int
    var startCol: int
    var endLine: int
    var endCol: int

    constructor (t: Token, start: nat, end: nat)
      ensures rawToken == t && token == t && this.start == start && this.end == end
      ensures startLine == 0 && startCol == 0 && endLine == 0 && endCol == 0
    {
      rawToken := t;
      token := t;
      this.start := start;
      this.end := end;
      startLine, startCol, endLine, endCol := 0, 0, 0, 0;
    }

    /** The start position, once a stream has computed it. */
    function StartPosition(): Position reads this { Position(startLine, startCol) }

    /** The position just past the token. */
    function EndPosition(): Position reads this { Position(endLine, endCol) }

    /** Every query of the wrapper answers for the wrapped token. */
    predicate Has(c: Capability) reads this { Tokens.Has(token, c) }

    function GetRaw(): string reads this { Tokens.GetRaw(token) }

    /**
     * `replace`: a bare token is swapped into the wrapper, which is returned in its place; a wrapper
     * argument goes through the default `replace`, which returns the argument and changes nothing.
     */
    method Replace(arg: TokenRef) returns (r: TokenRef)
      modifies this
      ensures arg.Bare? ==> r == Wrapped(this) && token == arg.t
      ensures arg.Wrapped? ==> r == arg && token == old(token)
      ensures startLine == old(startLine) && startCol == old(startCol)
      ensures endLine == old(endLine) && endCol == old(endCol)
    {
      if arg.Bare? {
        token := arg.t;
        r := Wrapped(this);
      } else {
        r := arg;
      }
    }
  }

  /** A token as the parser holds it: a bare token, or a token wrapped in its position info. */
  datatype TokenRef = Bare(t: Token) | Wrapped(info: TokenInfo)
}
