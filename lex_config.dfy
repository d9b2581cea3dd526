/**
 * LexConfig: the mutable configuration a lexer reads on every call (comment markers, keywords,
 * number strategy, diagnostics settings), and the lexical error it produces.
 */
module LexConfigs {
  import opened Wrappers
  import opened Numbers
  import opened Tokens
  import opened Positions
  import opened Scanner
  import TokenInfos

  /** The exceptions lexing raises: an invalid character, or a literal the integer parser rejects. */
  datatype LexError =
    | LexCompileError(expression: string, offset: nat, line: int, col: int)
    | NumberFormatError(literal: string)

  /** A call of `throwWrongSyntax`: the producer receives the adjusted current token, or null when there is none. */
  datatype WrongSyntax = WrongSyntax(adjusted: Option<TokenInfos.TokenInfo>)

  /** `limitRange(v, lo, hi)`: `v` clamped into `[lo, hi]`; an empty range yields `lo`. */
  function LimitRange(v: int, lo: int, hi: int): (r: int)
    ensures lo <= hi ==> lo <= r <= hi
    ensures lo <= v <= hi ==> r == v
    ensures v > hi && lo <= hi ==> r == hi
    ensures hi < lo ==> r == lo
  {
    if v > hi then (if hi < lo then lo else hi) else if v < lo then lo else v
  }

  /** The keyword map after `put(t.getIdentifier(), t)` for each token in order. */
  function PutAll(m: map<string, Token>, ts: seq<Token>): map<string, Token>
    requires forall k :: 0 <= k < |ts| ==> ts[k].IdentifierToken?
  {
    if ts == [] then m
    else
      var last := ts[|ts| - 1];
      PutAll(m, ts[..|ts| - 1])[GetIdentifier(last) := last]
  }

  /**
   * After registering keywords, a spelling is a keyword when it was one before or one of the new
   * tokens spells it, and every keyword still maps to the identifier of its own spelling.
   */
  lemma {:induction false} PutAllLookup(m: map<string, Token>, ts: seq<Token>, v: string)
    requires forall k :: 0 <= k < |ts| ==> ts[k].IdentifierToken?
    ensures v in PutAll(m, ts) <==> v in m || exists k :: 0 <= k < |ts| && ts[k].raw == v
    ensures KeywordsKeyed(Rules([], [], m, map[], NONE, PastEnd)) ==> KeywordsKeyed(Rules([], [], PutAll(m, ts), map[], NONE, PastEnd))
  {
    if ts != [] {
      var init := ts[..|ts| - 1];
      PutAllLookup(m, init, v);
      assert forall k :: 0 <= k < |init| ==> init[k] == ts[k];
      if v in PutAll(m, ts) && v !in m && v != ts[|ts| - 1].raw {
        var k :| 0 <= k < |init| && init[k].raw == v;
        assert ts[k].raw == v;
      }
      if KeywordsKeyed(Rules([], [], m, map[], NONE, PastEnd)) {
        forall w | w in PutAll(m, init)
          ensures PutAll(m, init)[w] == IdentifierToken(w)
        {
          PutAllLookup(m, init, w);
        }
      }
    }
  }

  class LexConfig {
    var keywords: map<string, Token>
    /** Named identifier values the eager lexer substitutes for identifiers. */
    var identifierValues: map<string, Token>
    var bigNumberStrategy: BigNumberStrategy
    var singleComments: seq<string>
    var multipleComments: seq<(string, string)>
    /** How messages name the input. */
    var name: string
    /** Width of the sample quoted in syntax errors; zero or less disables it. */
    var sampleCharCount: int
    var enableLazy: bool
    var enableTokenInfo: bool

    /** The defaults: no keywords, `//` and `/* */` comments, the NONE strategy, a 256-character sample. */
    constructor ()
      ensures keywords == map[] && identifierValues == map[] && bigNumberStrategy == NONE
      ensures singleComments == ["//"] && multipleComments == [("/*", "*/")]
      ensures name == "expression" && sampleCharCount == 256 && !enableLazy && !enableTokenInfo
      ensures Rules() == DefaultRules && Rules().WellFormed()
    {
      keywords := map[];
      identifierValues := map[];
      bigNumberStrategy := NONE;
      singleComments := ["//"];
      multipleComments := [("/*", "*/")];
      name := "expression";
      sampleCharCount := 256;
      enableLazy := false;
      enableTokenInfo := false;
    }

    /** What the rule machine reads from this configuration, run as the lexers run it. */
    function Rules(): Rules
      reads this
    {
      Scanner.Rules(singleComments, multipleComments, keywords, identifierValues, bigNumberStrategy, PastEnd)
    }

    /** The lazy stream does not consult identifier values. */
    function LazyRules(): (r: Rules)
      reads this
      ensures r.WellFormed() <==> Rules().WellFormed()
      ensures forall v :: v !in r.identifierValues
      ensures r.blockResume == PastEnd
    {
      Rules().(identifierValues := map[])
    }

    /** `addKeyword`: registers each token under its spelling. */
    method AddKeyword(ts: seq<Token>)
      requires forall k :: 0 <= k < |ts| ==> ts[k].IdentifierToken?
      modifies this
      ensures keywords == PutAll(old(keywords), ts)
      ensures identifierValues == old(identifierValues) && bigNumberStrategy == old(bigNumberStrategy)
      ensures singleComments == old(singleComments) && multipleComments == old(multipleComments)
      ensures name == old(name) && sampleCharCount == old(sampleCharCount)
      ensures enableLazy == old(enableLazy) && enableTokenInfo == old(enableTokenInfo)
    {
      var k := 0;
      while k < |ts|
        invariant 0 <= k <= |ts| && keywords == PutAll(old(keywords), ts[..k])
        invariant identifierValues == old(identifierValues) && bigNumberStrategy == old(bigNumberStrategy)
        invariant singleComments == old(singleComments) && multipleComments == old(multipleComments)
        invariant name == old(name) && sampleCharCount == old(sampleCharCount)
        invariant enableLazy == old(enableLazy) && enableTokenInfo == old(enableTokenInfo)
      {
        assert ts[..k + 1][..k] == ts[..k];
        keywords := keywords[GetIdentifier(ts[k]) := ts[k]];
        k := k + 1;
      }
      assert ts[..k] == ts;
    }

    /**
     * `produceLexCompileException`: the error at `offset`, with the line and column reached by
     * walking from (1, 1) over the text up to and including that offset.
     */
    method ProduceLexCompileException(expression: string, offset: nat) returns (e: LexError)
      requires offset < |expression|
      ensures e.LexCompileError? && e.expression == expression && e.offset == offset
      ensures Position(e.line, e.col) == Walk(expression, 0, offset + 1, Position(1, 1))
      ensures e.line == 1 + Newlines(expression, 0, offset + 1)
    {
      var pos := ReportPosition(expression, offset);
      e := LexCompileError(expression, offset, pos.line, pos.col);
    }
  }
}
