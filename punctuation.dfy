/** The single-character structural symbols (PunctuationToken.java) and their lookup by character. */
module Punctuation {
  import opened Wrappers

  datatype PunctuationToken =
    | COMMA | SEMICOLON | COLON | LEFT_PARENTHESIS | RIGHT_PARENTHESIS | LEFT_BRACKET
    | RIGHT_BRACKET | LEFT_BRACE | RIGHT_BRACE | AT | SHARP | DOLLAR

  /** The constants in declaration order, as `values()` lists them. */
  const AllPunctuation: seq<PunctuationToken> := [
    COMMA, SEMICOLON, COLON, LEFT_PARENTHESIS, RIGHT_PARENTHESIS, LEFT_BRACKET,
    RIGHT_BRACKET, LEFT_BRACE, RIGHT_BRACE, AT, SHARP, DOLLAR]

  function Raw(p: PunctuationToken): string {
    match p
    case COMMA => ","
    case SEMICOLON => ";"
    case COLON => ":"
    case LEFT_PARENTHESIS => "("
    case RIGHT_PARENTHESIS => ")"
    case LEFT_BRACKET => "["
    case RIGHT_BRACKET => "]"
    case LEFT_BRACE => "{"
    case RIGHT_BRACE => "}"
    case AT => "@"
    case SHARP => "#"
    case DOLLAR => "$"
  }

  /** The character a constant is filed under in the lookup map. */
  function Key(p: PunctuationToken): char { Raw(p)[0] }

  /** The static initialiser: file each constant under its key, in declaration order. */
  function Fill(ps: seq<PunctuationToken>, m: map<char, PunctuationToken>): map<char, PunctuationToken> {
    if ps == [] then m else Fill(ps[1..], m[Key(ps[0]) := ps[0]])
  }

  function ValueMap(): map<char, PunctuationToken> { Fill(AllPunctuation, map[]) }

  /** `PunctuationToken.search(c)`: the constant stored under `c`, or null. */
  function Search(c: char): Option<PunctuationToken> {
    var m := ValueMap();
    if c in m then Some(m[c]) else None
  }

  /** Every raw text is one character. */
  lemma RawIsOneChar(p: PunctuationToken)
    ensures |Raw(p)| == 1 && Raw(p) == [Key(p)]
  {
  }

  /** No two constants share a raw text, so the lookup map loses nothing. */
  lemma KeyInjective(p: PunctuationToken, q: PunctuationToken)
    requires Key(p) == Key(q)
    ensures p == q
  {
  }

  /** The keys of `ps`, in order. */
  function Keys(ps: seq<PunctuationToken>): (r: string)
    ensures |r| == |ps| && forall k :: 0 <= k < |ps| ==> r[k] == Key(ps[k])
  {
    seq(|ps|, k requires 0 <= k < |ps| => Key(ps[k]))
  }

  /** The keys of all constants spell the twelve symbols. */
  lemma KeysOfAll()
    ensures Keys(AllPunctuation) == ",;:()[]{}@#$"
  {
  }

  /**
   * Filling keeps every entry under its own key and adds exactly the keys of `ps`; each constant
   * of `ps` ends up stored.
   */
  lemma {:induction false} FillLookup(ps: seq<PunctuationToken>, m: map<char, PunctuationToken>)
    requires forall c :: c in m ==> Key(m[c]) == c
    ensures forall c :: c in Fill(ps, m) <==> c in m || c in Keys(ps)
    ensures forall c :: c in Fill(ps, m) ==> Key(Fill(ps, m)[c]) == c
  {
    if ps != [] {
      FillLookup(ps[1..], m[Key(ps[0]) := ps[0]]);
      assert Keys(ps) == [Key(ps[0])] + Keys(ps[1..]);
    }
  }

  /** Round trip: looking up a constant's own character gives the constant back. */
  lemma SearchRoundTrip(p: PunctuationToken)
    ensures Search(Key(p)) == Some(p)
  {
    FillLookup(AllPunctuation, map[]);
    KeysOfAll();
    assert Key(p) in ValueMap();
    KeyInjective(p, ValueMap()[Key(p)]);
  }

  /** `search` finds exactly the twelve characters `, ; : ( ) [ ] { } @ # $`, each for the constant spelled so. */
  lemma SearchExact(c: char)
    ensures Search(c).Some? <==> c in ",;:()[]{}@#$"
    ensures Search(c).Some? ==> Raw(Search(c).value) == [c]
  {
    FillLookup(AllPunctuation, map[]);
    KeysOfAll();
    if Search(c).Some? {
      RawIsOneChar(Search(c).value);
    }
  }
}
