/**
 * Line and column bookkeeping shared by the token streams and the lexer's error path: walking
 * over a character moves one column right, walking over a newline moves to column 1 of the
 * next line.
 */
module Positions {
  import opened Wrappers

  datatype Position = Position(line: int, col: int)

  /** The position after passing over `c`. */
  function Advance(p: Position, c: char): Position {
    if c != '\n' then Position(p.line, p.col + 1) else Position(p.line + 1, 1)
  }

  /** The position reached by passing over `text[lo..hi]`, starting at `p`. */
  function Walk(text: string, lo: nat, hi: nat, p: Position): Position
    requires lo <= hi <= |text|
    decreases hi
  {
    if lo == hi then p else Advance(Walk(text, lo, hi - 1, p), text[hi - 1])
  }

  /** The number of newlines in `text[lo..hi]`. */
  function Newlines(text: string, lo: nat, hi: nat): nat
    requires lo <= hi <= |text|
    decreases hi
  {
    if lo == hi then 0 else Newlines(text, lo, hi - 1) + (if text[hi - 1] == '\n' then 1 else 0)
  }

  /** The index of the last newline in `text[lo..hi]`, if any. */
  function LastNewline(text: string, lo: nat, hi: nat): (r: Option<nat>)
    requires lo <= hi <= |text|
    ensures r.Some? ==> lo <= r.value < hi && text[r.value] == '\n'
    ensures r.Some? ==> forall k :: r.value < k < hi ==> text[k] != '\n'
    ensures r.None? ==> (forall k :: lo <= k < hi ==> text[k] != '\n')
    decreases hi
  {
    if lo == hi then None
    else if text[hi - 1] == '\n' then Some(hi - 1)
    else LastNewline(text, lo, hi - 1)
  }

  /**
   * What a walk computes, independently of the character-by-character steps: the line grows by
   * the number of newlines passed; the column counts the characters after the last newline
   * (from 1), or grows by the distance walked when there is none.
   */
  lemma {:induction false} WalkMeaning(text: string, lo: nat, hi: nat, p: Position)
    requires lo <= hi <= |text|
    ensures Walk(text, lo, hi, p).line == p.line + Newlines(text, lo, hi)
    ensures Walk(text, lo, hi, p).col ==
              (match LastNewline(text, lo, hi)
               case None => p.col + (hi - lo)
               case Some(k) => hi - k)
  {
    if lo < hi {
      WalkMeaning(text, lo, hi - 1, p);
    }
  }

  /** Walking in two legs is walking once: the cache of the previous token's end is sound. */
  lemma {:induction false} WalkComposes(text: string, a: nat, b: nat, c: nat, p: Position)
    requires a <= b <= c <= |text|
    ensures Walk(text, a, c, p) == Walk(text, b, c, Walk(text, a, b, p))
  {
    if b < c {
      WalkComposes(text, a, b, c - 1, p);
    }
  }

  /** Lines never decrease along a walk. */
  lemma WalkLineMonotone(text: string, lo: nat, hi: nat, p: Position)
    requires lo <= hi <= |text|
    ensures Walk(text, lo, hi, p).line >= p.line
  {
    WalkMeaning(text, lo, hi, p);
  }

  /**
   * The two position loops of `computeTokenInfo`: walk from `prev` to the token's start, then
   * on to its end. A loop whose range is empty leaves its position where it was.
   */
  method WalkSpan(text: string, prev: nat, start: nat, end: nat, origin: Position)
    returns (startPos: Position, endPos: Position)
    requires start <= |text| && end <= |text|
    ensures prev <= start ==> startPos == Walk(text, prev, start, origin)
    ensures prev > start ==> startPos == origin
    ensures start <= end ==> endPos == Walk(text, start, end, startPos)
    ensures start > end ==> endPos == startPos
  {
    startPos := origin;
    var i := prev;
    while i < start
      invariant prev <= start ==> prev <= i <= start && startPos == Walk(text, prev, i, origin)
      invariant prev > start ==> i == prev && startPos == origin
      decreases start - i
    {
      var c := text[i];
      if c != '\n' {
        startPos := startPos.(col := startPos.col + 1);
      } else {
        startPos := Position(startPos.line + 1, 1);
      }
      i := i + 1;
    }
    endPos := startPos;
    i := start;
    while i < end
      invariant start <= end ==> start <= i <= end && endPos == Walk(text, start, i, startPos)
      invariant start > end ==> i == start && endPos == startPos
      decreases end - i
    {
      var c := text[i];
      if c != '\n' {
        endPos := endPos.(col := endPos.col + 1);
      } else {
        endPos := Position(endPos.line + 1, 1);
      }
      i := i + 1;
    }
  }

  /**
   * The position an invalid-character error reports for `offset`: the walk from (1, 1) over
   * `text[0..offset]` inclusive, i.e. the position just after the offending character.
   */
  method ReportPosition(text: string, offset: nat) returns (pos: Position)
    requires offset < |text|
    ensures pos == Walk(text, 0, offset + 1, Position(1, 1))
    ensures pos == Advance(Walk(text, 0, offset, Position(1, 1)), text[offset])
    ensures pos.line == 1 + Newlines(text, 0, offset + 1)
  {
    pos := Position(1, 1);
    var i := 0;
    while i <= offset
      invariant 0 <= i <= offset + 1 && pos == Walk(text, 0, i, Position(1, 1))
    {
      var c := text[i];
      if c != '\n' {
        pos := pos.(col := pos.col + 1);
      } else {
        pos := Position(pos.line + 1, 1);
      }
      i := i + 1;
    }
    WalkMeaning(text, 0, offset + 1, Position(1, 1));
  }

  /** On a single line, the reported column of the character at `offset` is `offset + 2`, one past its own. */
  lemma ReportedColumnOnFirstLine(text: string, offset: nat)
    requires offset < |text| && forall k :: 0 <= k <= offset ==> text[k] != '\n'
    ensures Walk(text, 0, offset + 1, Position(1, 1)) == Position(1, offset + 2)
    ensures Walk(text, 0, offset, Position(1, 1)) == Position(1, offset + 1)
  {
    WalkMeaning(text, 0, offset + 1, Position(1, 1));
    WalkMeaning(text, 0, offset, Position(1, 1));
    NoNewlinesCounted(text, 0, offset + 1);
    NoNewlinesCounted(text, 0, offset);
  }

  lemma {:induction false} NoNewlinesCounted(text: string, lo: nat, hi: nat)
    requires lo <= hi <= |text| && forall k :: lo <= k < hi ==> text[k] != '\n'
    ensures Newlines(text, lo, hi) == 0
  {
    if lo < hi {
      NoNewlinesCounted(text, lo, hi - 1);
    }
  }
}
