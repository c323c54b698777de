/**
 * The related-element marker: with the caret on a `|`, a quantifier or a
 * back-reference, it marks the alternatives of the alternation, the
 * quantified atom, or the referenced group. The finders walk the editor's
 * token iterator back and forth from the token under the caret; each
 * walk is proved to report exactly the ranges `RelatedSpecs` describes.
 */
module RelatedElements {
  import opened Wrappers
  import opened Tokens
  import opened Session
  import opened Lexer
  import opened BracketStructure
  import opened RelatedSpecs

  /** The editor's token iterator as the finders use it: a position in the
      session's tokens in document order. Stepping back from the first
      token or forward from the last yields nothing and leaves it just
      past that end (-1 or `|toks|`). */
  class AceTokenIterator {
    const toks: seq<Located>
    var pos: int

    /** Placed on the token that getTokenAt finds at (`row`, `column`). */
    constructor (rows: seq<seq<RowToken>>, row: nat, column: int)
      requires row < |rows| && TokenAt(rows[row], column).Some?
      ensures toks == Flatten(rows)
      ensures pos == Offset(rows, row) + TokenAt(rows[row], column).value < |toks|
    {
      var k := TokenAt(rows[row], column).value;
      FlattenAt(rows, row, k);
      toks := Flatten(rows);
      pos := Offset(rows, row) + k;
    }

    method StepBackward() returns (t: Option<Token>)
      requires 0 <= pos <= |toks|
      modifies this
      ensures pos == old(pos) - 1
      ensures t == if pos >= 0 then Some(toks[pos].token) else None
    {
      pos := pos - 1;
      t := if pos >= 0 then Some(toks[pos].token) else None;
    }

    method StepForward() returns (t: Option<Token>)
      requires -1 <= pos < |toks|
      modifies this
      ensures pos == old(pos) + 1
      ensures t == if pos < |toks| then Some(toks[pos].token) else None
    {
      pos := pos + 1;
      t := if pos < |toks| then Some(toks[pos].token) else None;
    }

    function GetCurrentToken(): Token
      reads this
      requires 0 <= pos < |toks|
    {
      toks[pos].token
    }

    function GetCurrentTokenRow(): nat
      reads this
      requires 0 <= pos < |toks|
    {
      toks[pos].row
    }

    function GetCurrentTokenColumn(): nat
      reads this
      requires 0 <= pos < |toks|
    {
      toks[pos].col
    }

    /** Going back to a position saved earlier. */
    method LoadState(saved: int)
      modifies this
      ensures pos == saved
    {
      pos := saved;
    }
  }

  // ----- the `|` finder -----

  /** The alternatives of the alternation around the `|` under the
      iterator, in the order the finder reports them. */
  method OrSymbolRanges(itr: AceTokenIterator, t: Located) returns (ranges: seq<Range>)
    requires 0 <= itr.pos < |itr.toks| && t == itr.toks[itr.pos]
    modifies itr
    ensures ranges == OrRanges(itr.toks, old(itr.pos))
  {
    var saved := itr.pos;
    ghost var q := itr.pos;
    var back := WalkBack(itr, t);
    itr.LoadState(saved);
    var fwd := WalkForward(itr, t);
    ranges := back + fwd;
  }

  /** The walk back from the `|` under the iterator: the gaps between the
      bars on its level, then the first alternative, from just after the
      group opener (or the start of the input). */
  method WalkBack(itr: AceTokenIterator, t: Located) returns (ranges: seq<Range>)
    requires 0 <= itr.pos < |itr.toks| && t == itr.toks[itr.pos]
    modifies itr
    ensures ranges == AlternativesBefore(itr.toks, old(itr.pos))
  {
    ghost var q := itr.pos;
    var lastOr;
    ranges, lastOr := BackToOpener(itr, t);
    var _ := itr.StepForward();
    var row := itr.GetCurrentTokenRow();
    var column := itr.GetCurrentTokenColumn();
    ranges := ranges + [Range(Position(row, column), Position(lastOr.row, lastOr.col))];
  }

  /** The depth the walk back has seen when it stands on `p`: the tokens
      from `p` up to `q`, whose running count of brackets never went below
      the level of `q`. */
  ghost predicate BackDepth(toks: seq<Located>, q: nat, p: int, range: int)
  {
    && 0 <= p <= q < |toks|
    && range == Net(toks, p, q)
    && (forall j :: p <= j < q ==> Net(toks, j, q) >= 0)
  }

  /** The bars the walk back has reported when it stands on `p`: the gaps
      between the bars on the level of `q`, and the last of them. */
  ghost predicate BackBars(toks: seq<Located>, q: nat, p: int, ranges: seq<Range>, lastOr: Located)
  {
    && 0 <= p <= q < |toks|
    && var below := BarsBelow(toks, p - 1, q);
       ranges == BackGaps(toks, q, below) && lastOr == toks[LastOf(q, below)]
  }

  ghost predicate WalkedBack(toks: seq<Located>, q: nat, p: int, range: int, ranges: seq<Range>, lastOr: Located)
  {
    BackDepth(toks, q, p, range) && BackBars(toks, q, p, ranges, lastOr)
  }

  /** The loop of the walk back: it stops on the group opener (or just
      before the first token), having reported the gaps between the bars
      on the level of `q` and kept the last bar seen. */
  method BackToOpener(itr: AceTokenIterator, t: Located) returns (ranges: seq<Range>, lastOr: Located)
    requires 0 <= itr.pos < |itr.toks| && t == itr.toks[itr.pos]
    modifies itr
    ensures itr.pos == EnclosingOpen(itr.toks, old(itr.pos))
    ensures var q := old(itr.pos);
      var below := BarsBelow(itr.toks, itr.pos, q);
      && ranges == BackGaps(itr.toks, q, below)
      && lastOr == itr.toks[LastOf(q, below)]
  {
    ghost var q := itr.pos;
    var range := 0;
    lastOr := t;
    ranges := [];
    var done := false;
    while !done
      invariant !done ==> WalkedBack(itr.toks, q, itr.pos, range, ranges, lastOr)
      invariant done ==> BackDone(itr.toks, q, itr.pos, ranges, lastOr)
      decreases itr.pos + (if done then 0 else 1)
    {
      done, range, ranges, lastOr := BackStep(itr, q, range, ranges, lastOr);
    }
  }

  /** Where the walk back ends: on the group opener, with every bar of the
      level of `q` after it reported. */
  ghost predicate BackDone(toks: seq<Located>, q: nat, p: int, ranges: seq<Range>, lastOr: Located)
    requires q < |toks|
  {
    && p == EnclosingOpen(toks, q)
    && var below := BarsBelow(toks, p, q);
       ranges == BackGaps(toks, q, below) && lastOr == toks[LastOf(q, below)]
  }

  /** Passing a token that does not open the group keeps the depth. */
  lemma BackDepthPast(toks: seq<Located>, q: nat, p: nat, range: int)
    requires p < q < |toks| && BackDepth(toks, q, p + 1, range)
    requires Delta(toks[p]) == -1 ==> range != 0
    ensures BackDepth(toks, q, p, range + Delta(toks[p]))
  {
    NetCons(toks, p, q);
  }

  /** Passing a token, the walk back reports a `|` on the level of `q` and
      keeps it. */
  lemma BackBarsPast(toks: seq<Located>, q: nat, p: nat, ranges: seq<Range>, lastOr: Located)
    requires p < q < |toks| && BackBars(toks, q, p + 1, ranges, lastOr)
    ensures if Net(toks, p + 1, q) == 0 && IsOr(toks[p]) then
        BackBars(toks, q, p, ranges + [Range(toks[p].End(), lastOr.Start())], toks[p])
      else
        BackBars(toks, q, p, ranges, lastOr)
  {
    var below := BarsBelow(toks, p, q);
    NetCons(toks, p, q);
    BarsBelowNext(toks, p, q);
    if Net(toks, p + 1, q) == 0 && IsOr(toks[p]) {
      assert BarsBelow(toks, p - 1, q) == below + [p];
      BackGapsSnoc(toks, q, below, p);
      assert LastOf(q, below + [p]) == p;
    } else {
      assert BarsBelow(toks, p - 1, q) == below;
    }
  }

  /** Passing a token that does not open the group: the new state of the
      walk back. */
  lemma BackPast(toks: seq<Located>, q: nat, p: nat, range: int, ranges: seq<Range>, lastOr: Located,
                 range': int, ranges': seq<Range>, lastOr': Located)
    requires p < q < |toks| && WalkedBack(toks, q, p + 1, range, ranges, lastOr)
    requires Delta(toks[p]) == -1 ==> range != 0
    requires range' == range + Delta(toks[p])
    requires if range == 0 && IsOr(toks[p])
      then ranges' == ranges + [Range(toks[p].End(), lastOr.Start())] && lastOr' == toks[p]
      else ranges' == ranges && lastOr' == lastOr
    ensures WalkedBack(toks, q, p, range', ranges', lastOr')
  {
    BackDepthPast(toks, q, p, range);
    BackBarsPast(toks, q, p, ranges, lastOr);
  }

  /** The walk back stops before the first token or on the group opener. */
  lemma BackStop(toks: seq<Located>, q: nat, p: int, range: int, ranges: seq<Range>, lastOr: Located)
    requires -1 <= p < q < |toks| && WalkedBack(toks, q, p + 1, range, ranges, lastOr)
    requires p >= 0 ==> Delta(toks[p]) == -1 && range == 0
    ensures BackDone(toks, q, p, ranges, lastOr)
  {
    if p >= 0 {
      NetCons(toks, p, q);
    }
    OpenUnique(toks, q, p);
  }

  /** One step of the walk back. */
  method BackStep(itr: AceTokenIterator, ghost q: nat, range: int, ranges: seq<Range>, lastOr: Located)
    returns (done: bool, range': int, ranges': seq<Range>, lastOr': Located)
    requires WalkedBack(itr.toks, q, itr.pos, range, ranges, lastOr)
    modifies itr
    ensures itr.pos == old(itr.pos) - 1
    ensures !done ==> WalkedBack(itr.toks, q, itr.pos, range', ranges', lastOr')
    ensures done ==> BackDone(itr.toks, q, itr.pos, ranges', lastOr')
  {
    ghost var toks := itr.toks;
    ghost var p := itr.pos - 1;
    range', ranges', lastOr' := range, ranges, lastOr;
    var cur := itr.StepBackward();
    if cur.None? {
      BackStop(toks, q, p, range, ranges, lastOr);
      return true, range', ranges', lastOr';
    }
    var tok := cur.value;
    done := false;
    if tok.kind == OpenBracket && range == 0 {
      BackStop(toks, q, p, range, ranges, lastOr);
      return true, range', ranges', lastOr';
    }
    if tok.kind == OpenBracket {
      range' := range - 1;
    } else if tok.kind == ClosedBracket {
      range' := range + 1;
    } else if range == 0 && tok.kind == OrSymbol {
      var column := itr.GetCurrentTokenColumn();
      var row := itr.GetCurrentTokenRow();
      ranges' := ranges + [Range(Position(row, column + |tok.text|), Position(lastOr.row, lastOr.col))];
      lastOr' := Located(tok, row, column);
    }
    BackPast(toks, q, p, range, ranges, lastOr, range', ranges', lastOr');
  }


  /** The walk forward from the `|` under the iterator: the gaps between
      the bars on its level, then the last alternative, up to just before
      the group closer (or the end of the input). */
  method WalkForward(itr: AceTokenIterator, t: Located) returns (ranges: seq<Range>)
    requires 0 <= itr.pos < |itr.toks| && t == itr.toks[itr.pos]
    modifies itr
    ensures ranges == AlternativesAfter(itr.toks, old(itr.pos))
  {
    ghost var q := itr.pos;
    ghost var toks := itr.toks;
    var lastOr;
    ranges, lastOr := ForwardToCloser(itr, t);
    ghost var hi := itr.pos;
    var _ := itr.StepBackward();
    var row := itr.GetCurrentTokenRow();
    var column := itr.GetCurrentTokenColumn();
    var text := itr.GetCurrentToken().text;
    assert Position(row, column + |text|) == toks[hi - 1].End();
    assert Position(lastOr.row, lastOr.col + |lastOr.token.text|) == lastOr.End();
    ranges := ranges + [Range(Position(lastOr.row, lastOr.col + |lastOr.token.text|), Position(row, column + |text|))];
  }

  /** The depth the walk forward has seen when it stands on `p`: the
      tokens after `q` up to `p`, whose running count of brackets never
      went below the level of `q`. */
  ghost predicate ForwardDepth(toks: seq<Located>, q: nat, p: int, range: int)
  {
    && q <= p < |toks|
    && range == -Net(toks, q + 1, p + 1)
    && (var s := q + 1; forall e :: s < e <= p + 1 ==> OpensCover(toks, s, e))
  }

  /** The bars the walk forward has reported when it stands on `p`: the
      gaps between the bars on the level of `q`, and the last of them. */
  ghost predicate ForwardBars(toks: seq<Located>, q: nat, p: int, ranges: seq<Range>, lastOr: Located)
  {
    && q <= p < |toks|
    && var above := BarsAbove(toks, q, p + 1);
       ranges == FwdGaps(toks, q, above) && lastOr == toks[LastOf(q, above)]
  }

  ghost predicate WalkedForward(toks: seq<Located>, q: nat, p: int, range: int, ranges: seq<Range>, lastOr: Located)
  {
    ForwardDepth(toks, q, p, range) && ForwardBars(toks, q, p, ranges, lastOr)
  }

  /** Where the walk forward ends: on the group closer, with every bar of
      the level of `q` before it reported. */
  ghost predicate ForwardDone(toks: seq<Located>, q: nat, p: int, ranges: seq<Range>, lastOr: Located)
    requires q < |toks|
  {
    && p == EnclosingClose(toks, q)
    && var above := BarsAbove(toks, q, p);
       ranges == FwdGaps(toks, q, above) && lastOr == toks[LastOf(q, above)]
  }

  /** Passing a token that does not close the group keeps the depth. */
  lemma ForwardDepthPast(toks: seq<Located>, q: nat, p: nat, range: int)
    requires q < p < |toks| && ForwardDepth(toks, q, p - 1, range)
    requires Delta(toks[p]) == 1 ==> range != 0
    ensures ForwardDepth(toks, q, p, range - Delta(toks[p]))
  {
    var s := q + 1;
    assert Net(toks, s, p + 1) == Net(toks, s, p) + Delta(toks[p]);
    assert p > s ==> OpensCover(toks, s, p);
    assert OpensCover(toks, s, p + 1);
  }

  /** Passing a token, the walk forward reports a `|` on the level of `q`
      and keeps it. */
  lemma ForwardBarsPast(toks: seq<Located>, q: nat, p: nat, ranges: seq<Range>, lastOr: Located)
    requires q < p < |toks| && ForwardBars(toks, q, p - 1, ranges, lastOr)
    ensures if Net(toks, q + 1, p) == 0 && IsOr(toks[p]) then
        ForwardBars(toks, q, p, ranges + [Range(lastOr.End(), toks[p].Start())], toks[p])
      else
        ForwardBars(toks, q, p, ranges, lastOr)
  {
    var above := BarsAbove(toks, q, p);
    BarsAboveNext(toks, q, p);
    if Net(toks, q + 1, p) == 0 && IsOr(toks[p]) {
      assert BarsAbove(toks, q, p + 1) == above + [p];
      FwdGapsSnoc(toks, q, above, p);
      assert LastOf(q, above + [p]) == p;
    } else {
      assert BarsAbove(toks, q, p + 1) == above;
    }
  }

  /** Passing a token that does not close the group: the new state of the
      walk forward. */
  lemma ForwardPast(toks: seq<Located>, q: nat, p: nat, range: int, ranges: seq<Range>, lastOr: Located,
                    range': int, ranges': seq<Range>, lastOr': Located)
    requires q < p < |toks| && WalkedForward(toks, q, p - 1, range, ranges, lastOr)
    requires Delta(toks[p]) == 1 ==> range != 0
    requires range' == range - Delta(toks[p])
    requires if range == 0 && IsOr(toks[p])
      then ranges' == ranges + [Range(lastOr.End(), toks[p].Start())] && lastOr' == toks[p]
      else ranges' == ranges && lastOr' == lastOr
    ensures WalkedForward(toks, q, p, range', ranges', lastOr')
  {
    ForwardDepthPast(toks, q, p, range);
    ForwardBarsPast(toks, q, p, ranges, lastOr);
  }

  /** The walk forward stops after the last token or on the group closer. */
  lemma ForwardStop(toks: seq<Located>, q: nat, p: nat, range: int, ranges: seq<Range>, lastOr: Located)
    requires q < p <= |toks| && WalkedForward(toks, q, p - 1, range, ranges, lastOr)
    requires p < |toks| ==> Delta(toks[p]) == 1 && range == 0
    ensures ForwardDone(toks, q, p, ranges, lastOr)
  {
    if p < |toks| {
      assert Net(toks, q + 1, p + 1) == Net(toks, q + 1, p) + Delta(toks[p]);
    }
    CloseUnique(toks, q, p);
  }

  /** The loop of the walk forward: it stops on the group closer (or just
      after the last token), having reported the gaps between the bars on
      the level of `q` and kept the last bar seen. */
  method ForwardToCloser(itr: AceTokenIterator, t: Located) returns (ranges: seq<Range>, lastOr: Located)
    requires 0 <= itr.pos < |itr.toks| && t == itr.toks[itr.pos]
    modifies itr
    ensures itr.pos == EnclosingClose(itr.toks, old(itr.pos))
    ensures var q := old(itr.pos);
      var above := BarsAbove(itr.toks, q, itr.pos);
      && ranges == FwdGaps(itr.toks, q, above)
      && lastOr == itr.toks[LastOf(q, above)]
  {
    ghost var q := itr.pos;
    var range := 0;
    lastOr := t;
    ranges := [];
    var done := false;
    while !done
      invariant !done ==> WalkedForward(itr.toks, q, itr.pos, range, ranges, lastOr)
      invariant done ==> ForwardDone(itr.toks, q, itr.pos, ranges, lastOr)
      decreases |itr.toks| - itr.pos + (if done then 0 else 1)
    {
      done, range, ranges, lastOr := ForwardStep(itr, q, range, ranges, lastOr);
    }
  }

  /** One step of the walk forward. */
  method ForwardStep(itr: AceTokenIterator, ghost q: nat, range: int, ranges: seq<Range>, lastOr: Located)
    returns (done: bool, range': int, ranges': seq<Range>, lastOr': Located)
    requires WalkedForward(itr.toks, q, itr.pos, range, ranges, lastOr)
    modifies itr
    ensures itr.pos == old(itr.pos) + 1
    ensures !done ==> WalkedForward(itr.toks, q, itr.pos, range', ranges', lastOr')
    ensures done ==> ForwardDone(itr.toks, q, itr.pos, ranges', lastOr')
  {
    ghost var toks := itr.toks;
    ghost var p := itr.pos + 1;
    range', ranges', lastOr' := range, ranges, lastOr;
    var cur := itr.StepForward();
    if cur.None? {
      ForwardStop(toks, q, p, range, ranges, lastOr);
      return true, range', ranges', lastOr';
    }
    var tok := cur.value;
    done := false;
    if tok.kind == ClosedBracket && range == 0 {
      ForwardStop(toks, q, p, range, ranges, lastOr);
      return true, range', ranges', lastOr';
    }
    if tok.kind == OpenBracket {
      range' := range + 1;
    } else if tok.kind == ClosedBracket {
      range' := range - 1;
    } else if range == 0 && tok.kind == OrSymbol {
      var column := itr.GetCurrentTokenColumn();
      var row := itr.GetCurrentTokenRow();
      ranges' := ranges + [Range(Position(lastOr.row, lastOr.col + |lastOr.token.text|), Position(row, column))];
      lastOr' := Located(tok, row, column);
    }
    ForwardPast(toks, q, p, range, ranges, lastOr, range', ranges', lastOr');
  }


  // ----- the quantifier finder -----

  /** The range of the atom the quantifier under the iterator applies to:
      from the start of that atom up to the quantifier. */
  method QuantifierRange(itr: AceTokenIterator, t: Located) returns (r: Range)
    requires 0 <= itr.pos < |itr.toks| && t == itr.toks[itr.pos]
    modifies itr
    ensures r == QuantifierSpan(itr.toks, old(itr.pos))
  {
    ghost var q := itr.pos;
    var row := itr.GetCurrentTokenRow();
    var range := 0;
    var done := false;
    while !done
      invariant !done ==> Quantifying(itr.toks, q, itr.pos, range)
      invariant done ==> itr.pos == QuantifiedStart(itr.toks, q)
      decreases if done then 0 else itr.pos + 2
    {
      done, range := QuantifierStep(itr, q, range);
    }
    r := Range(Position(itr.GetCurrentTokenRow(), itr.GetCurrentTokenColumn()), Position(row, t.col));
  }

  /** The state of the walk back from the quantifier at `q`: either it has
      not moved yet, or it has passed the closing bracket before the
      quantifier and is inside that group, whose opener it has not reached. */
  ghost predicate Quantifying(toks: seq<Located>, q: nat, p: int, range: int)
  {
    || (p == q < |toks| && range == 0)
    || (&& q < |toks|
        && var a := Anchor(toks, q);
           && 0 <= p <= a
           && toks[a].token.kind == ClosedBracket
           && range == Net(toks, p, a + 1) > 0
           && var b := a + 1; forall j :: p <= j < a ==> Net(toks, j, b) != 0)
  }

  /** The token the next pass looks at: the one before `p`, or the one
      before that when the one before `p` is an escaped character. */
  predicate NextLooked(toks: seq<Located>, p: int, p': int)
  {
    0 <= p' < p <= |toks| &&
    if toks[p - 1].token.kind == EscapedSymbol then p' == p - 2 else p' == p - 1
  }

  /** Running off the start of the input, the atom starts at the first token. */
  lemma QuantifyingOffStart(toks: seq<Located>, q: nat, p: int, range: int)
    requires Quantifying(toks, q, p, range)
    requires p == 0 || (p == 1 && toks[0].token.kind == EscapedSymbol)
    ensures QuantifiedStart(toks, q) == 0
  {
    if p != q {
      var a := Anchor(toks, q);
      if p == 1 {
        NetCons(toks, 0, a + 1);
      }
    }
  }

  /** An opening bracket right before the quantifier: the atom is empty. */
  lemma QuantifyingAfterOpen(toks: seq<Located>, q: nat, p: int, range: int, p': int)
    requires Quantifying(toks, q, p, range) && NextLooked(toks, p, p')
    requires toks[p'].token.kind == OpenBracket && range == 0
    ensures p' + 1 == QuantifiedStart(toks, q)
  {
  }

  /** Any other token: the pass either ends on the start of the atom or
      goes on inside the quantified group. */
  lemma QuantifyingPast(toks: seq<Located>, q: nat, p: int, range: int, p': int)
    requires Quantifying(toks, q, p, range) && NextLooked(toks, p, p')
    requires !(toks[p'].token.kind == OpenBracket && range == 0)
    ensures var range' := range + Delta(toks[p']);
      && (range' > 0 ==> Quantifying(toks, q, p', range'))
      && (range' <= 0 ==> p' == QuantifiedStart(toks, q))
  {
    var a := Anchor(toks, q);
    if p != q {
      NetCons(toks, p', a + 1);
      if p' == p - 2 {
        NetCons(toks, p - 1, a + 1);
      }
      if range + Delta(toks[p']) <= 0 {
        MatchUnique(toks, a, p');
      }
    }
  }

  /** One pass of the finder's loop, an escaped character skipped together
      with its backslash; `done` when the loop ends. */
  method QuantifierStep(itr: AceTokenIterator, ghost q: nat, range: int) returns (done: bool, range': int)
    requires Quantifying(itr.toks, q, itr.pos, range)
    modifies itr
    ensures !done ==> Quantifying(itr.toks, q, itr.pos, range') && itr.pos < old(itr.pos)
    ensures done ==> itr.pos == QuantifiedStart(itr.toks, q)
  {
    ghost var toks := itr.toks;
    ghost var p := itr.pos;
    var cur := itr.StepBackward();
    if cur.None? {
      QuantifyingOffStart(toks, q, p, range);
      var _ := itr.StepForward();
      return true, range;
    }
    if cur.value.kind == EscapedSymbol {
      cur := itr.StepBackward();
      if cur.None? {
        QuantifyingOffStart(toks, q, p, range);
        var _ := itr.StepForward();
        return true, range;
      }
    }
    var tok := cur.value;
    range' := range;
    if tok.kind == OpenBracket {
      if range == 0 {
        QuantifyingAfterOpen(toks, q, p, range, itr.pos);
        var _ := itr.StepForward();
        return true, range;
      }
      range' := range - 1;
    } else if tok.kind == ClosedBracket {
      range' := range + 1;
    }
    QuantifyingPast(toks, q, p, range, itr.pos);
    done := range' <= 0;
  }

  // ----- the back-reference finder -----

  /** The number a back-reference names: the digits after its backslash,
      as parseInt reads them (nothing when there are none). */
  function ReferenceNumber(t: Token): Option<nat>
  {
    ParseInt(if |t.text| > 0 then t.text[1..] else [])
  }

  /** The opener of group `n` and its partner, both numbered `n`. */
  function GroupEnds(s: Structure, n: nat): (ends: (nat, nat))
    requires WellFormed(s) && 1 <= n <= |s.groups|
    ensures var (o, c) := ends;
      && o < c < |s.brackets|
      && s.brackets[o].pair == Some(c) && s.brackets[c].pair == Some(o)
      && s.brackets[o].capture == Numbered(n) && s.brackets[c].capture == Numbered(n)
  {
    assert GroupOk(s.brackets, s.groups, n - 1);
    var o := s.groups[n - 1];
    (o, s.brackets[o].pair.value)
  }

  /** The finder's test that a bracket comes after the reference: on a
      later row, or on its row at a later column. */
  predicate ClosesAfter(close: Bracket, t: Located)
  {
    close.row > t.row || (close.row == t.row && close.column > t.col)
  }

  /** The group the back-reference `t` names, from its opener to the end
      of its closer, unless there is no bracket structure, no such group,
      or the group closes after the reference. */
  function GroupReferenceRange(structure: Option<Structure>, t: Located): (r: Option<Range>)
    requires structure.Some? ==> WellFormed(structure.value)
    ensures r.Some? ==>
      && structure.Some? && ReferenceNumber(t.token).Some?
      && 1 <= ReferenceNumber(t.token).value <= |structure.value.groups|
  {
    match structure
    case None => None
    case Some(s) =>
      match ReferenceNumber(t.token)
      case None => None
      case Some(n) =>
        if n == 0 || n > |s.groups| then None
        else
          var (o, c) := GroupEnds(s, n);
          if ClosesAfter(s.brackets[c], t) then None
          else Some(Range(Position(s.brackets[o].row, s.brackets[o].column),
                          Position(s.brackets[c].row, s.brackets[c].end)))
  }

  /** A reference written `\n` marks the group numbered `n`, from its
      opener to the end of its closer, exactly when that group exists and
      has closed by the reference. */
  lemma BackReferenceTarget(s: Structure, t: Located, n: nat, rest: string)
    requires WellFormed(s)
    requires t.token.text == "\\" + Decimal(n) + rest && (rest == [] || !IsDigit(rest[0]))
    ensures var r := GroupReferenceRange(Some(s), t);
      && (r.Some? <==> 1 <= n <= |s.groups| && !ClosesAfter(s.brackets[GroupEnds(s, n).1], t))
      && (r.Some? ==> var (o, c) := GroupEnds(s, n);
            r.value == Range(Position(s.brackets[o].row, s.brackets[o].column),
                             Position(s.brackets[c].row, s.brackets[c].end)))
  {
    assert t.token.text[1..] == Decimal(n) + rest;
    ParseDecimal(n, rest);
  }

  // ----- the marker -----

  /** The token types that have a finder. */
  predicate Supported(k: Kind)
  {
    k == OrSymbol || k == Quantifier || k == GroupRef
  }

  /** The token the marker looks at on the caret's row: the one after the
      caret when it has a finder, otherwise the one before. */
  function PickToken(row: seq<RowToken>, column: nat): (k: Option<nat>)
    ensures k.Some? ==> && k.value < |row| && Supported(row[k.value].token.kind)
                        && SumLen(row[..k.value]) <= column <= SumLen(row[..k.value + 1])
  {
    var after := TokenAt(row, column + 1);
    if after.Some? && Supported(row[after.value].token.kind) then after
    else if column == 0 then None
    else
      var before := TokenAt(row, column);
      if before.Some? && Supported(row[before.value].token.kind) then before else None
  }

  /** Whenever a token with a finder touches the caret, the marker picks
      one. */
  lemma PickTokenComplete(row: seq<RowToken>, column: nat, i: nat)
    requires i < |row| && |row[i].token.text| > 0 && Supported(row[i].token.kind)
    requires SumLen(row[..i]) <= column <= SumLen(row[..i + 1])
    ensures PickToken(row, column).Some?
  {
    assert row[..i + 1][..i] == row[..i];
    if column < SumLen(row[..i + 1]) {
      TokenAtCovering(row, column + 1, i);
    } else {
      TokenAtCovering(row, column, i);
    }
  }

  /** The ranges the finder for the token at `q` reports. */
  function Related(toks: seq<Located>, q: nat, structure: Option<Structure>): seq<Range>
    requires q < |toks| && (structure.Some? ==> WellFormed(structure.value))
  {
    var t := toks[q];
    if t.token.kind == OrSymbol then OrRanges(toks, q)
    else if t.token.kind == Quantifier then [QuantifierSpan(toks, q)]
    else if t.token.kind == GroupRef then
      match GroupReferenceRange(structure, t)
      case Some(r) => [r]
      case None => []
    else []
  }

  /** The marker draws only the ranges that are not empty. */
  function NonEmptyRanges(rs: seq<Range>): (out: seq<Range>)
    ensures forall r :: r in out <==> r in rs && !r.IsEmpty()
    ensures |out| <= |rs|
  {
    if rs == [] then []
    else (if rs[0].IsEmpty() then [] else [rs[0]]) + NonEmptyRanges(rs[1..])
  }

  /** What the marker draws with the caret at `cursor`. */
  function Marked(focused: bool, rows: seq<seq<RowToken>>, cursor: Position, structure: Option<Structure>): seq<Range>
    requires cursor.row < |rows| && (structure.Some? ==> WellFormed(structure.value))
  {
    if !focused then []
    else
      match PickToken(rows[cursor.row], cursor.column)
      case None => []
      case Some(k) => MarkedAt(rows, cursor.row, k, structure)
  }

  /** What the marker draws for token `i` of row `r`. */
  function MarkedAt(rows: seq<seq<RowToken>>, r: nat, i: nat, structure: Option<Structure>): seq<Range>
    requires r < |rows| && i < |rows[r]| && (structure.Some? ==> WellFormed(structure.value))
  {
    FlattenAt(rows, r, i);
    NonEmptyRanges(Related(Flatten(rows), Offset(rows, r) + i, structure))
  }

  /** The marker's update: picks the token at the caret, places an
      iterator on it and draws the non-empty ranges its finder reports. */
  method Update(focused: bool, rows: seq<seq<RowToken>>, cursor: Position, structure: Option<Structure>)
    returns (marked: seq<Range>)
    requires cursor.row < |rows| && Coherent(rows) && SessionNonEmpty(rows)
    requires structure.Some? ==> WellFormed(structure.value)
    ensures marked == Marked(focused, rows, cursor, structure)
  {
    if !focused {
      return [];
    }
    var k := TokenAtCaret(rows[cursor.row], cursor.column);
    if k.None? {
      return [];
    }
    assert |rows[cursor.row][k.value].token.text| > 0;
    assert ColumnOf(rows[cursor.row], k.value) == SumLen(rows[cursor.row][..k.value]);
    marked := MarkToken(rows, cursor.row, k.value, structure);
  }

  /** The token after the caret when it has a finder, else the one before. */
  method TokenAtCaret(row: seq<RowToken>, column: nat) returns (k: Option<nat>)
    ensures k == PickToken(row, column)
  {
    k := TokenAt(row, column + 1);
    if k.None? || !Supported(row[k.value].token.kind) {
      if column == 0 {
        return None;
      }
      k := TokenAt(row, column);
      if k.None? || !Supported(row[k.value].token.kind) {
        return None;
      }
    }
  }

  /** Places an iterator on token `i` of row `r` and draws what its finder
      reports. The token covers text and its cached column, if any, is its
      true column. */
  method MarkToken(rows: seq<seq<RowToken>>, r: nat, i: nat, structure: Option<Structure>) returns (marked: seq<Range>)
    requires r < |rows| && i < |rows[r]| && |rows[r][i].token.text| > 0
    requires ColumnOf(rows[r], i) == SumLen(rows[r][..i])
    requires structure.Some? ==> WellFormed(structure.value)
    ensures marked == MarkedAt(rows, r, i, structure)
  {
    var row := rows[r];
    // getTokenAt caches the token's column on it
    var start := SumLen(row[..i]);
    var session := rows[r := CacheStart(row, i)];
    ghost var toks := Flatten(rows);
    ghost var q := Offset(rows, r) + i;
    CachedStart(rows, r, i, session);
    var t := Located(row[i].token, r, start);
    var itr := new AceTokenIterator(session, r, start + 1);
    assert itr.toks == toks && itr.pos == q;
    var ranges := FindRelated(itr, t, structure);
    assert ranges == Related(toks, q, structure);
    marked := NonEmptyRanges(ranges);
    MarkedAtToken(rows, r, i, structure);
  }

  /** Placing the iterator just after the start getTokenAt cached puts it
      on that token, among the same located tokens. */
  lemma {:induction false} CachedStart(rows: seq<seq<RowToken>>, r: nat, i: nat, session: seq<seq<RowToken>>)
    requires r < |rows| && i < |rows[r]| && |rows[r][i].token.text| > 0
    requires ColumnOf(rows[r], i) == SumLen(rows[r][..i])
    requires session == rows[r := CacheStart(rows[r], i)]
    ensures Flatten(session) == Flatten(rows)
    ensures Offset(session, r) == Offset(rows, r)
    ensures r < |session| && TokenAt(session[r], SumLen(rows[r][..i]) + 1) == Some(i)
    ensures Offset(rows, r) + i < |Flatten(rows)|
    ensures Flatten(rows)[Offset(rows, r) + i] == Located(rows[r][i].token, r, SumLen(rows[r][..i]))
  {
    CacheInvisible(rows, r, i);
    SameLengths(session[r][..i], rows[r][..i]);
    TokenAtStart(session[r], i);
    assert session[..r] == rows[..r];
    FlattenAt(rows, r, i);
  }

  lemma MarkedAtToken(rows: seq<seq<RowToken>>, r: nat, i: nat, structure: Option<Structure>)
    requires r < |rows| && i < |rows[r]| && (structure.Some? ==> WellFormed(structure.value))
    requires Offset(rows, r) + i < |Flatten(rows)|
    ensures MarkedAt(rows, r, i, structure) == NonEmptyRanges(Related(Flatten(rows), Offset(rows, r) + i, structure))
  {
  }

  /** Runs the finder for the token under the iterator. */
  method FindRelated(itr: AceTokenIterator, t: Located, structure: Option<Structure>) returns (ranges: seq<Range>)
    requires 0 <= itr.pos < |itr.toks| && t == itr.toks[itr.pos]
    requires structure.Some? ==> WellFormed(structure.value)
    modifies itr
    ensures ranges == Related(itr.toks, old(itr.pos), structure)
  {
    if t.token.kind == OrSymbol {
      ranges := OrSymbolRanges(itr, t);
    } else if t.token.kind == Quantifier {
      var r := QuantifierRange(itr, t);
      ranges := [r];
    } else if t.token.kind == GroupRef {
      var r := GroupReferenceRange(structure, t);
      ranges := if r.Some? then [r.value] else [];
    } else {
      ranges := [];
    }
  }
}
