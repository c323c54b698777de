/**
 * The row-based token iterator the bracket pass uses. It walks the tokens of
 * the session row by row, skipping rows without tokens; its abstract state
 * is a position `pos` in the flat token order of the session (`Flatten`),
 * where `pos == |Flatten(rows)|` means it has run off the end.
 */
module TokenIteratorModel {
  import opened Wrappers
  import opened Tokens
  import opened Session

  class MyTokenIterator {
    /** The session's rows; `|rows|` is the session length. */
    const rows: seq<seq<RowToken>>
    var row: int
    var rowTokens: seq<RowToken>
    var tokenIndex: int
    /** The column accumulated by `StepForward` (only read by the first,
        overridden definition of the column query). */
    var column: int
    ghost var pos: nat

    ghost predicate Valid()
      reads this
    {
      && |rows| > 0
      && 0 <= row < |rows|
      && rowTokens == rows[row]
      && pos <= |Flatten(rows)|
      && if pos < |Flatten(rows)| then
           && 0 <= tokenIndex < |rowTokens|
           && pos == Offset(rows, row) + tokenIndex
           && column == SumLen(rowTokens[..tokenIndex])
         else
           && row == |rows| - 1
           && column == SumLen(rowTokens)
           && (tokenIndex >= |rowTokens| || (tokenIndex == -1 && rowTokens == []))
    }

    /** Starts at the first token of the session, skipping leading rows
        that have none. */
    constructor (rows: seq<seq<RowToken>>)
      requires |rows| > 0
      ensures Valid() && this.rows == rows && pos == 0
    {
      var r := 0;
      var ts := rows[0];
      while |ts| == 0 && r < |rows| - 1
        invariant 0 <= r < |rows| && ts == rows[r] && Offset(rows, r) == 0
      {
        OffsetNext(rows, r);
        r := r + 1;
        ts := rows[r];
      }
      this.rows := rows;
      row := r;
      rowTokens := ts;
      column := 0;
      tokenIndex := if |ts| > 0 then 0 else -1;
      pos := 0;
      if |ts| > 0 {
        FlattenAt(rows, r, 0);
      } else {
        OffsetNext(rows, r);
        OffsetAll(rows);
      }
    }

    /** Moves to the next token, crossing to the next row that has tokens;
        at the end it yields nothing and stays on the last row. */
    method StepForward() returns (t: Option<Token>)
      requires Valid()
      modifies this
      ensures Valid()
      ensures pos == if old(pos) < |Flatten(rows)| then old(pos) + 1 else |Flatten(rows)|
      ensures t == if pos < |Flatten(rows)| then Some(Flatten(rows)[pos].token) else None
    {
      ghost var p := pos;
      ghost var n := |Flatten(rows)|;
      if 0 <= tokenIndex < |rowTokens| {
        assert rowTokens[..tokenIndex + 1][..tokenIndex] == rowTokens[..tokenIndex];
        column := column + |rowTokens[tokenIndex].token.text|;
      }
      tokenIndex := tokenIndex + 1;
      while tokenIndex >= |rowTokens|
        invariant 0 <= row < |rows| && rowTokens == rows[row] && tokenIndex >= 0
        invariant p < n ==> Offset(rows, row) + tokenIndex == p + 1 && tokenIndex <= |rowTokens|
                            && column == SumLen(rowTokens[..tokenIndex])
        invariant p == n ==> row == |rows| - 1 && column == SumLen(rowTokens) && tokenIndex >= |rowTokens|
        decreases |rows| - row
      {
        OffsetNext(rows, row);
        if row + 1 >= |rows| {
          OffsetAll(rows);
          if p < n {
            assert rowTokens[..tokenIndex] == rowTokens;
            assert p + 1 == n;
          }
          pos := n;
          return None;
        }
        row := row + 1;
        rowTokens := rows[row];
        tokenIndex := 0;
        column := 0;
      }
      assert p < n;
      FlattenAt(rows, row, tokenIndex);
      pos := p + 1;
      t := Some(rowTokens[tokenIndex].token);
    }

    /** The token at the iterator, if any. */
    function GetCurrentToken(): (t: Option<Token>)
      reads this
      requires Valid()
      ensures t == if pos < |Flatten(rows)| then Some(Flatten(rows)[pos].token) else None
    {
      if 0 <= tokenIndex < |rowTokens| then
        FlattenAt(rows, row, tokenIndex);
        Some(rowTokens[tokenIndex].token)
      else None
    }

    /** The row the iterator is on: the current token's row, or the last
        row once it has run off the end. */
    function GetCurrentTokenRow(): (r: int)
      reads this
      requires Valid()
      ensures pos < |Flatten(rows)| ==> r == Flatten(rows)[pos].row
      ensures pos == |Flatten(rows)| ==> r == |rows| - 1
    {
      if 0 <= tokenIndex < |rowTokens| then FlattenAt(rows, row, tokenIndex); row else row
    }

    /** The column of the current token: the column cached on it when there
        is one, otherwise the length of the tokens before it on its row.
        Without a cached column this is also the column `StepForward`
        accumulates. */
    method GetCurrentTokenColumn() returns (c: int)
      requires Valid() && pos < |Flatten(rows)|
      ensures c == Flatten(rows)[pos].col
      ensures rowTokens[tokenIndex].start.None? ==> c == column
      ensures Coherent(rows) ==> c == column
    {
      FlattenAt(rows, row, tokenIndex);
      var i := tokenIndex;
      match rowTokens[i].start
      case Some(s) =>
        c := s;
      case None =>
        c := 0;
        while i > 0
          invariant 0 <= i <= tokenIndex
          invariant c + SumLen(rowTokens[..i]) == SumLen(rowTokens[..tokenIndex])
        {
          assert rowTokens[..i][..i - 1] == rowTokens[..i - 1];
          i := i - 1;
          c := c + |rowTokens[i].token.text|;
        }
    }
  }
}
