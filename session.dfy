/**
 * The editor session as the highlighters see it: one token list per row,
 * each token possibly carrying the column that the editor's getTokenAt
 * cached on it (`start`). The finders and the bracket pass walk the tokens
 * of all rows in order; `Flatten` is that order, each token with its row
 * and the column the iterators report for it.
 */
module Session {
  import opened Wrappers
  import opened Tokens
  import opened TokenShape

  /** A token held by the session and the column cached on it, if any. */
  datatype RowToken = RowToken(token: Token, start: Option<nat>)

  /** The text length of a row's tokens. */
  function SumLen(row: seq<RowToken>): nat
  {
    if row == [] then 0 else SumLen(row[..|row| - 1]) + |row[|row| - 1].token.text|
  }

  lemma {:induction false} SumLenMonotone(row: seq<RowToken>, i: nat, j: nat)
    requires i <= j <= |row|
    ensures SumLen(row[..i]) <= SumLen(row[..j])
    decreases j - i
  {
    if i < j {
      assert row[..j][..j - 1] == row[..j - 1];
      SumLenMonotone(row, i, j - 1);
    }
  }

  /** The column the iterators report for token `i` of a row: the cached
      `start` when one is present, otherwise the length of the tokens
      before it. */
  function ColumnOf(row: seq<RowToken>, i: nat): nat
    requires i < |row|
  {
    match row[i].start
    case Some(c) => c
    case None => SumLen(row[..i])
  }

  /** Every cached column is the true column of its token. */
  ghost predicate Coherent(rows: seq<seq<RowToken>>)
  {
    forall r, i :: 0 <= r < |rows| && 0 <= i < |rows[r]| && rows[r][i].start.Some? ==>
      rows[r][i].start.value == SumLen(rows[r][..i])
  }

  /** Every token of the session covers at least one character. */
  ghost predicate SessionNonEmpty(rows: seq<seq<RowToken>>)
  {
    forall r, i :: 0 <= r < |rows| && 0 <= i < |rows[r]| ==> |rows[r][i].token.text| > 0
  }

  /** A session row freshly produced by the tokenizer: nothing cached. */
  function Fresh(ts: seq<Token>): (row: seq<RowToken>)
    ensures |row| == |ts| && forall i :: 0 <= i < |ts| ==> row[i] == RowToken(ts[i], None)
  {
    seq(|ts|, i requires 0 <= i < |ts| => RowToken(ts[i], None))
  }

  /** The session rows of a tokenization. */
  function FreshRows(rows: seq<seq<Token>>): (s: seq<seq<RowToken>>)
    ensures |s| == |rows| && forall r :: 0 <= r < |rows| ==> s[r] == Fresh(rows[r])
  {
    seq(|rows|, r requires 0 <= r < |rows| => Fresh(rows[r]))
  }

  /** A token with the row it is on and the column reported for it. */
  datatype Located = Located(token: Token, row: nat, col: nat)
  {
    function Start(): Position { Position(row, col) }
    function End(): Position { Position(row, col + |token.text|) }
  }

  /** The tokens of row `r`, located. */
  function RowLocated(row: seq<RowToken>, r: nat): (ls: seq<Located>)
    ensures |ls| == |row|
    ensures forall i :: 0 <= i < |row| ==> ls[i] == Located(row[i].token, r, ColumnOf(row, i))
  {
    seq(|row|, i requires 0 <= i < |row| => Located(row[i].token, r, ColumnOf(row, i)))
  }

  /** All tokens of the session, row after row. */
  function Flatten(rows: seq<seq<RowToken>>): seq<Located>
  {
    if rows == [] then []
    else Flatten(rows[..|rows| - 1]) + RowLocated(rows[|rows| - 1], |rows| - 1)
  }

  /** The number of tokens on the rows before row `r`. */
  function Offset(rows: seq<seq<RowToken>>, r: nat): nat
    requires r <= |rows|
  {
    |Flatten(rows[..r])|
  }

  lemma OffsetStep(rows: seq<seq<RowToken>>, r: nat)
    requires r < |rows|
    ensures Flatten(rows[..r + 1]) == Flatten(rows[..r]) + RowLocated(rows[r], r)
    ensures Offset(rows, r + 1) == Offset(rows, r) + |rows[r]|
  {
    assert rows[..r + 1][..r] == rows[..r];
  }

  /** Row `r` starts `|rows[r]|` tokens before row `r + 1`. */
  lemma OffsetNext(rows: seq<seq<RowToken>>, r: nat)
    requires r < |rows|
    ensures Offset(rows, r + 1) == Offset(rows, r) + |rows[r]|
  {
    OffsetStep(rows, r);
  }

  lemma {:induction false} FlattenPrefix(rows: seq<seq<RowToken>>, r: nat)
    requires r <= |rows|
    ensures Offset(rows, r) <= |Flatten(rows)|
    ensures Flatten(rows[..r]) == Flatten(rows)[..Offset(rows, r)]
    decreases |rows| - r
  {
    if r == |rows| {
      assert rows[..r] == rows;
    } else {
      FlattenPrefix(rows, r + 1);
      OffsetStep(rows, r);
    }
  }

  /** Token `i` of row `r` sits at `Offset(rows, r) + i` of the flat order,
      with row `r` and the column the iterators report. */
  lemma FlattenAt(rows: seq<seq<RowToken>>, r: nat, i: nat)
    requires r < |rows| && i < |rows[r]|
    ensures Offset(rows, r) + i < Offset(rows, r + 1) <= |Flatten(rows)|
    ensures Flatten(rows)[Offset(rows, r) + i] == Located(rows[r][i].token, r, ColumnOf(rows[r], i))
  {
    FlattenPrefix(rows, r + 1);
    OffsetStep(rows, r);
    assert Flatten(rows[..r + 1])[Offset(rows, r) + i] == RowLocated(rows[r], r)[i];
  }

  lemma OffsetAll(rows: seq<seq<RowToken>>)
    ensures Offset(rows, |rows|) == |Flatten(rows)|
  {
    assert rows[..|rows|] == rows;
  }

  /** The tokens of a located sequence. */
  function TokensOf(ls: seq<Located>): (ts: seq<Token>)
    ensures |ts| == |ls| && forall i :: 0 <= i < |ls| ==> ts[i] == ls[i].token
  {
    seq(|ls|, i requires 0 <= i < |ls| => ls[i].token)
  }

  lemma {:induction false} ConcatSnoc(rows: seq<seq<Token>>, last: seq<Token>)
    ensures Concat(rows + [last]) == Concat(rows) + last
    decreases |rows|
  {
    if rows == [] {
      assert [] + [last] == [last];
      assert [last][1..] == [];
    } else {
      assert (rows + [last])[0] == rows[0];
      assert (rows + [last])[1..] == rows[1..] + [last];
      ConcatSnoc(rows[1..], last);
    }
  }

  /** Flattening a freshly tokenized session keeps the tokens and their order. */
  lemma {:induction false} FlattenTokens(rows: seq<seq<Token>>)
    ensures TokensOf(Flatten(FreshRows(rows))) == Concat(rows)
    decreases |rows|
  {
    if rows != [] {
      var init := rows[..|rows| - 1];
      var last := rows[|rows| - 1];
      assert FreshRows(rows)[..|rows| - 1] == FreshRows(init);
      FlattenTokens(init);
      assert rows == init + [last];
      ConcatSnoc(init, last);
      var f := Flatten(FreshRows(rows));
      var a := Flatten(FreshRows(init));
      var b := RowLocated(Fresh(last), |rows| - 1);
      assert f == a + b;
      assert TokensOf(f) == TokensOf(a) + TokensOf(b);
      assert TokensOf(b) == last;
    }
  }

  /** A freshly tokenized session caches nothing. */
  lemma FreshCoherent(rows: seq<seq<Token>>)
    ensures Coherent(FreshRows(rows))
  {
  }

  /** The editor's getTokenAt(row, column): the first token of the row whose
      end lies at or after `column`, or none when the row is shorter. */
  function TokenAt(row: seq<RowToken>, column: int): (k: Option<nat>)
    ensures k.Some? ==> k.value < |row| && column <= SumLen(row[..k.value + 1])
                        && (k.value > 0 ==> SumLen(row[..k.value]) < column)
    ensures k.None? ==> row == [] || SumLen(row) < column
  {
    TokenAtFrom(row, column, 0)
  }

  function TokenAtFrom(row: seq<RowToken>, column: int, i: nat): (k: Option<nat>)
    requires i <= |row|
    requires i > 0 ==> SumLen(row[..i]) < column
    ensures k.Some? ==> i <= k.value < |row| && column <= SumLen(row[..k.value + 1])
                        && (k.value > 0 ==> SumLen(row[..k.value]) < column)
    ensures k.None? ==> row == [] || SumLen(row) < column
    decreases |row| - i
  {
    if i == |row| then
      assert row[..i] == row;
      None
    else if column <= SumLen(row[..i + 1]) then Some(i)
    else TokenAtFrom(row, column, i + 1)
  }

  /** The row after getTokenAt has cached the column of token `i` on it. */
  function CacheStart(row: seq<RowToken>, i: nat): seq<RowToken>
    requires i < |row|
  {
    row[i := row[i].(start := Some(SumLen(row[..i])))]
  }

  /** On a coherent session, the column getTokenAt caches is the one
      already reported, so the write changes nothing. */
  lemma CacheStartCoherent(rows: seq<seq<RowToken>>, r: nat, i: nat)
    requires Coherent(rows) && r < |rows| && i < |rows[r]|
    ensures ColumnOf(CacheStart(rows[r], i), i) == ColumnOf(rows[r], i) == SumLen(rows[r][..i])
    ensures Coherent(rows[r := CacheStart(rows[r], i)])
  {
    var row' := CacheStart(rows[r], i);
    forall j | 0 <= j <= |rows[r]|
      ensures SumLen(row'[..j]) == SumLen(rows[r][..j])
    {
      SameLengths(row'[..j], rows[r][..j]);
    }
  }

  lemma {:induction false} SameLengths(a: seq<RowToken>, b: seq<RowToken>)
    requires |a| == |b| && forall i :: 0 <= i < |a| ==> a[i].token == b[i].token
    ensures SumLen(a) == SumLen(b)
    decreases |a|
  {
    if a != [] {
      SameLengths(a[..|a| - 1], b[..|b| - 1]);
    }
  }

  /** On a session of non-empty tokens, the token at the column just after
      a token's start is that token. */
  lemma TokenAtStart(row: seq<RowToken>, i: nat)
    requires i < |row| && |row[i].token.text| > 0
    ensures TokenAt(row, SumLen(row[..i]) + 1) == Some(i)
  {
    assert row[..i + 1][..i] == row[..i];
    assert row[..|row|] == row;
    forall j | 0 < j <= i
      ensures SumLen(row[..j]) <= SumLen(row[..i])
    {
      SumLenMonotone(row, j, i);
    }
    forall j | i < j <= |row|
      ensures SumLen(row[..i + 1]) <= SumLen(row[..j])
    {
      SumLenMonotone(row, i + 1, j);
    }
  }

  /** The token covering the character before column `c` is the one
      getTokenAt finds at `c`. */
  lemma TokenAtCovering(row: seq<RowToken>, c: int, i: nat)
    requires i < |row| && SumLen(row[..i]) < c <= SumLen(row[..i + 1])
    ensures TokenAt(row, c) == Some(i)
  {
    assert row[..|row|] == row;
    SumLenMonotone(row, i + 1, |row|);
    var k := TokenAt(row, c).value;
    if k < i {
      SumLenMonotone(row, k + 1, i);
    } else if k > i {
      SumLenMonotone(row, i + 1, k);
    }
  }

  /** Rows that locate their tokens alike flatten alike. */
  lemma {:induction false} FlattenSameRows(a: seq<seq<RowToken>>, b: seq<seq<RowToken>>)
    requires |a| == |b| && forall r :: 0 <= r < |a| ==> RowLocated(a[r], r) == RowLocated(b[r], r)
    ensures Flatten(a) == Flatten(b)
    decreases |a|
  {
    if a != [] {
      FlattenSameRows(a[..|a| - 1], b[..|b| - 1]);
    }
  }

  /** When the column cached on a token, if any, is its true column, the
      column getTokenAt caches on it changes none of the located tokens the
      iterators walk. */
  lemma CacheInvisible(rows: seq<seq<RowToken>>, r: nat, i: nat)
    requires r < |rows| && i < |rows[r]| && ColumnOf(rows[r], i) == SumLen(rows[r][..i])
    ensures Flatten(rows[r := CacheStart(rows[r], i)]) == Flatten(rows)
  {
    var row' := CacheStart(rows[r], i);
    forall j | 0 <= j < |row'|
      ensures ColumnOf(row', j) == ColumnOf(rows[r], j)
    {
      SameLengths(row'[..j], rows[r][..j]);
    }
    assert RowLocated(row', r) == RowLocated(rows[r], r);
    FlattenSameRows(rows[r := row'], rows);
  }
}
