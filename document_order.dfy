/**
 * Document order. The session's tokens, read row after row, never go back
 * in the document, and neither do the brackets the bracket pass records:
 * the caret search of the matched-bracket marker relies on this to stop
 * early.
 */
module DocumentOrder {
  import opened Tokens
  import opened TokenShape
  import opened Session
  import opened BracketStructure
  import opened BracketProperties

  /** `a` starts no later than `b` in the document. */
  predicate StartsBefore(a: Located, b: Located)
  {
    a.row < b.row || (a.row == b.row && a.col <= b.col)
  }

  /** Every token starts no later than the tokens after it. */
  ghost predicate Ordered(toks: seq<Located>)
  {
    forall i, j :: 0 <= i < j < |toks| ==> StartsBefore(toks[i], toks[j])
  }

  /** Every bracket starts no later than the brackets after it. */
  ghost predicate InDocumentOrder(bs: seq<Bracket>)
  {
    forall i, j :: 0 <= i < j < |bs| ==>
      bs[i].row < bs[j].row || (bs[i].row == bs[j].row && bs[i].column <= bs[j].column)
  }

  /** The tokens of one coherent row go left to right. */
  lemma RowOrdered(row: seq<RowToken>, r: nat)
    requires forall i :: 0 <= i < |row| && row[i].start.Some? ==> row[i].start.value == SumLen(row[..i])
    ensures Ordered(RowLocated(row, r))
  {
    var ls := RowLocated(row, r);
    forall i, j | 0 <= i < j < |ls|
      ensures StartsBefore(ls[i], ls[j])
    {
      SumLenMonotone(row, i, j);
    }
  }

  /** A row after all rows of `a`: the tokens of `a` and then of `b`
      stay in order. */
  lemma OrderedAppend(a: seq<Located>, b: seq<Located>)
    requires Ordered(a) && Ordered(b)
    requires forall i, j :: 0 <= i < |a| && 0 <= j < |b| ==> a[i].row < b[j].row
    ensures Ordered(a + b)
  {
    var ab := a + b;
    forall i, j | 0 <= i < j < |ab|
      ensures StartsBefore(ab[i], ab[j])
    {
      if j < |a| {
        assert ab[i] == a[i] && ab[j] == a[j];
      } else if i >= |a| {
        assert ab[i] == b[i - |a|] && ab[j] == b[j - |a|];
      } else {
        assert ab[i] == a[i] && ab[j] == b[j - |a|];
      }
    }
  }

  /** With every cached column coherent, the session's tokens are in
      document order, and every token lies on a row of the session. */
  lemma {:induction false} FlattenOrdered(rows: seq<seq<RowToken>>)
    requires Coherent(rows)
    ensures Ordered(Flatten(rows))
    ensures forall k :: 0 <= k < |Flatten(rows)| ==> Flatten(rows)[k].row < |rows|
    decreases |rows|
  {
    if rows != [] {
      var n := |rows| - 1;
      var init := rows[..n];
      assert forall r :: 0 <= r < n ==> init[r] == rows[r];
      FlattenOrdered(init);
      assert forall i :: 0 <= i < |rows[n]| && rows[n][i].start.Some? ==>
        rows[n][i].start.value == SumLen(rows[n][..i]);
      RowOrdered(rows[n], n);
      OrderedAppend(Flatten(init), RowLocated(rows[n], n));
    }
  }

  /** The bracket tokens of an ordered stream are in order, and each of
      them is a token of the stream. */
  lemma {:induction false} BracketTokensOrdered(toks: seq<Located>)
    requires Ordered(toks)
    ensures Ordered(BracketTokens(toks))
    ensures forall x :: x in BracketTokens(toks) ==> x in toks
    decreases |toks|
  {
    if toks != [] {
      var init := toks[..|toks| - 1];
      var last := toks[|toks| - 1];
      assert Ordered(init);
      BracketTokensOrdered(init);
      var bt := BracketTokens(init);
      if IsBracketKind(last.token.kind) {
        var all := bt + [last];
        forall i, j | 0 <= i < j < |all|
          ensures StartsBefore(all[i], all[j])
        {
          if j == |bt| {
            assert all[i] in toks[..|toks| - 1];
            var k :| 0 <= k < |toks| - 1 && toks[k] == all[i];
            assert StartsBefore(toks[k], toks[|toks| - 1]);
          } else {
            assert all[i] == bt[i] && all[j] == bt[j];
          }
        }
      }
    }
  }

  /** Brackets recorded at the positions of ordered tokens are in
      document order. */
  lemma PositionsOrdered(bs: seq<Bracket>, ts: seq<Located>)
    requires Positions(bs, ts) && Ordered(ts)
    ensures InDocumentOrder(bs)
  {
    forall i, j | 0 <= i < j < |bs|
      ensures bs[i].row < bs[j].row || (bs[i].row == bs[j].row && bs[i].column <= bs[j].column)
    {
      assert StartsBefore(ts[i], ts[j]);
    }
  }

  /** The bracket pass over a coherent session of well-shaped tokens
      records its brackets in document order. */
  lemma AnalyzeOrdered(rows: seq<seq<RowToken>>)
    requires Coherent(rows) && ClassShaped(KindsOf(Flatten(rows)), false)
    ensures InDocumentOrder(Analyze(Flatten(rows)).brackets)
  {
    var toks := Flatten(rows);
    FlattenOrdered(rows);
    BracketTokensOrdered(toks);
    AnalyzeFinal(toks);
    PositionsOrdered(Analyze(toks).brackets, BracketTokens(toks));
  }
}
