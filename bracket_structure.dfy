/**
 * The bracket structure of a regular expression: one entry per bracket
 * token, in token order, with the link to its partner and, for capture
 * groups, the group number; plus the list of capture groups. `Analyze` is
 * the specification of the single pass over the session's tokens;
 * `EvaluateBracketStructure` is that pass, driven by `MyTokenIterator`.
 */
module BracketStructure {
  import opened Wrappers
  import opened Tokens
  import opened TokenShape
  import opened Session
  import opened TokenIteratorModel

  /** `captureGroup` of a bracket: absent, `true` (a capturing `(` not yet
      closed), or the group number. */
  datatype Capture = NotCapture | Unnumbered | Numbered(n: nat)

  /** A bracket: where it is, its partner (an index into `brackets`) and
      its capture status. */
  datatype Bracket = Bracket(row: nat, column: nat, end: nat, pair: Option<nat>, capture: Capture)

  /** `groups[g]` is the index of the opening bracket of group `g + 1`. */
  datatype Structure = Structure(brackets: seq<Bracket>, groups: seq<nat>)

  /** Partner links are symmetric, and a paired bracket never carries the
      not-yet-numbered mark. */
  ghost predicate PairsSymmetric(bs: seq<Bracket>)
  {
    && (forall k :: 0 <= k < |bs| && bs[k].pair.Some? ==>
          bs[k].pair.value < |bs| && bs[k].pair.value != k && bs[k].capture != Unnumbered)
    && (forall k, m :: 0 <= k < |bs| && 0 <= m < |bs| && bs[k].pair == Some(m) ==> bs[m].pair == Some(k))
  }

  /** Group `g + 1` is a paired bracket whose two ends carry number `g + 1`. */
  ghost predicate GroupOk(bs: seq<Bracket>, groups: seq<nat>, g: nat)
    requires g < |groups|
  {
    var o := groups[g];
    o < |bs| && bs[o].capture == Numbered(g + 1) && bs[o].pair.Some?
    && o < bs[o].pair.value < |bs| && bs[bs[o].pair.value].capture == Numbered(g + 1)
  }

  /** A numbered bracket is one end of the group with that number. */
  ghost predicate NumberOk(bs: seq<Bracket>, groups: seq<nat>, k: nat)
    requires k < |bs| && bs[k].capture.Numbered?
  {
    var n := bs[k].capture.n;
    1 <= n <= |groups| && (groups[n - 1] == k || (groups[n - 1] < |bs| && bs[groups[n - 1]].pair == Some(k)))
  }

  ghost predicate WellFormed(s: Structure)
  {
    && PairsSymmetric(s.brackets)
    && (forall g :: 0 <= g < |s.groups| ==> GroupOk(s.brackets, s.groups, g))
    && (forall k {:trigger NumberOk(s.brackets, s.groups, k)} ::
          0 <= k < |s.brackets| && s.brackets[k].capture.Numbered? ==> NumberOk(s.brackets, s.groups, k))
  }

  /** The state of the pass between two tokens: a well-formed structure and
      the stack of opening brackets still waiting for a partner. */
  ghost predicate Pending(bs: seq<Bracket>, groups: seq<nat>, open: seq<nat>)
  {
    && WellFormed(Structure(bs, groups))
    && (forall a, b :: 0 <= a < b < |open| ==> open[a] < open[b])
    && (forall a :: 0 <= a < |open| ==> open[a] < |bs| && bs[open[a]].pair.None? && !bs[open[a]].capture.Numbered?)
  }

  /** Where a bracket token ends: after its text for an opening bracket,
      one column after its start for a closing one. */
  function BracketAt(t: Located, closing: bool, pair: Option<nat>, capture: Capture): Bracket
  {
    Bracket(t.row, t.col, if closing then t.col + 1 else t.col + |t.token.text|, pair, capture)
  }

  /** Appending brackets that carry no number keeps the groups valid. */
  lemma GroupsKept(bs: seq<Bracket>, groups: seq<nat>, bs': seq<Bracket>)
    requires WellFormed(Structure(bs, groups))
    requires |bs| <= |bs'| && bs'[..|bs|] == bs
    requires forall k :: |bs| <= k < |bs'| ==> !bs'[k].capture.Numbered?
    ensures forall g :: 0 <= g < |groups| ==> GroupOk(bs', groups, g)
    ensures forall k :: 0 <= k < |bs'| && bs'[k].capture.Numbered? ==> NumberOk(bs', groups, k)
  {
    assert forall k :: 0 <= k < |bs| ==> bs'[k] == bs[k];
    forall g | 0 <= g < |groups| ensures GroupOk(bs', groups, g) {
      assert GroupOk(bs, groups, g);
    }
    forall k | 0 <= k < |bs'| && bs'[k].capture.Numbered? ensures NumberOk(bs', groups, k) {
      assert NumberOk(bs, groups, k);
      assert GroupOk(bs, groups, bs[k].capture.n - 1);
    }
  }

  lemma OpenStep(bs: seq<Bracket>, groups: seq<nat>, open: seq<nat>, b: Bracket)
    requires Pending(bs, groups, open) && b.pair.None? && !b.capture.Numbered?
    ensures Pending(bs + [b], groups, open + [|bs|])
  {
    assert (bs + [b])[..|bs|] == bs;
    GroupsKept(bs, groups, bs + [b]);
  }

  lemma PlainStep(bs: seq<Bracket>, groups: seq<nat>, open: seq<nat>, b: Bracket)
    requires Pending(bs, groups, open) && b.pair.None? && !b.capture.Numbered? && b.capture != Unnumbered
    ensures Pending(bs + [b], groups, open)
  {
    assert (bs + [b])[..|bs|] == bs;
    GroupsKept(bs, groups, bs + [b]);
  }

  lemma ClassStep(bs: seq<Bracket>, groups: seq<nat>, open: seq<nat>, a: Located, e: Located)
    requires Pending(bs, groups, open)
    ensures Pending(bs + [BracketAt(a, false, Some(|bs| + 1), NotCapture), BracketAt(e, true, Some(|bs|), NotCapture)], groups, open)
  {
    var bs' := bs + [BracketAt(a, false, Some(|bs| + 1), NotCapture), BracketAt(e, true, Some(|bs|), NotCapture)];
    assert bs'[..|bs|] == bs;
    GroupsKept(bs, groups, bs');
  }

  /** The brackets after the top of the stack `o` is paired with a new
      closing bracket `c`; both ends get the next group number when `o`
      is a capturing group. */
  function Closed(bs: seq<Bracket>, groups: seq<nat>, o: nat, c: Bracket): seq<Bracket>
    requires o < |bs|
  {
    var cap := if bs[o].capture == Unnumbered then Numbered(|groups| + 1) else NotCapture;
    bs[o := bs[o].(pair := Some(|bs|), capture := cap)] + [c.(pair := Some(o), capture := cap)]
  }

  function ClosedGroups(bs: seq<Bracket>, groups: seq<nat>, o: nat): seq<nat>
    requires o < |bs|
  {
    if bs[o].capture == Unnumbered then groups + [o] else groups
  }

  lemma ClosePairs(bs: seq<Bracket>, groups: seq<nat>, o: nat, c: Bracket)
    requires PairsSymmetric(bs) && o < |bs| && bs[o].pair.None? && !bs[o].capture.Numbered?
    ensures PairsSymmetric(Closed(bs, groups, o, c))
  {
    var bs' := Closed(bs, groups, o, c);
    var n := |bs|;
    assert forall k :: 0 <= k < n && k != o ==> bs'[k] == bs[k];
    forall k | 0 <= k < |bs'| && bs'[k].pair.Some?
      ensures bs'[k].pair.value < |bs'| && bs'[k].pair.value != k && bs'[bs'[k].pair.value].pair == Some(k)
      ensures bs'[k].capture != Unnumbered
    {
      if k != o && k != n {
        assert bs[k].pair.value != o;
      }
    }
  }

  lemma CloseGroups(bs: seq<Bracket>, groups: seq<nat>, o: nat, c: Bracket)
    requires WellFormed(Structure(bs, groups)) && o < |bs| && bs[o].pair.None? && !bs[o].capture.Numbered?
    ensures forall g :: 0 <= g < |ClosedGroups(bs, groups, o)| ==>
              GroupOk(Closed(bs, groups, o, c), ClosedGroups(bs, groups, o), g)
  {
    var bs' := Closed(bs, groups, o, c);
    var groups' := ClosedGroups(bs, groups, o);
    assert forall k :: 0 <= k < |bs| && k != o ==> bs'[k] == bs[k];
    forall g | 0 <= g < |groups'| ensures GroupOk(bs', groups', g) {
      if g < |groups| {
        assert GroupOk(bs, groups, g);
        assert groups[g] != o && bs[groups[g]].pair.value != o;
      }
    }
  }

  lemma CloseNumbers(bs: seq<Bracket>, groups: seq<nat>, o: nat, c: Bracket)
    requires WellFormed(Structure(bs, groups)) && o < |bs| && bs[o].pair.None? && !bs[o].capture.Numbered?
    ensures forall k :: 0 <= k < |Closed(bs, groups, o, c)| && Closed(bs, groups, o, c)[k].capture.Numbered? ==>
              NumberOk(Closed(bs, groups, o, c), ClosedGroups(bs, groups, o), k)
  {
    var bs' := Closed(bs, groups, o, c);
    var groups' := ClosedGroups(bs, groups, o);
    var n := |bs|;
    assert forall k :: 0 <= k < n && k != o ==> bs'[k] == bs[k];
    forall k | 0 <= k < |bs'| && bs'[k].capture.Numbered? ensures NumberOk(bs', groups', k) {
      if k != o && k != n {
        assert NumberOk(bs, groups, k);
        var m := bs[k].capture.n;
        assert GroupOk(bs, groups, m - 1);
        assert groups[m - 1] != o;
      }
    }
  }

  lemma CloseStep(bs: seq<Bracket>, groups: seq<nat>, open: seq<nat>, c: Bracket)
    requires Pending(bs, groups, open) && open != []
    ensures Pending(Closed(bs, groups, open[|open| - 1], c), ClosedGroups(bs, groups, open[|open| - 1]), open[..|open| - 1])
  {
    var o := open[|open| - 1];
    var bs' := Closed(bs, groups, o, c);
    ClosePairs(bs, groups, o, c);
    CloseGroups(bs, groups, o, c);
    CloseNumbers(bs, groups, o, c);
    forall a | 0 <= a < |open| - 1
      ensures open[..|open| - 1][a] < |bs'| && bs'[open[a]].pair.None? && !bs'[open[a]].capture.Numbered?
    {
      assert open[a] < o;
    }
  }

  /** The state of the pass between two tokens. */
  datatype PassState = PassState(brackets: seq<Bracket>, groups: seq<nat>, open: seq<nat>)

  ghost predicate PassOk(st: PassState)
  {
    Pending(st.brackets, st.groups, st.open)
  }

  /** The first `charClassEnd` token at or after `from`, or `|toks|`. */
  function NextClassEnd(toks: seq<Located>, from: nat): (j: nat)
    requires from <= |toks|
    ensures from <= j <= |toks|
    ensures j < |toks| ==> toks[j].token.kind == CharClassEnd
    ensures forall l :: from <= l < j ==> toks[l].token.kind != CharClassEnd
    decreases |toks| - from
  {
    if from == |toks| || toks[from].token.kind == CharClassEnd then from
    else NextClassEnd(toks, from + 1)
  }

  /** One step of the pass at token `i`: the index of the next token it
      looks at and the new state. A `charClassStart` is paired with the
      next `charClassEnd`, skipping everything in between; when there is
      none it is recorded unpaired and the pass is over. An opening bracket
      is pushed on the stack; a closing one is paired with the top of the
      stack, or recorded unpaired when the stack is empty. Other tokens are
      passed over. */
  function Next(toks: seq<Located>, i: nat, st: PassState): (r: (nat, PassState))
    requires i < |toks| && PassOk(st)
    ensures i < r.0 <= |toks| && |st.brackets| <= |r.1.brackets|
  {
    var t := toks[i];
    var bs := st.brackets;
    if t.token.kind == CharClassStart then
      var j := NextClassEnd(toks, i + 1);
      if j == |toks| then (|toks|, st.(brackets := bs + [BracketAt(t, false, None, NotCapture)]))
      else (j + 1, st.(brackets := bs + [BracketAt(t, false, Some(|bs| + 1), NotCapture), BracketAt(toks[j], true, Some(|bs|), NotCapture)]))
    else if t.token.kind == OpenBracket then
      var b := BracketAt(t, false, None, if t.token.text == "(" then Unnumbered else NotCapture);
      (i + 1, PassState(bs + [b], st.groups, st.open + [|bs|]))
    else if t.token.kind == ClosedBracket then
      var c := BracketAt(t, true, None, NotCapture);
      if st.open == [] then (i + 1, st.(brackets := bs + [c]))
      else
        var o := st.open[|st.open| - 1];
        (i + 1, PassState(Closed(bs, st.groups, o, c), ClosedGroups(bs, st.groups, o), st.open[..|st.open| - 1]))
    else (i + 1, st)
  }

  /** Every step of the pass keeps its state well-formed. */
  lemma NextOk(toks: seq<Located>, i: nat, st: PassState)
    requires i < |toks| && PassOk(st)
    ensures PassOk(Next(toks, i, st).1)
  {
    var t := toks[i];
    var bs := st.brackets;
    if t.token.kind == CharClassStart {
      var j := NextClassEnd(toks, i + 1);
      if j == |toks| {
        PlainStep(bs, st.groups, st.open, BracketAt(t, false, None, NotCapture));
      } else {
        ClassStep(bs, st.groups, st.open, t, toks[j]);
      }
    } else if t.token.kind == OpenBracket {
      OpenStep(bs, st.groups, st.open, BracketAt(t, false, None, if t.token.text == "(" then Unnumbered else NotCapture));
    } else if t.token.kind == ClosedBracket {
      if st.open == [] {
        PlainStep(bs, st.groups, st.open, BracketAt(t, true, None, NotCapture));
      } else {
        CloseStep(bs, st.groups, st.open, BracketAt(t, true, None, NotCapture));
      }
    }
  }

  /** The pass from token `i` on, given the state reached before it; it
      always ends with a well-formed structure. */
  function Go(toks: seq<Located>, i: nat, st: PassState): (s: Structure)
    requires i <= |toks| && PassOk(st)
    ensures WellFormed(s)
    ensures |st.brackets| <= |s.brackets|
    decreases |toks| - i
  {
    if i == |toks| then Structure(st.brackets, st.groups)
    else
      var r := Next(toks, i, st);
      NextOk(toks, i, st);
      Go(toks, r.0, r.1)
  }

  function Initial(): PassState { PassState([], [], []) }

  /** The bracket structure of a token sequence. */
  function Analyze(toks: seq<Located>): (s: Structure)
    ensures WellFormed(s)
  {
    Go(toks, 0, Initial())
  }

  /** The inner loop of the bracket pass: steps forward until it reaches a
      `charClassEnd` token or runs off the end. */
  method SkipToClassEnd(itr: MyTokenIterator) returns (t: Option<Token>)
    requires itr.Valid() && itr.pos < |Flatten(itr.rows)|
    modifies itr
    ensures itr.Valid()
    ensures itr.pos == NextClassEnd(Flatten(itr.rows), old(itr.pos) + 1)
    ensures t == if itr.pos < |Flatten(itr.rows)| then Some(Flatten(itr.rows)[itr.pos].token) else None
  {
    ghost var toks := Flatten(itr.rows);
    ghost var i := itr.pos;
    t := itr.StepForward();
    while t.Some? && t.value.kind != CharClassEnd
      invariant itr.Valid() && i < itr.pos
      invariant t == if itr.pos < |toks| then Some(toks[itr.pos].token) else None
      invariant NextClassEnd(toks, i + 1) == NextClassEnd(toks, itr.pos)
      decreases |toks| - itr.pos
    {
      t := itr.StepForward();
    }
  }

  /** One step of the bracket pass for a token other than `charClassStart`:
      an opening bracket is pushed, a closing one is paired with the most
      recent unpaired opening bracket (numbering the group if it captures),
      anything else is passed over. */
  method Visit(tok: Token, row: nat, column: nat, st: PassState, ghost toks: seq<Located>, ghost i: nat)
    returns (st': PassState)
    requires PassOk(st)
    requires i < |toks| && toks[i] == Located(tok, row, column) && tok.kind != CharClassStart
    ensures (i + 1, st') == Next(toks, i, st)
  {
    var t := Located(tok, row, column);
    st' := st;
    if tok.kind == OpenBracket {
      var b := BracketAt(t, false, None, if tok.text == "(" then Unnumbered else NotCapture);
      st' := PassState(st.brackets + [b], st.groups, st.open + [|st.brackets|]);
    } else if tok.kind == ClosedBracket {
      var closedBr := BracketAt(t, true, None, NotCapture);
      if |st.open| > 0 {
        var o := st.open[|st.open| - 1];
        st' := PassState(Closed(st.brackets, st.groups, o, closedBr), ClosedGroups(st.brackets, st.groups, o), st.open[..|st.open| - 1]);
      } else {
        st' := st.(brackets := st.brackets + [closedBr]);
      }
    }
  }

  /** The body of the bracket pass's loop: records the bracket the current
      token stands for and steps past it (past the matching `charClassEnd`
      for a `charClassStart`). */
  method Advance(itr: MyTokenIterator, tok: Token, st: PassState) returns (t: Option<Token>, st': PassState)
    requires itr.Valid() && itr.pos < |Flatten(itr.rows)| && tok == Flatten(itr.rows)[itr.pos].token
    requires PassOk(st)
    modifies itr
    ensures itr.Valid()
    ensures (itr.pos, st') == Next(Flatten(itr.rows), old(itr.pos), st)
    ensures t == if itr.pos < |Flatten(itr.rows)| then Some(Flatten(itr.rows)[itr.pos].token) else None
  {
    ghost var toks := Flatten(itr.rows);
    ghost var i := itr.pos;
    var row := itr.GetCurrentTokenRow();
    var column := itr.GetCurrentTokenColumn();
    assert toks[i] == Located(tok, row, column);
    if tok.kind == CharClassStart {
      var start := Located(tok, row, column);
      t := SkipToClassEnd(itr);
      if t.Some? {
        var endRow := itr.GetCurrentTokenRow();
        var endColumn := itr.GetCurrentTokenColumn();
        assert toks[itr.pos] == Located(t.value, endRow, endColumn);
        var bs := st.brackets;
        st' := st.(brackets := bs + [BracketAt(start, false, Some(|bs| + 1), NotCapture),
                                     BracketAt(Located(t.value, endRow, endColumn), true, Some(|bs|), NotCapture)]);
      } else {
        st' := st.(brackets := st.brackets + [BracketAt(start, false, None, NotCapture)]);
      }
    } else {
      st' := Visit(tok, row, column, st, toks, i);
    }
    t := itr.StepForward();
  }

  /** The bracket pass over the session, as the editor runs it after every
      change of the text. */
  method EvaluateBracketStructure(rows: seq<seq<RowToken>>) returns (s: Structure)
    requires |rows| > 0
    ensures s == Analyze(Flatten(rows))
  {
    ghost var toks := Flatten(rows);
    var st := Initial();
    var itr := new MyTokenIterator(rows);
    var t := itr.GetCurrentToken();
    while t.Some?
      invariant itr.Valid() && itr.rows == rows
      invariant t == if itr.pos < |toks| then Some(toks[itr.pos].token) else None
      invariant PassOk(st) && Go(toks, itr.pos, st) == Analyze(toks)
      decreases |toks| - itr.pos
    {
      ghost var i := itr.pos;
      ghost var st0 := st;
      t, st := Advance(itr, t.value, st);
      NextOk(toks, i, st0);
    }
    s := Structure(st.brackets, st.groups);
  }
}
