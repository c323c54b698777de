/**
 * What the bracket pass computes, for any token stream the lexer can
 * produce: entry `k` of `brackets` is the `k`-th bracket token of the
 * stream; partners are an opening and a closing bracket, or a
 * `charClassStart` and the `charClassEnd` right after it among the
 * brackets; pairs nest; a closing bracket is left unpaired only when no
 * opening bracket before it is unpaired; capture marks sit exactly on the
 * brackets of `(` groups; groups are numbered in the order they close.
 */
module BracketProperties {
  import opened Wrappers
  import opened Tokens
  import opened TokenShape
  import opened Session
  import opened BracketStructure

  predicate IsBracketKind(k: Kind)
  {
    k in {OpenBracket, ClosedBracket, CharClassStart, CharClassEnd}
  }

  /** The brackets whose recorded end is one column after their start. */
  predicate IsClosingKind(k: Kind)
  {
    k in {ClosedBracket, CharClassEnd}
  }

  /** The bracket tokens of a token stream, in stream order. */
  function BracketTokens(toks: seq<Located>): (bt: seq<Located>)
    ensures |bt| <= |toks|
    ensures forall k :: 0 <= k < |bt| ==> IsBracketKind(bt[k].token.kind)
  {
    if toks == [] then []
    else
      var last := toks[|toks| - 1];
      BracketTokens(toks[..|toks| - 1]) + if IsBracketKind(last.token.kind) then [last] else []
  }

  /** Every token of `ts` is a bracket token. */
  ghost predicate AllBrackets(ts: seq<Located>)
  {
    forall k :: 0 <= k < |ts| ==> IsBracketKind(ts[k].token.kind)
  }

  function KindsOf(toks: seq<Located>): (ks: seq<Kind>)
    ensures |ks| == |toks| && forall i :: 0 <= i < |toks| ==> ks[i] == toks[i].token.kind
  {
    seq(|toks|, i requires 0 <= i < |toks| => toks[i].token.kind)
  }

  /** A `(` that opens a capturing group (not `(?:`, `(?=`, `(?!`). */
  predicate IsCaptureOpen(t: Located)
  {
    t.token.kind == OpenBracket && t.token.text == "("
  }

  // ---------------------------------------------------------------------
  // The properties of a bracket list `bs` against the bracket tokens `ts`.

  /** Entry `k` sits where token `ts[k]` does. */
  ghost predicate Positions(bs: seq<Bracket>, ts: seq<Located>)
  {
    |bs| == |ts| &&
    forall k :: 0 <= k < |bs| ==>
      bs[k] == BracketAt(ts[k], IsClosingKind(ts[k].token.kind), bs[k].pair, bs[k].capture)
  }

  /** Partners are an opening bracket and a later closing one, or a class
      start and the class end that follows it directly. */
  ghost predicate PairKinds(bs: seq<Bracket>, ts: seq<Located>)
    requires |bs| == |ts|
  {
    forall k :: 0 <= k < |bs| && bs[k].pair.Some? && k < bs[k].pair.value ==>
      bs[k].pair.value < |ts| &&
      ((ts[k].token.kind == OpenBracket && ts[bs[k].pair.value].token.kind == ClosedBracket) ||
       (ts[k].token.kind == CharClassStart && ts[bs[k].pair.value].token.kind == CharClassEnd && bs[k].pair.value == k + 1))
  }

  /** Every class bracket is paired. */
  ghost predicate ClassesPaired(bs: seq<Bracket>, ts: seq<Located>)
    requires |bs| == |ts|
  {
    forall k :: 0 <= k < |bs| && ts[k].token.kind in {CharClassStart, CharClassEnd} ==> bs[k].pair.Some?
  }

  /** Every class bracket is paired, except a class start that is the last
      bracket of all. */
  ghost predicate ClassesPairedButLast(bs: seq<Bracket>, ts: seq<Located>)
    requires |bs| == |ts|
  {
    forall k :: 0 <= k < |bs| && ts[k].token.kind in {CharClassStart, CharClassEnd} && bs[k].pair.None? ==>
      ts[k].token.kind == CharClassStart && k == |bs| - 1
  }

  /** Pairs nest: whatever lies strictly between a bracket and its partner
      is paired with something strictly between them as well. */
  ghost predicate Nested(bs: seq<Bracket>)
  {
    forall o, e :: 0 <= o < e < |bs| && bs[o].pair.Some? && e < bs[o].pair.value ==>
      bs[e].pair.Some? && o < bs[e].pair.value < bs[o].pair.value
  }

  /** A closing bracket is left unpaired only when every opening bracket
      before it is already paired with one before it. */
  ghost predicate UnmatchedClose(bs: seq<Bracket>, ts: seq<Located>)
    requires |bs| == |ts|
  {
    forall o, c :: 0 <= o < c < |bs| && ts[c].token.kind == ClosedBracket && bs[c].pair.None?
                   && ts[o].token.kind == OpenBracket ==>
      bs[o].pair.Some? && bs[o].pair.value < c
  }

  /** Every closing bracket after an unpaired opening bracket is paired
      with an opening bracket after it. */
  ghost predicate UnmatchedOpen(bs: seq<Bracket>, ts: seq<Located>)
    requires |bs| == |ts|
  {
    forall o, c :: 0 <= o < c < |bs| && ts[o].token.kind == OpenBracket && bs[o].pair.None?
                   && ts[c].token.kind == ClosedBracket ==>
      bs[c].pair.Some? && o < bs[c].pair.value
  }

  /** A bracket carries a capture mark exactly when it is a `(` or the
      closing partner of one. */
  ghost predicate Captures(bs: seq<Bracket>, ts: seq<Located>)
    requires |bs| == |ts|
  {
    forall k :: 0 <= k < |bs| ==>
      (bs[k].capture != NotCapture <==>
        (IsCaptureOpen(ts[k]) ||
         (ts[k].token.kind == ClosedBracket && bs[k].pair.Some? && bs[k].pair.value < |ts|
          && IsCaptureOpen(ts[bs[k].pair.value]))))
  }

  /** Groups are numbered in the order their closing brackets appear. */
  ghost predicate GroupsByClose(bs: seq<Bracket>, groups: seq<nat>)
  {
    forall g, h :: 0 <= g < h < |groups| && groups[g] < |bs| && groups[h] < |bs|
                   && bs[groups[g]].pair.Some? && bs[groups[h]].pair.Some? ==>
      bs[groups[g]].pair.value < bs[groups[h]].pair.value
  }

  ghost predicate Core(s: Structure, ts: seq<Located>)
  {
    && WellFormed(s)
    && Positions(s.brackets, ts)
    && PairKinds(s.brackets, ts)
    && Nested(s.brackets)
    && UnmatchedClose(s.brackets, ts)
    && UnmatchedOpen(s.brackets, ts)
    && Captures(s.brackets, ts)
    && GroupsByClose(s.brackets, s.groups)
  }

  /** The stack holds exactly the unpaired opening brackets. */
  ghost predicate StackOk(bs: seq<Bracket>, ts: seq<Located>, open: seq<nat>)
    requires |bs| == |ts|
  {
    && (forall a :: 0 <= a < |open| ==> open[a] < |ts| && ts[open[a]].token.kind == OpenBracket)
    && (forall k :: 0 <= k < |bs| && ts[k].token.kind == OpenBracket && bs[k].pair.None? ==> k in open)
  }

  /** The invariant of the pass between two tokens outside a class, with
      `ts` the bracket tokens read so far. */
  ghost predicate Inv(st: PassState, ts: seq<Located>)
  {
    && PassOk(st)
    && Core(Structure(st.brackets, st.groups), ts)
    && ClassesPaired(st.brackets, ts)
    && StackOk(st.brackets, ts, st.open)
  }

  ghost predicate Final(s: Structure, ts: seq<Located>)
  {
    Core(s, ts) && ClassesPairedButLast(s.brackets, ts)
  }

  lemma InitialInv()
    ensures Inv(Initial(), [])
  {
    EmptyPending();
    EmptyCore();
    EmptyStack();
  }

  lemma EmptyPending()
    ensures PassOk(Initial())
  {
  }

  lemma EmptyCore()
    ensures Core(Structure([], []), [])
  {
  }

  lemma EmptyStack()
    ensures ClassesPaired([], []) && StackOk([], [], [])
  {
  }

  lemma InvFinal(st: PassState, ts: seq<Located>)
    requires Inv(st, ts)
    ensures Final(Structure(st.brackets, st.groups), ts)
  {
  }

  // ---------------------------------------------------------------------
  // Appending one unpaired entry `b` for bracket token `t`.

  /** The pair links of `bs` all point into `bs`. */
  ghost predicate LinksInside(bs: seq<Bracket>)
  {
    forall k :: 0 <= k < |bs| && bs[k].pair.Some? ==> bs[k].pair.value < |bs|
  }

  lemma PositionsSnoc(bs: seq<Bracket>, ts: seq<Located>, b: Bracket, t: Located)
    requires Positions(bs, ts) && b == BracketAt(t, IsClosingKind(t.token.kind), b.pair, b.capture)
    ensures Positions(bs + [b], ts + [t])
  {
    assert forall k :: 0 <= k < |bs| ==> (bs + [b])[k] == bs[k] && (ts + [t])[k] == ts[k];
  }

  lemma PairKindsSnoc(bs: seq<Bracket>, ts: seq<Located>, b: Bracket, t: Located)
    requires |bs| == |ts| && PairKinds(bs, ts) && LinksInside(bs) && b.pair.None?
    ensures PairKinds(bs + [b], ts + [t])
  {
    assert forall k :: 0 <= k < |bs| ==> (bs + [b])[k] == bs[k] && (ts + [t])[k] == ts[k];
  }

  lemma NestedSnoc(bs: seq<Bracket>, b: Bracket)
    requires Nested(bs) && LinksInside(bs) && b.pair.None?
    ensures Nested(bs + [b])
  {
    assert forall k :: 0 <= k < |bs| ==> (bs + [b])[k] == bs[k];
  }

  lemma ClassesPairedSnoc(bs: seq<Bracket>, ts: seq<Located>, b: Bracket, t: Located)
    requires |bs| == |ts| && ClassesPaired(bs, ts) && t.token.kind !in {CharClassStart, CharClassEnd}
    ensures ClassesPaired(bs + [b], ts + [t])
  {
    assert forall k :: 0 <= k < |bs| ==> (bs + [b])[k] == bs[k] && (ts + [t])[k] == ts[k];
  }

  lemma ClassesPairedButLastSnoc(bs: seq<Bracket>, ts: seq<Located>, b: Bracket, t: Located)
    requires |bs| == |ts| && ClassesPaired(bs, ts) && t.token.kind != CharClassEnd
    ensures ClassesPairedButLast(bs + [b], ts + [t])
  {
    assert forall k :: 0 <= k < |bs| ==> (bs + [b])[k] == bs[k] && (ts + [t])[k] == ts[k];
  }

  /** Appending anything but an unpaired closing bracket keeps both
      properties of unpaired brackets. */
  lemma UnmatchedSnoc(bs: seq<Bracket>, ts: seq<Located>, b: Bracket, t: Located)
    requires |bs| == |ts| && UnmatchedClose(bs, ts) && UnmatchedOpen(bs, ts) && t.token.kind != ClosedBracket
    ensures UnmatchedClose(bs + [b], ts + [t]) && UnmatchedOpen(bs + [b], ts + [t])
  {
    assert forall k :: 0 <= k < |bs| ==> (bs + [b])[k] == bs[k] && (ts + [t])[k] == ts[k];
  }

  /** An unpaired closing bracket may be appended when no opening bracket
      is unpaired. */
  lemma UnmatchedCloseSnoc(bs: seq<Bracket>, ts: seq<Located>, b: Bracket, t: Located)
    requires |bs| == |ts| && UnmatchedClose(bs, ts) && UnmatchedOpen(bs, ts) && LinksInside(bs)
    requires forall k :: 0 <= k < |bs| && ts[k].token.kind == OpenBracket ==> bs[k].pair.Some?
    ensures UnmatchedClose(bs + [b], ts + [t]) && UnmatchedOpen(bs + [b], ts + [t])
  {
    assert forall k :: 0 <= k < |bs| ==> (bs + [b])[k] == bs[k] && (ts + [t])[k] == ts[k];
  }

  lemma CapturesSnoc(bs: seq<Bracket>, ts: seq<Located>, b: Bracket, t: Located)
    requires |bs| == |ts| && Captures(bs, ts) && LinksInside(bs)
    requires b.pair.None? && (b.capture != NotCapture <==> IsCaptureOpen(t))
    ensures Captures(bs + [b], ts + [t])
  {
    assert forall k :: 0 <= k < |bs| ==> (bs + [b])[k] == bs[k] && (ts + [t])[k] == ts[k];
  }

  lemma GroupsByCloseSnoc(bs: seq<Bracket>, groups: seq<nat>, bs': seq<Bracket>)
    requires GroupsByClose(bs, groups) && |bs| <= |bs'| && bs'[..|bs|] == bs
    requires forall g :: 0 <= g < |groups| ==> groups[g] < |bs|
    ensures GroupsByClose(bs', groups)
  {
    assert forall k :: 0 <= k < |bs| ==> bs'[k] == bs[k];
  }

  lemma StackPush(bs: seq<Bracket>, ts: seq<Located>, open: seq<nat>, b: Bracket, t: Located)
    requires |bs| == |ts| && StackOk(bs, ts, open) && t.token.kind == OpenBracket
    ensures StackOk(bs + [b], ts + [t], open + [|bs|])
  {
    assert forall k :: 0 <= k < |bs| ==> (bs + [b])[k] == bs[k] && (ts + [t])[k] == ts[k];
  }

  lemma StackKept(bs: seq<Bracket>, ts: seq<Located>, open: seq<nat>, b: Bracket, t: Located)
    requires |bs| == |ts| && StackOk(bs, ts, open) && t.token.kind != OpenBracket
    ensures StackOk(bs + [b], ts + [t], open)
  {
    assert forall k :: 0 <= k < |bs| ==> (bs + [b])[k] == bs[k] && (ts + [t])[k] == ts[k];
  }

  lemma WellFormedFacts(s: Structure)
    requires WellFormed(s)
    ensures LinksInside(s.brackets)
    ensures forall g :: 0 <= g < |s.groups| ==> s.groups[g] < |s.brackets|
  {
    forall g | 0 <= g < |s.groups| ensures s.groups[g] < |s.brackets| {
      assert GroupOk(s.brackets, s.groups, g);
    }
  }

  // ---------------------------------------------------------------------
  // One lemma per kind of step of the pass.

  /** An opening bracket is pushed. */
  lemma PushInv(st: PassState, ts: seq<Located>, t: Located)
    requires Inv(st, ts) && t.token.kind == OpenBracket
    ensures Inv(PassState(st.brackets + [BracketAt(t, false, None, if t.token.text == "(" then Unnumbered else NotCapture)],
                          st.groups, st.open + [|st.brackets|]), ts + [t])
  {
    var bs := st.brackets;
    var b := BracketAt(t, false, None, if t.token.text == "(" then Unnumbered else NotCapture);
    OpenStep(bs, st.groups, st.open, b);
    WellFormedFacts(Structure(bs, st.groups));
    PositionsSnoc(bs, ts, b, t);
    PairKindsSnoc(bs, ts, b, t);
    NestedSnoc(bs, b);
    ClassesPairedSnoc(bs, ts, b, t);
    UnmatchedSnoc(bs, ts, b, t);
    CapturesSnoc(bs, ts, b, t);
    assert (bs + [b])[..|bs|] == bs;
    GroupsByCloseSnoc(bs, st.groups, bs + [b]);
    StackPush(bs, ts, st.open, b, t);
  }

  /** A closing bracket meets an empty stack. */
  lemma UnmatchedInv(st: PassState, ts: seq<Located>, t: Located)
    requires Inv(st, ts) && t.token.kind == ClosedBracket && st.open == []
    ensures Inv(st.(brackets := st.brackets + [BracketAt(t, true, None, NotCapture)]), ts + [t])
  {
    var bs := st.brackets;
    var b := BracketAt(t, true, None, NotCapture);
    PlainStep(bs, st.groups, st.open, b);
    WellFormedFacts(Structure(bs, st.groups));
    PositionsSnoc(bs, ts, b, t);
    PairKindsSnoc(bs, ts, b, t);
    NestedSnoc(bs, b);
    ClassesPairedSnoc(bs, ts, b, t);
    UnmatchedCloseSnoc(bs, ts, b, t);
    CapturesSnoc(bs, ts, b, t);
    assert (bs + [b])[..|bs|] == bs;
    GroupsByCloseSnoc(bs, st.groups, bs + [b]);
    StackKept(bs, ts, st.open, b, t);
  }

  /** A class start without a class end after it ends the pass. */
  lemma UnclosedFinal(st: PassState, ts: seq<Located>, t: Located)
    requires Inv(st, ts) && t.token.kind == CharClassStart
    ensures Final(Structure(st.brackets + [BracketAt(t, false, None, NotCapture)], st.groups), ts + [t])
  {
    var bs := st.brackets;
    var b := BracketAt(t, false, None, NotCapture);
    PlainStep(bs, st.groups, st.open, b);
    WellFormedFacts(Structure(bs, st.groups));
    PositionsSnoc(bs, ts, b, t);
    PairKindsSnoc(bs, ts, b, t);
    NestedSnoc(bs, b);
    ClassesPairedButLastSnoc(bs, ts, b, t);
    UnmatchedSnoc(bs, ts, b, t);
    CapturesSnoc(bs, ts, b, t);
    assert (bs + [b])[..|bs|] == bs;
    GroupsByCloseSnoc(bs, st.groups, bs + [b]);
  }

  // Appending a class start `a` and its class end `e` as a pair.

  function ClassPair(bs: seq<Bracket>, a: Located, e: Located): seq<Bracket>
  {
    bs + [BracketAt(a, false, Some(|bs| + 1), NotCapture), BracketAt(e, true, Some(|bs|), NotCapture)]
  }

  lemma ClassPairPositions(bs: seq<Bracket>, ts: seq<Located>, a: Located, e: Located)
    requires Positions(bs, ts) && a.token.kind == CharClassStart && e.token.kind == CharClassEnd
    ensures Positions(ClassPair(bs, a, e), ts + [a, e])
  {
    var bs' := ClassPair(bs, a, e);
    assert forall k :: 0 <= k < |bs| ==> bs'[k] == bs[k] && (ts + [a, e])[k] == ts[k];
  }

  lemma ClassPairKinds(bs: seq<Bracket>, ts: seq<Located>, a: Located, e: Located)
    requires |bs| == |ts| && PairKinds(bs, ts) && LinksInside(bs)
    requires a.token.kind == CharClassStart && e.token.kind == CharClassEnd
    ensures PairKinds(ClassPair(bs, a, e), ts + [a, e])
    ensures ClassesPaired(bs, ts) ==> ClassesPaired(ClassPair(bs, a, e), ts + [a, e])
  {
    var bs', ts' := ClassPair(bs, a, e), ts + [a, e];
    assert forall k :: 0 <= k < |bs| ==> bs'[k] == bs[k] && ts'[k] == ts[k];
    assert ts'[|bs|] == a && ts'[|bs| + 1] == e;
  }

  lemma ClassPairNested(bs: seq<Bracket>, a: Located, e: Located)
    requires Nested(bs) && LinksInside(bs)
    ensures Nested(ClassPair(bs, a, e))
  {
    var bs' := ClassPair(bs, a, e);
    assert forall k :: 0 <= k < |bs| ==> bs'[k] == bs[k];
  }

  lemma ClassPairUnmatched(bs: seq<Bracket>, ts: seq<Located>, a: Located, e: Located)
    requires |bs| == |ts| && UnmatchedClose(bs, ts) && UnmatchedOpen(bs, ts)
    requires a.token.kind == CharClassStart && e.token.kind == CharClassEnd
    ensures UnmatchedClose(ClassPair(bs, a, e), ts + [a, e]) && UnmatchedOpen(ClassPair(bs, a, e), ts + [a, e])
  {
    var bs', ts' := ClassPair(bs, a, e), ts + [a, e];
    assert forall k :: 0 <= k < |bs| ==> bs'[k] == bs[k] && ts'[k] == ts[k];
    assert ts'[|bs|] == a && ts'[|bs| + 1] == e;
  }

  lemma ClassPairCaptures(bs: seq<Bracket>, ts: seq<Located>, open: seq<nat>, a: Located, e: Located)
    requires |bs| == |ts| && Captures(bs, ts) && StackOk(bs, ts, open) && LinksInside(bs)
    requires a.token.kind == CharClassStart && e.token.kind == CharClassEnd
    ensures Captures(ClassPair(bs, a, e), ts + [a, e])
    ensures StackOk(ClassPair(bs, a, e), ts + [a, e], open)
  {
    var bs', ts' := ClassPair(bs, a, e), ts + [a, e];
    assert forall k :: 0 <= k < |bs| ==> bs'[k] == bs[k] && ts'[k] == ts[k];
    assert ts'[|bs|] == a && ts'[|bs| + 1] == e;
  }

  /** A class start and the class end after it are recorded as a pair. */
  lemma ClassInv(st: PassState, ts: seq<Located>, a: Located, e: Located)
    requires Inv(st, ts) && a.token.kind == CharClassStart && e.token.kind == CharClassEnd
    ensures Inv(st.(brackets := ClassPair(st.brackets, a, e)), ts + [a, e])
  {
    var bs := st.brackets;
    ClassStep(bs, st.groups, st.open, a, e);
    WellFormedFacts(Structure(bs, st.groups));
    ClassPairPositions(bs, ts, a, e);
    ClassPairKinds(bs, ts, a, e);
    ClassPairNested(bs, a, e);
    ClassPairUnmatched(bs, ts, a, e);
    ClassPairCaptures(bs, ts, st.open, a, e);
    assert ClassPair(bs, a, e)[..|bs|] == bs;
    GroupsByCloseSnoc(bs, st.groups, ClassPair(bs, a, e));
  }

  // Pairing the top of the stack `o` with a closing bracket `c` for token `t`.

  /** The top of the stack is the last unpaired opening bracket. */
  lemma TopIsLast(st: PassState, ts: seq<Located>)
    requires PassOk(st) && |st.brackets| == |ts| && StackOk(st.brackets, ts, st.open) && st.open != []
    ensures var o := st.open[|st.open| - 1];
            o < |st.brackets| && ts[o].token.kind == OpenBracket && st.brackets[o].pair.None?
            && !st.brackets[o].capture.Numbered?
            && forall k :: 0 <= k < |st.brackets| && ts[k].token.kind == OpenBracket && st.brackets[k].pair.None? && k != o ==>
                 k < o && k in st.open[..|st.open| - 1]
  {
    var o := st.open[|st.open| - 1];
    forall k | 0 <= k < |st.brackets| && ts[k].token.kind == OpenBracket && st.brackets[k].pair.None? && k != o
      ensures k < o && k in st.open[..|st.open| - 1]
    {
      var a :| 0 <= a < |st.open| && st.open[a] == k;
      assert a < |st.open| - 1;
      assert st.open[..|st.open| - 1][a] == k;
    }
  }

  lemma ClosePositions(bs: seq<Bracket>, ts: seq<Located>, groups: seq<nat>, o: nat, t: Located)
    requires Positions(bs, ts) && o < |bs| && t.token.kind == ClosedBracket
    ensures Positions(Closed(bs, groups, o, BracketAt(t, true, None, NotCapture)), ts + [t])
  {
    var bs' := Closed(bs, groups, o, BracketAt(t, true, None, NotCapture));
    assert forall k :: 0 <= k < |bs| && k != o ==> bs'[k] == bs[k] && (ts + [t])[k] == ts[k];
    assert (ts + [t])[o] == ts[o];
  }

  lemma ClosePairKinds(bs: seq<Bracket>, ts: seq<Located>, groups: seq<nat>, o: nat, t: Located)
    requires |bs| == |ts| && PairKinds(bs, ts) && PairsSymmetric(bs) && ClassesPaired(bs, ts)
    requires o < |bs| && bs[o].pair.None? && ts[o].token.kind == OpenBracket && t.token.kind == ClosedBracket
    ensures PairKinds(Closed(bs, groups, o, BracketAt(t, true, None, NotCapture)), ts + [t])
    ensures ClassesPaired(Closed(bs, groups, o, BracketAt(t, true, None, NotCapture)), ts + [t])
  {
    var bs', ts' := Closed(bs, groups, o, BracketAt(t, true, None, NotCapture)), ts + [t];
    assert forall k :: 0 <= k < |bs| && k != o ==> bs'[k] == bs[k];
    assert forall k :: 0 <= k < |bs| ==> ts'[k] == ts[k];
    assert ts'[|bs|] == t;
  }

  lemma CloseNested(bs: seq<Bracket>, ts: seq<Located>, groups: seq<nat>, o: nat, t: Located)
    requires |bs| == |ts| && Nested(bs) && PairsSymmetric(bs) && ClassesPaired(bs, ts) && UnmatchedClose(bs, ts)
    requires AllBrackets(ts)
    requires o < |bs| && bs[o].pair.None? && ts[o].token.kind == OpenBracket
    requires forall k :: 0 <= k < |bs| && ts[k].token.kind == OpenBracket && bs[k].pair.None? && k != o ==> k < o
    ensures Nested(Closed(bs, groups, o, BracketAt(t, true, None, NotCapture)))
  {
    var bs' := Closed(bs, groups, o, BracketAt(t, true, None, NotCapture));
    var n := |bs|;
    assert forall k :: 0 <= k < n && k != o ==> bs'[k] == bs[k];
    forall x, e | 0 <= x < e < |bs'| && bs'[x].pair.Some? && e < bs'[x].pair.value
      ensures bs'[e].pair.Some? && x < bs'[e].pair.value < bs'[x].pair.value
    {
      if x == o {
        // e lies between o and the new closing bracket: it is paired, and
        // its partner lies after o.
        assert e < n && bs'[e] == bs[e];
        assert IsBracketKind(ts[e].token.kind);
        if bs[e].pair.None? {
          assert false;
        }
        var p := bs[e].pair.value;
        assert bs[p].pair == Some(e);
        if p < o {
          assert false;
        }
      } else {
        assert x < n && bs'[x] == bs[x] && bs[x].pair.value < n;
        if e == o {
          assert false;
        }
        assert bs'[e] == bs[e];
      }
    }
  }

  lemma CloseUnmatched(bs: seq<Bracket>, ts: seq<Located>, groups: seq<nat>, o: nat, t: Located)
    requires |bs| == |ts| && UnmatchedClose(bs, ts) && UnmatchedOpen(bs, ts) && LinksInside(bs)
    requires o < |bs| && bs[o].pair.None? && ts[o].token.kind == OpenBracket && t.token.kind == ClosedBracket
    requires forall k :: 0 <= k < |bs| && ts[k].token.kind == OpenBracket && bs[k].pair.None? && k != o ==> k < o
    ensures UnmatchedClose(Closed(bs, groups, o, BracketAt(t, true, None, NotCapture)), ts + [t])
    ensures UnmatchedOpen(Closed(bs, groups, o, BracketAt(t, true, None, NotCapture)), ts + [t])
  {
    var bs', ts' := Closed(bs, groups, o, BracketAt(t, true, None, NotCapture)), ts + [t];
    assert forall k :: 0 <= k < |bs| && k != o ==> bs'[k] == bs[k];
    assert forall k :: 0 <= k < |bs| ==> ts'[k] == ts[k];
    assert ts'[|bs|] == t;
  }

  lemma CloseCaptures(bs: seq<Bracket>, ts: seq<Located>, groups: seq<nat>, o: nat, t: Located)
    requires |bs| == |ts| && Captures(bs, ts) && PairsSymmetric(bs)
    requires o < |bs| && bs[o].pair.None? && !bs[o].capture.Numbered? && t.token.kind == ClosedBracket
    ensures Captures(Closed(bs, groups, o, BracketAt(t, true, None, NotCapture)), ts + [t])
  {
    var bs', ts' := Closed(bs, groups, o, BracketAt(t, true, None, NotCapture)), ts + [t];
    assert forall k :: 0 <= k < |bs| && k != o ==> bs'[k] == bs[k];
    assert forall k :: 0 <= k < |bs| ==> ts'[k] == ts[k];
    assert ts'[|bs|] == t;
    forall k | 0 <= k < |bs| && k != o && bs[k].pair.Some?
      ensures bs[k].pair.value != o
    {
      assert bs[bs[k].pair.value].pair == Some(k);
    }
  }

  lemma CloseGroupsByClose(bs: seq<Bracket>, groups: seq<nat>, o: nat, c: Bracket)
    requires WellFormed(Structure(bs, groups)) && GroupsByClose(bs, groups)
    requires o < |bs| && bs[o].pair.None? && !bs[o].capture.Numbered?
    ensures GroupsByClose(Closed(bs, groups, o, c), ClosedGroups(bs, groups, o))
  {
    var bs', groups' := Closed(bs, groups, o, c), ClosedGroups(bs, groups, o);
    assert forall k :: 0 <= k < |bs| && k != o ==> bs'[k] == bs[k];
    forall g | 0 <= g < |groups|
      ensures groups[g] < |bs| && groups[g] != o && bs[groups[g]].pair.Some? && bs[groups[g]].pair.value < |bs|
      ensures groups'[g] == groups[g] && bs'[groups[g]] == bs[groups[g]]
    {
      assert GroupOk(bs, groups, g);
    }
    forall g, h | 0 <= g < h < |groups'| && groups'[g] < |bs'| && groups'[h] < |bs'|
                  && bs'[groups'[g]].pair.Some? && bs'[groups'[h]].pair.Some?
      ensures bs'[groups'[g]].pair.value < bs'[groups'[h]].pair.value
    {
      if h == |groups| {
        assert groups'[h] == o && bs'[o].pair == Some(|bs|);
      }
    }
  }

  lemma CloseStack(bs: seq<Bracket>, ts: seq<Located>, groups: seq<nat>, open: seq<nat>, t: Located)
    requires |bs| == |ts| && StackOk(bs, ts, open) && open != [] && open[|open| - 1] < |bs|
    requires forall k :: 0 <= k < |bs| && ts[k].token.kind == OpenBracket && bs[k].pair.None? && k != open[|open| - 1] ==>
               k in open[..|open| - 1]
    ensures StackOk(Closed(bs, groups, open[|open| - 1], BracketAt(t, true, None, NotCapture)), ts + [t], open[..|open| - 1])
  {
    var o := open[|open| - 1];
    var bs', ts' := Closed(bs, groups, o, BracketAt(t, true, None, NotCapture)), ts + [t];
    assert forall k :: 0 <= k < |bs| && k != o ==> bs'[k] == bs[k];
    assert forall k :: 0 <= k < |bs| ==> ts'[k] == ts[k];
    assert forall a :: 0 <= a < |open| - 1 ==> open[..|open| - 1][a] == open[a];
  }

  /** A closing bracket is paired with the top of the stack. */
  lemma CloseInv(st: PassState, ts: seq<Located>, t: Located)
    requires Inv(st, ts) && AllBrackets(ts) && t.token.kind == ClosedBracket && st.open != []
    ensures var o := st.open[|st.open| - 1];
            var c := BracketAt(t, true, None, NotCapture);
            Inv(PassState(Closed(st.brackets, st.groups, o, c), ClosedGroups(st.brackets, st.groups, o),
                          st.open[..|st.open| - 1]), ts + [t])
  {
    var bs := st.brackets;
    var o := st.open[|st.open| - 1];
    var c := BracketAt(t, true, None, NotCapture);
    CloseStep(bs, st.groups, st.open, c);
    WellFormedFacts(Structure(bs, st.groups));
    TopIsLast(st, ts);
    ClosePositions(bs, ts, st.groups, o, t);
    ClosePairKinds(bs, ts, st.groups, o, t);
    CloseNested(bs, ts, st.groups, o, t);
    CloseUnmatched(bs, ts, st.groups, o, t);
    CloseCaptures(bs, ts, st.groups, o, t);
    CloseGroupsByClose(bs, st.groups, o, c);
    CloseStack(bs, ts, st.groups, st.open, t);
  }

  // ---------------------------------------------------------------------
  // The whole pass.

  lemma ShapeStep(ks: seq<Kind>, i: nat, inClass: bool)
    requires i < |ks| && ClassShaped(ks[i..], inClass)
    ensures if inClass then IsClassKind(ks[i]) else IsTermKind(ks[i])
    ensures ClassShaped(ks[i + 1..], if inClass then ks[i] != CharClassEnd else ks[i] == CharClassStart)
  {
    assert ks[i..][0] == ks[i] && ks[i..][1..] == ks[i + 1..];
  }

  lemma BracketTokensStep(toks: seq<Located>, i: nat)
    requires i < |toks|
    ensures BracketTokens(toks[..i + 1]) == BracketTokens(toks[..i]) + if IsBracketKind(toks[i].token.kind) then [toks[i]] else []
  {
    assert toks[..i + 1][..i] == toks[..i];
  }

  /** Inside a class, the pass skips to the class end without passing any
      bracket token... */
  lemma {:induction false} ClassRunTokens(toks: seq<Located>, from: nat)
    requires from <= |toks| && ClassShaped(KindsOf(toks)[from..], true)
    ensures BracketTokens(toks[..NextClassEnd(toks, from)]) == BracketTokens(toks[..from])
    decreases |toks| - from
  {
    if from < |toks| && toks[from].token.kind != CharClassEnd {
      ShapeStep(KindsOf(toks), from, true);
      assert !IsBracketKind(toks[from].token.kind);
      BracketTokensStep(toks, from);
      ClassRunTokens(toks, from + 1);
    }
  }

  /** ... and leaves the class at the class end. */
  lemma {:induction false} ClassRunShape(toks: seq<Located>, from: nat)
    requires from <= |toks| && ClassShaped(KindsOf(toks)[from..], true)
    ensures NextClassEnd(toks, from) < |toks| ==> ClassShaped(KindsOf(toks)[NextClassEnd(toks, from) + 1..], false)
    decreases |toks| - from
  {
    if from < |toks| {
      ShapeStep(KindsOf(toks), from, true);
      if toks[from].token.kind != CharClassEnd {
        ClassRunShape(toks, from + 1);
      }
    }
  }

  /** From any point between two tokens outside a class where the
      invariant holds, the pass ends with a structure that has the final
      properties. */
  lemma {:induction false} GoProps(toks: seq<Located>, i: nat, st: PassState)
    requires i <= |toks| && Inv(st, BracketTokens(toks[..i])) && ClassShaped(KindsOf(toks)[i..], false)
    ensures Final(Go(toks, i, st), BracketTokens(toks))
    decreases |toks| - i, 3
  {
    if i == |toks| {
      assert toks[..i] == toks;
      InvFinal(st, BracketTokens(toks[..i]));
    } else if toks[i].token.kind == CharClassStart {
      GoPropsClass(toks, i, st);
    } else if toks[i].token.kind == OpenBracket {
      GoPropsOpen(toks, i, st);
    } else if toks[i].token.kind == ClosedBracket {
      GoPropsClose(toks, i, st);
    } else {
      GoPropsOther(toks, i, st);
    }
  }

  lemma {:induction false} GoPropsClass(toks: seq<Located>, i: nat, st: PassState)
    requires i < |toks| && Inv(st, BracketTokens(toks[..i])) && ClassShaped(KindsOf(toks)[i..], false)
    requires toks[i].token.kind == CharClassStart
    ensures Final(Go(toks, i, st), BracketTokens(toks))
    decreases |toks| - i, 2
  {
    if NextClassEnd(toks, i + 1) == |toks| {
      GoPropsUnclosed(toks, i, st);
    } else {
      GoPropsClassPair(toks, i, st);
    }
  }

  /** A class that is never closed ends the pass. */
  lemma {:induction false} GoPropsUnclosed(toks: seq<Located>, i: nat, st: PassState)
    requires i < |toks| && Inv(st, BracketTokens(toks[..i])) && ClassShaped(KindsOf(toks)[i..], false)
    requires toks[i].token.kind == CharClassStart && NextClassEnd(toks, i + 1) == |toks|
    ensures Final(Go(toks, i, st), BracketTokens(toks))
  {
    ShapeStep(KindsOf(toks), i, false);
    BracketTokensStep(toks, i);
    NextOk(toks, i, st);
    ClassRunTokens(toks, i + 1);
    assert toks[..|toks|] == toks;
    UnclosedFinal(st, BracketTokens(toks[..i]), toks[i]);
  }

  /** A closed class adds its two brackets, paired, and the pass goes on
      after the class end. */
  lemma {:induction false} GoPropsClassPair(toks: seq<Located>, i: nat, st: PassState)
    requires i < |toks| && Inv(st, BracketTokens(toks[..i])) && ClassShaped(KindsOf(toks)[i..], false)
    requires toks[i].token.kind == CharClassStart && NextClassEnd(toks, i + 1) < |toks|
    ensures Final(Go(toks, i, st), BracketTokens(toks))
    decreases |toks| - i, 1
  {
    var j := NextClassEnd(toks, i + 1);
    var st' := st.(brackets := ClassPair(st.brackets, toks[i], toks[j]));
    ClassStepInv(toks, i, st, j, st');
    GoPropsAfterClass(toks, i, st, j, st');
  }

  lemma {:induction false} GoPropsAfterClass(toks: seq<Located>, i: nat, st: PassState, j: nat, st': PassState)
    requires i < |toks| && PassOk(st) && toks[i].token.kind == CharClassStart
    requires j == NextClassEnd(toks, i + 1) < |toks|
    requires st' == st.(brackets := ClassPair(st.brackets, toks[i], toks[j]))
    requires Inv(st', BracketTokens(toks[..j + 1])) && ClassShaped(KindsOf(toks)[j + 1..], false)
    ensures Final(Go(toks, i, st), BracketTokens(toks))
    decreases |toks| - i, 0
  {
    GoProps(toks, j + 1, st');
    GoClass(toks, i, st);
    FinalRewrite(Go(toks, j + 1, st'), BracketTokens(toks), Go(toks, i, st));
  }

  /** At a closed class, the pass goes on after the class end with the
      class's two brackets added. */
  lemma {:induction false} GoClass(toks: seq<Located>, i: nat, st: PassState)
    requires i < |toks| && PassOk(st)
    requires toks[i].token.kind == CharClassStart && NextClassEnd(toks, i + 1) < |toks|
    ensures var j := NextClassEnd(toks, i + 1);
            var st' := st.(brackets := ClassPair(st.brackets, toks[i], toks[j]));
            PassOk(st') && Go(toks, i, st) == Go(toks, j + 1, st')
  {
    NextOk(toks, i, st);
  }

  lemma {:induction false} FinalRewrite(s: Structure, ts: seq<Located>, s': Structure)
    requires Final(s, ts) && s' == s
    ensures Final(s', ts)
  {
  }

  /** After a closed class the invariant holds again, for the bracket
      tokens up to the class end. */
  lemma {:induction false} ClassStepInv(toks: seq<Located>, i: nat, st: PassState, j: nat, st': PassState)
    requires i < |toks| && Inv(st, BracketTokens(toks[..i])) && ClassShaped(KindsOf(toks)[i..], false)
    requires toks[i].token.kind == CharClassStart && j == NextClassEnd(toks, i + 1) < |toks|
    requires st' == st.(brackets := ClassPair(st.brackets, toks[i], toks[j]))
    ensures Inv(st', BracketTokens(toks[..j + 1])) && ClassShaped(KindsOf(toks)[j + 1..], false)
  {
    ClassTokens(toks, i);
    ClassInvAt(st, BracketTokens(toks[..i]), toks[i], toks[j], BracketTokens(toks[..j + 1]));
  }

  lemma {:induction false} ClassInvAt(st: PassState, ts: seq<Located>, a: Located, e: Located, ts': seq<Located>)
    requires Inv(st, ts) && a.token.kind == CharClassStart && e.token.kind == CharClassEnd
    requires ts' == ts + [a, e]
    ensures Inv(st.(brackets := ClassPair(st.brackets, a, e)), ts')
  {
    ClassInv(st, ts, a, e);
  }

  /** A closed class contributes its start and its end to the bracket
      tokens, and the stream after it is read from outside a class. */
  lemma {:induction false} ClassTokens(toks: seq<Located>, i: nat)
    requires i < |toks| && ClassShaped(KindsOf(toks)[i..], false)
    requires toks[i].token.kind == CharClassStart && NextClassEnd(toks, i + 1) < |toks|
    ensures var j := NextClassEnd(toks, i + 1);
            BracketTokens(toks[..j + 1]) == BracketTokens(toks[..i]) + [toks[i], toks[j]]
            && ClassShaped(KindsOf(toks)[j + 1..], false)
  {
    ShapeStep(KindsOf(toks), i, false);
    ClassBrackets(toks, i);
    ClassRunShape(toks, i + 1);
  }

  lemma {:induction false} ClassBrackets(toks: seq<Located>, i: nat)
    requires i < |toks| && ClassShaped(KindsOf(toks)[i + 1..], true)
    requires toks[i].token.kind == CharClassStart && NextClassEnd(toks, i + 1) < |toks|
    ensures BracketTokens(toks[..NextClassEnd(toks, i + 1) + 1])
            == BracketTokens(toks[..i]) + [toks[i], toks[NextClassEnd(toks, i + 1)]]
  {
    var j := NextClassEnd(toks, i + 1);
    var ts := BracketTokens(toks[..i]);
    BracketTokensStep(toks, i);
    assert IsBracketKind(toks[i].token.kind);
    var started := BracketTokens(toks[..i + 1]);
    assert started == ts + [toks[i]];
    ClassRunTokens(toks, i + 1);
    assert BracketTokens(toks[..j]) == started;
    BracketTokensStep(toks, j);
    assert IsBracketKind(toks[j].token.kind);
    AppendTwo(BracketTokens(toks[..j + 1]), started, ts, toks[i], toks[j]);
  }

  lemma AppendTwo(whole: seq<Located>, part: seq<Located>, ts: seq<Located>, a: Located, e: Located)
    requires whole == part + [e] && part == ts + [a]
    ensures whole == ts + [a, e]
  {
    assert ts + [a] + [e] == ts + [a, e];
  }

  lemma {:induction false} GoPropsOpen(toks: seq<Located>, i: nat, st: PassState)
    requires i < |toks| && Inv(st, BracketTokens(toks[..i])) && ClassShaped(KindsOf(toks)[i..], false)
    requires toks[i].token.kind == OpenBracket
    ensures Final(Go(toks, i, st), BracketTokens(toks))
    decreases |toks| - i, 0
  {
    ShapeStep(KindsOf(toks), i, false);
    BracketTokensStep(toks, i);
    NextOk(toks, i, st);
    PushInv(st, BracketTokens(toks[..i]), toks[i]);
    GoProps(toks, i + 1, Next(toks, i, st).1);
  }

  lemma {:induction false} GoPropsClose(toks: seq<Located>, i: nat, st: PassState)
    requires i < |toks| && Inv(st, BracketTokens(toks[..i])) && ClassShaped(KindsOf(toks)[i..], false)
    requires toks[i].token.kind == ClosedBracket
    ensures Final(Go(toks, i, st), BracketTokens(toks))
    decreases |toks| - i, 0
  {
    ShapeStep(KindsOf(toks), i, false);
    BracketTokensStep(toks, i);
    NextOk(toks, i, st);
    if st.open == [] {
      UnmatchedInv(st, BracketTokens(toks[..i]), toks[i]);
    } else {
      CloseInv(st, BracketTokens(toks[..i]), toks[i]);
    }
    GoProps(toks, i + 1, Next(toks, i, st).1);
  }

  lemma {:induction false} GoPropsOther(toks: seq<Located>, i: nat, st: PassState)
    requires i < |toks| && Inv(st, BracketTokens(toks[..i])) && ClassShaped(KindsOf(toks)[i..], false)
    requires toks[i].token.kind !in {CharClassStart, OpenBracket, ClosedBracket}
    ensures Final(Go(toks, i, st), BracketTokens(toks))
    decreases |toks| - i, 0
  {
    ShapeStep(KindsOf(toks), i, false);
    BracketTokensStep(toks, i);
    NextOk(toks, i, st);
    GoProps(toks, i + 1, st);
  }

  /** On every token stream of the lexer's shape, the structure the pass
      computes has all the properties above against the stream's bracket
      tokens. */
  lemma AnalyzeFinal(toks: seq<Located>)
    requires ClassShaped(KindsOf(toks), false)
    ensures Final(Analyze(toks), BracketTokens(toks))
  {
    InitialInv();
    assert toks[..0] == [] && KindsOf(toks)[0..] == KindsOf(toks);
    GoProps(toks, 0, Initial());
  }

  /** Only `(` groups are numbered: group `g + 1` runs from a `(` to a
      closing bracket, and a `(` carries a number exactly when it is
      paired, namely the number of its own group. */
  lemma GroupsAreCaptures(s: Structure, ts: seq<Located>)
    requires Final(s, ts)
    ensures forall g :: 0 <= g < |s.groups| ==>
              s.groups[g] < |ts| && IsCaptureOpen(ts[s.groups[g]])
              && s.brackets[s.groups[g]].pair.Some? && s.brackets[s.groups[g]].pair.value < |ts|
              && ts[s.brackets[s.groups[g]].pair.value].token.kind == ClosedBracket
    ensures forall k :: 0 <= k < |ts| && IsCaptureOpen(ts[k]) ==>
              (s.brackets[k].capture.Numbered? <==> s.brackets[k].pair.Some?)
              && (s.brackets[k].pair.None? ==> s.brackets[k].capture == Unnumbered)
              && (s.brackets[k].capture.Numbered? ==>
                    1 <= s.brackets[k].capture.n <= |s.groups| && s.groups[s.brackets[k].capture.n - 1] == k)
  {
    var bs := s.brackets;
    forall g | 0 <= g < |s.groups|
      ensures s.groups[g] < |ts| && IsCaptureOpen(ts[s.groups[g]])
      ensures bs[s.groups[g]].pair.Some? && bs[s.groups[g]].pair.value < |ts| && ts[bs[s.groups[g]].pair.value].token.kind == ClosedBracket
    {
      assert GroupOk(bs, s.groups, g);
      var o := s.groups[g];
      assert bs[o].capture != NotCapture;
    }
    forall k | 0 <= k < |ts| && IsCaptureOpen(ts[k])
      ensures bs[k].capture.Numbered? <==> bs[k].pair.Some?
      ensures bs[k].pair.None? ==> bs[k].capture == Unnumbered
      ensures bs[k].capture.Numbered? ==> 1 <= bs[k].capture.n <= |s.groups| && s.groups[bs[k].capture.n - 1] == k
    {
      assert bs[k].capture != NotCapture;
      if bs[k].capture.Numbered? {
        assert NumberOk(bs, s.groups, k);
        var n := bs[k].capture.n;
        assert GroupOk(bs, s.groups, n - 1);
      }
    }
  }
}
