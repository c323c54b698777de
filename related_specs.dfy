/**
 * What the related-element finders compute, stated over the session's
 * tokens in document order (`Flatten`), independently of the walks that
 * compute it. For a `|` at position `q`, the finder marks the alternatives
 * of the alternation `q` belongs to; for a quantifier at `q`, the atom it
 * quantifies; for a back-reference, the group it refers to.
 */
module RelatedSpecs {
  import opened Wrappers
  import opened Tokens
  import opened Session
  import opened Lexer

  // ----- bracket balance -----

  /** How a token moves the bracket depth, seen from its right: a closing
      bracket counts one, an opening bracket minus one. */
  function Delta(t: Located): int
  {
    if t.token.kind == ClosedBracket then 1
    else if t.token.kind == OpenBracket then -1
    else 0
  }

  /** Closing minus opening brackets among `toks[a..b]`. */
  function Net(toks: seq<Located>, a: nat, b: nat): int
    requires a <= b <= |toks|
    decreases b - a
  {
    if a == b then 0 else Net(toks, a, b - 1) + Delta(toks[b - 1])
  }

  lemma {:induction false} NetCons(toks: seq<Located>, a: nat, b: nat)
    requires a < b <= |toks|
    ensures Net(toks, a, b) == Delta(toks[a]) + Net(toks, a + 1, b)
    decreases b - a
  {
    if a + 1 < b {
      NetCons(toks, a, b - 1);
    }
  }

  /** The balance of adjacent stretches adds up. */
  lemma {:induction false} NetSplit(toks: seq<Located>, a: nat, m: nat, b: nat)
    requires a <= m <= b <= |toks|
    ensures Net(toks, a, b) == Net(toks, a, m) + Net(toks, m, b)
    decreases b - m
  {
    if m < b {
      NetSplit(toks, a, m, b - 1);
    }
  }

  // ----- the group around a position -----

  /** `toks[s..e]` holds at least as many opening as closing brackets. */
  predicate OpensCover(toks: seq<Located>, s: nat, e: nat)
    requires s <= e <= |toks|
  {
    Net(toks, s, e) <= 0
  }

  /** The nearest position before `q` from which there are more opening
      than closing brackets up to `q` (the bracket that opens the group
      `q` is in), or -1 when `q` is at the top level. */
  function EnclosingOpen(toks: seq<Located>, q: nat): (lo: int)
    requires q < |toks|
    ensures -1 <= lo < q
    ensures lo >= 0 ==> Net(toks, lo, q) < 0
    ensures forall j :: lo < j < q ==> Net(toks, j, q) >= 0
  {
    OpenBelow(toks, q, q)
  }

  function OpenBelow(toks: seq<Located>, q: nat, k: nat): (lo: int)
    requires k <= q < |toks|
    requires forall j :: k <= j < q ==> Net(toks, j, q) >= 0
    ensures -1 <= lo < k
    ensures lo >= 0 ==> Net(toks, lo, q) < 0
    ensures forall j :: lo < j < q ==> Net(toks, j, q) >= 0
    decreases k
  {
    if k == 0 then -1
    else if Net(toks, k - 1, q) < 0 then k - 1
    else OpenBelow(toks, q, k - 1)
  }

  /** The nearest position after `q` at which there are more closing than
      opening brackets from just after `q` (the bracket that closes the
      group `q` is in), or the end of the input. */
  function EnclosingClose(toks: seq<Located>, q: nat): (hi: nat)
    requires q < |toks|
    ensures q < hi <= |toks|
    ensures hi < |toks| ==> Net(toks, q + 1, hi + 1) > 0
    ensures var s := q + 1; forall e :: s < e <= hi ==> OpensCover(toks, s, e)
  {
    CloseAbove(toks, q, q + 1)
  }

  function CloseAbove(toks: seq<Located>, q: nat, k: nat): (hi: nat)
    requires q < k <= |toks|
    requires var s := q + 1; forall e :: s < e <= k ==> OpensCover(toks, s, e)
    ensures k <= hi <= |toks|
    ensures hi < |toks| ==> Net(toks, q + 1, hi + 1) > 0
    ensures var s := q + 1; forall e :: s < e <= hi ==> OpensCover(toks, s, e)
    decreases |toks| - k
  {
    if k == |toks| then k
    else if Net(toks, q + 1, k + 1) > 0 then k
    else CloseAbove(toks, q, k + 1)
  }

  /** The group opener found is an opening bracket, one level up. */
  lemma EnclosingOpenIsOpen(toks: seq<Located>, q: nat)
    requires q < |toks| && EnclosingOpen(toks, q) >= 0
    ensures var lo := EnclosingOpen(toks, q);
      toks[lo].token.kind == OpenBracket && Net(toks, lo, q) == -1
  {
    var lo := EnclosingOpen(toks, q);
    NetCons(toks, lo, q);
  }

  /** The group closer found is a closing bracket, one level up. */
  lemma EnclosingCloseIsClose(toks: seq<Located>, q: nat)
    requires q < |toks| && EnclosingClose(toks, q) < |toks|
    ensures var hi := EnclosingClose(toks, q);
      toks[hi].token.kind == ClosedBracket && Net(toks, q + 1, hi + 1) == 1
  {
    var hi := EnclosingClose(toks, q);
    assert Net(toks, q + 1, hi + 1) == Net(toks, q + 1, hi) + Delta(toks[hi]);
    if hi > q + 1 {
      assert OpensCover(toks, q + 1, hi);
    }
  }

  /** Around a token that is not a bracket, the opener and the closer found
      enclose a balanced stretch: they are partners. */
  lemma EnclosingBalanced(toks: seq<Located>, q: nat)
    requires q < |toks| && Delta(toks[q]) == 0
    requires EnclosingOpen(toks, q) >= 0 && EnclosingClose(toks, q) < |toks|
    ensures Net(toks, EnclosingOpen(toks, q), EnclosingClose(toks, q) + 1) == 0
  {
    var lo, hi := EnclosingOpen(toks, q), EnclosingClose(toks, q);
    EnclosingOpenIsOpen(toks, q);
    EnclosingCloseIsClose(toks, q);
    NetSplit(toks, lo, q, hi + 1);
    NetCons(toks, q, hi + 1);
  }

  // ----- the alternation around a `|` -----

  predicate IsOr(t: Located)
  {
    t.token.kind == OrSymbol
  }

  /** Token `k` is a `|` and `toks[a..b]` is balanced. */
  predicate BarAtLevel(toks: seq<Located>, k: nat, a: nat, b: nat)
    requires k < |toks| && a <= b <= |toks|
  {
    IsOr(toks[k]) && Net(toks, a, b) == 0
  }

  /** The `|` tokens strictly between `lo` and `q` that are on the level of
      `q` (as many opening as closing brackets between them), nearest
      first. */
  function BarsBelow(toks: seq<Located>, lo: int, q: nat): (bs: seq<nat>)
    requires -1 <= lo < q < |toks|
    ensures forall i :: 0 <= i < |bs| ==> lo < bs[i] < q
    decreases q - lo
  {
    if lo + 1 == q then []
    else BarsBelow(toks, lo + 1, q) + (if BarAtLevel(toks, lo + 1, lo + 1, q) then [lo + 1] else [])
  }

  /** Exactly the bars on the level of `q` are listed, in descending order. */
  lemma {:induction false} BarsBelowLevel(toks: seq<Located>, lo: int, q: nat)
    requires -1 <= lo < q < |toks|
    ensures var bs := BarsBelow(toks, lo, q);
      && (forall i, j :: 0 <= i < j < |bs| ==> bs[j] < bs[i])
      && (forall k :: lo < k < q ==> (k in bs <==> BarAtLevel(toks, k, k, q)))
    decreases q - lo
  {
    if lo + 1 < q {
      BarsBelowLevel(toks, lo + 1, q);
    }
  }

  /** The `|` tokens strictly between `q` and `hi` on the level of `q`,
      nearest first. */
  function BarsAbove(toks: seq<Located>, q: nat, hi: nat): (bs: seq<nat>)
    requires q < hi <= |toks|
    ensures forall i :: 0 <= i < |bs| ==> q < bs[i] < hi
    decreases hi - q
  {
    if hi == q + 1 then []
    else BarsAbove(toks, q, hi - 1) + (if BarAtLevel(toks, hi - 1, q + 1, hi - 1) then [hi - 1] else [])
  }

  /** Exactly the bars on the level of `q` are listed, in ascending order. */
  lemma {:induction false} BarsAboveLevel(toks: seq<Located>, q: nat, hi: nat)
    requires q < hi <= |toks|
    ensures var bs := BarsAbove(toks, q, hi);
      && (forall i, j :: 0 <= i < j < |bs| ==> bs[i] < bs[j])
      && (var s := q + 1; forall k :: q < k < hi ==> (k in bs <==> BarAtLevel(toks, k, s, k)))
    decreases hi - q
  {
    if q + 1 < hi {
      BarsAboveLevel(toks, q, hi - 1);
    }
  }

  /** The last of a walk's bars, or `q` itself before the first. */
  function LastOf(q: nat, bars: seq<nat>): nat
  {
    if bars == [] then q else bars[|bars| - 1]
  }

  /** Walking back from `q`: the text between each bar and the one after it. */
  function BackGaps(toks: seq<Located>, q: nat, bars: seq<nat>): (rs: seq<Range>)
    requires q < |toks| && forall i :: 0 <= i < |bars| ==> bars[i] < |toks|
    ensures |rs| == |bars|
    decreases |bars|
  {
    if bars == [] then []
    else
      var init := bars[..|bars| - 1];
      BackGaps(toks, q, init) + [Range(toks[bars[|bars| - 1]].End(), toks[LastOf(q, init)].Start())]
  }

  /** Walking forward from `q`: the text between each bar and the one before it. */
  function FwdGaps(toks: seq<Located>, q: nat, bars: seq<nat>): (rs: seq<Range>)
    requires q < |toks| && forall i :: 0 <= i < |bars| ==> bars[i] < |toks|
    ensures |rs| == |bars|
    decreases |bars|
  {
    if bars == [] then []
    else
      var init := bars[..|bars| - 1];
      FwdGaps(toks, q, init) + [Range(toks[LastOf(q, init)].End(), toks[bars[|bars| - 1]].Start())]
  }

  /** One more position down: the bar lists grow at their far end. */
  lemma BarsBelowNext(toks: seq<Located>, p: nat, q: nat)
    requires p < q < |toks|
    ensures BarsBelow(toks, p - 1, q)
         == BarsBelow(toks, p, q) + (if BarAtLevel(toks, p, p, q) then [p] else [])
  {
  }

  lemma BarsAboveNext(toks: seq<Located>, q: nat, p: nat)
    requires q < p < |toks|
    ensures BarsAbove(toks, q, p + 1)
         == BarsAbove(toks, q, p) + (if BarAtLevel(toks, p, q + 1, p) then [p] else [])
  {
  }

  lemma BackGapsSnoc(toks: seq<Located>, q: nat, bars: seq<nat>, k: nat)
    requires q < |toks| && k < |toks| && forall i :: 0 <= i < |bars| ==> bars[i] < |toks|
    ensures BackGaps(toks, q, bars + [k])
         == BackGaps(toks, q, bars) + [Range(toks[k].End(), toks[LastOf(q, bars)].Start())]
  {
    assert (bars + [k])[..|bars|] == bars;
  }

  lemma FwdGapsSnoc(toks: seq<Located>, q: nat, bars: seq<nat>, k: nat)
    requires q < |toks| && k < |toks| && forall i :: 0 <= i < |bars| ==> bars[i] < |toks|
    ensures FwdGaps(toks, q, bars + [k])
         == FwdGaps(toks, q, bars) + [Range(toks[LastOf(q, bars)].End(), toks[k].Start())]
  {
    assert (bars + [k])[..|bars|] == bars;
  }

  /** The alternatives before the `|` at `q`, nearest first: the text
      between consecutive bars on the level of `q`, then the first
      alternative, from just after the group opener. */
  function AlternativesBefore(toks: seq<Located>, q: nat): seq<Range>
    requires q < |toks|
  {
    var lo := EnclosingOpen(toks, q);
    var below := BarsBelow(toks, lo, q);
    BackGaps(toks, q, below) + [Range(toks[lo + 1].Start(), toks[LastOf(q, below)].Start())]
  }

  /** The alternatives after the `|` at `q`, nearest first, the last one
      ending just before the group closer. */
  function AlternativesAfter(toks: seq<Located>, q: nat): seq<Range>
    requires q < |toks|
  {
    var hi := EnclosingClose(toks, q);
    var above := BarsAbove(toks, q, hi);
    FwdGaps(toks, q, above) + [Range(toks[LastOf(q, above)].End(), toks[hi - 1].End())]
  }

  /** The alternatives around the `|` at `q`, in the order the finder
      reports them. */
  function OrRanges(toks: seq<Located>, q: nat): seq<Range>
    requires q < |toks|
  {
    AlternativesBefore(toks, q) + AlternativesAfter(toks, q)
  }

  /** An alternation of `n` bars around `q` yields `n + 1` alternatives on
      each side of `q` counted together: one per gap between consecutive
      bars, the group opener and the group closer. */
  lemma OrRangesCount(toks: seq<Located>, q: nat)
    requires q < |toks|
    ensures var lo := EnclosingOpen(toks, q);
      var hi := EnclosingClose(toks, q);
      |OrRanges(toks, q)| == |BarsBelow(toks, lo, q)| + |BarsAbove(toks, q, hi)| + 2
  {
  }

  /** The group opener is the only position with its two properties. */
  lemma OpenUnique(toks: seq<Located>, k: nat, lo: int)
    requires -1 <= lo < k < |toks|
    requires lo >= 0 ==> Net(toks, lo, k) < 0
    requires forall j :: lo < j < k ==> Net(toks, j, k) >= 0
    ensures EnclosingOpen(toks, k) == lo
  {
  }

  /** The group closer is the only position with its two properties. */
  lemma CloseUnique(toks: seq<Located>, k: nat, hi: nat)
    requires k < hi <= |toks|
    requires hi < |toks| ==> Net(toks, k + 1, hi + 1) > 0
    requires var s := k + 1; forall e :: s < e <= hi ==> OpensCover(toks, s, e)
    ensures EnclosingClose(toks, k) == hi
  {
    var hi' := EnclosingClose(toks, k);
    assert hi' < hi ==> OpensCover(toks, k + 1, hi' + 1);
    assert hi < hi' ==> OpensCover(toks, k + 1, hi + 1);
  }

  /** From any other bar of the same alternation below `q`, the finder sees
      the same enclosing group: the marked alternatives do not depend on
      which `|` the caret is on. */
  lemma SameGroupBelow(toks: seq<Located>, q: nat, k: nat)
    requires q < |toks| && IsOr(toks[q])
    requires k in BarsBelow(toks, EnclosingOpen(toks, q), q)
    ensures EnclosingOpen(toks, k) == EnclosingOpen(toks, q)
    ensures EnclosingClose(toks, k) == EnclosingClose(toks, q)
  {
    SameOpenBelow(toks, q, k);
    SameCloseBelow(toks, q, k);
  }

  lemma SameOpenBelow(toks: seq<Located>, q: nat, k: nat)
    requires q < |toks|
    requires k in BarsBelow(toks, EnclosingOpen(toks, q), q)
    ensures EnclosingOpen(toks, k) == EnclosingOpen(toks, q)
  {
    var lo := EnclosingOpen(toks, q);
    BarsBelowLevel(toks, lo, q);
    assert lo < k < q && Net(toks, k, q) == 0;
    // Between `lo` and `k` the balance up to `k` is the balance up to `q`.
    forall j | 0 <= j && lo <= j < k
      ensures Net(toks, j, k) == Net(toks, j, q)
    {
      NetSplit(toks, j, k, q);
    }
    OpenUnique(toks, k, lo);
  }

  lemma SameCloseBelow(toks: seq<Located>, q: nat, k: nat)
    requires q < |toks| && IsOr(toks[q])
    requires k in BarsBelow(toks, EnclosingOpen(toks, q), q)
    ensures EnclosingClose(toks, k) == EnclosingClose(toks, q)
  {
    BarsBelowLevel(toks, EnclosingOpen(toks, q), q);
    assert k < q && Net(toks, k, q) == 0 && IsOr(toks[k]);
    SameCloseAt(toks, q, k);
  }

  /** Two non-brackets with a balanced stretch between them that never
      closes below the level of the later one share the group closer. */
  lemma SameCloseAt(toks: seq<Located>, q: nat, k: nat)
    requires k < q < |toks| && Delta(toks[q]) == 0 && Delta(toks[k]) == 0
    requires Net(toks, k, q) == 0 && forall j :: k < j < q ==> Net(toks, j, q) >= 0
    ensures EnclosingClose(toks, k) == EnclosingClose(toks, q)
  {
    var hi := EnclosingClose(toks, q);
    NetCons(toks, k, q);
    var k1, q1 := k + 1, q + 1;
    // After `q` the balance from just after `k` is the balance from just after `q`.
    forall e | q1 <= e <= |toks|
      ensures Net(toks, k1, e) == Net(toks, q1, e)
    {
      NetSplit(toks, k1, q, e);
      NetCons(toks, q, e);
    }
    // Up to `q` it never drops below zero from the right, so it is at most zero.
    forall e | k1 < e <= hi
      ensures OpensCover(toks, k1, e)
    {
      if e <= q {
        NetSplit(toks, k1, e, q);
      } else if e > q1 {
        assert OpensCover(toks, q1, e);
      }
    }
    CloseUnique(toks, k, hi);
  }

  // ----- the atom a quantifier applies to -----

  /** The token before the quantifier at `q`, taking an escape and the
      character it escapes as one. */
  function Anchor(toks: seq<Located>, q: nat): int
    requires q < |toks|
  {
    if q >= 2 && toks[q - 1].token.kind == EscapedSymbol then q - 2 else q - 1
  }

  /** The nearest position before `a` from which the brackets up to and
      including `a` balance, if there is one. */
  function MatchingOpen(toks: seq<Located>, a: nat): (o: Option<nat>)
    requires a < |toks|
    ensures o.Some? ==> o.value < a && Net(toks, o.value, a + 1) == 0
    ensures var b := a + 1; forall j :: 0 <= j < a && (o.Some? ==> o.value < j) ==> Net(toks, j, b) != 0
  {
    MatchBelow(toks, a, a)
  }

  function MatchBelow(toks: seq<Located>, a: nat, k: nat): (o: Option<nat>)
    requires k <= a < |toks|
    requires var b := a + 1; forall j :: k <= j < a ==> Net(toks, j, b) != 0
    ensures o.Some? ==> o.value < k && Net(toks, o.value, a + 1) == 0
    ensures var b := a + 1; forall j :: 0 <= j < a && (o.Some? ==> o.value < j) ==> Net(toks, j, b) != 0
    decreases k
  {
    if k == 0 then None
    else if Net(toks, k - 1, a + 1) == 0 then Some(k - 1)
    else MatchBelow(toks, a, k - 1)
  }

  /** A balanced stretch that no shorter balanced stretch ends inside is
      the one `MatchingOpen` finds. */
  lemma MatchUnique(toks: seq<Located>, a: nat, o: nat)
    requires o < a < |toks| && Net(toks, o, a + 1) == 0
    requires var b := a + 1; forall j :: o < j < a ==> Net(toks, j, b) != 0
    ensures MatchingOpen(toks, a) == Some(o)
  {
    MatchBelowFinds(toks, a, a, o);
  }

  lemma {:induction false} MatchBelowFinds(toks: seq<Located>, a: nat, k: nat, o: nat)
    requires o < k <= a < |toks| && Net(toks, o, a + 1) == 0
    requires var b := a + 1; forall j :: o < j < a ==> Net(toks, j, b) != 0
    ensures MatchBelow(toks, a, k) == Some(o)
    decreases k
  {
    if k - 1 > o {
      MatchBelowFinds(toks, a, k - 1, o);
    }
  }

  /** Walking back from a closing bracket, the balance stays positive until
      the matching opener is reached. */
  lemma {:induction false} ClosedStaysPositive(toks: seq<Located>, a: nat, j: nat)
    requires j <= a < |toks| && toks[a].token.kind == ClosedBracket
    requires var b := a + 1; forall i :: j <= i < a ==> Net(toks, i, b) != 0
    ensures var b := a + 1; forall i :: j <= i <= a ==> Net(toks, i, b) > 0
    decreases a - j
  {
    if j == a {
      assert Net(toks, a, a + 1) == 1;
    } else {
      ClosedStaysPositive(toks, a, j + 1);
      NetCons(toks, j, a + 1);
    }
  }

  /** A quantified group: the opener found for a closing bracket is an
      opening bracket, and the stretch between them is balanced and never
      closes below its own level. */
  lemma MatchedGroup(toks: seq<Located>, a: nat)
    requires a < |toks| && toks[a].token.kind == ClosedBracket && MatchingOpen(toks, a).Some?
    ensures var o := MatchingOpen(toks, a).value;
      && toks[o].token.kind == OpenBracket
      && Net(toks, o, a + 1) == 0
      && var b := a + 1; forall i :: o < i <= a ==> Net(toks, i, b) > 0
  {
    var o := MatchingOpen(toks, a).value;
    ClosedStaysPositive(toks, a, o + 1);
    NetCons(toks, o, a + 1);
  }

  /** Where the atom quantified by the quantifier at `q` starts: nothing
      (the quantifier itself) after an opening bracket, the matching opener
      after a closing bracket (the start of the input when there is none),
      and otherwise the token before, an escape counted with what it
      escapes. */
  function QuantifiedStart(toks: seq<Located>, q: nat): (s: nat)
    requires q < |toks|
    ensures s <= q
  {
    var a := Anchor(toks, q);
    if a < 0 then 0
    else if toks[a].token.kind == OpenBracket then a + 1
    else if toks[a].token.kind == ClosedBracket then
      match MatchingOpen(toks, a)
      case Some(o) => o
      case None => 0
    else a
  }

  /** The range the quantifier finder reports. */
  function QuantifierSpan(toks: seq<Located>, q: nat): Range
    requires q < |toks|
  {
    Range(toks[QuantifiedStart(toks, q)].Start(), toks[q].Start())
  }

  /** A quantifier at the start of the input or right after `(` quantifies
      nothing: the reported range is empty. */
  lemma NothingToQuantify(toks: seq<Located>, q: nat)
    requires q < |toks|
    requires q == 0 || (toks[q - 1].token.kind == OpenBracket)
    ensures QuantifierSpan(toks, q).IsEmpty()
  {
  }

  /** After a closing bracket the quantified atom is the whole group, from
      its opener on. */
  lemma QuantifiedGroup(toks: seq<Located>, q: nat)
    requires 0 < q < |toks| && toks[q - 1].token.kind == ClosedBracket
    ensures var s := QuantifiedStart(toks, q);
      if MatchingOpen(toks, q - 1).Some?
      then s < q - 1 && toks[s].token.kind == OpenBracket && Net(toks, s, q) == 0
      else s == 0
  {
    var a := q - 1;
    match MatchingOpen(toks, a)
    case Some(o) => MatchedGroup(toks, a);
    case None =>
  }

  /** An escaped character is quantified together with its backslash. */
  lemma QuantifiedEscape(toks: seq<Located>, q: nat)
    requires 2 <= q < |toks| && toks[q - 1].token.kind == EscapedSymbol
    requires toks[q - 2].token.kind == EscapeSymbol
    ensures QuantifiedStart(toks, q) == q - 2
  {
  }

  // ----- the group a back-reference names -----


  /** The value of a string of decimal digits. */
  function DigitsValue(s: string): nat
    requires forall i :: 0 <= i < |s| ==> IsDigit(s[i])
  {
    if s == [] then 0
    else
      assert IsDigit(s[|s| - 1]);
      10 * DigitsValue(s[..|s| - 1]) + (s[|s| - 1] as int - '0' as int)
  }

  /** The number of leading digits. */
  function LeadingDigits(s: string): (n: nat)
    ensures n <= |s| && (forall i :: 0 <= i < n ==> IsDigit(s[i]))
    ensures n == |s| || !IsDigit(s[n])
  {
    if s != [] && IsDigit(s[0]) then
      var n := 1 + LeadingDigits(s[1..]);
      assert forall i :: 1 <= i < n ==> s[i] == s[1..][i - 1];
      n
    else 0
  }

  /** JavaScript's parseInt on a string that starts with its digits (no
      blanks, no sign): the value of the leading digits, or none (NaN) when
      it does not start with a digit. */
  function ParseInt(s: string): (n: Option<nat>)
  {
    var d := LeadingDigits(s);
    if d == 0 then None else Some(DigitsValue(s[..d]))
  }

  /** The decimal digits of `n`, without leading zeros. */
  function Decimal(n: nat): (s: string)
    ensures |s| > 0 && forall i :: 0 <= i < |s| ==> IsDigit(s[i])
  {
    var last := [('0' as int + n % 10) as char];
    if n < 10 then last else Decimal(n / 10) + last
  }

  lemma {:induction false} DecimalValue(n: nat)
    ensures DigitsValue(Decimal(n)) == n
  {
    var s := Decimal(n);
    if n >= 10 {
      DecimalValue(n / 10);
      assert s[..|s| - 1] == Decimal(n / 10);
    }
  }

  /** parseInt reads back the number a back-reference was written with,
      whatever non-digit follows it. */
  lemma ParseDecimal(n: nat, rest: string)
    requires rest == [] || !IsDigit(rest[0])
    ensures ParseInt(Decimal(n) + rest) == Some(n)
  {
    var s := Decimal(n) + rest;
    var d := LeadingDigits(s);
    var k := |Decimal(n)|;
    assert forall i :: 0 <= i < k ==> s[i] == Decimal(n)[i];
    assert k < |s| ==> s[k] == rest[0];
    assert d == k;
    assert s[..d] == Decimal(n);
    DecimalValue(n);
  }
}
