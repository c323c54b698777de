/**
 * The token vocabulary of the regular-expression highlighter: the token
 * types its rule table emits (named as in the rule table), the tokens
 * themselves, and the half-open editor ranges that the highlighters report.
 */
module Tokens {

  /** Token types. `Dot` is the rule table's "dote"; `Text` is the editor's
      default type for characters that no rule of the current state matches. */
  datatype Kind =
    | Dot
    | NumEsc
    | ControlLetter
    | ControlEsc
    | GroupRef
    | CharClassEsc
    | EscapeSymbol
    | EscapedSymbol
    | DefText
    | Assertion
    | OrSymbol
    | OpenBracket
    | ClosedBracket
    | Error
    | CharClassStart
    | Quantifier
    | CharClassAtom
    | CharClassEnd
    | CharClassRange
    | Text

  /** A token: its type and the exact text it covers (`type` and `value`). */
  datatype Token = Token(kind: Kind, text: string)

  /** The text covered by a token sequence, in order. */
  function Texts(ts: seq<Token>): string
  {
    if ts == [] then [] else ts[0].text + Texts(ts[1..])
  }

  lemma {:induction false} TextsAppend(a: seq<Token>, b: seq<Token>)
    ensures Texts(a + b) == Texts(a) + Texts(b)
  {
    if a == [] {
      assert a + b == b;
    } else {
      assert (a + b)[0] == a[0];
      assert (a + b)[1..] == a[1..] + b;
      TextsAppend(a[1..], b);
    }
  }

  /** The types of a token sequence. */
  function Kinds(ts: seq<Token>): (ks: seq<Kind>)
    ensures |ks| == |ts| && forall i :: 0 <= i < |ts| ==> ks[i] == ts[i].kind
  {
    seq(|ts|, i requires 0 <= i < |ts| => ts[i].kind)
  }

  lemma KindsAppend(a: seq<Token>, b: seq<Token>)
    ensures Kinds(a + b) == Kinds(a) + Kinds(b)
  {
  }

  /** Every token covers at least one character. */
  ghost predicate NonEmptyTokens(ts: seq<Token>)
  {
    forall i :: 0 <= i < |ts| ==> |ts[i].text| > 0
  }

  lemma NonEmptyAppend(a: seq<Token>, b: seq<Token>)
    requires NonEmptyTokens(a) && NonEmptyTokens(b)
    ensures NonEmptyTokens(a + b)
  {
    forall i | 0 <= i < |a + b|
      ensures |(a + b)[i].text| > 0
    {
      if i >= |a| {
        assert (a + b)[i] == b[i - |a|];
      }
    }
  }

  /** An editor position: a row and a column within that row. */
  datatype Position = Position(row: nat, column: nat)

  /** A range from `start` to `end`, as the editor's Range. */
  datatype Range = Range(start: Position, end: Position)
  {
    /** The editor's Range.isEmpty: both ends at the same position. */
    predicate IsEmpty() { start == end }
  }
}

/**
 * The shape every tokenization has: character-class tokens occur exactly
 * between a `charClassStart` and the next `charClassEnd` (or the end of
 * the input), and an `escapedSymbol` always follows its `escapeSymbol`.
 */
module TokenShape {
  import opened Tokens

  /** The types the two class states can emit. */
  predicate IsClassKind(k: Kind)
  {
    k in {CharClassEsc, CharClassAtom, NumEsc, ControlLetter, ControlEsc,
          EscapeSymbol, EscapedSymbol, CharClassRange, CharClassEnd, Text}
  }

  /** The types the two term states can emit. */
  predicate IsTermKind(k: Kind)
  {
    k !in {CharClassAtom, CharClassRange, CharClassEnd}
  }

  /** `ks` is a well-shaped stream read from outside (`inClass == false`)
      or from inside a character class. */
  ghost predicate ClassShaped(ks: seq<Kind>, inClass: bool)
    decreases |ks|
  {
    ks == [] ||
    if inClass then IsClassKind(ks[0]) && ClassShaped(ks[1..], ks[0] != CharClassEnd)
    else IsTermKind(ks[0]) && ClassShaped(ks[1..], ks[0] == CharClassStart)
  }

  /** Whether the stream leaves the reader inside a class. */
  ghost function EndsInClass(ks: seq<Kind>, inClass: bool): bool
    decreases |ks|
  {
    if ks == [] then inClass
    else if inClass then EndsInClass(ks[1..], ks[0] != CharClassEnd)
    else EndsInClass(ks[1..], ks[0] == CharClassStart)
  }

  lemma {:induction false} ClassShapedAppend(a: seq<Kind>, b: seq<Kind>, inClass: bool)
    requires ClassShaped(a, inClass) && ClassShaped(b, EndsInClass(a, inClass))
    ensures ClassShaped(a + b, inClass)
    ensures EndsInClass(a + b, inClass) == EndsInClass(b, EndsInClass(a, inClass))
    decreases |a|
  {
    if a == [] {
      assert a + b == b;
    } else {
      assert (a + b)[0] == a[0] && (a + b)[1..] == a[1..] + b;
      ClassShapedAppend(a[1..], b, if inClass then a[0] != CharClassEnd else a[0] == CharClassStart);
    }
  }

  /** Every `escapedSymbol` directly follows an `escapeSymbol`. */
  ghost predicate EscapesPaired(ks: seq<Kind>)
  {
    forall i :: 0 <= i < |ks| && ks[i] == EscapedSymbol ==> i > 0 && ks[i - 1] == EscapeSymbol
  }

  lemma EscapesPairedAppend(a: seq<Kind>, b: seq<Kind>)
    requires EscapesPaired(a) && EscapesPaired(b)
    requires b != [] ==> b[0] != EscapedSymbol
    ensures EscapesPaired(a + b)
  {
    forall i | 0 <= i < |a + b| && (a + b)[i] == EscapedSymbol
      ensures i > 0 && (a + b)[i - 1] == EscapeSymbol
    {
      if i >= |a| {
        assert b[i - |a|] == EscapedSymbol;
      }
    }
  }

  /** The tokens of all rows, in order. */
  function Concat(rows: seq<seq<Token>>): seq<Token>
  {
    if rows == [] then [] else rows[0] + Concat(rows[1..])
  }
}
