/**
 * The rule table of the regular-expression highlighter
 * (`RegexpFileHighlightRules`) and the scanner that runs it.
 *
 * Each state holds an ordered list of rules; at the current position the
 * first rule that matches wins, emits one or more typed tokens and names
 * the next state (a rule without `next` keeps the state). The editor runs
 * the table line by line, carrying the state from one line to the next.
 * Where no rule of the state matches, the editor emits the character as a
 * token of its default type `Text` and keeps the state.
 */
module Lexer {
  import opened Wrappers
  import opened Tokens

  /** The states "start", "afterAtom", "charClassStart" and "charClassAfterAtom". */
  datatype State = Start | AfterAtom | ClassStart | ClassAfterAtom
  {
    predicate InClass() { this == ClassStart || this == ClassAfterAtom }
  }

  /** What one rule produces: its tokens and the next state. The rule
      consumes exactly the text of its tokens. */
  datatype Match = Match(tokens: seq<Token>, next: State)

  function Single(k: Kind, text: string, next: State): Match
  {
    Match([Token(k, text)], next)
  }

  /** `m` covers a non-empty prefix of `s` with non-empty tokens. */
  ghost predicate Consumes(m: Match, s: string)
  {
    && NonEmptyTokens(m.tokens)
    && 0 < |Texts(m.tokens)| <= |s|
    && Texts(m.tokens) == s[..|Texts(m.tokens)|]
  }

  lemma SingleConsumes(k: Kind, s: string, n: nat, next: State)
    requires 0 < n <= |s|
    ensures Consumes(Single(k, s[..n], next), s)
  {
    assert Texts([Token(k, s[..n])]) == s[..n] + Texts([]);
  }

  // ----- character classes used by the rules -----

  predicate IsDigit(c: char) { '0' <= c <= '9' }
  predicate IsNonZeroDigit(c: char) { '1' <= c <= '9' }
  predicate IsHexDigit(c: char) { IsDigit(c) || 'a' <= c <= 'f' || 'A' <= c <= 'F' }
  predicate IsAsciiLetter(c: char) { 'a' <= c <= 'z' || 'A' <= c <= 'Z' }

  /** The characters that JavaScript's `.` does not match. */
  predicate IsLineTerminator(c: char)
  {
    c == '\n' || c == '\r' || c == '\U{2028}' || c == '\U{2029}'
  }

  /** `[fnrtv]`: the named control escapes. */
  predicate IsControlEscChar(c: char) { c in "fnrtv" }

  /** `[sSdDwW]`: the class shorthands. */
  predicate IsShorthandChar(c: char) { c in "sSdDwW" }

  /** `defText` is any character but `^ $ \ . | * + ? ( ) [ /`. */
  predicate IsDefTextChar(c: char) { c !in "^$\\.|*+?()[/" }

  /** The length of the run of decimal digits starting at `i`. */
  function DigitRun(s: string, i: nat): (n: nat)
    requires i <= |s|
    ensures i + n <= |s|
    ensures forall k :: i <= k < i + n ==> IsDigit(s[k])
    ensures i + n == |s| || !IsDigit(s[i + n])
    decreases |s| - i
  {
    if i < |s| && IsDigit(s[i]) then 1 + DigitRun(s, i + 1) else 0
  }

  // ----- escapes: the length of the escape at the front of `s`, or 0 -----

  /** `\xHH` or `\uHHHH`. */
  function HexEscapeLen(s: string): (n: nat)
    ensures n <= |s|
    ensures n > 0 ==> s[0] == '\\' && ((n == 4 && s[1] == 'x') || (n == 6 && s[1] == 'u'))
    ensures forall k :: 2 <= k < n ==> IsHexDigit(s[k])
  {
    if |s| >= 4 && s[0] == '\\' && s[1] == 'x' && IsHexDigit(s[2]) && IsHexDigit(s[3]) then 4
    else if |s| >= 6 && s[0] == '\\' && s[1] == 'u'
            && IsHexDigit(s[2]) && IsHexDigit(s[3]) && IsHexDigit(s[4]) && IsHexDigit(s[5]) then 6
    else 0
  }

  /** Outside a class, `numEsc` is `\0` followed by a non-zero digit and
      more digits, `\xHH` or `\uHHHH`. */
  function NumEscapeLen(s: string): (n: nat)
    ensures n <= |s|
    ensures n > 0 ==> n >= 2 && s[0] == '\\' && (s[1] == '0' || s[1] == 'x' || s[1] == 'u')
  {
    if |s| >= 3 && s[0] == '\\' && s[1] == '0' && IsNonZeroDigit(s[2]) then 3 + DigitRun(s, 3)
    else HexEscapeLen(s)
  }

  /** Inside a class, `numEsc` is `\` followed by any digits, `\xHH` or `\uHHHH`. */
  function ClassNumEscapeLen(s: string): (n: nat)
    ensures n <= |s|
    ensures n > 0 ==> n >= 2 && s[0] == '\\' && (IsDigit(s[1]) || s[1] == 'x' || s[1] == 'u')
  {
    if |s| >= 2 && s[0] == '\\' && IsDigit(s[1]) then 1 + DigitRun(s, 1)
    else HexEscapeLen(s)
  }

  /** `\cX` with an ASCII letter X. */
  function ControlLetterLen(s: string): (n: nat)
    ensures n == 0 || (n == 3 && n <= |s| && s[0] == '\\' && s[1] == 'c')
  {
    if |s| >= 3 && s[0] == '\\' && s[1] == 'c' && IsAsciiLetter(s[2]) then 3 else 0
  }

  /** `{m}`, `{m,}` or `{m,n}` at the front of `s`: its length, or 0. */
  function BraceLen(s: string): (n: nat)
    ensures n <= |s|
    ensures n > 0 ==> n >= 3 && s[0] == '{' && s[n - 1] == '}'
  {
    if |s| == 0 || s[0] != '{' then 0
    else
      var d1 := DigitRun(s, 1);
      var p := 1 + d1;
      if d1 == 0 then 0
      else if p < |s| && s[p] == '}' then p + 1
      else if p < |s| && s[p] == ',' then
        var q := p + 1 + DigitRun(s, p + 1);
        if q < |s| && s[q] == '}' then q + 1 else 0
      else 0
  }

  /** The `quantifier` rule of "afterAtom": `(?:[*+?]|\{\d+(?:,\d*)?\})\??`. */
  function QuantifierLen(s: string): (n: nat)
    ensures n <= |s|
  {
    if |s| == 0 then 0
    else
      var base := if s[0] in "*+?" then 1 else BraceLen(s);
      if base == 0 then 0
      else if base < |s| && s[base] == '?' then base + 1
      else base
  }

  /** The `error` rule of "start": `[*+?]|\{\d+(?:,\d*)?\}\??`. */
  function MisplacedQuantifierLen(s: string): (n: nat)
    ensures n <= |s|
  {
    if |s| == 0 then 0
    else if s[0] in "*+?" then 1
    else
      var base := BraceLen(s);
      if base == 0 then 0
      else if base < |s| && s[base] == '?' then base + 1
      else base
  }

  // ----- the rule groups -----

  /** "#atom": dot, numeric/control escapes, back-reference, class
      shorthand, any other escape (two tokens), plain text. */
  function AtomRule(s: string): (m: Option<Match>)
    requires |s| > 0
    ensures m.Some? ==> Consumes(m.value, s) && m.value.next == AfterAtom
  {
    if s[0] == '.' then
      SingleConsumes(Dot, s, 1, AfterAtom);
      Some(Single(Dot, s[..1], AfterAtom))
    else if NumEscapeLen(s) > 0 then
      SingleConsumes(NumEsc, s, NumEscapeLen(s), AfterAtom);
      Some(Single(NumEsc, s[..NumEscapeLen(s)], AfterAtom))
    else if ControlLetterLen(s) > 0 then
      SingleConsumes(ControlLetter, s, 3, AfterAtom);
      Some(Single(ControlLetter, s[..3], AfterAtom))
    else if |s| >= 2 && s[0] == '\\' && IsControlEscChar(s[1]) then
      SingleConsumes(ControlEsc, s, 2, AfterAtom);
      Some(Single(ControlEsc, s[..2], AfterAtom))
    else if |s| >= 2 && s[0] == '\\' && IsNonZeroDigit(s[1]) then
      SingleConsumes(GroupRef, s, 2 + DigitRun(s, 2), AfterAtom);
      Some(Single(GroupRef, s[..2 + DigitRun(s, 2)], AfterAtom))
    else if |s| >= 2 && s[0] == '\\' && IsShorthandChar(s[1]) then
      SingleConsumes(CharClassEsc, s, 2, AfterAtom);
      Some(Single(CharClassEsc, s[..2], AfterAtom))
    else if |s| >= 2 && s[0] == '\\' && s[1] != 'b' && s[1] != 'B' then
      EscapePairConsumes(s, AfterAtom);
      Some(EscapePair(s, AfterAtom))
    else if IsDefTextChar(s[0]) then
      SingleConsumes(DefText, s, 1, AfterAtom);
      Some(Single(DefText, s[..1], AfterAtom))
    else None
  }

  /** `(\\)(.)`: the backslash and the escaped character as two tokens. */
  function EscapePair(s: string, next: State): Match
    requires |s| >= 2
  {
    Match([Token(EscapeSymbol, s[..1]), Token(EscapedSymbol, s[1..2])], next)
  }

  lemma EscapePairConsumes(s: string, next: State)
    requires |s| >= 2
    ensures Consumes(EscapePair(s, next), s)
  {
    var ts := EscapePair(s, next).tokens;
    assert ts[1..] == [ts[1]];
    assert [ts[1]][1..] == [];
    assert Texts([ts[1]]) == s[1..2];
    assert Texts(ts) == s[..1] + s[1..2];
    assert s[..1] + s[1..2] == s[..2];
  }

  /** "#term": "#atom", then assertions, `|`, group brackets, the empty
      classes `[]`/`[^]` (an error) and the opening of a class. */
  function TermRule(s: string): (m: Option<Match>)
    requires |s| > 0
    ensures m.Some? ==> Consumes(m.value, s)
  {
    var atom := AtomRule(s);
    if atom.Some? then atom
    else if s[0] == '^' || s[0] == '$' then
      SingleConsumes(Assertion, s, 1, Start);
      Some(Single(Assertion, s[..1], Start))
    else if |s| >= 2 && s[0] == '\\' && (s[1] == 'b' || s[1] == 'B') then
      SingleConsumes(Assertion, s, 2, Start);
      Some(Single(Assertion, s[..2], Start))
    else if s[0] == '|' then
      SingleConsumes(OrSymbol, s, 1, Start);
      Some(Single(OrSymbol, s[..1], Start))
    else if s[0] == '(' then
      var n := if |s| >= 3 && s[1] == '?' && s[2] in ":=!" then 3 else 1;
      SingleConsumes(OpenBracket, s, n, Start);
      Some(Single(OpenBracket, s[..n], Start))
    else if s[0] == ')' then
      SingleConsumes(ClosedBracket, s, 1, AfterAtom);
      Some(Single(ClosedBracket, s[..1], AfterAtom))
    else if s[0] == '[' then
      var empty := if |s| >= 2 && s[1] == ']' then 2
                   else if |s| >= 3 && s[1] == '^' && s[2] == ']' then 3
                   else 0;
      if empty > 0 then
        SingleConsumes(Error, s, empty, AfterAtom);
        Some(Single(Error, s[..empty], AfterAtom))
      else
        var n := if |s| >= 2 && s[1] == '^' then 2 else 1;
        SingleConsumes(CharClassStart, s, n, ClassStart);
        Some(Single(CharClassStart, s[..n], ClassStart))
    else None
  }

  /** "start": "#term", then a quantifier with nothing to quantify (an
      error), then any other character (an error). */
  function StartRule(s: string): (m: Option<Match>)
    requires |s| > 0
    ensures m.Some? ==> Consumes(m.value, s)
  {
    var term := TermRule(s);
    if term.Some? then term
    else if MisplacedQuantifierLen(s) > 0 then
      SingleConsumes(Error, s, MisplacedQuantifierLen(s), Start);
      Some(Single(Error, s[..MisplacedQuantifierLen(s)], Start))
    else if !IsLineTerminator(s[0]) then
      SingleConsumes(Error, s, 1, Start);
      Some(Single(Error, s[..1], Start))
    else None
  }

  /** "afterAtom": a quantifier, then "#term", then any other character
      (an error that keeps the state). */
  function AfterAtomRule(s: string): (m: Option<Match>)
    requires |s| > 0
    ensures m.Some? ==> Consumes(m.value, s)
  {
    if QuantifierLen(s) > 0 then
      SingleConsumes(Quantifier, s, QuantifierLen(s), Start);
      Some(Single(Quantifier, s[..QuantifierLen(s)], Start))
    else
      var term := TermRule(s);
      if term.Some? then term
      else if !IsLineTerminator(s[0]) then
        SingleConsumes(Error, s, 1, AfterAtom);
        Some(Single(Error, s[..1], AfterAtom))
      else None
  }

  /** One class atom at the front of `s`:
      `([^\]\\])|(\\(?:[0-9]+|x..|u....))|(\\c[a-zA-Z])|(\\[fnrtv])|(\\)(X)`
      where the escaped character X is any character but a line terminator
      for a plain atom and any character but `[sSdDwW]` for the end of a
      range. Empty when nothing matches. */
  function ClassAtomTokens(s: string, rangeEnd: bool): (ts: seq<Token>)
    ensures ts != [] ==> NonEmptyTokens(ts) && 0 < |Texts(ts)| <= |s| && Texts(ts) == s[..|Texts(ts)|]
  {
    if |s| == 0 then []
    else if s[0] != ']' && s[0] != '\\' then
      SingleConsumes(CharClassAtom, s, 1, ClassAfterAtom);
      [Token(CharClassAtom, s[..1])]
    else if ClassNumEscapeLen(s) > 0 then
      SingleConsumes(NumEsc, s, ClassNumEscapeLen(s), ClassAfterAtom);
      [Token(NumEsc, s[..ClassNumEscapeLen(s)])]
    else if ControlLetterLen(s) > 0 then
      SingleConsumes(ControlLetter, s, 3, ClassAfterAtom);
      [Token(ControlLetter, s[..3])]
    else if |s| >= 2 && s[0] == '\\' && IsControlEscChar(s[1]) then
      SingleConsumes(ControlEsc, s, 2, ClassAfterAtom);
      [Token(ControlEsc, s[..2])]
    else if |s| >= 2 && s[0] == '\\'
            && (if rangeEnd then !IsShorthandChar(s[1]) else !IsLineTerminator(s[1])) then
      EscapePairConsumes(s, ClassAfterAtom);
      EscapePair(s, ClassAfterAtom).tokens
    else []
  }

  /** "#charClassAtom": a class shorthand, a class atom, or `]` closing the class. */
  function ClassAtomRule(s: string): (m: Option<Match>)
    requires |s| > 0
    ensures m.Some? ==> Consumes(m.value, s)
  {
    if |s| >= 2 && s[0] == '\\' && IsShorthandChar(s[1]) then
      SingleConsumes(CharClassEsc, s, 2, ClassStart);
      Some(Single(CharClassEsc, s[..2], ClassStart))
    else if ClassAtomTokens(s, false) != [] then
      Some(Match(ClassAtomTokens(s, false), ClassAfterAtom))
    else if s[0] == ']' then
      SingleConsumes(CharClassEnd, s, 1, AfterAtom);
      Some(Single(CharClassEnd, s[..1], AfterAtom))
    else None
  }

  /** "charClassAfterAtom": `-` followed by a class atom that is not a
      shorthand is a range; otherwise "#charClassAtom". */
  function ClassAfterAtomRule(s: string): (m: Option<Match>)
    requires |s| > 0
    ensures m.Some? ==> Consumes(m.value, s)
  {
    if s[0] == '-' && ClassAtomTokens(s[1..], true) != [] then
      var end := ClassAtomTokens(s[1..], true);
      var ts := [Token(CharClassRange, s[..1])] + end;
      assert Texts(ts) == s[..1] + Texts(end) by {
        assert ts[1..] == end;
      }
      assert s[..1] + s[1..][..|Texts(end)|] == s[..1 + |Texts(end)|];
      Some(Match(ts, ClassStart))
    else ClassAtomRule(s)
  }

  /** The rules of a state, in order; None when none matches. */
  function Rule(st: State, s: string): (m: Option<Match>)
    requires |s| > 0
    ensures m.Some? ==> Consumes(m.value, s)
  {
    match st
    case Start => StartRule(s)
    case AfterAtom => AfterAtomRule(s)
    case ClassStart => ClassAtomRule(s)
    case ClassAfterAtom => ClassAfterAtomRule(s)
  }

  /** One scanning step: the first matching rule, or the character alone
      as a `Text` token in the same state. */
  function Step(st: State, s: string): (m: Match)
    requires |s| > 0
    ensures Consumes(m, s)
  {
    var r := Rule(st, s);
    if r.Some? then r.value
    else
      SingleConsumes(Text, s, 1, st);
      Single(Text, s[..1], st)
  }

  /** Tokenizes one line from state `st`: its tokens and the state at the end.
      The tokens cover the line exactly, each at least one character. */
  function Scan(st: State, s: string): (r: (seq<Token>, State))
    ensures Texts(r.0) == s
    ensures NonEmptyTokens(r.0)
    decreases |s|
  {
    if s == [] then ([], st)
    else
      var m := Step(st, s);
      var n := |Texts(m.tokens)|;
      var rest := Scan(m.next, s[n..]);
      TextsAppend(m.tokens, rest.0);
      NonEmptyAppend(m.tokens, rest.0);
      assert s == s[..n] + s[n..];
      (m.tokens + rest.0, rest.1)
  }

  /** Tokenizes the lines of a document, each line starting in the state
      the previous one ended in: the tokens of every row, and the final state. */
  function ScanLines(lines: seq<string>, st: State): (r: (seq<seq<Token>>, State))
    ensures |r.0| == |lines|
    ensures forall i :: 0 <= i < |lines| ==> Texts(r.0[i]) == lines[i] && NonEmptyTokens(r.0[i])
  {
    if lines == [] then ([], st)
    else
      var first := Scan(st, lines[0]);
      var rest := ScanLines(lines[1..], first.1);
      ([first.0] + rest.0, rest.1)
  }
}
