/**
 * Properties of the rule table and of the scanner: how single rules
 * classify the constructs of the regular-expression syntax, and the shape
 * of every tokenization.
 */
module LexerProperties {
  import opened Wrappers
  import opened Tokens
  import opened TokenShape
  import opened Lexer

  // ----- the shape of every tokenization -----

  /** Tokens that neither open nor close a class, read inside (`c`) or outside one. */
  ghost predicate Neutral(ts: seq<Token>, c: bool)
  {
    forall i :: 0 <= i < |ts| ==>
      if c then IsClassKind(ts[i].kind) && ts[i].kind != CharClassEnd
      else IsTermKind(ts[i].kind) && ts[i].kind != CharClassStart
  }

  lemma {:induction false} NeutralShape(ts: seq<Token>, c: bool)
    requires Neutral(ts, c)
    ensures ClassShaped(Kinds(ts), c) && EndsInClass(Kinds(ts), c) == c
    decreases |ts|
  {
    if ts != [] {
      assert Kinds(ts)[1..] == Kinds(ts[1..]);
      NeutralShape(ts[1..], c);
    }
  }

  /** What one step can do to the class status: nothing, open a class with
      a single `charClassStart`, or close it with a single `charClassEnd`. */
  lemma StepKinds(st: State, s: string)
    requires |s| > 0
    ensures var m := Step(st, s);
      || (Neutral(m.tokens, st.InClass()) && m.next.InClass() == st.InClass())
      || (!st.InClass() && |m.tokens| == 1 && m.tokens[0].kind == CharClassStart && m.next.InClass())
      || (st.InClass() && |m.tokens| == 1 && m.tokens[0].kind == CharClassEnd && !m.next.InClass())
  {
    StepRules(st, s);
  }

  /** The tokens of one step keep escapes paired and do not start with an
      `escapedSymbol`. */
  ghost predicate PairedTokens(ts: seq<Token>)
  {
    EscapesPaired(Kinds(ts)) && (ts != [] ==> ts[0].kind != EscapedSymbol)
  }

  lemma EscapePairPaired(s: string, next: State)
    requires |s| >= 2
    ensures PairedTokens(EscapePair(s, next).tokens)
  {
    var ts := EscapePair(s, next).tokens;
    assert Kinds(ts) == [EscapeSymbol, EscapedSymbol];
  }

  lemma ClassAtomTokensPaired(s: string, rangeEnd: bool)
    ensures PairedTokens(ClassAtomTokens(s, rangeEnd))
    ensures var ts := ClassAtomTokens(s, rangeEnd); ts != [] ==> ts[0].kind != CharClassRange
  {
    if |s| >= 2 && s[0] == '\\' { EscapePairPaired(s, ClassAfterAtom); }
  }

  lemma StepEscapes(st: State, s: string)
    requires |s| > 0
    ensures PairedTokens(Step(st, s).tokens)
  {
    StepRules(st, s);
  }

  /** A step's tokens obey `KindsOk` from the state's class status and keep
      escapes paired, rule group by rule group. */
  lemma StepRules(st: State, s: string)
    requires |s| > 0
    ensures KindsOk(Step(st, s), st.InClass()) && PairedTokens(Step(st, s).tokens)
  {
    match st
    case Start => StartRules(s);
    case AfterAtom => AfterAtomRules(s);
    case ClassStart => ClassAtomRules(s);
    case ClassAfterAtom => ClassAfterAtomRules(s);
    if Rule(st, s).None? {
      SinglePaired(Text, s[..1], st);
    }
  }

  /** The class-status changes one match may make, read from inside
      (`inClass`) or outside a class. */
  ghost predicate KindsOk(m: Match, inClass: bool)
  {
    || (Neutral(m.tokens, inClass) && m.next.InClass() == inClass)
    || (!inClass && |m.tokens| == 1 && m.tokens[0].kind == CharClassStart && m.next.InClass())
    || (inClass && |m.tokens| == 1 && m.tokens[0].kind == CharClassEnd && !m.next.InClass())
  }

  /** A single token other than `escapedSymbol` keeps escapes paired. */
  lemma SinglePaired(k: Kind, text: string, next: State)
    requires k != EscapedSymbol
    ensures PairedTokens(Single(k, text, next).tokens)
  {
    assert Kinds(Single(k, text, next).tokens) == [k];
  }

  lemma AtomRules(s: string)
    requires |s| > 0
    ensures var m := AtomRule(s);
      m.Some? ==> Neutral(m.value.tokens, false) && m.value.next == AfterAtom && PairedTokens(m.value.tokens)
  {
    var m := AtomRule(s);
    if m.Some? {
      if |m.value.tokens| == 2 {
        EscapePairPaired(s, AfterAtom);
      } else {
        SinglePaired(m.value.tokens[0].kind, m.value.tokens[0].text, AfterAtom);
      }
    }
  }

  lemma TermRules(s: string)
    requires |s| > 0
    ensures var m := TermRule(s); m.Some? ==> KindsOk(m.value, false) && PairedTokens(m.value.tokens)
  {
    AtomRules(s);
    var m := TermRule(s);
    if m.Some? && AtomRule(s).None? {
      SinglePaired(m.value.tokens[0].kind, m.value.tokens[0].text, m.value.next);
    }
  }

  lemma StartRules(s: string)
    requires |s| > 0
    ensures var m := StartRule(s); m.Some? ==> KindsOk(m.value, false) && PairedTokens(m.value.tokens)
  {
    TermRules(s);
    var m := StartRule(s);
    if m.Some? && TermRule(s).None? {
      SinglePaired(Error, m.value.tokens[0].text, Start);
    }
  }

  lemma AfterAtomRules(s: string)
    requires |s| > 0
    ensures var m := AfterAtomRule(s); m.Some? ==> KindsOk(m.value, false) && PairedTokens(m.value.tokens)
  {
    TermRules(s);
    var m := AfterAtomRule(s);
    if m.Some? && (QuantifierLen(s) > 0 || TermRule(s).None?) {
      SinglePaired(m.value.tokens[0].kind, m.value.tokens[0].text, m.value.next);
    }
  }

  lemma ClassAtomRules(s: string)
    requires |s| > 0
    ensures var m := ClassAtomRule(s); m.Some? ==> KindsOk(m.value, true) && PairedTokens(m.value.tokens)
  {
    ClassAtomTokensPaired(s, false);
    var m := ClassAtomRule(s);
    if m.Some? && ClassAtomTokens(s, false) == [] {
      SinglePaired(m.value.tokens[0].kind, m.value.tokens[0].text, m.value.next);
    }
  }

  lemma ClassAfterAtomRules(s: string)
    requires |s| > 0
    ensures var m := ClassAfterAtomRule(s); m.Some? ==> KindsOk(m.value, true) && PairedTokens(m.value.tokens)
  {
    if s[0] == '-' && ClassAtomTokens(s[1..], true) != [] {
      var end := ClassAtomTokens(s[1..], true);
      ClassAtomTokensPaired(s[1..], true);
      ClassAtomTokensNeutral(s[1..], true);
      RangeTokens(s[..1], end);
    } else {
      ClassAtomRules(s);
    }
  }

  lemma ClassAtomTokensNeutral(s: string, rangeEnd: bool)
    ensures Neutral(ClassAtomTokens(s, rangeEnd), true)
  {
  }

  /** A `charClassRange` followed by the tokens of a class atom. */
  lemma RangeTokens(dash: string, end: seq<Token>)
    requires Neutral(end, true) && PairedTokens(end) && (end != [] ==> end[0].kind != CharClassRange)
    ensures var ts := [Token(CharClassRange, dash)] + end; Neutral(ts, true) && PairedTokens(ts)
  {
    var ts := [Token(CharClassRange, dash)] + end;
    KindsAppend([Token(CharClassRange, dash)], end);
    assert Kinds([Token(CharClassRange, dash)]) == [CharClassRange];
    EscapesPairedAppend([CharClassRange], Kinds(end));
  }

  lemma StepShape(st: State, s: string)
    requires |s| > 0
    ensures var m := Step(st, s);
      ClassShaped(Kinds(m.tokens), st.InClass()) && EndsInClass(Kinds(m.tokens), st.InClass()) == m.next.InClass()
  {
    var m := Step(st, s);
    StepKinds(st, s);
    if Neutral(m.tokens, st.InClass()) && m.next.InClass() == st.InClass() {
      NeutralShape(m.tokens, st.InClass());
    } else {
      assert Kinds(m.tokens) == [m.tokens[0].kind];
      assert Kinds(m.tokens)[1..] == [];
    }
  }

  /** A line scanned from state `st` is well shaped from that state's class
      status, keeps escapes paired, and ends in the class status of the
      state it ends in. */
  lemma {:induction false} ScanShape(st: State, s: string)
    ensures var r := Scan(st, s);
      && ClassShaped(Kinds(r.0), st.InClass())
      && EndsInClass(Kinds(r.0), st.InClass()) == r.1.InClass()
      && EscapesPaired(Kinds(r.0))
      && (r.0 != [] ==> r.0[0].kind != EscapedSymbol)
    decreases |s|
  {
    if s != [] {
      var m := Step(st, s);
      var n := |Texts(m.tokens)|;
      var rest := Scan(m.next, s[n..]);
      StepShape(st, s);
      StepEscapes(st, s);
      ScanShape(m.next, s[n..]);
      assert Scan(st, s) == (m.tokens + rest.0, rest.1);
      KindsAppend(m.tokens, rest.0);
      ClassShapedAppend(Kinds(m.tokens), Kinds(rest.0), st.InClass());
      EscapesPairedAppend(Kinds(m.tokens), Kinds(rest.0));
    }
  }

  /** The same for a whole document: the tokens of all rows, read in order,
      are well shaped from outside a class and keep escapes paired. */
  lemma {:induction false} ScanLinesShape(lines: seq<string>, st: State)
    ensures var r := ScanLines(lines, st);
      && ClassShaped(Kinds(Concat(r.0)), st.InClass())
      && EndsInClass(Kinds(Concat(r.0)), st.InClass()) == r.1.InClass()
      && EscapesPaired(Kinds(Concat(r.0)))
      && (Concat(r.0) != [] ==> Concat(r.0)[0].kind != EscapedSymbol)
    decreases |lines|
  {
    var r := ScanLines(lines, st);
    if lines != [] {
      var first := Scan(st, lines[0]);
      var rest := ScanLines(lines[1..], first.1);
      assert r.0 == [first.0] + rest.0;
      assert r.0[1..] == rest.0;
      assert Concat(r.0) == first.0 + Concat(rest.0);
      ScanShape(st, lines[0]);
      ScanLinesShape(lines[1..], first.1);
      KindsAppend(first.0, Concat(rest.0));
      ClassShapedAppend(Kinds(first.0), Kinds(Concat(rest.0)), st.InClass());
      EscapesPairedAppend(Kinds(first.0), Kinds(Concat(rest.0)));
    }
  }
}

/**
 * How single rules of the table classify the constructs of the syntax.
 */
module RuleProperties {
  import opened Wrappers
  import opened Tokens
  import opened Lexer

  // ----- quantifiers -----

  /** `m`, `m,` or `m,n`: digits, with at most one comma, not in front. */
  ghost predicate IsBound(body: string)
  {
    && |body| > 0
    && IsDigit(body[0])
    && forall i :: 0 <= i < |body| ==>
         IsDigit(body[i]) || (body[i] == ',' && forall j :: 0 <= j < |body| && j != i ==> IsDigit(body[j]))
  }

  /** `*`, `+`, `?` or `{m}`, `{m,}`, `{m,n}`. */
  ghost predicate IsQuantifierBase(b: string)
  {
    b == "*" || b == "+" || b == "?" || (|b| >= 3 && b[0] == '{' && b[|b| - 1] == '}' && IsBound(b[1..|b| - 1]))
  }

  /** A quantifier base, optionally followed by `?` (lazy). */
  ghost predicate IsQuantifierText(q: string)
  {
    IsQuantifierBase(q) || (|q| >= 2 && q[|q| - 1] == '?' && IsQuantifierBase(q[..|q| - 1]))
  }

  lemma BraceLenSound(s: string)
    requires BraceLen(s) > 0
    ensures IsBound(s[1..BraceLen(s) - 1])
  {
    var n := BraceLen(s);
    var d1 := DigitRun(s, 1);
    var p := 1 + d1;
    var body := s[1..n - 1];
    if s[p] == ',' {
      var q := p + 1 + DigitRun(s, p + 1);
      assert n == q + 1;
      forall i | 0 <= i < |body| ensures IsDigit(body[i]) || (body[i] == ',' && forall j :: 0 <= j < |body| && j != i ==> IsDigit(body[j])) {
        assert body[i] == s[i + 1];
        if i + 1 != p {
          assert IsDigit(body[i]);
        }
      }
    }
  }

  /** The `quantifier` rule only matches quantifiers. */
  lemma QuantifierLenSound(s: string)
    requires QuantifierLen(s) > 0
    ensures IsQuantifierText(s[..QuantifierLen(s)])
  {
    var n := QuantifierLen(s);
    var base := if s[0] in "*+?" then 1 else BraceLen(s);
    if base == 1 && s[0] in "*+?" {
      assert s[..1] == [s[0]];
      if n == 2 { assert s[..n][..1] == s[..1]; }
    } else {
      BraceLenSound(s);
      assert s[..base][1..base - 1] == s[1..base - 1];
      if n == base + 1 { assert s[..n][..base] == s[..base]; }
    }
  }

  lemma DigitRunExact(s: string, i: nat, k: nat)
    requires i + k <= |s|
    requires forall j :: i <= j < i + k ==> IsDigit(s[j])
    requires i + k == |s| || !IsDigit(s[i + k])
    ensures DigitRun(s, i) == k
  {
  }

  lemma BraceLenComplete(b: string, rest: string)
    requires |b| >= 3 && b[0] == '{' && b[|b| - 1] == '}' && IsBound(b[1..|b| - 1])
    ensures BraceLen(b + rest) == |b|
  {
    var s := b + rest;
    var body := b[1..|b| - 1];
    assert forall j :: 0 <= j < |body| ==> s[j + 1] == body[j];
    if c :| 0 <= c < |body| && body[c] == ',' {
      DigitRunExact(s, 1, c);
      assert c > 0;
      DigitRunExact(s, c + 2, |body| - c - 1);
    } else {
      DigitRunExact(s, 1, |body|);
    }
  }

  /** In "afterAtom" a quantifier, with its optional trailing `?`, is one
      `quantifier` token and the state returns to "start". */
  lemma QuantifierAfterAtom(b: string, lazy: bool, rest: string)
    requires IsQuantifierBase(b)
    requires !lazy ==> rest == [] || rest[0] != '?'
    ensures var q := if lazy then b + "?" else b;
      Step(AfterAtom, q + rest) == Single(Quantifier, q, Start)
  {
    var q := if lazy then b + "?" else b;
    var s := q + rest;
    assert s == b + ((if lazy then "?" else "") + rest);
    if b != "*" && b != "+" && b != "?" {
      BraceLenComplete(b, (if lazy then "?" else "") + rest);
    }
    assert QuantifierLen(s) == |q|;
    assert s[..|q|] == q;
  }

  /** In "start" a bare `*`, `+` or `?` has nothing to quantify: it is an
      `error` token and the state stays "start". */
  lemma BareQuantifierInStart(c: char, rest: string)
    requires c in "*+?"
    ensures Step(Start, [c] + rest) == Single(Error, [c], Start)
  {
    var s := [c] + rest;
    assert s[..1] == [c];
    assert TermRule(s).None?;
  }

  /** In "start" a `{` is plain text: "defText" precedes the misplaced
      `{m,n}` rule, so that rule never fires. */
  lemma BraceInStartIsText(rest: string)
    ensures Step(Start, "{" + rest) == Single(DefText, "{", AfterAtom)
  {
    var s := "{" + rest;
    assert s[..1] == "{";
  }

  /** No token of "start" is a quantifier. */
  lemma NoQuantifierInStart(s: string)
    requires |s| > 0
    ensures forall t :: t in Step(Start, s).tokens ==> t.kind != Quantifier
  {
  }

  // ----- classes -----

  /** `[]` and `[^]` are a single `error` token, tried before `[` opens a
      class; the state becomes "afterAtom". */
  lemma EmptyClassIsError(st: State, rest: string, negated: bool)
    requires st == Start || st == AfterAtom
    ensures var e := if negated then "[^]" else "[]";
      Step(st, e + rest) == Single(Error, e, AfterAtom)
  {
    var e := if negated then "[^]" else "[]";
    var s := e + rest;
    assert s[..|e|] == e;
    assert QuantifierLen(s) == 0;
  }

  /** Any other `[` or `[^` opens a class. */
  lemma ClassOpens(st: State, s: string)
    requires st == Start || st == AfterAtom
    requires |s| > 0 && s[0] == '['
    requires !(|s| >= 2 && s[1] == ']') && !(|s| >= 3 && s[1] == '^' && s[2] == ']')
    ensures var n := if |s| >= 2 && s[1] == '^' then 2 else 1;
      Step(st, s) == Single(CharClassStart, s[..n], ClassStart)
  {
    assert QuantifierLen(s) == 0;
  }

  /** A `-` right after the opening of a class, or after a range, is a
      plain class atom. */
  lemma DashInClassStart(rest: string)
    ensures Step(ClassStart, "-" + rest) == Single(CharClassAtom, "-", ClassAfterAtom)
  {
    var s := "-" + rest;
    assert s[..1] == "-";
    assert ClassAtomTokens(s, false) == [Token(CharClassAtom, "-")];
  }

  /** After a class atom, `-` is a `charClassRange` exactly when a class
      atom that is not a shorthand (`\s\S\d\D\w\W`) follows it. */
  lemma DashAfterClassAtom(rest: string)
    ensures var m := Step(ClassAfterAtom, "-" + rest);
      m.tokens[0].kind == CharClassRange <==>
        (|rest| > 0 && rest[0] != ']' && (rest[0] == '\\' ==> |rest| > 1 && !IsShorthandChar(rest[1])))
    ensures var m := Step(ClassAfterAtom, "-" + rest);
      m.tokens[0].kind != CharClassRange ==> m == Single(CharClassAtom, "-", ClassAfterAtom)
  {
    var s := "-" + rest;
    assert s[1..] == rest;
    assert s[..1] == "-";
    assert ClassAtomTokens(s, false) == [Token(CharClassAtom, "-")];
  }

  // ----- escapes, groups and errors outside a class -----

  /** Outside a class, a backslash before a character with no meaning of
      its own gives two tokens, `escapeSymbol` and `escapedSymbol`. */
  lemma EscapeOutsideClass(st: State, c: char, rest: string)
    requires st == Start || st == AfterAtom
    requires c !in "0123456789xucfnrtvsSdDwWbB"
    ensures Step(st, ['\\', c] + rest) ==
      Match([Token(EscapeSymbol, "\\"), Token(EscapedSymbol, [c])], AfterAtom)
  {
    var s := ['\\', c] + rest;
    assert s[..1] == "\\" && s[1..2] == [c];
    assert AtomRule(s) == Some(EscapePair(s, AfterAtom)) by {
      assert NumEscapeLen(s) == 0 && ControlLetterLen(s) == 0 && !IsControlEscChar(s[1]);
    }
    AtomStep(st, s);
  }

  /** Outside a class, `\` and a non-zero digit start a `groupRef` that
      takes all following digits. */
  lemma GroupRefOutsideClass(st: State, s: string)
    requires st == Start || st == AfterAtom
    requires |s| >= 2 && s[0] == '\\' && IsNonZeroDigit(s[1])
    ensures Step(st, s) == Single(GroupRef, s[..2 + DigitRun(s, 2)], AfterAtom)
  {
    GroupRefAtom(s);
    AtomStep(st, s);
  }

  lemma GroupRefAtom(s: string)
    requires |s| >= 2 && s[0] == '\\' && IsNonZeroDigit(s[1])
    ensures AtomRule(s) == Some(Single(GroupRef, s[..2 + DigitRun(s, 2)], AfterAtom))
  {
    GroupRefGuards(s);
    var n := 2 + DigitRun(s, 2);
    var m := Single(GroupRef, s[..n], AfterAtom);
    assert !(|s| >= 2 && s[0] == '\\' && IsControlEscChar(s[1]));
    assert AtomRule(s) == Some(m);
  }

  /** A back-reference matches none of the atom rules tried before it. */
  lemma GroupRefGuards(s: string)
    requires |s| >= 2 && s[0] == '\\' && IsNonZeroDigit(s[1])
    ensures s[0] != '.' && NumEscapeLen(s) == 0 && ControlLetterLen(s) == 0 && !IsControlEscChar(s[1])
  {
  }

  /** Outside a class, an atom that is not a quantifier is what the step
      produces. */
  lemma AtomStep(st: State, s: string)
    requires st == Start || st == AfterAtom
    requires |s| > 0 && AtomRule(s).Some? && s[0] != '{' && s[0] !in "*+?"
    ensures Step(st, s) == AtomRule(s).value
  {
    assert TermRule(s) == AtomRule(s);
    if st == AfterAtom {
      assert QuantifierLen(s) == 0;
    }
  }

  /** `(`, `(?:`, `(?=` and `(?!` are each a single `openBracket`, after
      which a quantifier has nothing to quantify ("start"). */
  lemma OpenBracketForms(st: State, s: string)
    requires st == Start || st == AfterAtom
    requires |s| > 0 && s[0] == '('
    ensures var n := if |s| >= 3 && s[1] == '?' && s[2] in ":=!" then 3 else 1;
      Step(st, s) == Single(OpenBracket, s[..n], Start)
  {
    assert QuantifierLen(s) == 0;
  }

  /** `)` closes a group, which is quantifiable ("afterAtom"). */
  lemma ClosedBracketForm(st: State, rest: string)
    requires st == Start || st == AfterAtom
    ensures Step(st, ")" + rest) == Single(ClosedBracket, ")", AfterAtom)
  {
    var s := ")" + rest;
    assert s[..1] == ")";
    assert QuantifierLen(s) == 0;
  }

  /** A `/` in term position is an `error` that keeps the state. */
  lemma SlashIsError(st: State, rest: string)
    requires st == Start || st == AfterAtom
    ensures Step(st, "/" + rest) == Single(Error, "/", st)
  {
    var s := "/" + rest;
    assert s[..1] == "/";
    assert QuantifierLen(s) == 0;
  }
}
