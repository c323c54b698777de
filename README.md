# Regex editor highlighting, modelled in Dafny

This project models the core of the syntax-aware editor of a regular
expression tester (`editorDependencies.js`). The editor is built on Ace,
and it highlights the regular expression as the user types:

- **Tokenizer.** `RegexpFileHighlightRules` is a table of states
  (`start`, `afterAtom`, `charClassStart`, `charClassAfterAtom`). Each
  state holds an ordered list of regular-expression rules. The tokenizer
  turns every row of the document into typed tokens (`openBracket`,
  `quantifier`, `groupRef`, `charClassStart`, …). Here that table is the
  pure scanner `Lexer.Step` / `Lexer.Scan` / `Lexer.ScanLines`.
- **Bracket structure.** After every change of the text or the flags,
  `onRegexChange` runs `evaluateBracketStructure`. This is one pass over
  the session's tokens, driven by `MyTokenIterator`. It records every
  bracket with its row, column and end, pairs brackets through a stack of
  open brackets, and numbers capture groups.
  - `BracketStructure.Analyze` is the specification of the pass.
  - `BracketStructure.EvaluateBracketStructure` is the loop, proved equal
    to it.
  - `BracketProperties.AnalyzeFinal` states what the pass computes:
    positions, pairing, nesting, unpaired brackets, capture marks, and
    groups numbered in closing order.
  - `DocumentOrder.AnalyzeOrdered` proves the recorded brackets are in
    document order.
- **Related elements.** With the caret on a `|`, a quantifier or a
  back-reference, the related-element marker walks Ace's token iterator
  back and forth and marks:
  - the alternatives of the alternation;
  - the atom the quantifier applies to;
  - the referenced group.

  Each walk (`RelatedElements`) is proved to report exactly the ranges
  that `RelatedSpecs` defines over the tokens in document order.
- **Editor state.** `RegexApi.RegexEditor` holds the text, the flags, the
  last-analyzed text and flags, the bracket structure, and the
  highlighted group. Re-analysis and listener notification happen only
  when the text or the effective flags change.
- **Matched brackets and the selected group.** The matched-bracket marker
  finds the paired bracket under the caret, marks it and its partner, and
  reports the bracket's capture group. The selected-group highlighter
  draws the highlighted group, with group 0 being the whole text.

The source is JavaScript. The model follows its form:

- the rule table and the finders' specifications are functions;
- the bracket pass, the iterators, the finders' walks and the caret search
  are methods with loops, proved against those functions;
- the editor and the marker are classes whose methods update their fields.

Two behaviours of the code differ from what a reader of the regular
expression would expect, and the model follows the code in both:

- Capture groups are numbered when their closing bracket is met
  (editorDependencies.js:760-769), whereas an ECMAScript regular expression
  numbers them in the order their `(` appear. In `((a)b)\1` the code gives
  `(a)` number 1, while `\1` refers to `((a)b)`. `BracketProperties.GroupsAreCaptures`
  and the `GroupsByClose` part of `AnalyzeFinal` state the code's numbering.
- In state `start`, `{` is plain text. The `defText` rule comes before the
  rule table's own misplaced-quantifier rule, so the `{m,n}` alternative of
  that error rule can never fire (`RuleProperties.BraceInStartIsText`).

## Model

| member | source | states |
|---|---|---|
| Lexer.DigitRun | editorDependencies.js:305 | the run found is all digits and is maximal: the character after it, if any, is not a digit |
| Lexer.HexEscapeLen | editorDependencies.js:223 | a match is `\x` with exactly 2 or `\u` with exactly 4 hex digits after it (length 4 or 6), within the input |
| Lexer.NumEscapeLen | editorDependencies.js:223 | outside a class, a numeric escape starts `\0`, `\x` or `\u` |
| Lexer.ClassNumEscapeLen | editorDependencies.js:341 | inside a class, a numeric escape is `\` then a digit, `x` or `u` |
| Lexer.ControlLetterLen | editorDependencies.js:223 | a control-letter escape is exactly three characters starting `\c` |
| Lexer.BraceLen | editorDependencies.js:318 | a bound found is at least three characters, from `{` to `}` |
| Lexer.QuantifierLen | editorDependencies.js:315-321 | the quantifier rule never claims more than the input |
| Lexer.MisplacedQuantifierLen | editorDependencies.js:303-307 | the misplaced-quantifier rule never claims more than the input |
| Lexer.AtomRule | editorDependencies.js:213-254 | an atom consumes a non-empty prefix with non-empty tokens and always leads to `afterAtom` |
| Lexer.EscapePairConsumes | editorDependencies.js:241-246 | the backslash and the escaped character are two tokens that cover exactly the two characters |
| Lexer.TermRule | editorDependencies.js:256-298 | a term match covers a non-empty prefix of the row with non-empty tokens |
| Lexer.StartRule | editorDependencies.js:300-313 | the rules of `start`, in order, consume a non-empty prefix |
| Lexer.AfterAtomRule | editorDependencies.js:315-329 | the rules of `afterAtom`, quantifier first, consume a non-empty prefix |
| Lexer.ClassAtomTokens | editorDependencies.js:340-343 | the tokens of one class atom are non-empty and spell a prefix of the input |
| Lexer.ClassAtomRule | editorDependencies.js:331-352 | shorthand, atom or `]` consumes a non-empty prefix |
| Lexer.ClassAfterAtomRule | editorDependencies.js:360-371 | a range or a class atom consumes a non-empty prefix |
| Lexer.Rule | editorDependencies.js:212-372 | the rules of each state consume a non-empty prefix when one matches |
| Lexer.Step | editorDependencies.js:212-374 | every tokenizer step makes progress and its tokens spell what it consumed |
| Lexer.Scan | editorDependencies.js:212-374 | a row's tokens spell the row exactly, each at least one character long |
| Lexer.ScanLines | editorDependencies.js:212-374 | one token list per row, each spelling its row; each row starts in the state the previous row ended in |
| LexerProperties.StepKinds | editorDependencies.js:287-297 | a step either keeps the class status, or opens a class with one `charClassStart`, or closes it with one `charClassEnd` |
| LexerProperties.StepEscapes | editorDependencies.js:241-246 | every `escapedSymbol` a step emits directly follows its `escapeSymbol` |
| LexerProperties.ScanShape | editorDependencies.js:212-372 | a row's token kinds are well shaped from the starting class status and end in the class status of the final state; escapes are paired |
| LexerProperties.ScanLinesShape | editorDependencies.js:212-372 | the tokens of the whole document are well shaped from outside a class and keep escapes paired |
| RuleProperties.BraceLenSound | editorDependencies.js:318 | every bound the rule accepts is `m`, `m,` or `m,n` in digits |
| RuleProperties.BraceLenComplete | editorDependencies.js:318 | every well-formed bound `{m}`, `{m,}` or `{m,n}` is accepted whole |
| RuleProperties.QuantifierLenSound | editorDependencies.js:315-321 | the quantifier rule matches only `*`, `+`, `?` or a bound, optionally lazy |
| RuleProperties.QuantifierAfterAtom | editorDependencies.js:315-321 | after an atom, a quantifier with its optional `?` is one `quantifier` token and the state returns to `start` |
| RuleProperties.BareQuantifierInStart | editorDependencies.js:303-307 | in `start`, a lone `*`, `+` or `?` is an `error` token and the state stays `start` |
| RuleProperties.BraceInStartIsText | editorDependencies.js:248-253 | in `start`, `{` is `defText`, because that rule precedes the misplaced-bound rule |
| RuleProperties.NoQuantifierInStart | editorDependencies.js:300-313 | no step from `start` yields a `quantifier` token |
| RuleProperties.EmptyClassIsError | editorDependencies.js:287-291 | `[]` and `[^]` are one `error` token leading to `afterAtom` |
| RuleProperties.ClassOpens | editorDependencies.js:293-297 | any other `[` or `[^` is one `charClassStart` and enters the class |
| RuleProperties.DashInClassStart | editorDependencies.js:339-344 | a `-` at the start of a class is a plain class atom |
| RuleProperties.DashAfterClassAtom | editorDependencies.js:360-371 | after a class atom, `-` is a range exactly when a non-shorthand class atom follows it; otherwise it is a plain atom |
| RuleProperties.EscapeOutsideClass | editorDependencies.js:241-246 | outside a class, an escape with no meaning of its own gives `escapeSymbol` plus `escapedSymbol` |
| RuleProperties.GroupRefOutsideClass | editorDependencies.js:228-233 | outside a class, `\` with a non-zero digit is a `groupRef` that takes all following digits |
| RuleProperties.OpenBracketForms | editorDependencies.js:273-278 | `(`, `(?:`, `(?=` and `(?!` are each one `openBracket`, leading to `start` |
| RuleProperties.ClosedBracketForm | editorDependencies.js:280-285 | `)` is one `closedBracket`, leading to `afterAtom` |
| RuleProperties.SlashIsError | editorDependencies.js:309-312 | `/` is an `error` token that keeps the state |
| Session.TokenAt | editorDependencies.js:522 | getTokenAt yields a token of the row whose end is at or after the column and whose start is before it |
| Session.TokenAtStart | editorDependencies.js:536 | one column past a non-empty token's start, getTokenAt finds that same token |
| Session.TokenAtCovering | editorDependencies.js:522-529 | the token covering the character before a column is the one getTokenAt finds there |
| Session.CacheInvisible | editorDependencies.js:626-628 | caching a token's true column on it changes none of the located tokens the iterators walk |
| Session.FlattenAt | editorDependencies.js:573-597 | token `i` of row `r` sits at one fixed index of the document-order token list, with its row and reported column |
| Session.FlattenTokens | editorDependencies.js:678 | the session's tokens read row after row are the tokenizer's tokens, in order |
| TokenIteratorModel.MyTokenIterator.constructor | editorDependencies.js:556-569 | the iterator starts on the first token of the document, skipping empty leading rows |
| TokenIteratorModel.MyTokenIterator.StepForward | editorDependencies.js:573-597 | moves to the next token in document order, crossing empty rows; at the end it yields nothing and stays on the last row |
| TokenIteratorModel.MyTokenIterator.GetCurrentToken | editorDependencies.js:604-606 | the token at the iterator's position, or nothing past the end |
| TokenIteratorModel.MyTokenIterator.GetCurrentTokenRow | editorDependencies.js:608-610 | the current token's row, or the last row once past the end |
| TokenIteratorModel.MyTokenIterator.GetCurrentTokenColumn | editorDependencies.js:612-637 | the current token's cached column if present, else the length of the tokens before it; on a coherent session this equals the accumulated column of the first definition |
| BracketStructure.NextClassEnd | editorDependencies.js:724-738 | finds the first `charClassEnd` from a position on, or the end when there is none |
| BracketStructure.Next | editorDependencies.js:714-774 | one step of the pass always advances and never drops a recorded bracket |
| BracketStructure.NextOk | editorDependencies.js:714-774 | every step keeps partner links symmetric and group numbers consistent |
| BracketStructure.Go | editorDependencies.js:714-774 | the pass from any point ends with a well-formed structure |
| BracketStructure.Analyze | editorDependencies.js:705-780 | the structure of every token stream is well formed: links symmetric, every group paired and numbered on both ends |
| BracketStructure.SkipToClassEnd | editorDependencies.js:724-738 | the inner loop stops on the next `charClassEnd` or runs off the end |
| BracketStructure.Visit | editorDependencies.js:739-771 | for a non-class token, the step equals the pass's specification step |
| BracketStructure.Advance | editorDependencies.js:715-773 | one iteration of the pass equals the specification step, including the class skip |
| BracketStructure.EvaluateBracketStructure | editorDependencies.js:705-780 | the pass over the session returns the specified structure of its tokens |
| BracketProperties.BracketTokens | editorDependencies.js:715-771 | the bracket tokens of a stream are a subsequence of it, all of bracket kind |
| BracketProperties.AnalyzeFinal | editorDependencies.js:705-780 | over lexer-shaped tokens, the pass gives each bracket token's position and end, pairs an opener with a later closer or a class start with the class end right after it, nests pairs, leaves a closer unpaired only when every earlier opener is paired, marks captures exactly on `(` groups, and numbers groups in closing order |
| BracketProperties.GroupsAreCaptures | editorDependencies.js:748-769 | every group runs from a `(` to a `)`, and a `(` is numbered exactly when it is paired, with its own group's number |
| DocumentOrder.FlattenOrdered | editorDependencies.js:573-597 | with coherent cached columns, the tokens the iterator walks are in document order |
| DocumentOrder.BracketTokensOrdered | editorDependencies.js:714-774 | the bracket tokens keep that order and are tokens of the stream |
| DocumentOrder.AnalyzeOrdered | editorDependencies.js:705-780 | the brackets the pass records are in document order |
| RelatedSpecs.NetSplit | editorDependencies.js:399-406 | the bracket balance of adjacent stretches adds up |
| RelatedSpecs.EnclosingOpenIsOpen | editorDependencies.js:395-417 | the group opener the backward walk stops at is an opening bracket one level up |
| RelatedSpecs.EnclosingCloseIsClose | editorDependencies.js:428-450 | the group closer the forward walk stops at is a closing bracket one level up |
| RelatedSpecs.EnclosingBalanced | editorDependencies.js:395-450 | around a non-bracket, the opener and closer found are partners: the stretch between them balances |
| RelatedSpecs.BarsBelowLevel | editorDependencies.js:407-416 | exactly the `|` tokens on the caret's level before it are listed, nearest first |
| RelatedSpecs.BarsAboveLevel | editorDependencies.js:440-449 | exactly the `|` tokens on the caret's level after it are listed, nearest first |
| RelatedSpecs.OrRangesCount | editorDependencies.js:388-456 | an alternation with `n` other bars on the level yields `n + 2` ranges, one per alternative |
| RelatedSpecs.OpenUnique | editorDependencies.js:395-417 | the group opener is the only position with its two defining properties |
| RelatedSpecs.CloseUnique | editorDependencies.js:428-450 | the group closer is the only position with its two defining properties |
| RelatedSpecs.SameGroupBelow | editorDependencies.js:388-456 | from any other bar of the same alternation the finder sees the same group, so the marks do not depend on which `|` holds the caret |
| RelatedSpecs.MatchUnique | editorDependencies.js:463-488 | the balanced stretch the quantifier walk finds is the shortest one ending at the closing bracket |
| RelatedSpecs.ClosedStaysPositive | editorDependencies.js:463-488 | walking back from a `)`, the depth stays positive until its opener |
| RelatedSpecs.MatchedGroup | editorDependencies.js:478-488 | for a quantified group, the opener found is an opening bracket and the group between is balanced |
| RelatedSpecs.NothingToQuantify | editorDependencies.js:465-481 | a quantifier at the start or right after `(` marks an empty range |
| RelatedSpecs.QuantifiedGroup | editorDependencies.js:485-488 | after `)`, the quantified atom is the whole group from its opener |
| RelatedSpecs.QuantifiedEscape | editorDependencies.js:470-476 | an escaped character is quantified together with its backslash |
| RelatedSpecs.LeadingDigits | editorDependencies.js:497 | counts exactly the leading decimal digits |
| RelatedSpecs.ParseDecimal | editorDependencies.js:497 | parseInt of a decimal numeral followed by a non-digit gives back its number |
| RelatedElements.AceTokenIterator.constructor | editorDependencies.js:536 | the Ace iterator starts on the token getTokenAt finds at the caret |
| RelatedElements.AceTokenIterator.StepBackward | editorDependencies.js:396 | moves one token back in document order, yielding nothing before the first |
| RelatedElements.AceTokenIterator.StepForward | editorDependencies.js:429 | moves one token forward in document order, yielding nothing after the last |
| RelatedElements.AceTokenIterator.LoadState | editorDependencies.js:424 | restores a saved position |
| RelatedElements.OrSymbolRanges | editorDependencies.js:388-456 | the `|` finder reports exactly the alternatives around the bar, backward ones first |
| RelatedElements.WalkBack | editorDependencies.js:395-421 | the backward walk reports the gaps between same-level bars, then the first alternative from just after the group opener |
| RelatedElements.BackToOpener | editorDependencies.js:395-417 | the backward loop stops just past the group opener, having seen every same-level bar |
| RelatedElements.WalkForward | editorDependencies.js:426-455 | the forward walk reports the gaps between same-level bars, then the last alternative up to the group closer |
| RelatedElements.ForwardToCloser | editorDependencies.js:428-450 | the forward loop stops at the group closer, having seen every same-level bar |
| RelatedElements.QuantifierRange | editorDependencies.js:458-491 | the quantifier finder reports the range from the start of the quantified atom to the quantifier |
| RelatedElements.GroupEnds | editorDependencies.js:498-501 | group `n`'s opener comes before its partner, and both carry number `n` |
| RelatedElements.GroupReferenceRange | editorDependencies.js:493-508 | a range is reported only with a structure and a parsed group number within the groups |
| RelatedElements.BackReferenceTarget | editorDependencies.js:493-508 | `\n` marks group `n` from its opener to its closer's end exactly when the group exists and has closed by the reference |
| RelatedElements.PickToken | editorDependencies.js:520-534 | the picked token has a finder and touches the caret |
| RelatedElements.PickTokenComplete | editorDependencies.js:520-534 | whenever a token with a finder touches the caret, one is picked |
| RelatedElements.NonEmptyRanges | editorDependencies.js:538-542 | only the non-empty reported ranges are drawn, and all of them are |
| RelatedElements.Update | editorDependencies.js:517-544 | the marker draws nothing without focus; otherwise it draws the non-empty ranges the finder of the picked token reports |
| RelatedElements.TokenAtCaret | editorDependencies.js:522-534 | the token after the caret when it has a finder, else the one before |
| RelatedElements.MarkToken | editorDependencies.js:536-542 | placing the iterator just past the cached start finds the picked token, and its finder's ranges are drawn |
| RelatedElements.CachedStart | editorDependencies.js:536 | caching the start column leaves the walked tokens unchanged, and the iterator lands on the picked token |
| RelatedElements.FindRelated | editorDependencies.js:510-514 | the finder chosen by token type reports the related ranges of that token |
| RegexApi.Lines | editorDependencies.js:668 | the document has at least one row and no row contains a line break |
| RegexApi.JoinLines | editorDependencies.js:668 | joining the rows with line breaks gives back the text |
| RegexApi.LinesJoin | editorDependencies.js:668 | splitting rows joined by line breaks gives back the rows |
| RegexApi.SessionOf | editorDependencies.js:678 | the session has one token row per line, with no stale cached columns |
| RegexApi.StructureOf | editorDependencies.js:678 | the structure of any text is well formed and its brackets are in document order |
| RegexApi.RegexEditor.constructor | editorDependencies.js:700 | a new editor analyzes its text once and notifies the listeners once |
| RegexApi.RegexEditor.OnRegexChange | editorDependencies.js:667-689 | afterwards the structure is that of the current text; the listeners are told exactly when the text or effective flags differ from those last analyzed |
| RegexApi.RegexEditor.Reanalyze | editorDependencies.js:675-688 | past the guard, the text and flags are remembered, the structure recomputed, the listeners told once |
| RegexApi.RegexEditor.Remember | editorDependencies.js:675-676 | the text and effective flags being analyzed are remembered |
| RegexApi.RegexEditor.UpdateBracketStructure | editorDependencies.js:678 | the stored structure is the one of the remembered text |
| RegexApi.RegexEditor.Change | editorDependencies.js:691-693 | an edit re-analyzes the new text and notifies exactly when the text changed |
| RegexApi.RegexEditor.SetFlags | editorDependencies.js:695-698 | new flags keep the structure and notify exactly when the effective flags changed |
| RegexApi.RegexEditor.SetHighlightedGroup | editorDependencies.js:660-665 | the back marker is redrawn exactly when the highlighted group changes; nothing else changes |
| RegexApi.SelectedGroupRange | editorDependencies.js:833-851 | a range is drawn exactly when there is a group, a structure and the group exists; group 0 spans from the document start to its last row |
| RegexApi.WholeTextCoversTokens | editorDependencies.js:838-842 | the group-0 range covers every token of the document |
| RegexApi.GroupRangeIsReferenceRange | editorDependencies.js:844-848 | the range highlighted for group `n` is the range a resolving back-reference `\n` marks |
| RegexApi.LastTouching | editorDependencies.js:870-883 | the bracket found is paired and touches the caret, and no later paired bracket does |
| RegexApi.CaretScanAsWritten | editorDependencies.js:870-883 | the written search returns the bracket found before it stops, or a paired bracket touching the caret |
| RegexApi.BracketUnderCaretAsWritten | editorDependencies.js:870-883 | the written loop computes the written search |
| RegexApi.CaretLoopStopsOnEarlierRow | editorDependencies.js:873-876 | on ordered brackets `abc(` / `x)` with the caret at row 1, column 1, the written loop finds nothing while a paired bracket touches the caret |
| RegexApi.BracketUnderCaret | editorDependencies.js:870-883 | on brackets in document order, the corrected loop finds the last paired bracket touching the caret |
| RegexApi.MatchedMarksAsWritten | editorDependencies.js:888-899 | at most two marks are drawn |
| RegexApi.MatchedMarks | editorDependencies.js:888-899 | the marks are the spans of the bracket and its partner, each present exactly when its row is on screen |
| RegexApi.PartnerMarkOnWrongRow | editorDependencies.js:895-898 | for a pair spanning two rows, the written partner mark lands on the opener's row and the partner's own span is missing |
| RegexApi.SelectedGroup | editorDependencies.js:901 | a group is selected only with focus, from a bracket under the caret that carries that number; the bracket is found by the corrected caret search of "## Findings" |
| RegexApi.CaretGroupHighlight | editorDependencies.js:901-906 | the selected group exists, the bracket under the caret (corrected caret search of "## Findings") is one of its ends, and the highlighter draws it from opener to closer |
| RegexApi.MatchedBracketMarker.constructor | editorDependencies.js:853-854 | a new marker has no selected group and has notified nobody |
| RegexApi.MatchedBracketMarker.Update | editorDependencies.js:859-908 | without a structure nothing changes; otherwise it draws the marks of the bracket under the caret, selects its group, and notifies exactly when the selection changes; both corrections of "## Findings" are applied |

## Left out

- RegexApi.MatchedBracketMarker.Update: models the marker with both corrections of "## Findings" applied (the caret search of `BracketUnderCaret` and the partner mark of `MatchedMarks`), so on a regex spread over several rows it can differ from lines 870-883 and 897 as written; the written search and marks are `BracketUnderCaretAsWritten` and `MatchedMarksAsWritten`, and `CaretLoopStopsOnEarlierRow` and `PartnerMarkOnWrongRow` exhibit the difference. `RegexApi.SelectedGroup` and `RegexApi.CaretGroupHighlight` use the same corrected search.
- The live-match marker, RegExp construction and the `regex` field are
  not part of this model. That covers `installRegexpFindDependency`, the
  rest of lines 3-180, and the `new RegExp` at lines 680-686. They run
  the host's regular-expression engine.
- Drawing is left out: DOM markers, `drawLineMarker`, `toScreenRange`,
  and the marker layer's `config`. The config is reduced to the
  first and last visible rows.
- `InvalidBracketMarker`, `installRegexpHighlighter`,
  `installFlagsCheckboxListener`, the Ace mode boilerplate and the focus,
  blur and cursor listeners are left out. They register callbacks or
  read checkboxes, and compute nothing this model states.
- Listener lists are modelled as notification counters
  (`regexNotifications`, `backMarkerUpdates`, `notifications`). What a
  listener does is outside the core.
- Ace's internals are reduced to a position in the document-order token
  list. This covers the `TokenIterator`, `getTokens` and `getTokenAt`,
  including the iterator's behaviour one step past either end.
- Ace's merging of adjacent tokens of the same type, its token-count cap
  per row, and its UTF-16 column arithmetic are left out. Columns count
  characters.
- Lexer.Step: when no rule of a state matches, one character becomes a
  `text` token and the state is kept. This is Ace's default for unmatched
  text, and it is only reachable inside a class (a lone trailing `\`).
- RegexApi.Lines splits only at `\n`. Ace's other line endings (`\r\n`,
  `\r`) are not modelled.
- RegexApi.SessionOf is the document tokenized afresh. Ace's incremental
  re-tokenization and its background tokenizer are not modelled. Columns
  cached on tokens by earlier `getTokenAt` calls are modelled
  (`Session.RowToken.start`) but assumed true (`Session.Coherent`).
- RelatedElements.Update requires every session token to be non-empty
  and every cached column to be true. Both hold for sessions from the
  tokenizer.
- The finders' writes of `row` and `start` onto Ace's token objects
  (lines 393, 410-411, 443-444, 459) are left out. The model reads the
  same values from the iterator instead.
- RelatedSpecs.ParseInt models `parseInt` only on strings that start with
  digits or with no digit at all. Leading blanks, signs and precision
  loss on very long numerals are left out; group references always start
  with a non-zero digit.
- JavaScript's loose equalities (`==` against `undefined`, truthiness of
  `br.pair` and `captureGroup`) are modelled with `Option` values.

## Findings

| source | as written | input that shows it | evidently intended | confidence | as-written member | corrected member |
|---|---|---|---|---|---|---|
| editorDependencies.js:875-876 | the caret loop skips brackets on rows after the caret and stops at the first bracket on an earlier row | regex `abc(` / `x)` on two rows, caret at row 1, column 1: the `(` ends at column 4, not before the caret, and its row 0 is earlier, so the loop stops before reaching the `)` under the caret | skip brackets on earlier rows and stop at the first bracket on a later row | not executed | RegexApi.CaretLoopStopsOnEarlierRow | RegexApi.BracketUnderCaret |
| editorDependencies.js:897 | the partner's mark is built on `row`, the row of the bracket under the caret | `(` at row 0, columns 3-4, paired with `)` at row 1, columns 1-2: the partner mark is drawn at row 0, columns 1-2 | build the partner mark on `pairRow` | not executed | RegexApi.PartnerMarkOnWrongRow | RegexApi.MatchedMarks |
