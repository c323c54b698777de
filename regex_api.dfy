/**
 * The regex editor's own API around the session: the guarded re-analysis
 * of the text (`onRegexChange`, `setFlags`), the highlighted group and the
 * range the selected-group highlighter draws for it, and the
 * matched-bracket marker that finds the bracket under the caret and
 * reports its capture group.
 */
module RegexApi {
  import opened Wrappers
  import opened Tokens
  import opened TokenShape
  import opened Session
  import opened Lexer
  import opened LexerProperties
  import opened BracketStructure
  import opened BracketProperties
  import opened DocumentOrder
  import opened RelatedSpecs
  import opened RelatedElements

  // ----- the document -----

  /** The lines of the document: its text cut at every line feed. */
  function Lines(text: string): (ls: seq<string>)
    ensures |ls| > 0
    ensures forall i :: 0 <= i < |ls| ==> '\n' !in ls[i]
    decreases |text|
  {
    if text == [] then [""]
    else
      var rest := Lines(text[1..]);
      if text[0] == '\n' then [""] + rest
      else [[text[0]] + rest[0]] + rest[1..]
  }

  /** The text of a list of lines, a line feed between each two. */
  function Join(ls: seq<string>): string
    requires |ls| > 0
  {
    if |ls| == 1 then ls[0] else ls[0] + "\n" + Join(ls[1..])
  }

  /** Joining the lines gives back the text. */
  lemma {:induction false} JoinLines(text: string)
    ensures Join(Lines(text)) == text
    decreases |text|
  {
    if text != [] {
      var rest := Lines(text[1..]);
      JoinLines(text[1..]);
      if text[0] == '\n' {
        assert Lines(text)[1..] == rest;
      } else if |rest| == 1 {
        assert Join(Lines(text)) == [text[0]] + rest[0];
      } else {
        assert Lines(text)[1..] == rest[1..];
        assert Join(rest) == rest[0] + "\n" + Join(rest[1..]);
      }
    }
  }

  /** A prefix without line feeds stays on the first line. */
  lemma {:induction false} LinesPrefix(a: string, t: string)
    requires '\n' !in a
    ensures Lines(a + t) == [a + Lines(t)[0]] + Lines(t)[1..]
    decreases |a|
  {
    if a != [] {
      var first := Lines(t)[0];
      assert (a + t)[0] == a[0] && (a + t)[1..] == a[1..] + t;
      LinesPrefix(a[1..], t);
      var rest := Lines(a[1..] + t);
      assert rest[0] == a[1..] + first && rest[1..] == Lines(t)[1..];
      assert Lines(a + t) == [[a[0]] + rest[0]] + rest[1..];
      assert [a[0]] + (a[1..] + first) == a + first;
    } else {
      assert a + t == t && "" + Lines(t)[0] == Lines(t)[0];
      assert Lines(t) == [Lines(t)[0]] + Lines(t)[1..];
    }
  }

  /** Cutting lines without line feeds at the ones `Join` puts back gives
      the lines again. */
  lemma {:induction false} LinesJoin(ls: seq<string>)
    requires |ls| > 0 && forall i :: 0 <= i < |ls| ==> '\n' !in ls[i]
    ensures Lines(Join(ls)) == ls
    decreases |ls|
  {
    if |ls| == 1 {
      LinesPrefix(ls[0], "");
      assert ls[0] + "" == ls[0];
    } else {
      var t := Join(ls[1..]);
      LinesJoin(ls[1..]);
      LinesPrefix(ls[0], "\n" + t);
      assert ("\n" + t)[1..] == t;
      assert ls[0] + "\n" + t == ls[0] + ("\n" + t);
      assert ls[0] + "" == ls[0];
    }
  }

  /** The session of a text: each line tokenized in the state the line
      before it ended in, starting outside any class. */
  function SessionOf(text: string): (rows: seq<seq<RowToken>>)
    ensures |rows| == |Lines(text)| && Coherent(rows)
  {
    FreshCoherent(ScanLines(Lines(text), Start).0);
    FreshRows(ScanLines(Lines(text), Start).0)
  }

  /** The bracket structure of a text; the tokenizer's output is well shaped,
      so the brackets come out in document order. */
  function StructureOf(text: string): (s: Structure)
    ensures WellFormed(s) && InDocumentOrder(s.brackets)
  {
    var lines := ScanLines(Lines(text), Start).0;
    var rows := SessionOf(text);
    ScanLinesShape(Lines(text), Start);
    FlattenTokens(lines);
    assert KindsOf(Flatten(rows)) == Kinds(TokensOf(Flatten(rows)));
    AnalyzeOrdered(rows);
    Analyze(Flatten(rows))
  }

  /** The text length of a freshly tokenized row is the length of the
      text its tokens cover. */
  lemma {:induction false} SumLenFresh(ts: seq<Token>)
    ensures SumLen(Fresh(ts)) == |Texts(ts)|
    decreases |ts|
  {
    if ts != [] {
      var n := |ts| - 1;
      assert Fresh(ts)[..n] == Fresh(ts[..n]);
      SumLenFresh(ts[..n]);
      assert ts == ts[..n] + [ts[n]];
      TextsAppend(ts[..n], [ts[n]]);
      assert Texts([ts[n]]) == ts[n].text + Texts([]);
    }
  }

  // ----- the editor -----

  /** `regex_flags` once the editor has read it: a missing value counts as
      no flags. */
  function FlagsOf(flags: Option<string>): string
  {
    match flags
    case None => ""
    case Some(f) => f
  }

  /** The regex editor's state as `onRegexChange` keeps it: the text and
      flags, the text and flags last analyzed, the session's bracket
      structure, the highlighted group, and how many times the regex
      change listeners and the back marker have been told. */
  class RegexEditor {
    var text: string
    var flags: Option<string>
    var oldText: Option<string>
    var oldFlags: Option<string>
    var bracketStructure: Option<Structure>
    var highlightedGroup: Option<nat>
    var regexNotifications: nat
    var backMarkerUpdates: nat

    /** The structure is that of the text last analyzed. */
    ghost predicate Analyzed()
      reads this
    {
      oldText.Some? ==> bracketStructure == Some(StructureOf(oldText.value))
    }

    /** Between two events: the current text and flags are analyzed. */
    ghost predicate Valid()
      reads this
    {
      && Analyzed()
      && oldText == Some(text)
      && oldFlags == Some(FlagsOf(flags))
    }

    /** A new editor on `initial` analyzes it once and tells the
        listeners. */
    constructor (initial: string)
      ensures Valid() && text == initial && flags.None?
      ensures bracketStructure == Some(StructureOf(initial))
      ensures highlightedGroup.None? && regexNotifications == 1 && backMarkerUpdates == 0
    {
      text := initial;
      flags := None;
      oldText := None;
      oldFlags := None;
      bracketStructure := None;
      highlightedGroup := None;
      regexNotifications := 0;
      backMarkerUpdates := 0;
      new;
      OnRegexChange();
    }

    /** Re-analyzes the text and tells the listeners, unless neither the
        text nor the flags changed since the last analysis. */
    method OnRegexChange()
      requires Analyzed()
      modifies this
      ensures Valid()
      ensures text == old(text) && flags == old(flags)
      ensures highlightedGroup == old(highlightedGroup) && backMarkerUpdates == old(backMarkerUpdates)
      ensures bracketStructure == Some(StructureOf(text))
      ensures regexNotifications == old(regexNotifications) +
        if old(oldText) == Some(text) && old(oldFlags) == Some(FlagsOf(flags)) then 0 else 1
    {
      var f := FlagsOf(flags);
      if oldText == Some(text) && oldFlags == Some(f) {
        assert bracketStructure == Some(StructureOf(text));
        return;
      }
      Reanalyze(f);
    }

    /** `OnRegexChange` past its guard: remembers what it analyzes, tells
        the listeners and recomputes the structure. */
    method Reanalyze(f: string)
      requires f == FlagsOf(flags)
      modifies this`oldText, this`oldFlags, this`regexNotifications, this`bracketStructure
      ensures Valid() && bracketStructure == Some(StructureOf(text))
      ensures regexNotifications == old(regexNotifications) + 1
    {
      Remember(f);
      UpdateBracketStructure();
    }

    /** Records the text and flags about to be analyzed and tells the
        regex change listeners. */
    method Remember(f: string)
      requires f == FlagsOf(flags)
      modifies this`oldText, this`oldFlags, this`regexNotifications
      ensures oldText == Some(text) && oldFlags == Some(FlagsOf(flags))
      ensures regexNotifications == old(regexNotifications) + 1
    {
      oldText := Some(text);
      oldFlags := Some(f);
      regexNotifications := regexNotifications + 1;
    }

    /** Runs the bracket pass over the session and keeps its result. */
    method UpdateBracketStructure()
      requires oldText == Some(text) && oldFlags == Some(FlagsOf(flags))
      modifies this`bracketStructure
      ensures Valid()
    {
      var s := EvaluateBracketStructure(SessionOf(text));
      bracketStructure := Some(s);
    }

    /** An edit of the document: the editor's change event runs the
        re-analysis, which tells the listeners only when the text differs. */
    method Change(newText: string)
      requires Valid()
      modifies this
      ensures Valid() && text == newText && flags == old(flags)
      ensures bracketStructure == Some(StructureOf(newText))
      ensures highlightedGroup == old(highlightedGroup) && backMarkerUpdates == old(backMarkerUpdates)
      ensures regexNotifications == old(regexNotifications) + if newText == old(text) then 0 else 1
    {
      text := newText;
      OnRegexChange();
    }

    /** Sets the flags and re-analyzes; the listeners hear of it only when
        the effective flags differ. */
    method SetFlags(f: Option<string>)
      requires Valid()
      modifies this
      ensures Valid() && text == old(text) && flags == f
      ensures bracketStructure == old(bracketStructure)
      ensures highlightedGroup == old(highlightedGroup) && backMarkerUpdates == old(backMarkerUpdates)
      ensures regexNotifications == old(regexNotifications) + if FlagsOf(f) == FlagsOf(old(flags)) then 0 else 1
    {
      flags := f;
      OnRegexChange();
    }

    /** Selects the group to highlight; the back marker is redrawn only
        when the group changes. */
    method SetHighlightedGroup(g: Option<nat>)
      modifies this
      ensures highlightedGroup == g
      ensures backMarkerUpdates == old(backMarkerUpdates) + if g == old(highlightedGroup) then 0 else 1
      ensures text == old(text) && flags == old(flags) && oldText == old(oldText) && oldFlags == old(oldFlags)
      ensures bracketStructure == old(bracketStructure) && regexNotifications == old(regexNotifications)
    {
      if highlightedGroup != g {
        highlightedGroup := g;
        backMarkerUpdates := backMarkerUpdates + 1;
      }
    }
  }

  // ----- the selected-group highlighter -----

  /** `a` is at or before `b`. */
  predicate AtOrBefore(a: Position, b: Position)
  {
    a.row < b.row || (a.row == b.row && a.column <= b.column)
  }

  /** The range the highlighter draws for the highlighted group: nothing
      without a group or a structure; group 0 is the whole document;
      group `n` runs from its opening bracket to the end of its closing
      one, and an unknown group draws nothing. */
  function SelectedGroupRange(group: Option<nat>, structure: Option<Structure>, lines: seq<string>): (r: Option<Range>)
    requires |lines| > 0
    requires structure.Some? ==> WellFormed(structure.value)
    ensures r.Some? <==> group.Some? && structure.Some? && group.value <= |structure.value.groups|
    ensures r.Some? && group.value == 0 ==> r.value.start == Position(0, 0) && r.value.end.row == |lines| - 1
  {
    match group
    case None => None
    case Some(g) =>
      match structure
      case None => None
      case Some(s) =>
        if g == 0 then
          var last := |lines| - 1;
          Some(Range(Position(0, 0), Position(last, |lines[last]|)))
        else if g > |s.groups| then None
        else
          var (o, c) := GroupEnds(s, g);
          Some(Range(Position(s.brackets[o].row, s.brackets[o].column),
                     Position(s.brackets[c].row, s.brackets[c].end)))
  }

  /** A token of a freshly tokenized row ends within the row's text. */
  lemma TokenWithinRow(ts: seq<Token>, r: nat, i: nat)
    requires i < |ts|
    ensures var t := RowLocated(Fresh(ts), r)[i]; t.col + |t.token.text| <= |Texts(ts)|
  {
    var row := Fresh(ts);
    assert row[..i + 1][..i] == row[..i];
    SumLenMonotone(row, i + 1, |row|);
    assert row[..|row|] == row;
    SumLenFresh(ts);
  }

  /** Group 0 covers every token of the document, whatever the structure. */
  lemma WholeTextCoversTokens(text: string, s: Structure, r: nat, i: nat)
    requires WellFormed(s)
    requires r < |SessionOf(text)| && i < |SessionOf(text)[r]|
    ensures var range := SelectedGroupRange(Some(0), Some(s), Lines(text)).value;
      var t := RowLocated(SessionOf(text)[r], r)[i];
      && AtOrBefore(range.start, t.Start()) && AtOrBefore(t.End(), range.end)
  {
    var lines := Lines(text);
    var scanned := ScanLines(lines, Start).0;
    assert SessionOf(text)[r] == Fresh(scanned[r]);
    TokenWithinRow(scanned[r], r, i);
    assert Texts(scanned[r]) == lines[r];
  }

  /** A back-reference `\n` that resolves marks exactly the range the
      highlighter draws for group `n`. */
  lemma GroupRangeIsReferenceRange(s: Structure, t: Located, n: nat, rest: string, lines: seq<string>)
    requires WellFormed(s) && |lines| > 0
    requires t.token.text == "\\" + Decimal(n) + rest && (rest == [] || !IsDigit(rest[0]))
    requires GroupReferenceRange(Some(s), t).Some?
    ensures SelectedGroupRange(Some(n), Some(s), lines) == GroupReferenceRange(Some(s), t)
  {
    BackReferenceTarget(s, t, n, rest);
  }

  // ----- the matched-bracket marker -----

  /** The caret is on the bracket's row, within or at an edge of it. */
  predicate Touches(b: Bracket, cursor: Position)
  {
    b.row == cursor.row && b.column <= cursor.column <= b.end
  }

  /** The intended bracket under the caret: the last paired bracket the
      caret touches. */
  function LastTouching(bs: seq<Bracket>, cursor: Position): (k: Option<nat>)
    ensures k.Some? ==> k.value < |bs| && bs[k.value].pair.Some? && Touches(bs[k.value], cursor)
    ensures forall j :: 0 <= j < |bs| && bs[j].pair.Some? && Touches(bs[j], cursor) ==> k.Some? && j <= k.value
    decreases |bs|
  {
    if bs == [] then None
    else
      var n := |bs| - 1;
      if bs[n].pair.Some? && Touches(bs[n], cursor) then Some(n)
      else LastTouching(bs[..n], cursor)
  }

  /** The search as the source writes it, from bracket `i` on with
      `under` found so far: a bracket on a later row is skipped and one on
      an earlier row ends the search. */
  function CaretScanAsWritten(bs: seq<Bracket>, cursor: Position, i: nat, under: Option<nat>): (k: Option<nat>)
    ensures k.Some? ==> k == under || (i <= k.value < |bs| && bs[k.value].pair.Some? && Touches(bs[k.value], cursor))
    decreases |bs| - i
  {
    if i >= |bs| then under
    else
      var br := bs[i];
      if br.end < cursor.column then CaretScanAsWritten(bs, cursor, i + 1, under)
      else if cursor.row < br.row then CaretScanAsWritten(bs, cursor, i + 1, under)
      else if cursor.row > br.row then under
      else if cursor.column < br.column then under
      else CaretScanAsWritten(bs, cursor, i + 1, if br.pair.Some? then Some(i) else under)
  }

  /** The caret loop as written. */
  method BracketUnderCaretAsWritten(bs: seq<Bracket>, cursor: Position) returns (under: Option<nat>)
    ensures under == CaretScanAsWritten(bs, cursor, 0, None)
  {
    under := None;
    var i := 0;
    while i < |bs|
      invariant 0 <= i <= |bs|
      invariant CaretScanAsWritten(bs, cursor, i, under) == CaretScanAsWritten(bs, cursor, 0, None)
    {
      var br := bs[i];
      if br.end < cursor.column {
      } else if cursor.row < br.row {
      } else if cursor.row > br.row {
        break;
      } else if cursor.column < br.column {
        break;
      } else if br.pair.Some? {
        under := Some(i);
      }
      i := i + 1;
    }
  }

  /** `abc(` / `x)` with the caret just before `)`: the `(` on the row
      above ends at a column past the caret, so the loop as written stops
      there and misses the `)` the caret is on. */
  lemma CaretLoopStopsOnEarlierRow()
    ensures var bs := [Bracket(0, 3, 4, Some(1), Numbered(1)), Bracket(1, 1, 2, Some(0), Numbered(1))];
      var cursor := Position(1, 1);
      && InDocumentOrder(bs)
      && CaretScanAsWritten(bs, cursor, 0, None) == None
      && LastTouching(bs, cursor) == Some(1)
  {
  }

  /** No bracket from `i` on is a paired bracket the caret touches, so the
      search may stop there. */
  lemma LastTouchingStops(bs: seq<Bracket>, cursor: Position, i: nat)
    requires i <= |bs|
    requires forall j :: i <= j < |bs| ==> !(bs[j].pair.Some? && Touches(bs[j], cursor))
    ensures LastTouching(bs, cursor) == LastTouching(bs[..i], cursor)
  {
    var k := LastTouching(bs[..i], cursor);
    if k.Some? {
      assert bs[..i][k.value] == bs[k.value];
    }
    var m := LastTouching(bs, cursor);
    if m.Some? {
      assert bs[..i][m.value] == bs[m.value];
    }
  }

  /** The caret loop with the row tests the right way round: a bracket on
      an earlier row is skipped and one on a later row ends the search.
      With the brackets in document order it finds the last paired
      bracket the caret touches. */
  method BracketUnderCaret(bs: seq<Bracket>, cursor: Position) returns (under: Option<nat>)
    requires InDocumentOrder(bs)
    ensures under == LastTouching(bs, cursor)
  {
    under := None;
    var i := 0;
    while i < |bs|
      invariant 0 <= i <= |bs|
      invariant under == LastTouching(bs[..i], cursor)
    {
      var br := bs[i];
      assert bs[..i + 1][..i] == bs[..i];
      if br.end < cursor.column {
      } else if cursor.row > br.row {
      } else if cursor.row < br.row {
        LastTouchingStops(bs, cursor, i);
        return;
      } else if cursor.column < br.column {
        LastTouchingStops(bs, cursor, i);
        return;
      } else if br.pair.Some? {
        under := Some(i);
      }
      i := i + 1;
    }
    assert bs[..i] == bs;
  }

  /** The span of a bracket, on its own row. */
  function Span(b: Bracket): Range
  {
    Range(Position(b.row, b.column), Position(b.row, b.end))
  }

  /** The rows from `first` to `last` are on screen. */
  predicate Visible(row: nat, first: int, last: int)
  {
    first <= row <= last
  }

  /** The two marks drawn as the source writes them: the partner's mark
      is put on the row of the bracket under the caret. */
  function MatchedMarksAsWritten(bs: seq<Bracket>, k: nat, first: int, last: int): (rs: seq<Range>)
    requires k < |bs| && bs[k].pair.Some? && bs[k].pair.value < |bs|
    ensures |rs| <= 2
  {
    var b := bs[k];
    var p := bs[b.pair.value];
    (if Visible(b.row, first, last) then [Span(b)] else [])
    + (if Visible(p.row, first, last) then [Range(Position(b.row, p.column), Position(b.row, p.end))] else [])
  }

  /** The marks drawn for bracket `k` under the caret: its own span and its
      partner's span, each when its row is on screen. */
  function MatchedMarks(bs: seq<Bracket>, k: nat, first: int, last: int): (rs: seq<Range>)
    requires k < |bs| && bs[k].pair.Some? && bs[k].pair.value < |bs|
    ensures forall r :: r in rs ==> r == Span(bs[k]) || r == Span(bs[bs[k].pair.value])
    ensures Visible(bs[k].row, first, last) <==> Span(bs[k]) in rs
    ensures Visible(bs[bs[k].pair.value].row, first, last) <==> Span(bs[bs[k].pair.value]) in rs
  {
    var b := bs[k];
    var p := bs[b.pair.value];
    (if Visible(b.row, first, last) then [Span(b)] else [])
    + (if Visible(p.row, first, last) then [Span(p)] else [])
  }

  /** `(` on row 0 and its `)` on row 1, both on screen: the partner's
      mark as written lands on row 0, where there is no bracket. */
  lemma PartnerMarkOnWrongRow()
    ensures var bs := [Bracket(0, 3, 4, Some(1), Numbered(1)), Bracket(1, 1, 2, Some(0), Numbered(1))];
      && Range(Position(0, 1), Position(0, 2)) in MatchedMarksAsWritten(bs, 0, 0, 1)
      && Span(bs[1]) !in MatchedMarksAsWritten(bs, 0, 0, 1)
      && Span(bs[1]) in MatchedMarks(bs, 0, 0, 1)
  {
  }

  /** The group of a bracket: its number for a numbered capture group,
      none otherwise. */
  function CaptureNumber(b: Bracket): Option<nat>
  {
    match b.capture
    case Numbered(n) => Some(n)
    case _ => None
  }

  /** The group the marker selects: that of the bracket under the caret
      while the editor has the focus. */
  function SelectedGroup(focused: bool, cursor: Position, s: Structure): (g: Option<nat>)
    ensures g.Some? ==>
      && focused && LastTouching(s.brackets, cursor).Some?
      && s.brackets[LastTouching(s.brackets, cursor).value].capture == Numbered(g.value)
  {
    if !focused then None
    else
      match LastTouching(s.brackets, cursor)
      case None => None
      case Some(k) => CaptureNumber(s.brackets[k])
  }

  /** When the caret selects group `n`, the highlighter draws group `n`
      from its opening to its closing bracket, and the bracket under the
      caret is one of those two. */
  lemma CaretGroupHighlight(focused: bool, cursor: Position, s: Structure, lines: seq<string>, n: nat)
    requires WellFormed(s) && |lines| > 0 && SelectedGroup(focused, cursor, s) == Some(n)
    ensures 1 <= n <= |s.groups|
    ensures var (o, c) := GroupEnds(s, n);
      && LastTouching(s.brackets, cursor).value in {o, c}
      && SelectedGroupRange(Some(n), Some(s), lines)
         == Some(Range(Position(s.brackets[o].row, s.brackets[o].column), Position(s.brackets[c].row, s.brackets[c].end)))
  {
    var k := LastTouching(s.brackets, cursor).value;
    assert NumberOk(s.brackets, s.groups, k);
  }

  /** The marker's state: the group last reported to the selected-group
      listeners, and how many times they were told. */
  class MatchedBracketMarker {
    var selectedGroupIndex: Option<nat>
    var notifications: nat

    constructor ()
      ensures selectedGroupIndex.None? && notifications == 0
    {
      selectedGroupIndex := None;
      notifications := 0;
    }

    /** A redraw: without a structure nothing happens; otherwise the marks
        of the bracket under the caret (rows `first` to `last` on screen)
        are drawn and its group becomes the selected one, the listeners
        being told when that changes. */
    method Update(focused: bool, cursor: Position, structure: Option<Structure>, first: int, last: int)
      returns (marks: seq<Range>)
      requires structure.Some? ==> WellFormed(structure.value) && InDocumentOrder(structure.value.brackets)
      modifies this
      ensures structure.None? ==> marks == [] && unchanged(this)
      ensures structure.Some? ==>
        var s := structure.value;
        var under := if focused then LastTouching(s.brackets, cursor) else None;
        && marks == (if under.Some? then MatchedMarks(s.brackets, under.value, first, last) else [])
        && selectedGroupIndex == SelectedGroup(focused, cursor, s)
        && notifications == old(notifications) + if old(selectedGroupIndex) == selectedGroupIndex then 0 else 1
    {
      marks := [];
      if structure.None? {
        return;
      }
      var s := structure.value;
      var under: Option<nat> := None;
      if focused {
        under := BracketUnderCaret(s.brackets, cursor);
      }
      var selected: Option<nat> := None;
      if under.Some? {
        marks := MatchedMarks(s.brackets, under.value, first, last);
        selected := CaptureNumber(s.brackets[under.value]);
      }
      if selectedGroupIndex != selected {
        selectedGroupIndex := selected;
        notifications := notifications + 1;
      }
    }
  }
}
