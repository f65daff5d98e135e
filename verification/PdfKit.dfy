/** Two text-layout loops of the document kit: fitting one line into a box, and breaking styled runs into lines. */
module PdfKit {
  import opened Strings

  // ── Fitting a line ─────────────────────────────────────────────────────────

  const ELLIPSIS := ['\U{2026}']

  /** A longer prefix is never narrower, and nothing has no width. */
  ghost predicate Monotone(width: string -> real, text: string) {
    width("") == 0.0 && forall i, j :: 0 <= i <= j <= |text| ==> width(text[..i]) <= width(text[..j])
  }

  /** The longest of the prefixes up to `n` that fits. */
  function LongestFit(width: string -> real, text: string, room: real, n: nat): (k: nat)
    requires n <= |text|
    ensures k <= n
    ensures k == 0 || width(text[..k]) <= room
    ensures forall j :: k < j <= n ==> width(text[..j]) > room
  {
    if n == 0 || width(text[..n]) <= room then n else LongestFit(width, text, room, n - 1)
  }

  function Truncated(width: string -> real, text: string, maxWidth: real): string {
    var room := maxWidth - width(ELLIPSIS);
    if maxWidth <= 0.0 then ""
    else if width(text) <= maxWidth then text
    else if room <= 0.0 then ""
    else TrimRight(text[..LongestFit(width, text, room, |text|)]) + ELLIPSIS
  }

  /** A measured prefix and the ellipsis. */
  ghost predicate CutAtFitting(width: string -> real, text: string, maxWidth: real, r: string) {
    exists k :: 0 <= k <= |text| && r == TrimRight(text[..k]) + ELLIPSIS &&
      (k == 0 || width(text[..k]) <= maxWidth - width(ELLIPSIS))
  }

  /**
   * Whatever the width function does, what is kept before the ellipsis is a prefix that was
   * measured to fit (or nothing); where width grows with length it is the longest such prefix.
   */
  method TruncateToWidth(width: string -> real, text: string, maxWidth: real) returns (r: string)
    ensures Monotone(width, text) ==> r == Truncated(width, text, maxWidth)
    ensures r == "" || r == text || CutAtFitting(width, text, maxWidth, r)
  {
    if maxWidth <= 0.0 {
      return "";
    }
    if width(text) <= maxWidth {
      return text;
    }
    var room := maxWidth - width(ELLIPSIS);
    if room <= 0.0 {
      return "";
    }
    var low, high := 0, |text|;
    while low < high
      invariant 0 <= low <= high <= |text|
      invariant low == 0 || width(text[..low]) <= room
      invariant Monotone(width, text) ==> forall j :: high < j <= |text| ==> width(text[..j]) > room
    {
      var mid := (low + high + 1) / 2;
      if width(text[..mid]) <= room {
        low := mid;
      } else {
        high := mid - 1;
      }
    }
    if Monotone(width, text) {
      var k := LongestFit(width, text, room, |text|);
      assert k == low;
    }
    return TrimRight(text[..low]) + ELLIPSIS;
  }

  /** A text that fits is left as it is; one that does not, in a box too small for the ellipsis, gives nothing. */
  lemma FittingUnchanged(width: string -> real, text: string, maxWidth: real)
    ensures maxWidth > 0.0 && width(text) <= maxWidth ==> Truncated(width, text, maxWidth) == text
    ensures maxWidth <= 0.0 || (width(text) > maxWidth && maxWidth <= width("\U{2026}")) ==> Truncated(width, text, maxWidth) == ""
  {
  }

  /** What is kept before the ellipsis does not end in space. */
  lemma CutEndsInEllipsis(width: string -> real, text: string, maxWidth: real)
    requires maxWidth > width("\U{2026}") && maxWidth > 0.0 && width(text) > maxWidth
    ensures var r := Truncated(width, text, maxWidth);
            && r != "" && r[|r| - 1] == '\U{2026}' && (|r| >= 2 ==> r[|r| - 2] !in SPACES)
  {
    RightTrimmed(text[..LongestFit(width, text, maxWidth - width(ELLIPSIS), |text|)]);
  }

  lemma {:induction false} RightTrimmed(s: string)
    ensures TrimRight(s) != "" ==> TrimRight(s)[|TrimRight(s)| - 1] !in SPACES
  {
    if s != [] && s[|s| - 1] in SPACES {
      RightTrimmed(s[..|s| - 1]);
    }
  }

  /** The result fits its box, if setting two texts side by side never takes more room than both, and trimming none. */
  lemma TruncatedFits(width: string -> real, text: string, maxWidth: real)
    requires width("") == 0.0 && maxWidth >= 0.0
    requires forall a, b :: width(a + b) <= width(a) + width(b)
    requires forall s :: width(TrimRight(s)) <= width(s)
    ensures width(Truncated(width, text, maxWidth)) <= maxWidth
  {
  }

  /** No longer prefix could have been kept: one more character and the ellipsis would have no room. */
  lemma TruncatedIsLongest(width: string -> real, text: string, maxWidth: real, k: nat)
    requires Monotone(width, text) && maxWidth > 0.0 && k <= |text|
    requires width(text) > maxWidth > width(ELLIPSIS)
    requires width(text[..k]) <= maxWidth - width(ELLIPSIS)
    ensures var kept := LongestFit(width, text, maxWidth - width(ELLIPSIS), |text|);
            && Truncated(width, text, maxWidth) == TrimRight(text[..kept]) + ELLIPSIS
            && text[..k] <= text[..kept]
  {
  }

  // ── Breaking runs into lines ───────────────────────────────────────────────

  datatype Style = Style(bold: bool, italic: bool, underline: bool)
  datatype LetterRun = LetterRun(text: string, style: Style)

  /** A character as it is set on the page. */
  datatype Glyph = Glyph(c: char, style: Style)

  function Glyphs(text: string, style: Style): seq<Glyph> {
    seq(|text|, i requires 0 <= i < |text| => Glyph(text[i], style))
  }

  function Styled(runs: seq<LetterRun>): seq<Glyph> {
    if runs == [] then []
    else Styled(runs[..|runs| - 1]) + Glyphs(runs[|runs| - 1].text, runs[|runs| - 1].style)
  }

  /** The reference: one character at a time, a newline ends the line it is on. */
  function Broken(glyphs: seq<Glyph>): (lines: seq<seq<Glyph>>)
    ensures lines != []
  {
    if glyphs == [] then [[]]
    else
      var before, g := Broken(glyphs[..|glyphs| - 1]), glyphs[|glyphs| - 1];
      if g.c == '\n' then before + [[]]
      else before[|before| - 1 := before[|before| - 1] + [g]]
  }

  function Lines(lines: seq<seq<LetterRun>>): seq<seq<Glyph>> {
    seq(|lines|, i requires 0 <= i < |lines| => Styled(lines[i]))
  }

  lemma BreakAppends(glyphs: seq<Glyph>, style: Style)
    ensures Broken(glyphs + [Glyph('\n', style)]) == Broken(glyphs) + [[]]
  {
  }

  lemma {:induction false} PieceAppends(glyphs: seq<Glyph>, piece: seq<Glyph>)
    requires forall i :: 0 <= i < |piece| ==> piece[i].c != '\n'
    ensures var before := Broken(glyphs);
            Broken(glyphs + piece) == before[|before| - 1 := before[|before| - 1] + piece]
  {
    var before := Broken(glyphs);
    if piece == [] {
      assert glyphs + piece == glyphs;
      assert before[|before| - 1] + piece == before[|before| - 1];
    } else {
      var front, g := piece[..|piece| - 1], piece[|piece| - 1];
      PieceAppends(glyphs, front);
      assert (glyphs + piece)[..|glyphs + piece| - 1] == glyphs + front;
      assert before[|before| - 1] + front + [g] == before[|before| - 1] + piece;
    }
  }

  lemma StyledAppends(runs: seq<LetterRun>, run: LetterRun)
    ensures Styled(runs + [run]) == Styled(runs) + Glyphs(run.text, run.style)
  {
  }

  /** No piece is empty or holds a newline. */
  predicate CleanLine(line: seq<LetterRun>) {
    forall i :: 0 <= i < |line| ==> line[i].text != "" && '\n' !in line[i].text
  }

  predicate Clean(lines: seq<seq<LetterRun>>) {
    forall i :: 0 <= i < |lines| ==> CleanLine(lines[i])
  }

  /** A piece put at the end of the last line, if there is anything in it. */
  method PutPiece(lines: seq<seq<LetterRun>>, part: string, style: Style, ghost glyphs: seq<Glyph>)
    returns (after: seq<seq<LetterRun>>)
    requires lines != [] && Clean(lines) && Lines(lines) == Broken(glyphs) && '\n' !in part
    ensures after != [] && Clean(after) && Lines(after) == Broken(glyphs + Glyphs(part, style))
  {
    PieceAppends(glyphs, Glyphs(part, style));
    var last := |lines| - 1;
    if |part| > 0 {
      after := lines[last := lines[last] + [LetterRun(part, style)]];
      StyledAppends(lines[last], LetterRun(part, style));
      assert Lines(after) == Lines(lines)[last := Styled(lines[last]) + Glyphs(part, style)];
    } else {
      after := lines;
      assert Styled(lines[last]) + Glyphs(part, style) == Styled(lines[last]);
      assert Lines(lines)[last := Styled(lines[last])] == Lines(lines);
    }
  }

  method PutNewline(lines: seq<seq<LetterRun>>) returns (after: seq<seq<LetterRun>>)
    requires Clean(lines)
    ensures Lines(after) == Lines(lines) + [[]] && Clean(after)
  {
    after := lines + [[]];
  }

  lemma GlyphsJoin(glyphs: seq<Glyph>, done: string, more: string, style: Style)
    ensures glyphs + Glyphs(done + more, style) == glyphs + Glyphs(done, style) + Glyphs(more, style)
  {
  }

  lemma NewlineAppends(glyphs: seq<Glyph>, done: string, style: Style)
    ensures Broken(glyphs + Glyphs(done + "\n", style)) == Broken(glyphs + Glyphs(done, style)) + [[]]
  {
    GlyphsJoin(glyphs, done, "\n", style);
    assert Glyphs("\n", style) == [Glyph('\n', style)];
    BreakAppends(glyphs + Glyphs(done, style), style);
  }

  /** One run: its parts go on the last line in turn, with a new line between one and the next. */
  method PutRun(lines: seq<seq<LetterRun>>, run: LetterRun, ghost glyphs: seq<Glyph>)
    returns (after: seq<seq<LetterRun>>)
    requires lines != [] && Clean(lines) && Lines(lines) == Broken(glyphs)
    ensures after != [] && Clean(after) && Lines(after) == Broken(glyphs + Glyphs(run.text, run.style))
  {
    var parts := Split(run.text, '\n');
    SplitJoins(run.text, '\n');
    after := lines;
    ghost var done := "";
    assert glyphs + Glyphs(done, run.style) == glyphs;
    for index := 0 to |parts|
      invariant after != [] && Clean(after) && done == Join(parts[..index], '\n')
      invariant Lines(after) == Broken(glyphs + Glyphs(done, run.style))
    {
      assert parts[..index + 1][..index] == parts[..index];
      if index > 0 {
        NewlineAppends(glyphs, done, run.style);
        after := PutNewline(after);
        done := done + "\n";
      }
      GlyphsJoin(glyphs, done, parts[index], run.style);
      after := PutPiece(after, parts[index], run.style, glyphs + Glyphs(done, run.style));
      done := done + parts[index];
    }
    assert parts[..|parts|] == parts;
  }

  /** The lines are exactly what breaking the styled text at its newlines gives, in clean pieces. */
  method SplitIntoLines(runs: seq<LetterRun>) returns (lines: seq<seq<LetterRun>>)
    ensures Lines(lines) == Broken(Styled(runs))
    ensures Clean(lines)
  {
    lines := [[]];
    assert Lines(lines) == [[]];
    for i := 0 to |runs|
      invariant lines != [] && Clean(lines) && Lines(lines) == Broken(Styled(runs[..i]))
    {
      assert runs[..i + 1] == runs[..i] + [runs[i]];
      StyledAppends(runs[..i], runs[i]);
      lines := PutRun(lines, runs[i], Styled(runs[..i]));
    }
    assert runs[..|runs|] == runs;
  }

  // ── What that means for the text ───────────────────────────────────────────

  function TextOf(runs: seq<LetterRun>): string {
    if runs == [] then "" else TextOf(runs[..|runs| - 1]) + runs[|runs| - 1].text
  }

  function Chars(glyphs: seq<Glyph>): string {
    seq(|glyphs|, i requires 0 <= i < |glyphs| => glyphs[i].c)
  }

  function Texts(lines: seq<seq<Glyph>>): seq<string> {
    seq(|lines|, i requires 0 <= i < |lines| => Chars(lines[i]))
  }

  lemma {:induction false} StyledText(runs: seq<LetterRun>)
    ensures Chars(Styled(runs)) == TextOf(runs)
  {
    if runs != [] {
      StyledText(runs[..|runs| - 1]);
    }
  }

  lemma TextsUpdate(lines: seq<seq<Glyph>>, at: nat, line: seq<Glyph>)
    requires at < |lines|
    ensures Texts(lines[at := line]) == Texts(lines)[at := Chars(line)]
  {
  }

  lemma TextsAppend(lines: seq<seq<Glyph>>, line: seq<Glyph>)
    ensures Texts(lines + [line]) == Texts(lines) + [Chars(line)]
  {
  }

  lemma {:induction false} BrokenJoins(glyphs: seq<Glyph>)
    ensures Join(Texts(Broken(glyphs)), '\n') == Chars(glyphs) && Whole(Texts(Broken(glyphs)), '\n')
  {
    if glyphs != [] {
      var shorter, g := glyphs[..|glyphs| - 1], glyphs[|glyphs| - 1];
      var before := Broken(shorter);
      BrokenJoins(shorter);
      assert Chars(glyphs) == Chars(shorter) + [g.c];
      if g.c == '\n' {
        TextsAppend(before, []);
        assert (Texts(before) + [""])[..|before|] == Texts(before);
      } else {
        var last := |before| - 1;
        assert Chars(before[last] + [g]) == Chars(before[last]) + [g.c];
        TextsUpdate(before, last, before[last] + [g]);
        JoinExtendsLast(Texts(before), [g.c], '\n');
      }
    }
  }

  /** Joining the lines with newlines gives back the runs' text, and no line holds a newline. */
  lemma NothingLost(runs: seq<LetterRun>, lines: seq<seq<LetterRun>>)
    requires Lines(lines) == Broken(Styled(runs))
    ensures Join(Texts(Lines(lines)), '\n') == TextOf(runs)
    ensures forall i :: 0 <= i < |lines| ==> '\n' !in TextOf(lines[i]) && Texts(Lines(lines))[i] == TextOf(lines[i])
  {
    StyledText(runs);
    BrokenJoins(Styled(runs));
    forall i | 0 <= i < |lines|
      ensures '\n' !in TextOf(lines[i]) && Texts(Lines(lines))[i] == TextOf(lines[i])
    {
      StyledText(lines[i]);
      assert Texts(Lines(lines))[i] == Chars(Styled(lines[i]));
    }
  }
}
