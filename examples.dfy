/** Worked examples: rows, tables, documents and file names of the shapes the
    tool meets, with the results the Python program gives for them. The cell
    texts and surrounding lines are parameters, so each example covers every
    text of its shape. */
module Examples {
  import opened PyStr
  import opened TableFinder
  import opened TableCleaner
  import opened TableWriter

  /** A conventional two-column row, `| x | y |`. */
  function Row2(x: string, y: string): string {
    "| " + x + " | " + y + " |"
  }

  /** A cell text that the tool reproduces unchanged: not empty, no white
      space at its ends, no pipe and no line break. */
  predicate PlainCell(x: string) {
    x != [] && Trimmed(x) && '|' !in x && '\n' !in x
  }

  // ---------------------------------------------------------------------------
  // Rows
  // ---------------------------------------------------------------------------

  /** A row given as its pieces between pipes has the kept pieces as cells. */
  lemma CleanRowOfPieces(line: string, pieces: seq<string>)
    requires |pieces| >= 1 && forall k :: 0 <= k < |pieces| ==> '|' !in pieces[k]
    requires Join(pieces, "|") == line
    ensures CleanRow(line) == KeepCells(pieces)
  {
    SplitJoin(pieces, '|');
  }

  /** A conventional row `| x | y |` has the cells `x` and `y`. */
  lemma CleanRowTwoCells(x: string, y: string)
    requires PlainCell(x) && PlainCell(y)
    ensures CleanRow(Row2(x, y)) == [x, y]
  {
    var pieces := ["", " " + x + " ", " " + y + " ", ""];
    TwoCellPieces(x, y);
    KeepTwoCells(x, y);
    CleanRowOfPieces(Row2(x, y), pieces);
  }

  lemma TwoCellPieces(x: string, y: string)
    ensures Join(["", " " + x + " ", " " + y + " ", ""], "|") == Row2(x, y)
  {
    var px, py := " " + x + " ", " " + y + " ";
    var pieces := ["", px, py, ""];
    assert Join(pieces[3..], "|") == "";
    assert Join(pieces[2..], "|") == py + "|" by { assert pieces[2..][1..] == pieces[3..]; }
    assert Join(pieces[1..], "|") == px + "|" + py + "|" by { assert pieces[1..][1..] == pieces[2..]; }
  }

  lemma KeepCellsCons(p: string, rest: seq<string>)
    ensures KeepCells([p] + rest) == (if p == "" then [] else [Strip(p)]) + KeepCells(rest)
  {
    assert ([p] + rest)[1..] == rest;
  }

  lemma KeepTwoCells(x: string, y: string)
    requires PlainCell(x) && PlainCell(y)
    ensures KeepCells(["", " " + x + " ", " " + y + " ", ""]) == [x, y]
  {
    var px, py := " " + x + " ", " " + y + " ";
    PaddedCell(x);
    PaddedCell(y);
    KeepCellsCons("", []);
    KeepCellsCons(py, [""]);
    KeepCellsCons(px, [py, ""]);
    KeepCellsCons("", [px, py, ""]);
    FourPieces(px, py);
  }

  lemma PaddedCell(x: string)
    requires PlainCell(x)
    ensures " " + x + " " != "" && Strip(" " + x + " ") == x
  {
    StripPadded(" ", x, " ");
  }

  /** A piece of white space between two pipes is kept, as an empty cell. */
  lemma CleanRowBlankCell(w: string)
    requires w != [] && AllSpace(w)
    ensures CleanRow("|" + w + "|") == [""]
  {
    assert '|' !in w by { assert !IsSpace('|'); }
    EmptyPieceRow(w + "|");
    CleanRowAtPipe(w, "");
    CleanRowPiece("");
    CleanRowPiece(w);
    BlankCellText(w);
  }

  /** Two adjacent pipes leave no cell between them. */
  lemma CleanRowAdjacentPipes(x: string, y: string)
    ensures CleanRow(x + "||" + y) == CleanRow(x) + CleanRow(y)
  {
    EmptyPieceRow(y);
    CleanRowAtPipe(x, "|" + y);
    TwoPipes(x, y);
  }

  /** A leading pipe adds no cell. */
  lemma EmptyPieceRow(y: string)
    ensures CleanRow("|" + y) == CleanRow(y)
  {
    CleanRowAtPipe([], y);
    CleanRowPiece([]);
    LeadingPipeText(y);
  }

  // ---------------------------------------------------------------------------
  // Tables
  // ---------------------------------------------------------------------------

  lemma SplitThreeLines(l0: string, l1: string, l2: string)
    requires '\n' !in l0 && '\n' !in l1 && '\n' !in l2
    ensures Split(l0 + "\n" + l1 + "\n" + l2, '\n') == [l0, l1, l2]
  {
    SplitNoSeparator(l2, '\n');
    SplitLine(l1, l2, '\n');
    SplitLine(l0, l1 + ['\n'] + l2, '\n');
    ThreeLinesText(l0, l1, l2);
  }

  /** Four lines joined by "\n" split back into those lines. */
  lemma SplitFourLines(l0: string, l1: string, l2: string, l3: string)
    requires '\n' !in l0 && '\n' !in l1 && '\n' !in l2 && '\n' !in l3
    ensures Split(l0 + "\n" + l1 + "\n" + l2 + "\n" + l3, '\n') == [l0, l1, l2, l3]
  {
    SplitNoSeparator(l3, '\n');
    SplitLine(l2, l3, '\n');
    SplitLine(l1, l2 + ['\n'] + l3, '\n');
    SplitLine(l0, l1 + ['\n'] + (l2 + ['\n'] + l3), '\n');
    FourLinesText(l0, l1, l2, l3);
  }

  /** A header, a separator and one data row: the separator is dropped. */
  lemma CleanThreeLines(l0: string, l1: string, l2: string)
    requires '\n' !in l0 && '\n' !in l1 && '\n' !in l2
    ensures CleanTable(l0 + "\n" + l1 + "\n" + l2) == [CleanRow(l0), CleanRow(l2)]
  {
    SplitThreeLines(l0, l1, l2);
  }

  /** A header, a separator and two data rows: the separator is dropped. */
  lemma CleanFourLines(l0: string, l1: string, l2: string, l3: string)
    requires '\n' !in l0 && '\n' !in l1 && '\n' !in l2 && '\n' !in l3
    ensures CleanTable(l0 + "\n" + l1 + "\n" + l2 + "\n" + l3)
            == [CleanRow(l0), CleanRow(l2), CleanRow(l3)]
  {
    SplitFourLines(l0, l1, l2, l3);
  }

  /** The table of a Markdown table: the header, then the data rows; whatever
      the separator line holds, it is gone. */
  lemma CleanTableExample(h1: string, h2: string, separator: string,
                          a1: string, a2: string, b1: string, b2: string)
    requires PlainCell(h1) && PlainCell(h2) && PlainCell(a1) && PlainCell(a2)
    requires PlainCell(b1) && PlainCell(b2) && '\n' !in separator
    ensures CleanTable(Row2(h1, h2) + "\n" + separator + "\n" + Row2(a1, a2) + "\n" + Row2(b1, b2))
            == [[h1, h2], [a1, a2], [b1, b2]]
  {
    CleanFourLines(Row2(h1, h2), separator, Row2(a1, a2), Row2(b1, b2));
    CleanRowTwoCells(h1, h2);
    CleanRowTwoCells(a1, a2);
    CleanRowTwoCells(b1, b2);
  }

  // ---------------------------------------------------------------------------
  // Documents
  // ---------------------------------------------------------------------------

  /** A line break alone before a pipe line at the start of the document is
      not the `(\r?\n){2}` the pattern needs there: no match. */
  lemma OneBreakBeforeTable(line: string)
    requires TableLine(line)
    ensures FindBlocks("\n" + line) == []
  {
    BreakLines(line);
    SplitNoSeparator(line, '\n');
    var lines := ["", line];
    assert Lines("\n" + line) == lines;
    assert IsPipeLine(lines, 1);
    assert RunEnd(lines, 2) == 2;
    assert ScanFrom(lines, 1) == [];
  }

  /** Two line breaks before it are: the line is a table. */
  lemma TwoBreaksBeforeTable(line: string)
    requires TableLine(line)
    ensures FindBlocks("\n\n" + line) == [line]
  {
    BreakLines("\n" + line);
    BreakLines(line);
    TwoBreaksText(line);
    SplitNoSeparator(line, '\n');
    var lines := ["", "", line];
    assert Lines("\n\n" + line) == lines;
    ScanAfterTwoBlanks(line);
    assert lines[2..3] == [line];
  }

  lemma ScanAfterTwoBlanks(line: string)
    requires '|' in line && '\r' !in line
    ensures ScanFrom(["", "", line], 0) == [Span(2, 3)]
  {
    var lines := ["", "", line];
    assert IsPipeLine(lines, 2);
    assert RunEnd(lines, 3) == 3;
    assert ScanFrom(lines, 2) == [Span(2, 3)];
  }

  /** A leading line break gives an empty first line. */
  lemma BreakLines(rest: string)
    ensures Split("\n" + rest, '\n') == [""] + Split(rest, '\n')
  {
    SplitLine([], rest, '\n');
    assert [] + ['\n'] + rest == "\n" + rest;
  }

  /** A line of text that holds no pipe. */
  predicate ProseLine(s: string) {
    '|' !in s && '\n' !in s
  }

  /** A line the pattern can take into a table. */
  predicate TableLine(s: string) {
    '|' in s && '\n' !in s && '\r' !in s
  }

  /** A paragraph, a blank line, a three-line table, a blank line and a
      paragraph: the table is the one match, and it cleans to its header and
      its data row. */
  lemma DocumentExample(intro: string, h1: string, h2: string, separator: string,
                        a1: string, a2: string, outro: string)
    requires ProseLine(intro) && ProseLine(outro) && TableLine(separator)
    requires PlainCell(h1) && PlainCell(h2) && PlainCell(a1) && PlainCell(a2)
    requires '\r' !in h1 + h2 + a1 + a2
    ensures var block := Row2(h1, h2) + "\n" + separator + "\n" + Row2(a1, a2);
            FindBlocks(intro + "\n\n" + block + "\n\n" + outro) == [block] &&
            CleanTable(Strip(block)) == [[h1, h2], [a1, a2]]
  {
    RowIsTableLine(h1, h2);
    RowIsTableLine(a1, a2);
    DocumentBlocks(intro, Row2(h1, h2), separator, Row2(a1, a2), outro);
    BlockTable(h1, h2, separator, a1, a2);
  }

  lemma BlockTable(h1: string, h2: string, separator: string, a1: string, a2: string)
    requires PlainCell(h1) && PlainCell(h2) && PlainCell(a1) && PlainCell(a2)
    requires '\n' !in separator
    ensures CleanTable(Strip(Row2(h1, h2) + "\n" + separator + "\n" + Row2(a1, a2))) == [[h1, h2], [a1, a2]]
  {
    var r0, r1 := Row2(h1, h2), Row2(a1, a2);
    var block := r0 + "\n" + separator + "\n" + r1;
    assert Trimmed(block) by {
      assert block[0] == r0[0] == '|';
      assert block[|block| - 1] == r1[|r1| - 1] == '|';
    }
    StripPadded([], block, []);
    assert [] + block + [] == block;
    CleanThreeLines(r0, separator, r1);
    CleanRowTwoCells(h1, h2);
    CleanRowTwoCells(a1, a2);
  }

  lemma DocumentBlocks(intro: string, r0: string, separator: string, r1: string, outro: string)
    requires ProseLine(intro) && ProseLine(outro)
    requires TableLine(r0) && TableLine(separator) && TableLine(r1)
    ensures var block := r0 + "\n" + separator + "\n" + r1;
            FindBlocks(intro + "\n\n" + block + "\n\n" + outro) == [block]
  {
    var lines := [intro, "", r0, separator, r1, "", outro];
    DocumentLines(intro, r0, separator, r1, outro);
    ScanDocument(intro, r0, separator, r1, outro);
    ThreeLinesJoined(r0, separator, r1);
    assert lines[2..5] == [r0, separator, r1];
  }

  lemma RowIsTableLine(x: string, y: string)
    requires '\n' !in x + y && '\r' !in x + y
    ensures TableLine(Row2(x, y))
  {
    assert Row2(x, y)[0] == '|';
    assert '\n' !in x && '\n' !in y && '\r' !in x && '\r' !in y;
  }

  lemma DocumentLines(intro: string, r0: string, separator: string, r1: string, outro: string)
    requires ProseLine(intro) && ProseLine(outro)
    requires TableLine(r0) && TableLine(separator) && TableLine(r1)
    ensures Lines(intro + "\n\n" + (r0 + "\n" + separator + "\n" + r1) + "\n\n" + outro)
            == [intro, "", r0, separator, r1, "", outro]
  {
    var y := r0 + ['\n'] + (separator + ['\n'] + (r1 + ['\n'] + ("\n" + outro)));
    TableLines(r0, separator, r1, outro);
    BreakLines(y);
    SplitLine(intro, "\n" + y, '\n');
    DocumentText(intro, r0, separator, r1, outro);
  }

  lemma TableLines(r0: string, separator: string, r1: string, outro: string)
    requires '\n' !in r0 && '\n' !in separator && '\n' !in r1 && '\n' !in outro
    ensures Split(r0 + ['\n'] + (separator + ['\n'] + (r1 + ['\n'] + ("\n" + outro))), '\n')
            == [r0, separator, r1, "", outro]
  {
    var v := "\n" + outro;
    var w := r1 + ['\n'] + v;
    var z := separator + ['\n'] + w;
    SplitNoSeparator(outro, '\n');
    BreakLines(outro);
    SplitLine(r1, v, '\n');
    SplitLine(separator, w, '\n');
    SplitLine(r0, z, '\n');
  }

  lemma ThreeLinesJoined(l0: string, l1: string, l2: string)
    ensures Join([l0, l1, l2], "\n") == l0 + "\n" + l1 + "\n" + l2
  {
    var ls := [l0, l1, l2];
    assert ls[1..] == [l1, l2];
    assert ls[1..][1..] == [l2];
    assert Join([l1, l2], "\n") == l1 + "\n" + l2;
  }

  lemma ScanDocument(intro: string, r0: string, separator: string, r1: string, outro: string)
    requires ProseLine(intro) && ProseLine(outro)
    requires TableLine(r0) && TableLine(separator) && TableLine(r1)
    ensures ScanFrom([intro, "", r0, separator, r1, "", outro], 0) == [Span(2, 5)]
  {
    var lines := [intro, "", r0, separator, r1, "", outro];
    assert !IsPipeLine(lines, 0);
    assert !IsPipeLine(lines, 6);
    assert ScanFrom(lines, 7) == [];
    assert ScanFrom(lines, 6) == [];
    assert !IsPipeLine(lines, 5);
    assert ScanFrom(lines, 5) == [];
    assert IsPipeLine(lines, 2) && IsPipeLine(lines, 3) && IsPipeLine(lines, 4);
    assert RunEnd(lines, 2) == 5;
    assert Opens(lines, 2) && Closes(lines, 5);
    assert ScanFrom(lines, 2) == [Span(2, 5)];
    assert !IsPipeLine(lines, 1);
    assert ScanFrom(lines, 1) == [Span(2, 5)];
  }

  // ---------------------------------------------------------------------------
  // File names
  // ---------------------------------------------------------------------------

  /** The second table of `notes.md` goes to `notes_table_2.tsv`, `.csv` or
      `.txt` depending on the delimiter. */
  lemma FileNameExamples(stem: string)
    ensures TableFileName(stem, 2, "\t") == stem + "_table_2.tsv"
    ensures TableFileName(stem, 2, ",") == stem + "_table_2.csv"
    ensures TableFileName(stem, 2, ";") == stem + "_table_2.txt"
    ensures TableFileName(stem, 12, ",") == stem + "_table_12.csv"
  {
    assert DecimalString(2) == "2";
    assert DecimalString(12) == "12" by { assert DecimalString(1) == "1"; }
  }

  // ---------------------------------------------------------------------------
  // Solver hints: the same text or list written two ways. Each identity is
  // cheap on its own but costly inside the lemmas above, which call these
  // instead of asserting them inline.
  // ---------------------------------------------------------------------------

  lemma FourPieces(px: string, py: string)
    ensures [""] + [] == [""]
    ensures [py] + [""] == [py, ""]
    ensures [px] + [py, ""] == [px, py, ""]
    ensures [""] + [px, py, ""] == ["", px, py, ""]
  {
  }

  lemma BlankCellText(w: string)
    ensures "|" + (w + "|" + "") == "|" + w + "|"
  {
  }

  lemma TwoPipes(x: string, y: string)
    ensures x + "|" + ("|" + y) == x + "||" + y
  {
  }

  lemma LeadingPipeText(y: string)
    ensures [] + "|" + y == "|" + y
  {
  }

  lemma ThreeLinesText(l0: string, l1: string, l2: string)
    ensures l0 + ['\n'] + (l1 + ['\n'] + l2) == l0 + "\n" + l1 + "\n" + l2
  {
  }

  lemma FourLinesText(l0: string, l1: string, l2: string, l3: string)
    ensures l0 + ['\n'] + (l1 + ['\n'] + (l2 + ['\n'] + l3)) == l0 + "\n" + l1 + "\n" + l2 + "\n" + l3
  {
  }

  lemma TwoBreaksText(line: string)
    ensures "\n" + ("\n" + line) == "\n\n" + line
  {
  }

  lemma DocumentText(intro: string, r0: string, separator: string, r1: string, outro: string)
    ensures intro + ['\n'] + ("\n" + (r0 + ['\n'] + (separator + ['\n'] + (r1 + ['\n'] + ("\n" + outro)))))
            == intro + "\n\n" + (r0 + "\n" + separator + "\n" + r1) + "\n\n" + outro
  {
  }
}
