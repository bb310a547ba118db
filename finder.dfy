/** Table detection: what `re.finditer(TABLE_REGEX, content)` finds, where

      TABLE_REGEX = ((\r?\n){2}|^)([^\r\n]*\|[^\r\n]*(\r?\n)?)+(?=(\r?\n){2}|$)

    is compiled without `re.MULTILINE`, so `^` holds only at the start of the
    document and `$` only at its end or just before a final newline.

    The document is viewed as its lines, `content.split("\n")`. A line that is
    followed by another one may end in the '\r' of a "\r\n" break; its body is
    the line without that '\r'. The pattern then matches exactly the maximal
    runs of lines whose bodies contain a '|' and no '\r', provided that
      - the run starts the document, or the line before it is blank and is
        itself preceded by a line break (the `(\r?\n){2}` before the run), and
      - the run ends the document, or the line after it is blank (the
        lookahead after the run).
    A blank line is one whose body is empty. A paragraph of pipe lines that
    touches text, or that is preceded only by a single newline at the start of
    the document, is not a match. */
module TableFinder {
  import opened PyStr

  /** `content.split("\n")`. */
  function Lines(doc: string): (lines: seq<string>)
    ensures |lines| >= 1
  {
    Split(doc, '\n')
  }

  /** Line `k` without the '\r' of a "\r\n" break after it. */
  function Body(lines: seq<string>, k: nat): string
    requires k < |lines|
  {
    var line := lines[k];
    if k + 1 < |lines| && line != [] && line[|line| - 1] == '\r' then line[..|line| - 1]
    else line
  }

  /** A line that `[^\r\n]*\|[^\r\n]*` can cover. */
  predicate IsPipeLine(lines: seq<string>, k: nat)
    requires k < |lines|
  {
    '|' in Body(lines, k) && '\r' !in Body(lines, k)
  }

  /** A line that is empty apart from its line break. */
  predicate IsBlankLine(lines: seq<string>, k: nat)
    requires k < |lines|
  {
    Body(lines, k) == ""
  }

  /** The text before line `i` satisfies `(\r?\n){2}|^`. */
  predicate Opens(lines: seq<string>, i: nat)
    requires i < |lines|
  {
    i == 0 || (i >= 2 && IsBlankLine(lines, i - 1))
  }

  /** The text after line `j - 1` satisfies the lookahead `(?=(\r?\n){2}|$)`. */
  predicate Closes(lines: seq<string>, j: nat)
    requires j <= |lines|
  {
    j == |lines| || IsBlankLine(lines, j)
  }

  /** Lines `[i, j)` are one table block: a non-empty run of pipe lines that
      opens and closes as the pattern requires. Because blank lines are not
      pipe lines, such a run is maximal. */
  predicate IsTableBlock(lines: seq<string>, i: nat, j: nat) {
    i < j <= |lines| && Opens(lines, i) && Closes(lines, j) &&
    forall k :: i <= k < j ==> IsPipeLine(lines, k)
  }

  /** A table block is a maximal run of pipe lines: neither the line before
      it nor the line after it is a pipe line. */
  lemma BlockIsMaximal(lines: seq<string>, i: nat, j: nat)
    requires IsTableBlock(lines, i, j)
    ensures i == 0 || !IsPipeLine(lines, i - 1)
    ensures j == |lines| || !IsPipeLine(lines, j)
  {
  }

  /** The lines `[start, end)` of one match. */
  datatype Span = Span(start: nat, end: nat)

  /** The end of the run of pipe lines that starts at line `k`. */
  function RunEnd(lines: seq<string>, k: nat): (j: nat)
    requires k <= |lines|
    ensures k <= j <= |lines|
    ensures forall m :: k <= m < j ==> IsPipeLine(lines, m)
    ensures j == |lines| || !IsPipeLine(lines, j)
    decreases |lines| - k
  {
    if k < |lines| && IsPipeLine(lines, k) then RunEnd(lines, k + 1) else k
  }

  /** The scan that replaces the regular expression: outside a table, skip
      lines without a pipe; at a pipe line, take the whole run of pipe lines
      and keep it when it opens and closes properly; continue after it. */
  function ScanFrom(lines: seq<string>, k: nat): (spans: seq<Span>)
    requires k <= |lines|
    ensures forall n :: 0 <= n < |spans| ==> k <= spans[n].start < spans[n].end <= |lines|
    decreases |lines| - k
  {
    if k == |lines| then []
    else if !IsPipeLine(lines, k) then ScanFrom(lines, k + 1)
    else
      var j := RunEnd(lines, k);
      var rest := ScanFrom(lines, j);
      if Opens(lines, k) && Closes(lines, j) then [Span(k, j)] + rest else rest
  }

  /** Every span the scan yields is a table block. */
  lemma {:induction false} ScanBlocks(lines: seq<string>, k: nat)
    requires k <= |lines|
    ensures forall n :: 0 <= n < |ScanFrom(lines, k)| ==>
              IsTableBlock(lines, ScanFrom(lines, k)[n].start, ScanFrom(lines, k)[n].end)
    decreases |lines| - k
  {
    if k < |lines| {
      if !IsPipeLine(lines, k) {
        ScanBlocks(lines, k + 1);
        assert ScanFrom(lines, k) == ScanFrom(lines, k + 1);
      } else {
        var j := RunEnd(lines, k);
        ScanBlocks(lines, j);
        ScanAtPipe(lines, k);
      }
    }
  }

  /** Spans in order of appearance, without overlap. */
  predicate Ordered(spans: seq<Span>) {
    forall a, b :: 0 <= a < b < |spans| ==> spans[a].end < spans[b].start
  }

  /** A span ending before every span of an ordered list can go in front. */
  lemma OrderedCons(span: Span, rest: seq<Span>)
    requires Ordered(rest)
    requires forall n :: 0 <= n < |rest| ==> span.end < rest[n].start
    ensures Ordered([span] + rest)
  {
    var spans := [span] + rest;
    forall a, b | 0 <= a < b < |spans| ensures spans[a].end < spans[b].start {
      assert spans[b] == rest[b - 1];
      if a > 0 {
        assert spans[a] == rest[a - 1];
      }
    }
  }

  /** The spans the scan yields come in order, without overlap. */
  lemma {:induction false} ScanOrdered(lines: seq<string>, k: nat)
    requires k <= |lines|
    ensures Ordered(ScanFrom(lines, k))
    decreases |lines| - k
  {
    if k < |lines| {
      if !IsPipeLine(lines, k) {
        ScanOrdered(lines, k + 1);
        assert ScanFrom(lines, k) == ScanFrom(lines, k + 1);
      } else {
        var j := RunEnd(lines, k);
        ScanOrdered(lines, j);
        ScanAtPipe(lines, k);
        if Opens(lines, k) && Closes(lines, j) {
          ScanAfterRun(lines, k);
          OrderedCons(Span(k, j), ScanFrom(lines, j));
        }
      }
    }
  }

  /** A run is followed by a line that is not a pipe line, so the spans
      after it start beyond that line. */
  lemma ScanAfterRun(lines: seq<string>, k: nat)
    requires k < |lines| && IsPipeLine(lines, k)
    ensures forall n :: 0 <= n < |ScanFrom(lines, RunEnd(lines, k))| ==>
              RunEnd(lines, k) < ScanFrom(lines, RunEnd(lines, k))[n].start
  {
    var j := RunEnd(lines, k);
    var rest := ScanFrom(lines, j);
    ScanBlocks(lines, j);
    forall n | 0 <= n < |rest| ensures j < rest[n].start {
      assert IsPipeLine(lines, rest[n].start);
    }
  }

  /** The matches of the pattern in `doc`, in order of appearance. */
  function FindSpans(doc: string): seq<Span> {
    ScanFrom(Lines(doc), 0)
  }

  /** The text of each match, up to the line breaks the pattern consumes
      before and after it and a '\r' that may end its last line. Those are
      white space, which `strip()` removes anyway (see
      `PyStr.StripIgnoresPadding`). */
  function FindBlocks(doc: string): (blocks: seq<string>)
    ensures |blocks| == |FindSpans(doc)|
  {
    var lines := Lines(doc);
    var spans := FindSpans(doc);
    seq(|spans|, n requires 0 <= n < |spans| => BlockText(lines, spans[n]))
  }

  /** The lines of one span joined back with "\n". */
  function BlockText(lines: seq<string>, span: Span): string
    requires span.start <= span.end <= |lines|
  {
    Join(lines[span.start..span.end], "\n")
  }

  /** Every table block at or after line `k` is found by the scan from `k`. */
  lemma {:induction false} ScanFindsBlock(lines: seq<string>, k: nat, i: nat, j: nat)
    requires k <= i
    requires IsTableBlock(lines, i, j)
    ensures Span(i, j) in ScanFrom(lines, k)
    decreases |lines| - k
  {
    BlockIsMaximal(lines, i, j);
    assert IsPipeLine(lines, i);
    if !IsPipeLine(lines, k) {
      ScanFindsBlock(lines, k + 1, i, j);
      ScanSkips(lines, k);
    } else if k == i {
      ScanFindsBlockHere(lines, i, j);
    } else {
      // the run through line k stops before the blank line i - 1
      RunStops(lines, k, i - 1);
      ScanFindsBlock(lines, RunEnd(lines, k), i, j);
      ScanKeepsLater(lines, k, Span(i, j));
    }
  }

  /** A block is found by a scan that reaches its first line. */
  lemma ScanFindsBlockHere(lines: seq<string>, i: nat, j: nat)
    requires IsTableBlock(lines, i, j)
    ensures Span(i, j) in ScanFrom(lines, i)
  {
    RunEndOfBlock(lines, i, j);
    ScanAtPipe(lines, i);
  }

  /** What the scan finds after a run, it finds from the run's first line. */
  lemma ScanKeepsLater(lines: seq<string>, k: nat, span: Span)
    requires k < |lines| && IsPipeLine(lines, k)
    requires span in ScanFrom(lines, RunEnd(lines, k))
    ensures span in ScanFrom(lines, k)
  {
    var e := RunEnd(lines, k);
    ScanAtPipe(lines, k);
    InSuffix(span, if Opens(lines, k) && Closes(lines, e) then [Span(k, e)] else [], ScanFrom(lines, e));
  }

  /** At a pipe line the scan takes the whole run, keeps it when it opens
      and closes, and goes on after it. */
  lemma ScanAtPipe(lines: seq<string>, k: nat)
    requires k < |lines| && IsPipeLine(lines, k)
    ensures var e := RunEnd(lines, k);
            ScanFrom(lines, k) == (if Opens(lines, k) && Closes(lines, e) then [Span(k, e)] else []) + ScanFrom(lines, e)
  {
  }

  /** Away from a pipe line the scan moves on one line. */
  lemma ScanSkips(lines: seq<string>, k: nat)
    requires k < |lines| && !IsPipeLine(lines, k)
    ensures ScanFrom(lines, k) == ScanFrom(lines, k + 1)
  {
  }

  lemma InSuffix(span: Span, front: seq<Span>, rest: seq<Span>)
    requires span in rest
    ensures span in front + rest
  {
  }

  /** A run of pipe lines stops at the first line that is not one. */
  lemma RunStops(lines: seq<string>, k: nat, b: nat)
    requires k <= b < |lines| && !IsPipeLine(lines, b)
    ensures RunEnd(lines, k) <= b
  {
  }

  lemma {:induction false} RunEndOfBlock(lines: seq<string>, i: nat, j: nat)
    requires IsTableBlock(lines, i, j)
    ensures RunEnd(lines, i) == j
  {
    // the run cannot stop inside the block, nor pass the line that closes it
    assert j < |lines| ==> !IsPipeLine(lines, j);
  }

  /** The scan finds exactly the table blocks, in order, without overlap. */
  lemma FindSpansExactly(doc: string)
    ensures forall i, j :: Span(i, j) in FindSpans(doc) <==> IsTableBlock(Lines(doc), i, j)
    ensures forall a, b :: 0 <= a < b < |FindSpans(doc)| ==>
              FindSpans(doc)[a].end < FindSpans(doc)[b].start
  {
    var lines := Lines(doc);
    var spans := FindSpans(doc);
    ScanBlocks(lines, 0);
    ScanOrdered(lines, 0);
    forall i, j | Span(i, j) in spans ensures IsTableBlock(lines, i, j) {
      var n :| 0 <= n < |spans| && spans[n] == Span(i, j);
    }
    forall i, j | IsTableBlock(lines, i, j) ensures Span(i, j) in spans {
      ScanFindsBlock(lines, 0, i, j);
    }
  }

  /** Match `n`'s text is made of exactly the lines of span `n`, and those
      lines form a table block. */
  lemma BlockLines(doc: string, n: nat)
    requires n < |FindSpans(doc)|
    ensures Split(FindBlocks(doc)[n], '\n')
            == Lines(doc)[FindSpans(doc)[n].start..FindSpans(doc)[n].end]
    ensures IsTableBlock(Lines(doc), FindSpans(doc)[n].start, FindSpans(doc)[n].end)
  {
    var lines := Lines(doc);
    var s := FindSpans(doc)[n];
    var part := lines[s.start..s.end];
    forall k | 0 <= k < |part| ensures '\n' !in part[k] {
      assert part[k] == lines[s.start + k];
    }
    SplitJoin(part, '\n');
    ScanBlocks(lines, 0);
  }

  /** A document without a '|' has no table. */
  lemma NoPipeNoTables(doc: string)
    requires '|' !in doc
    ensures FindBlocks(doc) == []
  {
    var lines := Lines(doc);
    var spans := FindSpans(doc);
    if spans != [] {
      ScanBlocks(lines, 0);
      var i := spans[0].start;
      assert IsPipeLine(lines, i);
      assert '|' in lines[i] by {
        var b := Body(lines, i);
        var m :| 0 <= m < |b| && b[m] == '|';
        assert lines[i][m] == '|';
      }
      JoinSplit(doc, '\n');
      CharInJoin(lines, "\n", i, '|');
      assert false;
    }
  }
}
