/** `clean_table`: one table block of text to a list of rows of cells. The
    block is split into rows on "\n", each row into pieces on '|'; pieces that
    are exactly "" are dropped (before stripping, so a piece of white space
    survives as an empty cell), the others are stripped; and row 1, the
    header separator of a Markdown table, is dropped by position. */
module TableCleaner {
  import opened PyStr

  type Row = seq<string>
  type Table = seq<Row>

  /** `[cell.strip() for cell in pieces if cell]`. */
  function KeepCells(pieces: seq<string>): (cells: Row)
    ensures |cells| <= |pieces|
    ensures forall k :: 0 <= k < |cells| ==>
              Trimmed(cells[k]) && exists m :: 0 <= m < |pieces| && cells[k] == Strip(pieces[m])
  {
    if pieces == [] then []
    else
      var rest := KeepCells(pieces[1..]);
      var head := if pieces[0] == "" then [] else [Strip(pieces[0])];
      assert forall k :: 0 <= k < |rest| ==>
               exists m :: 0 <= m < |pieces| && rest[k] == Strip(pieces[m]) by {
        forall k | 0 <= k < |rest|
          ensures exists m :: 0 <= m < |pieces| && rest[k] == Strip(pieces[m])
        {
          var m :| 0 <= m < |pieces[1..]| && rest[k] == Strip(pieces[1..][m]);
          assert pieces[1..][m] == pieces[m + 1];
        }
      }
      head + rest
  }

  /** The cells of one line: `[cell.strip() for cell in line.split("|") if cell]`. */
  function CleanRow(line: string): Row {
    KeepCells(Split(line, '|'))
  }

  /** A row has at most one cell more than the line has pipes, and every
      cell is stripped and holds no pipe, nor a line break unless the line
      has one. */
  lemma CleanRowCells(line: string)
    ensures var cells := CleanRow(line);
            && |cells| <= multiset(line)['|'] + 1
            && (forall k :: 0 <= k < |cells| ==> Trimmed(cells[k]) && '|' !in cells[k])
            && ('\n' !in line ==> forall k :: 0 <= k < |cells| ==> '\n' !in cells[k])
  {
    var pieces := Split(line, '|');
    var cells := KeepCells(pieces);
    SplitCount(line, '|');
    forall k | 0 <= k < |cells|
      ensures '|' !in cells[k] && ('\n' !in line ==> '\n' !in cells[k])
    {
      var m :| 0 <= m < |pieces| && cells[k] == Strip(pieces[m]);
      StripKeepsOut(pieces[m], '|');
      if '\n' !in line {
        JoinSplit(line, '|');
        NotInJoinedPart(pieces, "|", m, '\n');
        StripKeepsOut(pieces[m], '\n');
      }
    }
  }

  /** Python's `rows[k:]`, which is empty instead of failing when `k` is past the end. */
  function SliceFrom<T>(rows: seq<T>, k: nat): seq<T> {
    if k <= |rows| then rows[k..] else []
  }

  /** `[rows[0]] + rows[2:]`: the header separator, row 1, dropped by
      position. */
  function DropSecond<T>(rows: seq<T>): (r: seq<T>)
    requires |rows| >= 1
    ensures |r| == (if |rows| == 1 then 1 else |rows| - 1)
    ensures r[0] == rows[0]
    ensures forall i :: 1 <= i < |r| ==> r[i] == rows[i + 1]
  {
    [rows[0]] + SliceFrom(rows, 2)
  }

  /** `clean_table(table_string)`. */
  function CleanTable(block: string): (table: Table)
    ensures var lines := Split(block, '\n');
            && |table| == (if |lines| == 1 then 1 else |lines| - 1)
            && table[0] == CleanRow(lines[0])
            && forall i :: 1 <= i < |table| ==> table[i] == CleanRow(lines[i + 1])
  {
    DropSecond(CleanRows(Split(block, '\n')))
  }

  /** `[... for row in table_row_cols]`: the cells of each line. */
  function CleanRows(lines: seq<string>): (rows: Table)
    ensures |rows| == |lines|
    ensures forall k :: 0 <= k < |lines| ==> rows[k] == CleanRow(lines[k])
  {
    if lines == [] then [] else [CleanRow(lines[0])] + CleanRows(lines[1..])
  }

  /** Every cell of a cleaned table is stripped and holds neither a '|' nor a
      line break. */
  lemma CleanCells(block: string, i: nat, k: nat)
    requires i < |CleanTable(block)| && k < |CleanTable(block)[i]|
    ensures var cell := CleanTable(block)[i][k];
            Trimmed(cell) && '|' !in cell && '\n' !in cell
  {
    var lines := Split(block, '\n');
    var row := if i == 0 then 0 else i + 1;
    assert CleanTable(block)[i] == CleanRow(lines[row]);
    assert '\n' !in lines[row];
    CleanRowCells(lines[row]);
  }

  /** A row is cut at each '|' into the rows of its parts, left to right. */
  lemma CleanRowAtPipe(a: string, b: string)
    ensures CleanRow(a + "|" + b) == CleanRow(a) + CleanRow(b)
  {
    SplitAt(a, b, '|');
    assert a + "|" + b == a + ['|'] + b;
    KeepCellsAppend(Split(a, '|'), Split(b, '|'));
  }

  /** A text without '|' is one cell, stripped, unless it is exactly "" (a
      piece of white space gives the empty cell). */
  lemma CleanRowPiece(s: string)
    requires '|' !in s
    ensures CleanRow(s) == if s == "" then [] else [Strip(s)]
  {
    SplitNoSeparator(s, '|');
    assert [s][1..] == [];
  }

  lemma {:induction false} KeepCellsAppend(p: seq<string>, q: seq<string>)
    ensures KeepCells(p + q) == KeepCells(p) + KeepCells(q)
  {
    if p == [] {
      assert p + q == q;
    } else {
      var pq := p + q;
      assert pq[0] == p[0];
      assert pq[1..] == p[1..] + q;
      KeepCellsAppend(p[1..], q);
      assert KeepCells(pq) == (if p[0] == "" then [] else [Strip(p[0])]) + KeepCells(pq[1..]);
    }
  }

  lemma StripKeepsOut(s: string, c: char)
    requires c !in s
    ensures c !in Strip(s)
  {
    var i, j := StripFactor(s);
  }

  /** The parts of a split text hold only characters of the text. */
  lemma NotInJoinedPart(parts: seq<string>, delim: string, m: nat, c: char)
    requires m < |parts| && c !in Join(parts, delim)
    ensures c !in parts[m]
  {
    if c in parts[m] {
      CharInJoin(parts, delim, m, c);
    }
  }
}
