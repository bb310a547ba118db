/** `write_table_to_file` without the file system: the name of the file a
    table goes to and the text written into it. Also the loop of
    `write_tables` that numbers the tables of one Markdown file from 1. */
module TableWriter {
  import opened PyStr
  import opened TableCleaner

  /** One file the tool would write: its name in the output directory and its
      contents. */
  datatype OutputFile = OutputFile(name: string, text: string)

  /** The extension chosen by the delimiter. */
  function Extension(delimiter: string): string {
    if delimiter == "\t" then "tsv"
    else if delimiter == "," then "csv"
    else "txt"
  }

  /** `f"{stem}_table_{table_number}.{extension}"`. */
  function TableFileName(stem: string, tableNumber: nat, delimiter: string): string {
    stem + "_table_" + DecimalString(tableNumber) + "." + Extension(delimiter)
  }

  /** Everything `write_table_to_file` writes: per row, the cells joined by the
      delimiter and a "\n". */
  function Serialize(table: Table, delimiter: string): string {
    if table == [] then ""
    else Join(table[0], delimiter) + "\n" + Serialize(table[1..], delimiter)
  }

  /** The text of each row as a line without its "\n". */
  function RowLines(table: Table, delimiter: string): (lines: seq<string>)
    ensures |lines| == |table|
  {
    seq(|table|, k requires 0 <= k < |table| => Join(table[k], delimiter))
  }

  /** Reading a written file back: its lines, without the empty piece after
      the final "\n", each split on the delimiter. */
  function ReadDelimited(text: string, delimiter: char): Table {
    var lines := Split(text, '\n');
    seq(|lines| - 1, k requires 0 <= k < |lines| - 1 => Split(lines[k], delimiter))
  }

  /** `write_table_to_file`, with the name it opens and the successive
      `handle.write` calls accumulated into `written`. */
  method WriteTableToFile(tableAsList: Table, stem: string, tableNumber: nat, delimiter: string)
    returns (tableName: string, written: string)
    ensures tableName == TableFileName(stem, tableNumber, delimiter)
    ensures written == Serialize(tableAsList, delimiter)
  {
    var extension: string;
    if delimiter == "\t" {
      extension := "tsv";
    } else if delimiter == "," {
      extension := "csv";
    } else {
      extension := "txt";
    }
    tableName := stem + "_table_" + DecimalString(tableNumber) + "." + extension;
    written := "";
    for r := 0 to |tableAsList|
      invariant written == Serialize(tableAsList[..r], delimiter)
    {
      var row := tableAsList[r];
      var line := Join(row, delimiter);
      SerializeAppendRow(tableAsList[..r], row, delimiter);
      assert tableAsList[..r + 1] == tableAsList[..r] + [row];
      written := written + line;
      written := written + "\n";
    }
    assert tableAsList[..|tableAsList|] == tableAsList;
  }

  /** The loop of `write_tables` over the tables of one Markdown file whose
      name without ".md" is `stem`: table `i` goes to the file numbered
      `i + 1`, and no two of them share a name. */
  method WriteFileTables(stem: string, tables: seq<Table>, delimiter: string)
    returns (files: seq<OutputFile>)
    ensures |files| == |tables|
    ensures forall i :: 0 <= i < |files| ==>
              files[i] == OutputFile(TableFileName(stem, i + 1, delimiter),
                                     Serialize(tables[i], delimiter))
    ensures forall i, j :: 0 <= i < j < |files| ==> files[i].name != files[j].name
  {
    files := [];
    for i := 0 to |tables|
      invariant |files| == i
      invariant forall m :: 0 <= m < i ==>
                  files[m] == OutputFile(TableFileName(stem, m + 1, delimiter),
                                         Serialize(tables[m], delimiter))
    {
      var name, text := WriteTableToFile(tables[i], stem, i + 1, delimiter);
      files := files + [OutputFile(name, text)];
    }
    forall i, j | 0 <= i < j < |files| ensures files[i].name != files[j].name {
      TableFileNamesDistinct(stem, i + 1, j + 1, delimiter);
    }
  }

  lemma {:induction false} SerializeAppendRow(table: Table, row: Row, delimiter: string)
    ensures Serialize(table + [row], delimiter) == Serialize(table, delimiter) + Join(row, delimiter) + "\n"
  {
    if table == [] {
      assert [] + [row] == [row];
      assert [row][1..] == [];
    } else {
      assert (table + [row])[1..] == table[1..] + [row];
      SerializeAppendRow(table[1..], row, delimiter);
    }
  }

  /** The written text is the row lines joined by "\n" with a final "\n". */
  lemma {:induction false} SerializeIsJoin(table: Table, delimiter: string)
    ensures Serialize(table, delimiter) == Join(RowLines(table, delimiter) + [""], "\n")
  {
    if table != [] {
      SerializeIsJoin(table[1..], delimiter);
      var lines := RowLines(table, delimiter) + [""];
      assert lines[1..] == RowLines(table[1..], delimiter) + [""];
    }
  }

  lemma {:induction false} JoinKeepsOut(parts: seq<string>, delimiter: string, c: char)
    requires c !in delimiter
    requires forall k :: 0 <= k < |parts| ==> c !in parts[k]
    ensures c !in Join(parts, delimiter)
  {
    if |parts| > 1 {
      JoinKeepsOut(parts[1..], delimiter, c);
    }
  }

  /** When no cell and not the delimiter hold a line break, the file has
      exactly one line per row, holding that row's cells joined. */
  lemma SerializeLines(table: Table, delimiter: string)
    requires '\n' !in delimiter
    requires forall i, k :: 0 <= i < |table| && 0 <= k < |table[i]| ==> '\n' !in table[i][k]
    ensures Split(Serialize(table, delimiter), '\n') == RowLines(table, delimiter) + [""]
    ensures multiset(Serialize(table, delimiter))['\n'] == |table|
  {
    var lines := RowLines(table, delimiter) + [""];
    forall k | 0 <= k < |lines| ensures '\n' !in lines[k] {
      if k < |table| {
        JoinKeepsOut(table[k], delimiter, '\n');
      }
    }
    SerializeIsJoin(table, delimiter);
    SplitJoin(lines, '\n');
    SplitCount(Serialize(table, delimiter), '\n');
  }

  /** Reading a written table back recovers it, for a one-character
      delimiter that no cell contains, cells without line breaks, and rows
      that are not empty (a row without cells and a row with one empty cell
      are both written as an empty line). */
  lemma SerializeRoundTrip(table: Table, delimiter: char)
    requires delimiter != '\n'
    requires forall i :: 0 <= i < |table| ==> |table[i]| >= 1
    requires forall i, k :: 0 <= i < |table| && 0 <= k < |table[i]| ==>
               '\n' !in table[i][k] && delimiter !in table[i][k]
    ensures ReadDelimited(Serialize(table, [delimiter]), delimiter) == table
  {
    SerializeLines(table, [delimiter]);
    var back := ReadDelimited(Serialize(table, [delimiter]), delimiter);
    forall i | 0 <= i < |table| ensures back[i] == table[i] {
      SplitJoin(table[i], delimiter);
    }
  }

  /** Different table numbers give different file names. */
  lemma TableFileNamesDistinct(stem: string, n1: nat, n2: nat, delimiter: string)
    requires n1 != n2
    ensures TableFileName(stem, n1, delimiter) != TableFileName(stem, n2, delimiter)
  {
    var d1, d2 := DecimalString(n1), DecimalString(n2);
    var tail := "." + Extension(delimiter);
    // the '.' after the numeral fixes where the numeral ends
    if |d1| < |d2| {
      NumeralEndsAtDot(d1, d2, tail);
    } else if |d2| < |d1| {
      NumeralEndsAtDot(d2, d1, tail);
    } else {
      DecimalRoundTrip(n1);
      DecimalRoundTrip(n2);
      assert d1 != d2;
      var k :| 0 <= k < |d1| && d1[k] != d2[k];
      assert (d1 + tail)[k] != (d2 + tail)[k];
    }
    var prefix := stem + "_table_";
    assert TableFileName(stem, n1, delimiter) == prefix + (d1 + tail);
    assert TableFileName(stem, n2, delimiter) == prefix + (d2 + tail);
    assert (prefix + (d1 + tail))[|prefix|..] == d1 + tail;
    assert (prefix + (d2 + tail))[|prefix|..] == d2 + tail;
  }

  lemma NumeralEndsAtDot(d1: string, d2: string, tail: string)
    requires forall k :: 0 <= k < |d2| ==> IsDigit(d2[k])
    requires tail != [] && tail[0] == '.'
    requires |d1| < |d2|
    ensures d1 + tail != d2 + tail
  {
    assert (d1 + tail)[|d1|] != (d2 + tail)[|d1|];
  }
}
