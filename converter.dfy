/** `convert_tables`: every match of the table pattern in a Markdown
    document, stripped and cleaned, in order of appearance. Reading the file
    is left to the caller, which passes the document's text. */
module Converter {
  import opened PyStr
  import opened TableFinder
  import opened TableCleaner

  /** The tables of a list of matches: `[clean_table(m.strip()) for m in matches]`. */
  function CleanTables(blocks: seq<string>): (tables: seq<Table>)
    ensures |tables| == |blocks|
  {
    if blocks == [] then []
    else CleanTables(blocks[..|blocks| - 1]) + [CleanTable(Strip(blocks[|blocks| - 1]))]
  }

  /** `convert_tables(md_file)` on the file's text: one table per match. */
  method ConvertTables(content: string) returns (cleanTables: seq<Table>)
    ensures |cleanTables| == |FindSpans(content)|
    ensures forall n :: 0 <= n < |cleanTables| ==>
              cleanTables[n] == CleanTable(Strip(FindBlocks(content)[n]))
    ensures '|' !in content ==> cleanTables == []
  {
    var tables := FindBlocks(content);
    if '|' !in content {
      NoPipeNoTables(content);
    }
    cleanTables := CleanEachMatch(tables);
    forall n | 0 <= n < |cleanTables|
      ensures cleanTables[n] == CleanTable(Strip(tables[n]))
    {
      CleanTablesAt(tables, n);
    }
  }

  /** The loop of `convert_tables`: strip each match, clean it, append it. */
  method CleanEachMatch(tables: seq<string>) returns (cleanTables: seq<Table>)
    ensures cleanTables == CleanTables(tables)
  {
    cleanTables := [];
    for n := 0 to |tables|
      invariant cleanTables == CleanTables(tables[..n])
    {
      var eachTable := Strip(tables[n]);
      CleanTablesSnoc(tables, n);
      cleanTables := cleanTables + [CleanTable(eachTable)];
    }
    assert tables[..|tables|] == tables;
  }

  lemma CleanTablesSnoc(blocks: seq<string>, n: nat)
    requires n < |blocks|
    ensures CleanTables(blocks[..n + 1]) == CleanTables(blocks[..n]) + [CleanTable(Strip(blocks[n]))]
  {
    assert blocks[..n + 1][..n] == blocks[..n];
  }

  /** Table `n` is the `n`-th match, stripped and cleaned. */
  lemma {:induction false} CleanTablesAt(blocks: seq<string>, n: nat)
    requires n < |blocks|
    ensures CleanTables(blocks)[n] == CleanTable(Strip(blocks[n]))
  {
    if n < |blocks| - 1 {
      CleanTablesAt(blocks[..|blocks| - 1], n);
    }
  }
}
