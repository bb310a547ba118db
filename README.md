# mdTablePuller in Dafny

mdTablePuller walks a directory and finds Markdown files. It pulls every
table out of each file and writes each table to its own delimited text file.
This project models the core of that tool and proves properties of the model:

- **Table detection.** `TABLE_REGEX` is applied with `re.finditer`. The
  model (`TableFinder`) replaces the regular expression with a scan over
  the document's lines. It proves that the scan finds exactly the blocks of
  a paragraph characterisation, `IsTableBlock`, in order and without
  overlap. That `IsTableBlock` describes what the pattern matches is argued
  in the comment that opens `finder.dfy`, not proved.
- **`convert_tables`.** For each match, strip it, clean it, and append it
  (`Converter.ConvertTables`). The model is a loop over the matches,
  proved against a recursive specification.
- **`clean_table`.** It turns a block of text into rows of cells: split on
  "\n", split on '|', drop the pieces that are exactly empty, strip the
  others, and drop the header separator row by position (`TableCleaner`).
- **`write_table_to_file`, without the file system.** It picks the
  extension from the delimiter and builds the file name
  `stem_table_N.ext`. It also produces the text written, one joined row
  and a "\n" per row (`TableWriter`). The model also covers the loop in
  `write_tables` that numbers the tables of one Markdown file from 1.

The Python built-ins the tool relies on (`str.split`, `str.join`,
`str.strip`, `str(int)`) are defined in `PyStr`, with the properties the
rest uses. `str.strip()` removes exactly the characters for which Python's
`str.isspace` holds. `Examples` holds worked rows, tables, documents and
file names. Each example is stated for all texts of its shape.

The pattern's meaning, as the scan states it:

- The document is cut into lines at each "\n".
- The body of a line is the line without the '\r' of a "\r\n" break.
- A match is a maximal run of lines whose bodies each contain a '|' and no
  '\r'.
- The run must start the document, or follow a blank line that itself
  follows a line break.
- The run must end the document, or be followed by a blank line.

So a table preceded only by a single "\n" at the start of the document is
not found (`Examples.OneBreakBeforeTable`).

## Model

| member | source | states |
|---|---|---|
| PyStr.Split | mdTablePuller.py:118-119 | `s.split(sep)` yields at least one piece, and no piece contains the separator |
| PyStr.SplitCount | mdTablePuller.py:118-119 | `s.split(sep)` has exactly one piece more than `s` has separators |
| PyStr.SplitNoSeparator | mdTablePuller.py:118-119 | a text without the separator splits into itself alone |
| PyStr.SplitAt | mdTablePuller.py:118-119 | splitting is compositional: the pieces of `a + sep + b` are those of `a` followed by those of `b` |
| PyStr.SplitLine | mdTablePuller.py:118 | a separator-free first line is the first piece, followed by the pieces of the rest |
| PyStr.JoinSplit | mdTablePuller.py:118-119 | joining the pieces of a split with the separator gives back the text |
| PyStr.SplitJoin | mdTablePuller.py:79 | splitting a joined non-empty list gives back the list when no part holds the one-character separator (the empty list joins to "", which splits into `[""]`) |
| PyStr.CharInJoin | mdTablePuller.py:79 | every character of a part is a character of the joined text |
| PyStr.Strip | mdTablePuller.py:121 | `strip()` never lengthens the text; its result has no white space at either end; the result is empty exactly when the text is all white space |
| PyStr.StripLeftIndex | mdTablePuller.py:121 | stripping on the left removes exactly the leading white space, up to the first other character |
| PyStr.StripRightIndex | mdTablePuller.py:121 | stripping on the right removes exactly the trailing white space, back to the last other character |
| PyStr.StripPadded | mdTablePuller.py:121 | white space around a text that has none at its ends is exactly what `strip()` removes (the reference characterisation) |
| PyStr.StripFactor | mdTablePuller.py:121 | the stripped text is the part of the text between a white-space prefix and a white-space suffix |
| PyStr.StripIgnoresPadding | mdTablePuller.py:101 | white space added around a match changes nothing after `strip()`, so the line breaks the pattern consumes around a table do not reach `clean_table` |
| PyStr.StripIdempotent | mdTablePuller.py:121 | stripping twice is stripping once |
| PyStr.DecimalString | mdTablePuller.py:74 | `str(n)` is a non-empty numeral of digits with no leading zero |
| PyStr.DecimalRoundTrip | mdTablePuller.py:74 | reading `str(n)` back as a number gives `n` |
| TableFinder.Lines | mdTablePuller.py:99 | the line view of the document that the scan standing for the pattern works on (the source splits nothing here): there is at least one line |
| TableFinder.RunEnd | mdTablePuller.py:8 | the pattern's repeated group takes lines with a pipe while it can: every line of the run is a pipe line, and the line after it is not |
| TableFinder.ScanFrom | mdTablePuller.py:8 | every span the scan yields lies in the document, starts no earlier than the scan, and is not empty |
| TableFinder.ScanBlocks | mdTablePuller.py:8 | every span the scan yields is a table block (`IsTableBlock`) |
| TableFinder.ScanOrdered | mdTablePuller.py:99-100 | the spans come in order of appearance and do not overlap |
| TableFinder.ScanAfterRun | mdTablePuller.py:8 | the matches after a run of pipe lines start beyond the line that ends the run |
| TableFinder.RunStops | mdTablePuller.py:8 | a run of pipe lines ends no later than the first line that is not one |
| TableFinder.FindBlocks | mdTablePuller.py:99-101 | there is one text per match |
| TableFinder.ScanFindsBlock | mdTablePuller.py:8 | every table block at or after a line is found by the scan from that line |
| TableFinder.ScanFindsBlockHere | mdTablePuller.py:8 | a block is found by a search that reaches its first line |
| TableFinder.ScanKeepsLater | mdTablePuller.py:8 | what the search finds after a run of pipe lines it also finds from the run's first line |
| TableFinder.BlockIsMaximal | mdTablePuller.py:8 | a table block is a maximal run: the lines just before and just after it are not pipe lines |
| TableFinder.RunEndOfBlock | mdTablePuller.py:8 | the run of pipe lines starting at a table block ends exactly where the block ends |
| TableFinder.FindSpansExactly | mdTablePuller.py:99 | the scan yields exactly the table blocks of `IsTableBlock` (both directions), in order of appearance and without overlap |
| TableFinder.BlockLines | mdTablePuller.py:99-101 | match n's text splits at "\n" into exactly the lines of span n, and those lines are a table block (`IsTableBlock`) |
| TableFinder.NoPipeNoTables | mdTablePuller.py:8 | a document without a '\|' has no match |
| TableCleaner.KeepCells | mdTablePuller.py:121 | there are at most as many cells as pieces; each cell is a stripped piece and has no white space at its ends |
| TableCleaner.CleanRowCells | mdTablePuller.py:119-121 | a row has at most one cell more than the line has pipes; no cell has a pipe or white space at its ends; a line without "\n" gives cells without "\n" |
| TableCleaner.DropSecond | mdTablePuller.py:124 | `[rows[0]] + rows[2:]` keeps row 0 and every row after row 1, in order: one row fewer, except that a single row stays |
| TableCleaner.CleanRows | mdTablePuller.py:119-122 | there is one row of cells per line, each the cells of that line |
| TableCleaner.CleanTable | mdTablePuller.py:117-125 | the table has the cleaned first line as row 0 and the cleaned lines 2, 3, … as the following rows; line 1 is gone whatever it holds, and a one-line block gives one row |
| TableCleaner.CleanCells | mdTablePuller.py:117-125 | every cell of a cleaned table has no white space at its ends and holds neither a '\|' nor a line break |
| TableCleaner.CleanRowAtPipe | mdTablePuller.py:119-121 | a pipe cuts a row into the cells of its left part followed by those of its right part |
| TableCleaner.CleanRowPiece | mdTablePuller.py:121 | a text without a pipe is one stripped cell, unless it is exactly "" |
| TableCleaner.KeepCellsAppend | mdTablePuller.py:121 | the cells of two runs of pieces are the cells of each, in order |
| TableCleaner.StripKeepsOut | mdTablePuller.py:121 | stripping adds no character |
| TableCleaner.NotInJoinedPart | mdTablePuller.py:119 | a piece of a split line holds only characters of the line |
| Converter.CleanTables | mdTablePuller.py:96-103 | there is one cleaned table per match |
| Converter.ConvertTables | mdTablePuller.py:84-103 | `convert_tables` returns one table per match, and table `n` is match `n` stripped and cleaned; a document without a pipe gives no tables |
| Converter.CleanEachMatch | mdTablePuller.py:100-102 | the loop appends, in order, each match stripped and cleaned |
| Converter.CleanTablesSnoc | mdTablePuller.py:100-102 | one more match appends its stripped and cleaned table at the end |
| Converter.CleanTablesAt | mdTablePuller.py:96-103 | table `n` of the list is match `n` stripped and cleaned |
| TableWriter.RowLines | mdTablePuller.py:78-79 | there is one written line per row |
| TableWriter.WriteTableToFile | mdTablePuller.py:55-81 | the file is named `stem_table_N.ext`, with the extension chosen by the delimiter, and receives each row joined by the delimiter followed by "\n", in order |
| TableWriter.WriteFileTables | mdTablePuller.py:46-51 | the `i`-th table of a Markdown file goes to the file numbered `i + 1`, and no two tables of one file share a file name |
| TableWriter.SerializeAppendRow | mdTablePuller.py:78-81 | writing one more row appends its joined cells and one "\n" |
| TableWriter.SerializeIsJoin | mdTablePuller.py:78-81 | the written text is the joined rows, each followed by "\n" |
| TableWriter.JoinKeepsOut | mdTablePuller.py:79 | joining adds no character besides those of the parts and the delimiter |
| TableWriter.SerializeLines | mdTablePuller.py:77-81 | when no cell and not the delimiter hold a line break, the file has exactly one "\n" per row, and its lines are the joined rows |
| TableWriter.SerializeRoundTrip | mdTablePuller.py:77-81 | reading the file back, line by line and split on a one-character delimiter, recovers the table, when no cell holds the delimiter or a line break and no row is empty |
| TableWriter.TableFileNamesDistinct | mdTablePuller.py:74 | different table numbers give different file names |
| TableWriter.NumeralEndsAtDot | mdTablePuller.py:74 | a numeral followed by ".ext" cannot equal a longer numeral followed by the same ".ext" |
| Examples.CleanRowOfPieces | mdTablePuller.py:119-121 | a line given as its pieces between pipes has the kept pieces as its cells |
| Examples.CleanRowTwoCells | mdTablePuller.py:119-121 | the row `\| x \| y \|` has exactly the cells `x` and `y`, for plain cells: each non-empty, with no white space at its ends and no '\|' or "\n" |
| Examples.KeepTwoCells | mdTablePuller.py:121 | of the pieces of `\| x \| y \|`, the empty ones at the ends are dropped and the padded ones are stripped |
| Examples.CleanRowBlankCell | mdTablePuller.py:121 | a piece of white space between two pipes is kept, as an empty cell |
| Examples.CleanRowAdjacentPipes | mdTablePuller.py:121 | two adjacent pipes leave no cell between them |
| Examples.EmptyPieceRow | mdTablePuller.py:121 | a leading pipe adds no cell |
| Examples.SplitThreeLines | mdTablePuller.py:118 | three lines joined by "\n" split back into those lines |
| Examples.SplitFourLines | mdTablePuller.py:118 | four lines joined by "\n" split back into those lines |
| Examples.CleanThreeLines | mdTablePuller.py:124 | a header, a separator and one data row clean to the header and the data row |
| Examples.CleanFourLines | mdTablePuller.py:124 | a header, a separator and two data rows clean to the header and the two data rows |
| Examples.CleanTableExample | mdTablePuller.py:117-125 | a block of a two-cell header row, a separator line and two two-cell data rows, all cells plain (non-empty, no white space at the ends, no '\|' or "\n"), cleans to the header cells and the data cells; the separator line is gone, whatever it holds short of a "\n" |
| Examples.OneBreakBeforeTable | mdTablePuller.py:8 | a pipe line preceded only by a single "\n" at the start of the document is not a match |
| Examples.TwoBreaksBeforeTable | mdTablePuller.py:8 | a pipe line preceded by "\n\n" at the start of the document is a match |
| Examples.ScanAfterTwoBlanks | mdTablePuller.py:8 | after two blank lines, a pipe line is the one match |
| Examples.DocumentExample | mdTablePuller.py:99-102 | in a document of a paragraph, a blank line, a three-line table, a blank line and a paragraph, the table is the only match, and it converts to its header row and its data row |
| Examples.BlockTable | mdTablePuller.py:101-102 | a three-line two-column table block is unchanged by `strip()` and cleans to its header and data row |
| Examples.DocumentBlocks | mdTablePuller.py:99 | a table block between blank lines and text paragraphs is the one match |
| Examples.ScanDocument | mdTablePuller.py:8 | the scan over the lines of such a document yields exactly the table's lines |
| Examples.DocumentLines | mdTablePuller.py:99 | such a document has as its lines the paragraphs, the blank lines and the table rows |
| Examples.RowIsTableLine | mdTablePuller.py:8 | a two-cell row, whose cells hold no line break, is a line the pattern takes into a table |
| Examples.FileNameExamples | mdTablePuller.py:67-74 | for any stem, table 2 goes to `.tsv` with a tab, `.csv` with a comma and `.txt` with a semicolon, and table 12 with a comma is named `stem_table_12.csv` |

## Left out

- `get_args` and `main` (mdTablePuller.py:11-29, 128-131) are not modelled: command-line parsing only.
- Walking the directory in `write_tables` (mdTablePuller.py:41-46) is not modelled: this covers the recursion into subdirectories, the `.md` suffix test and the order in which `iterdir` lists entries. Only the per-file numbering loop is modelled, as `TableWriter.WriteFileTables`.
- Tables from different Markdown files with the same stem are not modelled. They get the same names, and the later file silently overwrites the earlier in the output directory; this is file-system behaviour.
- Opening, reading and writing files is not modelled. `ConvertTables` takes the file's text and `WriteTableToFile` returns the name and the text it would write. `Path.stem` is taken as the parameter `stem`, and joining it with the output directory is not modelled.
- The `re` engine is not modelled, and that `IsTableBlock` describes exactly the matches of `TABLE_REGEX` is argued in the comment of `TableFinder`, not proved. The pattern's matches are characterised by the line scan in `TableFinder`. `FindBlocks` yields each match's text up to the white space at its ends (the line breaks before and after it, and a final '\r'). Every match is stripped before use, so this makes no difference (`PyStr.StripIgnoresPadding`).
- Reading a file in text mode turns "\r\n" and "\r" into "\n", so in the running tool the pattern never sees a '\r'. The model does not rely on this and accepts any text, '\r' included.
- Writing in text mode on a platform whose line separator is not "\n" is not modelled: there each "\n" written becomes that separator.
- TableWriter.SerializeRoundTrip: it holds only for a one-character delimiter that no cell contains, cells without line breaks, and rows with at least one cell. Outside these conditions the written text is ambiguous: a row `[]` and a row `[""]` are both written as an empty line.
