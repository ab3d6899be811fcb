/** The console table for the CSV report (`renderCoverageTable`), as the lines
    it prints: a title block, a column header, one line per row in full-class-name
    order, and a closing border. */
module CoverageReportRenderer {
  import opened Strings
  import opened Sorting
  import opened TableFormat
  import opened CsvReportParser
  import opened CoverageDataFilter

  /** Width of the `=` and `-` borders of this table. */
  const TableWidth: nat := 80

  /** `printHeader`: a blank line, the title between two `=` borders, a blank line. */
  function HeadingLines(): seq<string> {
    ["", Border('=', TableWidth), Title, Border('=', TableWidth), ""]
  }

  /** `printTableHeader`: the column titles and a `-` border. */
  function ColumnHeaderLines(): seq<string> {
    [FormatRow("Class/Package", "Instruction (%)", "Branch (%)"), Border('-', TableWidth)]
  }

  /** `printFooter`: a `-` border and a blank line. */
  function FooterLines(): seq<string> {
    [Border('-', TableWidth), ""]
  }

  /** The first column of a data line: the summary row reads `TOTAL`. */
  function RowName(row: CoverageRow): string {
    if row.className == TotalClassName then "TOTAL" else FullClassName(row)
  }

  /** One data line: name, instruction coverage and branch coverage. */
  function DataRow(row: CoverageRow): string {
    FormatRow(RowName(row), FormatPercent(InstructionCoverage(row)), FormatPercent(BranchCoverage(row)))
  }

  /** `printDataRows`, for rows already in order. */
  function DataRows(rows: seq<CoverageRow>): (r: seq<string>)
    ensures |r| == |rows|
  {
    if rows == [] then [] else [DataRow(rows[0])] + DataRows(rows[1..])
  }

  lemma {:induction false} DataRowsAt(rows: seq<CoverageRow>, j: nat)
    requires j < |rows|
    ensures DataRows(rows)[j] == DataRow(rows[j])
  {
    if j > 0 { DataRowsAt(rows[1..], j - 1); }
  }

  /** `renderCoverageTable`, as the lines it prints. */
  function RenderCoverageTable(data: seq<CoverageRow>): seq<string> {
    HeadingLines() + ColumnHeaderLines() + DataRows(SortBy(data, FullClassName)) + FooterLines()
  }

  /** Seven lines before the data, two after; the data lines in between. */
  lemma TableShape(data: seq<CoverageRow>)
    ensures var lines := RenderCoverageTable(data);
      && |lines| == 9 + |data|
      && lines[..7] == HeadingLines() + ColumnHeaderLines()
      && lines[7..|lines| - 2] == DataRows(SortBy(data, FullClassName))
      && lines[|lines| - 2..] == FooterLines()
  {
    var head := HeadingLines() + ColumnHeaderLines();
    assert |head| == 7;
    var rows := DataRows(SortBy(data, FullClassName));
    var lines := RenderCoverageTable(data);
    assert lines == head + rows + FooterLines();
    assert lines[..7] == head;
    assert lines[7..|lines| - 2] == rows;
  }

  /** Without rows only the frame is printed. */
  lemma EmptyTable()
    ensures RenderCoverageTable([]) == HeadingLines() + ColumnHeaderLines() + FooterLines()
  {
    assert SortBy([], FullClassName) == [];
  }

  /** The data lines are the rows, each once, in full-class-name order. */
  lemma TableRows(data: seq<CoverageRow>)
    ensures var lines := RenderCoverageTable(data);
      var sorted := SortBy(data, FullClassName);
      && SortedBy(sorted, FullClassName) && multiset(sorted) == multiset(data)
      && 7 + |sorted| + 2 == |lines|
      && forall j :: 0 <= j < |sorted| ==> lines[7 + j] == DataRow(sorted[j])
  {
    var sorted := SortBy(data, FullClassName);
    LayoutTable(sorted);
    DataLinesEach(RenderCoverageTable(data), sorted);
  }

  /** The lines of the table hold the given data lines after the first seven,
      with two more after them. */
  predicate DataLinesAt(lines: seq<string>, rows: seq<CoverageRow>) {
    9 + |rows| == |lines| && lines[7..|lines| - 2] == DataRows(rows)
  }

  lemma LayoutTable(rows: seq<CoverageRow>)
    ensures DataLinesAt(HeadingLines() + ColumnHeaderLines() + DataRows(rows) + FooterLines(), rows)
  {
    var head := HeadingLines() + ColumnHeaderLines();
    var lines := head + DataRows(rows) + FooterLines();
    assert |head| == 7;
    assert lines[7..|lines| - 2] == DataRows(rows);
  }

  lemma DataLinesEach(lines: seq<string>, rows: seq<CoverageRow>)
    requires DataLinesAt(lines, rows)
    ensures forall j :: 0 <= j < |rows| ==> lines[7 + j] == DataRow(rows[j])
  {
    forall j | 0 <= j < |rows| ensures lines[7 + j] == DataRow(rows[j]) {
      DataRowsAt(rows, j);
      assert lines[7 + j] == lines[7..|lines| - 2][j];
    }
  }

  /** A data line starts with `TOTAL` exactly for the summary row, and with the full
      class name otherwise; the two coverage figures follow as `%.2f` text. */
  lemma DataRowName(row: CoverageRow)
    ensures row.className == TotalClassName ==> StartsWith(DataRow(row), "TOTAL")
    ensures row.className != TotalClassName ==> StartsWith(DataRow(row), FullClassName(row))
    ensures EndsWith(DataRow(row), FormatPercent(BranchCoverage(row)))
  {
    FormatRowShape(RowName(row), FormatPercent(InstructionCoverage(row)), FormatPercent(BranchCoverage(row)));
  }

  /** For a name that fits its column and non-negative counts, a data line is 82
      characters wide: two wider than the borders of this table. */
  lemma DataRowWidth(row: CoverageRow)
    requires |RowName(row)| <= ClassColumnWidth
    requires row.instructionMissed >= 0 && row.instructionCovered >= 0
    requires row.branchMissed >= 0 && row.branchCovered >= 0
    ensures |DataRow(row)| == TableWidth + 2
    ensures DataRow(row)[ClassColumnWidth] == ' '
  {
    var ip := FormatPercent(InstructionCoverage(row));
    var bp := FormatPercent(BranchCoverage(row));
    FormatPercentShape(InstructionCoverage(row));
    FormatPercentShape(BranchCoverage(row));
    FormatRowShape(RowName(row), ip, bp);
  }

  /** The column header is as wide as the data lines. */
  lemma HeaderWidth()
    ensures |ColumnHeaderLines()[0]| == TableWidth + 2
  {
    FormatRowShape("Class/Package", "Instruction (%)", "Branch (%)");
  }

  /** Rows with the same full class name keep the order they came in. */
  lemma TableStable(data: seq<CoverageRow>, name: string)
    ensures WithKey(SortBy(data, FullClassName), FullClassName, name) == WithKey(data, FullClassName, name)
  {
    SortByStable(data, FullClassName, name);
  }

  /** The class row of the unit test. */
  function ServiceRow(): CoverageRow {
    CoverageRow("test-project", "com.example.service", "UserService", 10, 90, 5, 15, 2, 18, 1, 9, 0, 5)
  }

  /** The summary row of the unit test, with the same counts. */
  function TotalRowOfTest(): CoverageRow {
    CoverageRow("test-project", "", "Total", 10, 90, 5, 15, 2, 18, 1, 9, 0, 5)
  }

  /** The percentages of the unit test print as `90.00` and `75.00`. */
  lemma SamplePercentages()
    ensures FormatPercent(InstructionCoverage(ServiceRow())) == "90.00"
    ensures FormatPercent(BranchCoverage(ServiceRow())) == "75.00"
  {
    assert InstructionCoverage(ServiceRow()) == 90.0;
    assert BranchCoverage(ServiceRow()) == 75.0;
    assert RoundHundredths(90.0) == 9000;
    assert RoundHundredths(75.0) == 7500;
    assert NatToString(90) == "90" && NatToString(75) == "75";
  }

  /** The unit test's table: the summary row sorts first (`T` comes before `c`)
      and reads `TOTAL`; the class row follows under its full name. */
  lemma SampleTable()
    ensures var lines := RenderCoverageTable([ServiceRow(), TotalRowOfTest()]);
      && |lines| == 11
      && StartsWith(lines[7], "TOTAL")
      && StartsWith(lines[8], "com.example.service.UserService")
  {
    SampleOrder();
    SampleRowNames();
    TwoRows(ServiceRow(), TotalRowOfTest(), "com.example.service.UserService", "TOTAL");
  }

  lemma SampleRowNames()
    ensures RowName(ServiceRow()) == "com.example.service.UserService"
    ensures RowName(TotalRowOfTest()) == "TOTAL"
  {
    assert ServiceRow().className != TotalClassName;
  }

  /** Two rows that sort the other way round print in swapped order. */
  lemma TwoRows(a: CoverageRow, b: CoverageRow, nameA: string, nameB: string)
    requires SortBy([a, b], FullClassName) == [b, a]
    requires RowName(a) == nameA && RowName(b) == nameB
    ensures var lines := RenderCoverageTable([a, b]);
      |lines| == 11 && StartsWith(lines[7], nameB) && StartsWith(lines[8], nameA)
  {
    TableRows([a, b]);
    FormatRowShape(RowName(a), FormatPercent(InstructionCoverage(a)), FormatPercent(BranchCoverage(a)));
    FormatRowShape(RowName(b), FormatPercent(InstructionCoverage(b)), FormatPercent(BranchCoverage(b)));
  }

  /** `sortedBy { it.fullClassName }` on the unit test's rows. */
  lemma SampleOrder()
    ensures SortBy([ServiceRow(), TotalRowOfTest()], FullClassName) == [TotalRowOfTest(), ServiceRow()]
  {
    SampleNamesOutOfOrder();
    SortTwoSwapped(ServiceRow(), TotalRowOfTest(), FullClassName);
  }

  lemma SampleNamesOutOfOrder()
    ensures !LexLessEq(FullClassName(ServiceRow()), FullClassName(TotalRowOfTest()))
  {
    assert FullClassName(TotalRowOfTest()) == "Total";
    assert FullClassName(ServiceRow())[0] == 'c';
  }
}
