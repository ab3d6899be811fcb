/** The JaCoCo CSV report: one `CoverageRow` per class, read from the lines of
    the file after a fixed 13-column header. */
module CsvReportParser {
  import opened Wrappers
  import opened Strings
  import opened Seqs
  import opened Percentages

  // ---------------------------------------------------------------- data model

  /** One data line of the report. */
  datatype CoverageRow = CoverageRow(
    group: string, packageName: string, className: string,
    instructionMissed: int, instructionCovered: int,
    branchMissed: int, branchCovered: int,
    lineMissed: int, lineCovered: int,
    complexityMissed: int, complexityCovered: int,
    methodMissed: int, methodCovered: int)

  function InstructionTotal(row: CoverageRow): int {
    row.instructionMissed + row.instructionCovered
  }

  function BranchTotal(row: CoverageRow): int {
    row.branchMissed + row.branchCovered
  }

  /** `instructionCoverage`: covered instructions as a share of all, 0 for a class without any. */
  function InstructionCoverage(row: CoverageRow): (p: real)
    ensures InstructionTotal(row) == 0 ==> p == 0.0
    ensures InstructionTotal(row) != 0 ==> p * (InstructionTotal(row) as real) == 100.0 * (row.instructionCovered as real)
    ensures row.instructionMissed >= 0 && row.instructionCovered >= 0 ==> 0.0 <= p <= 100.0
  {
    Percentage(row.instructionCovered, InstructionTotal(row))
  }

  /** `branchCoverage`: covered branches as a share of all, 0 for a class without branches. */
  function BranchCoverage(row: CoverageRow): (p: real)
    ensures BranchTotal(row) == 0 ==> p == 0.0
    ensures BranchTotal(row) != 0 ==> p * (BranchTotal(row) as real) == 100.0 * (row.branchCovered as real)
    ensures row.branchMissed >= 0 && row.branchCovered >= 0 ==> 0.0 <= p <= 100.0
  {
    Percentage(row.branchCovered, BranchTotal(row))
  }

  /** `fullClassName`: `package.Class`, or the bare class name in the default package. */
  function FullClassName(row: CoverageRow): (r: string)
    ensures row.packageName == [] ==> r == row.className
    ensures row.packageName != [] ==>
      (|r| == |row.packageName| + 1 + |row.className| && StartsWith(r, row.packageName)
       && r[|row.packageName|] == '.' && r[|row.packageName| + 1..] == row.className)
  {
    if row.packageName != [] then row.packageName + "." + row.className else row.className
  }

  const ExpectedColumnCount: nat := 13

  const ExpectedHeaders: seq<string> := [
    "GROUP", "PACKAGE", "CLASS", "INSTRUCTION_MISSED", "INSTRUCTION_COVERED",
    "BRANCH_MISSED", "BRANCH_COVERED", "LINE_MISSED", "LINE_COVERED",
    "COMPLEXITY_MISSED", "COMPLEXITY_COVERED", "METHOD_MISSED", "METHOD_COVERED"]

  // ------------------------------------------------------------- line splitter

  /** What one character of a line contributes to the fields: a character of
      the current field, or the end of a field. */
  datatype Tok = Lit(c: char) | Sep

  /** The scanner of `parseCSVLine` as a function of the rest of the line and
      whether it is inside quotes: an opening quote and a closing quote are
      dropped, a doubled quote inside quotes is one literal quote, a comma
      outside quotes ends a field, every other character is kept. */
  function Tokens(line: string, inQuotes: bool): seq<Tok>
    decreases |line|
  {
    if line == [] then []
    else if line[0] == '"' && !inQuotes then Tokens(line[1..], true)
    else if line[0] == '"' && inQuotes then
      if |line| > 1 && line[1] == '"' then [Lit('"')] + Tokens(line[2..], true)
      else Tokens(line[1..], false)
    else if line[0] == ',' && !inQuotes then [Sep] + Tokens(line[1..], false)
    else [Lit(line[0])] + Tokens(line[1..], inQuotes)
  }

  /** Fields are the literal runs between separators; there is always a last field. */
  function Group(toks: seq<Tok>): (r: seq<string>)
    ensures |r| >= 1
  {
    if toks == [] then [[]]
    else
      var g := Group(toks[1..]);
      match toks[0]
      case Sep => [[]] + g
      case Lit(c) => [[c] + g[0]] + g[1..]
  }

  /** The fields of a line. */
  function Fields(line: string): seq<string> {
    Group(Tokens(line, false))
  }

  /** Fields already emitted, the field being built, and the fields of the rest of the line. */
  function Finish(result: seq<string>, current: string, rest: seq<string>): seq<string>
    requires |rest| >= 1
  {
    result + [current + rest[0]] + rest[1..]
  }

  /** `parseCSVLine`: scans the line once, building the current field and
      closing it at every comma outside quotes. */
  method ParseCsvLine(line: string) returns (result: seq<string>)
    ensures result == Fields(line)
  {
    result := [];
    var current: string := [];
    var inQuotes := false;
    var i := 0;
    assert Finish(result, current, Fields(line)) == Fields(line) by {
      var f := Fields(line);
      assert [] + f[0] == f[0];
      assert [f[0]] + f[1..] == f;
    }
    while i < |line|
      invariant 0 <= i <= |line|
      invariant Finish(result, current, Group(Tokens(line[i..], inQuotes))) == Fields(line)
    {
      var ch := line[i];
      if ch == '"' && !inQuotes {
        ScanOpenQuote(line, i);
        inQuotes := true;
      } else if ch == '"' && inQuotes {
        if i + 1 < |line| && line[i + 1] == '"' {
          ScanLiteral(result, current, '"', line[i + 2..], true);
          assert line[i..][2..] == line[i + 2..];
          current := current + ['"'];
          i := i + 1;
        } else {
          assert line[i..][1..] == line[i + 1..];
          inQuotes := false;
        }
      } else if ch == ',' && !inQuotes {
        ScanSeparator(result, current, line[i + 1..]);
        assert line[i..][1..] == line[i + 1..];
        result := result + [current];
        current := [];
      } else {
        ScanLiteral(result, current, ch, line[i + 1..], inQuotes);
        assert line[i..][1..] == line[i + 1..];
        current := current + [ch];
      }
      i := i + 1;
    }
    assert line[i..] == [];
    assert Group(Tokens(line[i..], inQuotes)) == [[]];
    assert current + [] == current;
    result := result + [current];
  }

  lemma ScanOpenQuote(line: string, i: nat)
    requires i < |line| && line[i] == '"'
    ensures Tokens(line[i..], false) == Tokens(line[i + 1..], true)
  {
    assert line[i..][1..] == line[i + 1..];
  }

  lemma ScanLiteral(result: seq<string>, current: string, c: char, rest: string, q: bool)
    ensures Finish(result, current, Group([Lit(c)] + Tokens(rest, q)))
         == Finish(result, current + [c], Group(Tokens(rest, q)))
  {
    var t := [Lit(c)] + Tokens(rest, q);
    assert t[1..] == Tokens(rest, q);
    var g := Group(Tokens(rest, q));
    assert current + ([c] + g[0]) == (current + [c]) + g[0];
  }

  lemma ScanSeparator(result: seq<string>, current: string, rest: string)
    ensures Finish(result, current, Group([Sep] + Tokens(rest, false)))
         == Finish(result + [current], [], Group(Tokens(rest, false)))
  {
    var t := [Sep] + Tokens(rest, false);
    assert t[1..] == Tokens(rest, false);
    var g := Group(Tokens(rest, false));
    assert current + [] == current;
    assert [] + g[0] == g[0];
  }

  function SepCount(toks: seq<Tok>): nat {
    if toks == [] then 0 else (if toks[0] == Sep then 1 else 0) + SepCount(toks[1..])
  }

  /** One field more than there are separating commas. */
  lemma {:induction false} GroupCount(toks: seq<Tok>)
    ensures |Group(toks)| == SepCount(toks) + 1
  {
    if toks != [] { GroupCount(toks[1..]); }
  }

  /** Without quotes a line is split at every comma. */
  lemma {:induction false} FieldsUnquoted(line: string)
    requires '"' !in line
    ensures Fields(line) == Split(line, ',')
  {
    if line != [] {
      assert '"' !in line[1..];
      FieldsUnquoted(line[1..]);
      var t := Tokens(line, false);
      if line[0] == ',' {
        assert t == [Sep] + Tokens(line[1..], false);
        assert t[1..] == Tokens(line[1..], false);
      } else {
        assert t == [Lit(line[0])] + Tokens(line[1..], false);
        assert t[1..] == Tokens(line[1..], false);
      }
    }
  }

  /** A quote inside a quoted field is written twice. */
  function Escape(s: string): (r: string)
    ensures |r| >= |s|
  {
    if s == [] then [] else (if s[0] == '"' then "\"\"" else [s[0]]) + Escape(s[1..])
  }

  /** A field as a CSV writer quotes it. */
  function Quote(s: string): string {
    "\"" + Escape(s) + "\""
  }

  /** Quoted fields joined by commas. */
  function JoinQuoted(fields: seq<string>): string
    requires |fields| >= 1
  {
    if |fields| == 1 then Quote(fields[0]) else Quote(fields[0]) + "," + JoinQuoted(fields[1..])
  }

  function Lits(s: string): seq<Tok> {
    if s == [] then [] else [Lit(s[0])] + Lits(s[1..])
  }

  /** Inside quotes, an escaped body and its closing quote read back as the body's characters. */
  lemma {:induction false} TokensOfEscaped(s: string, rest: string)
    requires rest == [] || rest[0] != '"'
    ensures Tokens(Escape(s) + "\"" + rest, true) == Lits(s) + Tokens(rest, false)
  {
    if s == [] {
      assert Escape(s) + "\"" + rest == "\"" + rest;
      EscapedEnd(rest);
    } else {
      EscapedStep(s, rest);
      TokensOfEscaped(s[1..], rest);
      assert Lits(s) == [Lit(s[0])] + Lits(s[1..]);
      ConsThenAppend(Tokens(Escape(s) + "\"" + rest, true), Tokens(Escape(s[1..]) + "\"" + rest, true),
        Lit(s[0]), Lits(s), Lits(s[1..]), Tokens(rest, false));
    }
  }

  lemma ConsThenAppend<T>(a: seq<T>, b: seq<T>, h: T, l: seq<T>, l1: seq<T>, tail: seq<T>)
    requires a == [h] + b && b == l1 + tail && l == [h] + l1
    ensures a == l + tail
  {
  }

  /** The closing quote leaves the quotes. */
  lemma EscapedEnd(rest: string)
    requires rest == [] || rest[0] != '"'
    ensures Tokens("\"" + rest, true) == Tokens(rest, false)
  {
    assert ("\"" + rest)[1..] == rest;
  }

  /** The first character of an escaped body reads back as itself. */
  lemma EscapedStep(s: string, rest: string)
    requires s != []
    ensures Tokens(Escape(s) + "\"" + rest, true) == [Lit(s[0])] + Tokens(Escape(s[1..]) + "\"" + rest, true)
  {
    var x := Escape(s) + "\"" + rest;
    var y := Escape(s[1..]) + "\"" + rest;
    if s[0] == '"' {
      assert x == "\"\"" + y;
      assert x[2..] == y;
    } else {
      assert x == [s[0]] + y;
      assert x[1..] == y;
    }
  }

  lemma {:induction false} GroupOfLits(s: string, t: seq<Tok>)
    ensures Group(Lits(s) + t) == [s + Group(t)[0]] + Group(t)[1..]
  {
    if s != [] {
      var u := Lits(s) + t;
      assert u == [Lit(s[0])] + (Lits(s[1..]) + t);
      assert u[1..] == Lits(s[1..]) + t;
      GroupOfLits(s[1..], t);
      assert [s[0]] + (s[1..] + Group(t)[0]) == s + Group(t)[0];
    } else {
      assert Lits(s) + t == t;
      assert s + Group(t)[0] == Group(t)[0];
      assert [Group(t)[0]] + Group(t)[1..] == Group(t);
    }
  }

  /** Quoting, then reading back, gives the field unchanged, whatever commas or quotes it holds. */
  lemma FieldsOfQuote(s: string)
    ensures Fields(Quote(s)) == [s]
  {
    var q := Quote(s);
    assert q[0] == '"' && q[1..] == Escape(s) + "\"" + [];
    TokensOfEscaped(s, []);
    assert Escape(s) + "\"" + [] == q[1..];
    assert Tokens(q, false) == Tokens(q[1..], true);
    assert Tokens([], false) == [];
    assert Lits(s) + [] == Lits(s);
    GroupOfLits(s, []);
    assert Group([]) == [[]];
    assert s + [] == s;
  }

  /** Any non-empty list of fields survives being written as quoted CSV and read back. */
  lemma {:induction false} FieldsOfJoinQuoted(fields: seq<string>)
    requires |fields| >= 1
    ensures Fields(JoinQuoted(fields)) == fields
  {
    if |fields| == 1 {
      FieldsOfQuote(fields[0]);
    } else {
      var rest := JoinQuoted(fields[1..]);
      var line := JoinQuoted(fields);
      var tail := "," + rest;
      assert line == "\"" + (Escape(fields[0]) + "\"" + tail);
      assert line[0] == '"' && line[1..] == Escape(fields[0]) + "\"" + tail;
      TokensOfEscaped(fields[0], tail);
      assert tail[0] == ',' && tail[1..] == rest;
      assert Tokens(tail, false) == [Sep] + Tokens(rest, false);
      GroupOfLits(fields[0], Tokens(tail, false));
      assert ([Sep] + Tokens(rest, false))[1..] == Tokens(rest, false);
      FieldsOfJoinQuoted(fields[1..]);
      assert Tokens(line, false) == Tokens(line[1..], true);
      var g := Group(Tokens(tail, false));
      assert g == [[]] + fields[1..];
      assert g[0] == [] && g[1..] == fields[1..];
      assert fields[0] + [] == fields[0];
      assert fields == [fields[0]] + fields[1..];
    }
  }

  // ------------------------------------------------------------ header and rows

  /** Why a report is refused. */
  datatype CsvError =
    | FileNotFound(path: string)
    | FileNotReadable(path: string)
    | EmptyFile(path: string)
    | HeaderColumnCount(headerCount: nat)
    | HeaderMismatch(position: nat, expected: string, found: string)
    | TooFewColumns(columnCount: nat)
    | LineFailure(lineNumber: nat, fileName: string, column: string, value: string)

  /** Why one data line is refused. */
  datatype LineError = ColumnCount(got: nat) | InvalidInteger(column: string, value: string)

  /** `validateHeader`: exactly 13 fields, each equal, once trimmed, to the expected name;
      the first column that differs is reported with its untrimmed text. */
  function ValidateHeader(headerLine: string): Result<(), CsvError> {
    var headers := Fields(headerLine);
    if |headers| != ExpectedColumnCount then Err(HeaderColumnCount(|headers|))
    else HeaderColumns(headers, ExpectedHeaders, 0)
  }

  /** `forEachIndexed` over the header fields from position `from` on, each
      compared, once trimmed, with the name expected at its position. */
  function HeaderColumns(headers: seq<string>, expected: seq<string>, from: nat): (r: Result<(), CsvError>)
    requires |headers| == |expected| && from <= |expected|
    ensures r.Ok? <==> forall k :: from <= k < |expected| ==> Trim(headers[k]) == expected[k]
    ensures r.Err? ==>
      exists k :: (from <= k < |expected|
        && r == Err(HeaderMismatch(k + 1, expected[k], headers[k]))
        && Trim(headers[k]) != expected[k]
        && forall j :: from <= j < k ==> Trim(headers[j]) == expected[j])
    decreases |expected| - from
  {
    if from == |expected| then Ok(())
    else if Trim(headers[from]) != expected[from] then Err(HeaderMismatch(from + 1, expected[from], headers[from]))
    else HeaderColumns(headers, expected, from + 1)
  }

  /** The header JaCoCo writes is accepted. */
  lemma StandardHeaderAccepted()
    ensures ValidateHeader(Join(ExpectedHeaders, ',')).Ok?
  {
    StandardHeaderFields();
    HeaderFieldsAccepted(Join(ExpectedHeaders, ','));
  }

  lemma StandardHeaderFields()
    ensures Fields(Join(ExpectedHeaders, ',')) == ExpectedHeaders
  {
    var line := Join(ExpectedHeaders, ',');
    ExpectedHeadersPlain();
    JoinNoQuote(ExpectedHeaders, ',', '"');
    FieldsUnquoted(line);
    SplitJoin(ExpectedHeaders, ',');
  }

  /** A line whose fields are the expected names passes the header check. */
  lemma HeaderFieldsAccepted(line: string)
    requires Fields(line) == ExpectedHeaders
    ensures ValidateHeader(line).Ok?
  {
    ExpectedHeadersPlain();
    forall k | 0 <= k < 13 ensures Trim(ExpectedHeaders[k]) == ExpectedHeaders[k] {
      TrimIdentity(ExpectedHeaders[k]);
    }
  }

  /** Upper-case letters and underscores only, as in every expected column name. */
  predicate ColumnName(s: string) {
    s != [] && forall i :: 0 <= i < |s| ==> 'A' <= s[i] <= 'Z' || s[i] == '_'
  }

  lemma ColumnNamePlain(s: string)
    requires ColumnName(s)
    ensures PlainName(s)
  {
    assert !IsWhitespace(s[0]) && !IsWhitespace(s[|s| - 1]);
  }

  lemma ExpectedHeadersPlain()
    ensures forall k :: 0 <= k < 13 ==> PlainName(ExpectedHeaders[k])
  {
    HeadersPlainFrom(0, 7);
    HeadersPlainFrom(7, 13);
  }

  lemma HeadersPlainFrom(lo: nat, hi: nat)
    requires lo <= hi <= 13 && hi - lo <= 7
    ensures forall k :: lo <= k < hi ==> PlainName(ExpectedHeaders[k])
  {
    forall k | lo <= k < hi ensures PlainName(ExpectedHeaders[k]) {
      ColumnNamePlain(ExpectedHeaders[k]);
    }
  }

  /** A join of pieces that lack a character and a delimiter other than it lacks it too. */
  lemma {:induction false} JoinNoQuote(xs: seq<string>, d: char, c: char)
    requires c != d
    requires forall k :: 0 <= k < |xs| ==> c !in xs[k]
    ensures c !in Join(xs, d)
  {
    if |xs| > 1 {
      JoinNoQuote(xs[1..], d, c);
    }
  }

  /** `parseIntColumn`: the trimmed cell as a 32-bit integer, or an error quoting the raw cell. */
  function ParseIntColumn(value: string, columnName: string): (r: Result<int, LineError>)
    ensures r.Ok? <==> ParseInt(Trim(value)).Some?
    ensures r.Ok? ==> r.value == ParseInt(Trim(value)).value && IntMin <= r.value <= IntMax
    ensures r.Err? ==> r.error == InvalidInteger(columnName, value)
  {
    match ParseInt(Trim(value))
    case Some(n) => Ok(n)
    case None => Err(InvalidInteger(columnName, value))
  }

  /** The ten count cells of a line, each with its column name. */
  function CountCells(columns: seq<string>): (cells: seq<(string, string)>)
    requires |columns| >= ExpectedColumnCount
    ensures |cells| == 10 && forall k :: 0 <= k < 10 ==> cells[k] == (columns[k + 3], ExpectedHeaders[k + 3])
  {
    seq(10, k requires 0 <= k < 10 => (columns[k + 3], ExpectedHeaders[k + 3]))
  }

  function ParseCell(cell: (string, string)): Result<int, LineError> {
    ParseIntColumn(cell.0, cell.1)
  }

  /** `parseLine`: at least 13 fields (more are ignored); the three names trimmed and
      the ten counts parsed left to right, the first bad one reported. */
  function ParseLine(line: string): Result<CoverageRow, LineError> {
    var columns := Fields(line);
    if |columns| < ExpectedColumnCount then Err(ColumnCount(|columns|))
    else
      match MapResult(CountCells(columns), ParseCell)
      case Err(e) => Err(e)
      case Ok(v) =>
        Ok(CoverageRow(Trim(columns[0]), Trim(columns[1]), Trim(columns[2]),
                       v[0], v[1], v[2], v[3], v[4], v[5], v[6], v[7], v[8], v[9]))
  }

  /** What a line yields: a short line is refused whatever it holds, and a row
      takes its fields from the matching columns. */
  lemma ParseLineShape(line: string)
    ensures |Fields(line)| < ExpectedColumnCount ==> ParseLine(line) == Err(ColumnCount(|Fields(line)|))
    ensures ParseLine(line).Ok? ==> var columns := Fields(line); var row := ParseLine(line).value;
      && |columns| >= ExpectedColumnCount
      && row.group == Trim(columns[0]) && row.packageName == Trim(columns[1]) && row.className == Trim(columns[2])
      && Ok(row.instructionMissed) == ParseIntColumn(columns[3], "INSTRUCTION_MISSED")
      && Ok(row.instructionCovered) == ParseIntColumn(columns[4], "INSTRUCTION_COVERED")
      && Ok(row.branchMissed) == ParseIntColumn(columns[5], "BRANCH_MISSED")
      && Ok(row.branchCovered) == ParseIntColumn(columns[6], "BRANCH_COVERED")
      && Ok(row.methodCovered) == ParseIntColumn(columns[12], "METHOD_COVERED")
    ensures ParseLine(line).Err? && ParseLine(line).error.InvalidInteger? ==>
      exists k :: 3 <= k < ExpectedColumnCount && ParseIntColumn(Fields(line)[k], ExpectedHeaders[k]) == Err(ParseLine(line).error)
  {
    var columns := Fields(line);
    if |columns| >= ExpectedColumnCount {
      var cells := CountCells(columns);
      var m := MapResult(cells, ParseCell);
      if m.Ok? {
        assert ParseCell(cells[0]) == Ok(m.value[0]);
        assert ParseCell(cells[1]) == Ok(m.value[1]);
        assert ParseCell(cells[2]) == Ok(m.value[2]);
        assert ParseCell(cells[3]) == Ok(m.value[3]);
        assert ParseCell(cells[9]) == Ok(m.value[9]);
      } else {
        var i :| 0 <= i < |cells| && ParseCell(cells[i]) == Err(m.error) && forall j :: 0 <= j < i ==> ParseCell(cells[j]).Ok?;
        assert ParseIntColumn(columns[i + 3], ExpectedHeaders[i + 3]) == Err(m.error);
      }
    }
  }

  /** A row written back as a plain CSV line. */
  function RowLine(row: CoverageRow): string {
    Join(RowFields(row), ',')
  }

  function RowFields(row: CoverageRow): seq<string> {
    [row.group, row.packageName, row.className,
     IntToString(row.instructionMissed), IntToString(row.instructionCovered),
     IntToString(row.branchMissed), IntToString(row.branchCovered),
     IntToString(row.lineMissed), IntToString(row.lineCovered),
     IntToString(row.complexityMissed), IntToString(row.complexityCovered),
     IntToString(row.methodMissed), IntToString(row.methodCovered)]
  }

  /** A name JaCoCo can write unquoted: no comma, no quote, no surrounding blanks. */
  predicate PlainName(s: string) {
    ',' !in s && '"' !in s && (s != [] ==> !IsWhitespace(s[0]) && !IsWhitespace(s[|s| - 1]))
  }

  /** A count a 32-bit `Int` holds. */
  predicate IsInt32(n: int) {
    IntMin <= n <= IntMax
  }

  predicate RowWritable(row: CoverageRow) {
    PlainName(row.group) && PlainName(row.packageName) && PlainName(row.className)
    && IsInt32(row.instructionMissed) && IsInt32(row.instructionCovered)
    && IsInt32(row.branchMissed) && IsInt32(row.branchCovered)
    && IsInt32(row.lineMissed) && IsInt32(row.lineCovered)
    && IsInt32(row.complexityMissed) && IsInt32(row.complexityCovered)
    && IsInt32(row.methodMissed) && IsInt32(row.methodCovered)
  }

  lemma IntToStringPlain(n: int)
    ensures PlainName(IntToString(n))
  {
    var s := IntToString(n);
    var d := NatToString(if n < 0 then -n else n);
    assert forall k :: 0 <= k < |d| ==> IsDigit(d[k]);
    assert forall k :: 0 <= k < |s| ==> s[k] == '-' || IsDigit(s[k]) by {
      if n < 0 { assert s == "-" + d; }
    }
  }

  /** Every writable row reads back from the line a writer makes of it. */
  lemma ParseLineOfRowLine(row: CoverageRow)
    requires RowWritable(row)
    ensures ParseLine(RowLine(row)) == Ok(row)
  {
    FieldsOfRowLine(row);
    CountsOfRow(row);
    TrimmedNames(row);
    ParseLineOfCounts(RowLine(row), RowFields(row),
      [row.instructionMissed, row.instructionCovered, row.branchMissed, row.branchCovered,
       row.lineMissed, row.lineCovered, row.complexityMissed, row.complexityCovered,
       row.methodMissed, row.methodCovered]);
  }

  lemma TrimmedNames(row: CoverageRow)
    requires RowWritable(row)
    ensures Trim(row.group) == row.group && Trim(row.packageName) == row.packageName && Trim(row.className) == row.className
  {
    TrimIdentity(row.group);
    TrimIdentity(row.packageName);
    TrimIdentity(row.className);
  }

  lemma ParseLineOfCounts(line: string, columns: seq<string>, counts: seq<int>)
    requires Fields(line) == columns && |columns| >= ExpectedColumnCount && |counts| == 10
    requires MapResult(CountCells(columns), ParseCell) == Ok(counts)
    ensures ParseLine(line) == Ok(CoverageRow(Trim(columns[0]), Trim(columns[1]), Trim(columns[2]),
      counts[0], counts[1], counts[2], counts[3], counts[4], counts[5], counts[6], counts[7], counts[8], counts[9]))
  {
  }

  lemma FieldsOfRowLine(row: CoverageRow)
    requires RowWritable(row)
    ensures Fields(RowLine(row)) == RowFields(row)
  {
    var fs := RowFields(row);
    forall k | 3 <= k < 13 ensures PlainName(fs[k]) {
      IntToStringPlain(CountAt(row, k));
    }
    JoinNoQuote(fs, ',', '"');
    FieldsUnquoted(RowLine(row));
    SplitJoin(fs, ',');
  }

  /** The count written in column `k` (3 to 12) of a row's line. */
  function CountAt(row: CoverageRow, k: nat): (n: int)
    requires 3 <= k < 13
    ensures RowFields(row)[k] == IntToString(n)
  {
    if k == 3 then row.instructionMissed else if k == 4 then row.instructionCovered
    else if k == 5 then row.branchMissed else if k == 6 then row.branchCovered
    else if k == 7 then row.lineMissed else if k == 8 then row.lineCovered
    else if k == 9 then row.complexityMissed else if k == 10 then row.complexityCovered
    else if k == 11 then row.methodMissed else row.methodCovered
  }

  lemma CellOfCount(n: int, columnName: string)
    requires IsInt32(n)
    ensures ParseIntColumn(IntToString(n), columnName) == Ok(n)
  {
    IntToStringPlain(n);
    TrimIdentity(IntToString(n));
    ParseIntOfIntToString(n);
  }

  lemma CountsOfRow(row: CoverageRow)
    requires RowWritable(row)
    ensures MapResult(CountCells(RowFields(row)), ParseCell) ==
      Ok([row.instructionMissed, row.instructionCovered, row.branchMissed, row.branchCovered,
          row.lineMissed, row.lineCovered, row.complexityMissed, row.complexityCovered,
          row.methodMissed, row.methodCovered])
  {
    var fs := RowFields(row);
    var cells := CountCells(fs);
    var counts := [row.instructionMissed, row.instructionCovered, row.branchMissed, row.branchCovered,
          row.lineMissed, row.lineCovered, row.complexityMissed, row.complexityCovered,
          row.methodMissed, row.methodCovered];
    forall k | 0 <= k < 10 ensures ParseCell(cells[k]) == Ok(counts[k]) {
      var n := CountAt(row, k + 3);
      assert n == counts[k];
      assert cells[k] == (IntToString(n), ExpectedHeaders[k + 3]);
      CellOfCount(n, ExpectedHeaders[k + 3]);
    }
    var m := MapResult(cells, ParseCell);
    assert m.Ok?;
    assert |m.value| == |counts|;
    assert forall k :: 0 <= k < 10 ==> m.value[k] == counts[k];
    assert m.value == counts;
    assert m == Ok(counts);
  }

  // ------------------------------------------------------------------- parse

  /** The report file: where it is, the two access checks, and its lines. */
  datatype CsvFile = CsvFile(path: string, name: string, present: bool, readable: bool, lines: seq<string>)

  predicate NotBlank(line: string) {
    !IsBlank(line)
  }

  /** One data line inside `parse`'s handler: a bad count is reported with the
      given line number, a short line escapes the handler without one. */
  function RowAt(fileName: string, lineNumber: nat, line: string): (r: Result<CoverageRow, CsvError>)
    ensures r.Ok? <==> ParseLine(line).Ok?
    ensures r.Ok? ==> r.value == ParseLine(line).value
    ensures ParseLine(line).Err? && ParseLine(line).error.ColumnCount? ==>
      r == Err(TooFewColumns(ParseLine(line).error.got))
    ensures ParseLine(line).Err? && ParseLine(line).error.InvalidInteger? ==>
      r == Err(LineFailure(lineNumber, fileName, ParseLine(line).error.column, ParseLine(line).error.value))
  {
    match ParseLine(line)
    case Err(ColumnCount(n)) => Err(TooFewColumns(n))
    case Err(InvalidInteger(column, value)) => Err(LineFailure(lineNumber, fileName, column, value))
    case Ok(row) => Ok(row)
  }

  /** `mapIndexed` over the non-blank data lines: the number reported is
      `index + 2`, where `index` counts only the non-blank lines. */
  function ParseRowsAsWritten(fileName: string, lines: seq<string>): Result<seq<CoverageRow>, CsvError> {
    MapIndexed(lines, ReportedAt(fileName), 0)
  }

  /** The body of the `mapIndexed` lambda. */
  function ReportedAt(fileName: string): (nat, string) -> Result<CoverageRow, CsvError> {
    (index: nat, line: string) => RowAt(fileName, index + 2, line)
  }

  /** `parse` as written: the file checks, a first line, the header, then the non-blank data lines. */
  function ParseAsWritten(file: CsvFile): Result<seq<CoverageRow>, CsvError> {
    if !file.present then Err(FileNotFound(file.path))
    else if !file.readable then Err(FileNotReadable(file.path))
    else if file.lines == [] then Err(EmptyFile(file.path))
    else
      match ValidateHeader(file.lines[0])
      case Err(e) => Err(e)
      case Ok(_) => ParseRowsAsWritten(file.name, Filter(file.lines[1..], NotBlank))
  }

  /** The data lines numbered as lines of the file (the first is line 2),
      the blank ones dropped, and each parsed with its own line number. */
  function ParseRows(fileName: string, lines: seq<string>): Result<seq<CoverageRow>, CsvError> {
    MapKept(lines, NotBlank, NumberedAt(fileName), 2)
  }

  function NumberedAt(fileName: string): (nat, string) -> Result<CoverageRow, CsvError> {
    (lineNumber: nat, line: string) => RowAt(fileName, lineNumber, line)
  }

  /** `parse` with a bad count reported at its line in the file (the header is line 1). */
  function Parse(file: CsvFile): Result<seq<CoverageRow>, CsvError> {
    if !file.present then Err(FileNotFound(file.path))
    else if !file.readable then Err(FileNotReadable(file.path))
    else if file.lines == [] then Err(EmptyFile(file.path))
    else
      match ValidateHeader(file.lines[0])
      case Err(e) => Err(e)
      case Ok(_) => ParseRows(file.name, file.lines[1..])
  }

  /** Both readings accept the same files with the same rows; they differ only in
      the line number of a bad count. */
  lemma ParseAgreesWithAsWritten(file: CsvFile)
    ensures Parse(file).Ok? <==> ParseAsWritten(file).Ok?
    ensures Parse(file).Ok? ==> Parse(file).value == ParseAsWritten(file).value
  {
    if file.present && file.readable && file.lines != [] && ValidateHeader(file.lines[0]).Ok? {
      RowsAgree(file.name, file.lines[1..]);
    }
  }

  lemma RowsAgree(fileName: string, lines: seq<string>)
    ensures Agree(ParseRows(fileName, lines), ParseRowsAsWritten(fileName, Filter(lines, NotBlank)))
  {
    forall a: nat, b: nat, line: string | NotBlank(line)
      ensures Agree(NumberedAt(fileName)(a, line), ReportedAt(fileName)(b, line))
    {
      RowAtAgrees(fileName, a, b + 2, line);
    }
    MapKeptAgrees(lines, NotBlank, NumberedAt(fileName), 2, ReportedAt(fileName), 0);
  }

  /** The line number only matters to the error a bad count gives. */
  lemma RowAtAgrees(fileName: string, n1: nat, n2: nat, line: string)
    ensures Agree(RowAt(fileName, n1, line), RowAt(fileName, n2, line))
  {
  }

  /** The checks before any data line, in the order `parse` makes them. */
  lemma ParseRejects(file: CsvFile)
    ensures !file.present ==> Parse(file) == Err(FileNotFound(file.path))
    ensures file.present && !file.readable ==> Parse(file) == Err(FileNotReadable(file.path))
    ensures file.present && file.readable && file.lines == [] ==> Parse(file) == Err(EmptyFile(file.path))
    ensures file.present && file.readable && file.lines != [] && ValidateHeader(file.lines[0]).Err? ==>
      Parse(file) == Err(ValidateHeader(file.lines[0]).error)
  {
  }

  /** A report with the header and nothing else has no rows. */
  lemma HeaderOnly(file: CsvFile)
    requires file.present && file.readable && |file.lines| >= 1 && ValidateHeader(file.lines[0]).Ok?
    requires forall i :: 1 <= i < |file.lines| ==> IsBlank(file.lines[i])
    ensures Parse(file) == Ok([])
  {
    var data := file.lines[1..];
    forall i | 0 <= i < |data| ensures !NotBlank(data[i]) {
      assert data[i] == file.lines[i + 1];
    }
    FilterNone(data, NotBlank);
    RowsAgree(file.name, data);
  }

  /** The rows of a successful parse come one per non-blank line after the header, in order. */
  lemma ParsedRows(file: CsvFile)
    requires Parse(file).Ok?
    ensures var data := Filter(file.lines[1..], NotBlank);
      |Parse(file).value| == |data| && forall i :: 0 <= i < |data| ==> ParseLine(data[i]) == Ok(Parse(file).value[i])
  {
    RowsAgree(file.name, file.lines[1..]);
    WrittenRows(file.name, Filter(file.lines[1..], NotBlank), Parse(file).value);
  }

  /** As written too, each row is the parse of its line. */
  lemma WrittenRows(fileName: string, data: seq<string>, rows: seq<CoverageRow>)
    requires ParseRowsAsWritten(fileName, data) == Ok(rows)
    ensures |rows| == |data| && forall i :: 0 <= i < |data| ==> ParseLine(data[i]) == Ok(rows[i])
  {
    ReportedRowsParse(fileName);
    MapIndexedThrough(data, ReportedAt(fileName), rows, ParseLine);
  }

  lemma ReportedRowsParse(fileName: string)
    ensures forall n: nat, line: string :: ReportedAt(fileName)(n, line).Ok? ==>
      ParseLine(line) == Ok(ReportedAt(fileName)(n, line).value)
  {
    forall n: nat, line: string | ReportedAt(fileName)(n, line).Ok?
      ensures ParseLine(line) == Ok(ReportedAt(fileName)(n, line).value)
    {
      RowAtOk(fileName, n + 2, line, RowAt(fileName, n + 2, line).value);
    }
  }

  lemma RowAtOk(fileName: string, lineNumber: nat, line: string, row: CoverageRow)
    requires RowAt(fileName, lineNumber, line) == Ok(row)
    ensures ParseLine(line) == Ok(row)
  {
  }

  /** A bad count in any file: the line number reported is the number of the bad
      line in the file, that line is not blank and fails with the reported column
      and value, and every non-blank data line before it parses. */
  lemma ParseLineNumber(file: CsvFile)
    requires Parse(file).Err? && Parse(file).error.LineFailure?
    ensures var e := Parse(file).error;
      && 2 <= e.lineNumber <= |file.lines| && e.fileName == file.name
      && NotBlank(file.lines[e.lineNumber - 1])
      && ParseLine(file.lines[e.lineNumber - 1]) == Err(InvalidInteger(e.column, e.value))
      && forall j :: 1 <= j < e.lineNumber - 1 && NotBlank(file.lines[j]) ==> ParseLine(file.lines[j]).Ok?
  {
    var e := Parse(file).error;
    ParseFailedRows(file);
    var data := file.lines[1..];
    var i := MapKeptFirstError(data, NotBlank, NumberedAt(file.name), 2);
    RowAtLineFailure(file.name, 2 + i, data[i], e);
    assert data[i] == file.lines[e.lineNumber - 1];
    forall j | 1 <= j < e.lineNumber - 1 && NotBlank(file.lines[j]) ensures ParseLine(file.lines[j]).Ok? {
      assert data[j - 1] == file.lines[j];
      RowAtSucceeds(file.name, 2 + (j - 1), data[j - 1]);
    }
  }

  /** The code as written: the line number reported, less 2, is the position of the
      bad line among the non-blank data lines, that is, the number of non-blank data
      lines before it. */
  lemma ParseAsWrittenLineNumber(file: CsvFile)
    requires ParseAsWritten(file).Err? && ParseAsWritten(file).error.LineFailure?
    ensures var e := ParseAsWritten(file).error;
      var data := Filter(file.lines[1..], NotBlank);
      && 2 <= e.lineNumber < |data| + 2 && e.fileName == file.name
      && ParseLine(data[e.lineNumber - 2]) == Err(InvalidInteger(e.column, e.value))
      && forall j :: 0 <= j < e.lineNumber - 2 ==> ParseLine(data[j]).Ok?
  {
    var e := ParseAsWritten(file).error;
    ParseAsWrittenFailedRows(file);
    var data := Filter(file.lines[1..], NotBlank);
    var i := MapIndexedFirstError(data, ReportedAt(file.name));
    ReportedAtIs(file.name, i, data[i]);
    RowAtLineFailure(file.name, i + 2, data[i], e);
    assert data[e.lineNumber - 2] == data[i];
    forall j | 0 <= j < e.lineNumber - 2 ensures ParseLine(data[j]).Ok? {
      ReportedAtIs(file.name, j, data[j]);
      RowAtSucceeds(file.name, j + 2, data[j]);
    }
  }

  /** A bad count comes from the data lines: the checks before them fail otherwise. */
  lemma ParseFailedRows(file: CsvFile)
    requires Parse(file).Err? && Parse(file).error.LineFailure?
    ensures file.lines != [] && Parse(file) == ParseRows(file.name, file.lines[1..])
  {
  }

  lemma ParseAsWrittenFailedRows(file: CsvFile)
    requires ParseAsWritten(file).Err? && ParseAsWritten(file).error.LineFailure?
    ensures file.lines != [] && ParseAsWritten(file) == ParseRowsAsWritten(file.name, Filter(file.lines[1..], NotBlank))
  {
  }

  /** A bad count failure carries the line number and file name it was given. */
  lemma RowAtLineFailure(fileName: string, lineNumber: nat, line: string, e: CsvError)
    requires RowAt(fileName, lineNumber, line) == Err(e) && e.LineFailure?
    ensures e == LineFailure(lineNumber, fileName, e.column, e.value)
    ensures ParseLine(line) == Err(InvalidInteger(e.column, e.value))
  {
  }

  /** The `mapIndexed` lambda at index `index` parses at line `index + 2`. */
  lemma ReportedAtIs(fileName: string, index: nat, line: string)
    ensures ReportedAt(fileName)(index, line) == RowAt(fileName, index + 2, line)
  {
  }

  lemma RowAtSucceeds(fileName: string, lineNumber: nat, line: string)
    requires RowAt(fileName, lineNumber, line).Ok?
    ensures ParseLine(line).Ok?
  {
  }

  /** A blank line before a bad count shifts the reported line number: the
      line at position 3 of the file is reported as line 2. */
  lemma LineNumberAfterBlankLine(header: string, bad: string)
    requires ValidateHeader(header).Ok? && ParseLine(bad).Err? && ParseLine(bad).error.InvalidInteger?
    requires !IsBlank(bad)
    ensures var file := CsvFile("/r/report.csv", "report.csv", true, true, [header, "", bad]);
      && ParseAsWritten(file).Err? && ParseAsWritten(file).error.LineFailure? && ParseAsWritten(file).error.lineNumber == 2
      && Parse(file).Err? && Parse(file).error.LineFailure? && Parse(file).error.lineNumber == 3
  {
    var file := CsvFile("/r/report.csv", "report.csv", true, true, [header, "", bad]);
    assert file.lines[1..] == ["", bad];
    BlankThenBad(bad);
    AsWrittenFirst(file.name, bad);
    FixedSecond(file.name, bad);
  }

  lemma BlankThenBad(bad: string)
    requires !IsBlank(bad)
    ensures Filter(["", bad], NotBlank) == [bad]
  {
    assert IsBlank("");
    assert ["", bad][1..] == [bad];
    FilterOne(bad, NotBlank);
  }

  /** As written, the only non-blank data line has index 0 and is reported as line 2. */
  lemma AsWrittenFirst(fileName: string, bad: string)
    requires ParseLine(bad).Err? && ParseLine(bad).error.InvalidInteger?
    ensures ParseRowsAsWritten(fileName, [bad]).Err? && ParseRowsAsWritten(fileName, [bad]).error.LineFailure?
    ensures ParseRowsAsWritten(fileName, [bad]).error.lineNumber == 2
  {
    assert ReportedAt(fileName)(0, bad) == RowAt(fileName, 2, bad);
  }

  /** Numbered by file line, the same data line after a blank one is line 3. */
  lemma FixedSecond(fileName: string, bad: string)
    requires ParseLine(bad).Err? && ParseLine(bad).error.InvalidInteger?
    requires !IsBlank(bad)
    ensures ParseRows(fileName, ["", bad]).Err? && ParseRows(fileName, ["", bad]).error.LineFailure?
    ensures ParseRows(fileName, ["", bad]).error.lineNumber == 3
  {
    assert IsBlank("");
    assert ["", bad][1..] == [bad] && [bad][1..] == [];
    assert ParseRows(fileName, ["", bad]) == MapKept([bad], NotBlank, NumberedAt(fileName), 3);
    assert MapKept([bad], NotBlank, NumberedAt(fileName), 3) == Prepend(RowAt(fileName, 3, bad), Ok([]));
  }
}
