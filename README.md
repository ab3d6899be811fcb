# JaCoCo coverage console plugin — a Dafny model

The model covers the Gradle plugin that prints JaCoCo coverage reports as text tables on the
console. It follows the plugin's pipeline for both report formats:

- **XML report.** Read the report's element tree into a report, its packages and their classes,
  each with counters keyed by type. Optionally keep only the classes that match a list of
  patterns, then add the counters of what is left back up. Lay the result out as a table: an
  optional `PROJECT TOTAL` row, optional package rows and one row per class.
- **CSV report.** Read one row per class from the lines after a fixed 13-column header.
  Select rows by the `Total` switch or by target names. Lay them out as a flat table sorted
  by full class name.
- **Settings.** Command-line options take precedence over the
  `jacocoCoverageConsole { … }` extension, which takes precedence over defaults.

One Dafny module stands for each Kotlin class of the core:

- `XmlReportParser` and `CsvReportParser` are the parsers.
- `CoverageDataFilter` filters CSV rows.
- `XmlCoverageReportRenderer` holds the pattern matcher, report filter, counter aggregation and
  XML table.
- `CoverageReportRenderer` is the CSV table.
- `CoverageConfigurationManager` holds the settings.

Shared modules model the parts of the Kotlin standard library the core relies on:

- `Wrappers` holds `Option` and `Result`.
- `Strings` covers `trim`, `split`, `startsWith`, `toIntOrNull`, padding and `compareTo` on
  strings.
- `Seqs` covers `filter`, `map` and `mapIndexed` with a function that may throw, and the
  `withIndex().filter { … }` numbering the corrected CSV parse uses.
- `Sorting` is the stable `sortedBy`.
- `Percentages` is the coverage percentage.
- `TableFormat` covers `%.2f` and the `%-50s %15s %15s` row.

How the code's state changes are modelled:

- Loops that update state are methods proved against specification functions:
  - `parseCSVLine` becomes `CsvReportParser.ParseCsvLine`;
  - `parseCounters` becomes `XmlReportParser.ParseCounters`;
  - `aggregateCounters` becomes `XmlCoverageReportRenderer.AggregateCounters`, nested loops
    over a mutable map;
  - `filterReport` becomes `XmlCoverageReportRenderer.FilterReport`.
- Everything else in the core is expressions over immutable data and is modelled as functions.
- The renderers are functions that return the list of printed lines.
- Kotlin's default arguments are explicit parameters. `XmlCoverageReportRenderer.RenderCoverageReport`
  takes `targetClasses` (default `emptyList()`), `showTotal` (default `true`) and
  `showPackageSummary` (default `true`), so every call states all three.
- Thrown exceptions are modelled as `Result` errors, one constructor per message.

Behaviours of the code that a reader might not expect, all modelled as written:

- The CSV filter does not treat the `Total` row specially once targets are given.
- A CSV data line with fewer than 13 fields fails without a line number. Its
  `IllegalArgumentException` is not caught by the `NumberFormatException` handler that adds one.
- The XML table is 82 characters wide and has no blank line after its title block.
- The CSV table draws 80-character borders around 82-character rows, and has a blank line after
  its title block (`CoverageReportRenderer.DataRowWidth`, `CoverageReportRenderer.HeaderWidth`).
- In the XML pattern matcher a trailing `*` is checked first. So `*x*` is the literal prefix test
  `*x`, not a "contains" test (`XmlCoverageReportRenderer.StarBothEnds`).
- `getElementsByTagName("package")` and `("class")` return every descendant with that tag.
  Nested elements with those tags would be read again.

## Model

| member | source | states |
|---|---|---|
| XmlReportParser.CoveragePercentage | src/main/kotlin/io/github/mas0061/jacoco/XmlReportParser.kt:18-20 | 0 when `missed + covered` is 0; 100 when nothing is missed and something is covered; percentage × total = 100 × covered otherwise; between 0 and 100 for non-negative counts |
| XmlReportParser.CoverageOf | src/main/kotlin/io/github/mas0061/jacoco/XmlReportParser.kt:32-33 | the instruction/branch coverage of a class, package or report is 0.0 when that counter type is absent, else that counter's percentage |
| XmlReportParser.FullName | src/main/kotlin/io/github/mas0061/jacoco/XmlReportParser.kt:31 | same length as the name, every `/` turned into `.`, every other character kept; no `/` remains |
| XmlReportParser.DisplayName | src/main/kotlin/io/github/mas0061/jacoco/XmlReportParser.kt:44 | `(default package)` for the empty name, otherwise the name with `/` turned into `.` |
| XmlReportParser.AllClassesConcat | src/main/kotlin/io/github/mas0061/jacoco/XmlReportParser.kt:60 | flattening distributes over concatenation of package lists: package order first, then class order |
| XmlReportParser.AllClassesLength | src/main/kotlin/io/github/mas0061/jacoco/XmlReportParser.kt:60 | the flattened list has as many classes as all packages together |
| XmlReportParser.AllClassesMember | src/main/kotlin/io/github/mas0061/jacoco/XmlReportParser.kt:60 | a class is in the flattened list if and only if some package holds it |
| XmlReportParser.DirectChildren | src/main/kotlin/io/github/mas0061/jacoco/XmlReportParser.kt:167-174 | of all descendants with a tag (document order), those whose parent is the element are exactly its children with that tag, in order |
| XmlReportParser.ParseCounters | src/main/kotlin/io/github/mas0061/jacoco/XmlReportParser.kt:166-181 | the loop over every descendant `counter` yields the counters read from the direct `counter` children only (`CountersOf`), stopping at the first bad one |
| XmlReportParser.NonCounterChildIgnored | src/main/kotlin/io/github/mas0061/jacoco/XmlReportParser.kt:173-174 | adding a child that is not a `counter` (such as a `method` with counters of its own) does not change the element's counters |
| XmlReportParser.CountersFromKeys | src/main/kotlin/io/github/mas0061/jacoco/XmlReportParser.kt:174-177 | a successful read has exactly one entry per type that occurs, each stored under its own type |
| XmlReportParser.CountersFromLastWins | src/main/kotlin/io/github/mas0061/jacoco/XmlReportParser.kt:176 | the value stored for a type is the last counter of that type in document order |
| XmlReportParser.CountersFromOk | src/main/kotlin/io/github/mas0061/jacoco/XmlReportParser.kt:170-178 | reading succeeds if and only if every direct counter is well formed |
| XmlReportParser.CountersFromFirstError | src/main/kotlin/io/github/mas0061/jacoco/XmlReportParser.kt:175 | a failed read reports the error of a counter in the list |
| XmlReportParser.CountersFromFailed | src/main/kotlin/io/github/mas0061/jacoco/XmlReportParser.kt:170-178 | once a counter has failed, later counters change nothing |
| XmlReportParser.ParseCounterOfCounterElement | src/main/kotlin/io/github/mas0061/jacoco/XmlReportParser.kt:183-198 | every counter with 32-bit counts reads back unchanged from the element JaCoCo writes for it |
| XmlReportParser.ParseCounterRejects | src/main/kotlin/io/github/mas0061/jacoco/XmlReportParser.kt:187-192 | a non-integer `missed` (checked first) or `covered` is an error quoting the attribute's text; a missing `missed` attribute is an error quoting "" |
| XmlReportParser.ParseCounterKind | src/main/kotlin/io/github/mas0061/jacoco/XmlReportParser.kt:184-195 | a parsed counter carries the element's `type` attribute |
| XmlReportParser.ParseClass | src/main/kotlin/io/github/mas0061/jacoco/XmlReportParser.kt:154-164 | succeeds exactly when the class's counters do; keeps the `name`; `sourcefilename` is absent exactly when the attribute is empty, otherwise its value |
| XmlReportParser.ParseRejects | src/main/kotlin/io/github/mas0061/jacoco/XmlReportParser.kt:67-94 | the checks in order: missing file and unreadable file (both quoting the absolute path), extension other than `xml` ignoring case, I/O and parse failures (these three quoting the file name), root tag other than `report` |
| XmlReportParser.ExtensionIgnoresCase | src/main/kotlin/io/github/mas0061/jacoco/XmlReportParser.kt:91 | `.XML` and `.xml` pass; `.xml.txt` does not (only what follows the last `.` counts) |
| XmlReportParser.ParseClassesStructure | src/main/kotlin/io/github/mas0061/jacoco/XmlReportParser.kt:146-152 | succeeds if and only if every `class` element below the package parses; then one class per such element, in document order, each the parse of its element |
| XmlReportParser.ParseClassesFirstError | src/main/kotlin/io/github/mas0061/jacoco/XmlReportParser.kt:146-152 | a failure is the error of a `class` element, every one before it in document order parsing |
| XmlReportParser.ParsePackageStructure | src/main/kotlin/io/github/mas0061/jacoco/XmlReportParser.kt:134-144 | succeeds if and only if the classes and the package's direct counters both parse; then it has the element's `name`, those counters and those classes; a class error is reported before a counter error of the package |
| XmlReportParser.ParsePackagesStructure | src/main/kotlin/io/github/mas0061/jacoco/XmlReportParser.kt:126-132 | succeeds if and only if every `package` element below the report parses; then one package per such element, in document order, each the parse of its element |
| XmlReportParser.ParsePackagesFirstError | src/main/kotlin/io/github/mas0061/jacoco/XmlReportParser.kt:126-132 | a failure is the error of a `package` element, every one before it in document order parsing |
| XmlReportParser.ParseStructure | src/main/kotlin/io/github/mas0061/jacoco/XmlReportParser.kt:67-86 | a successful parse has a `report` root and takes the report's name and direct counters from it, plus one package per `package` element anywhere below, in document order |
| CsvReportParser.InstructionCoverage | src/main/kotlin/io/github/mas0061/jacoco/CsvReportParser.kt:21-25 | 0 when the instruction total is 0, else percentage × total = 100 × covered; between 0 and 100 for non-negative counts |
| CsvReportParser.BranchCoverage | src/main/kotlin/io/github/mas0061/jacoco/CsvReportParser.kt:22-28 | the same for branches |
| CsvReportParser.FullClassName | src/main/kotlin/io/github/mas0061/jacoco/CsvReportParser.kt:30 | the class name for an empty package, else package, `.`, class name — with the length and the position of the dot |
| CsvReportParser.ParseCsvLine | src/main/kotlin/io/github/mas0061/jacoco/CsvReportParser.kt:114-150 | the character loop with its quote flag, `current` buffer and `result` list returns exactly `Fields(line)`, the scanner's fields |
| CsvReportParser.GroupCount | src/main/kotlin/io/github/mas0061/jacoco/CsvReportParser.kt:135-147 | there is one field more than there are commas outside quotes, so always at least one |
| CsvReportParser.FieldsUnquoted | src/main/kotlin/io/github/mas0061/jacoco/CsvReportParser.kt:114-150 | a line without quotes splits exactly as `split(",")` |
| CsvReportParser.FieldsOfQuote | src/main/kotlin/io/github/mas0061/jacoco/CsvReportParser.kt:123-141 | a field quoted with its quotes doubled reads back unchanged, whatever commas and quotes it holds |
| CsvReportParser.FieldsOfJoinQuoted | src/main/kotlin/io/github/mas0061/jacoco/CsvReportParser.kt:114-150 | any non-empty list of fields written as quoted CSV reads back as the same list |
| CsvReportParser.HeaderColumns | src/main/kotlin/io/github/mas0061/jacoco/CsvReportParser.kt:81-85 | succeeds if and only if every trimmed field equals the expected name at its position; otherwise it reports the first differing column, 1-based, with the untrimmed text |
| CsvReportParser.StandardHeaderAccepted | src/main/kotlin/io/github/mas0061/jacoco/CsvReportParser.kt:39-44 | the 13 JaCoCo column names joined by commas pass the header check |
| CsvReportParser.ParseIntColumn | src/main/kotlin/io/github/mas0061/jacoco/CsvReportParser.kt:152-158 | succeeds if and only if the trimmed cell is a 32-bit integer, and then returns it; otherwise the error names the column and quotes the raw cell |
| CsvReportParser.ParseLineShape | src/main/kotlin/io/github/mas0061/jacoco/CsvReportParser.kt:88-109 | fewer than 13 fields is a column-count error; a row takes its trimmed names and its counts from the matching columns; a bad count is the error of one of columns 4 to 13 |
| CsvReportParser.ParseLineOfRowLine | src/main/kotlin/io/github/mas0061/jacoco/CsvReportParser.kt:88-109 | every row with plain names and 32-bit counts reads back unchanged from the line a CSV writer makes of it |
| CsvReportParser.RowAt | src/main/kotlin/io/github/mas0061/jacoco/CsvReportParser.kt:58-66 | a bad count is reported with a line number; a short line escapes the handler without one |
| CsvReportParser.ParseRejects | src/main/kotlin/io/github/mas0061/jacoco/CsvReportParser.kt:47-53 | the checks in order: missing file, unreadable file, empty file, header errors |
| CsvReportParser.HeaderOnly | src/main/kotlin/io/github/mas0061/jacoco/CsvReportParser.kt:50-57 | a valid header followed only by blank lines gives no rows |
| CsvReportParser.ParsedRows | src/main/kotlin/io/github/mas0061/jacoco/CsvReportParser.kt:55-67 | a successful parse has one row per non-blank line after the header, in order, each the parse of its line |
| CsvReportParser.ParseAgreesWithAsWritten | src/main/kotlin/io/github/mas0061/jacoco/CsvReportParser.kt:55-67 | the corrected `Parse` and the code as written accept the same files with the same rows |
| CsvReportParser.ParseLineNumber | src/main/kotlin/io/github/mas0061/jacoco/CsvReportParser.kt:55-67 | in the corrected parse, for any file failing on a bad count: the reported number is that of a non-blank line of the file after the header, that line fails with the reported column and value, and every non-blank data line before it parses |
| CsvReportParser.ParseAsWrittenLineNumber | src/main/kotlin/io/github/mas0061/jacoco/CsvReportParser.kt:55-63 | as written, for any file failing on a bad count: the reported number less 2 is the position of the bad line among the non-blank data lines, so the count of non-blank data lines before it; it fails with the reported column and value, and every one before it parses |
| CsvReportParser.LineNumberAfterBlankLine | src/main/kotlin/io/github/mas0061/jacoco/CsvReportParser.kt:58-63 | with a blank line before a bad count, the code as written reports line 2 while the line is line 3 of the file |
| CoverageDataFilter.MatchesTargetClasses | src/main/kotlin/io/github/mas0061/jacoco/CoverageDataFilter.kt:32-48 | true if and only if some target matches the row |
| CoverageDataFilter.FilterCoverageData | src/main/kotlin/io/github/mas0061/jacoco/CoverageDataFilter.kt:10-27 | no targets and `showTotal`: exactly the `Total` rows; no targets otherwise: the input unchanged; with targets: exactly the matching rows; never longer than the input |
| CoverageDataFilter.FilterCoverageDataConcat | src/main/kotlin/io/github/mas0061/jacoco/CoverageDataFilter.kt:18-24 | filtering works row by row, so kept rows stay in input order |
| CoverageDataFilter.FilterCoverageDataIdempotent | src/main/kotlin/io/github/mas0061/jacoco/CoverageDataFilter.kt:15-26 | filtering the result again with the same settings changes nothing |
| CoverageDataFilter.ShowTotalIgnoredWithTargets | src/main/kotlin/io/github/mas0061/jacoco/CoverageDataFilter.kt:23-25 | with targets, `showTotal` has no effect |
| CoverageDataFilter.NoMatchGivesEmpty | src/main/kotlin/io/github/mas0061/jacoco/CoverageDataFilter.kt:23-25 | targets that match nothing give an empty list, not an error |
| CoverageDataFilter.NoTotalRow | src/main/kotlin/io/github/mas0061/jacoco/CoverageDataFilter.kt:16-19 | without a `Total` row, no targets and `showTotal` give an empty list |
| CoverageDataFilter.WildcardTarget | src/main/kotlin/io/github/mas0061/jacoco/CoverageDataFilter.kt:39-43 | a target ending in `*` matches exactly when the full class name or the package name starts with the rest of the target |
| CoverageDataFilter.StarSelectsEverything | src/main/kotlin/io/github/mas0061/jacoco/CoverageDataFilter.kt:39-43 | the target `*` selects every row |
| CoverageDataFilter.ExactTarget | src/main/kotlin/io/github/mas0061/jacoco/CoverageDataFilter.kt:45 | any other target matches exactly when it equals the full class name or the package name |
| CoverageDataFilter.ExactTargetIsNotPrefix | src/main/kotlin/io/github/mas0061/jacoco/CoverageDataFilter.kt:45 | such a target does not select a longer class name that merely starts with it |
| CoverageDataFilter.PackageNameSelectsPackage | src/main/kotlin/io/github/mas0061/jacoco/CoverageDataFilter.kt:45 | a bare package name keeps every row of that package |
| CoverageDataFilter.TotalRowSelectable | src/main/kotlin/io/github/mas0061/jacoco/CoverageDataFilter.kt:36-46 | the `Total` row is not excluded: the target `Total` selects it |
| CoverageDataFilter.SampleServiceTargets | src/main/kotlin/io/github/mas0061/jacoco/CoverageDataFilter.kt:23-25 | sample rows: the service wildcard keeps the service class only |
| CoverageDataFilter.SampleTwoTargets | src/main/kotlin/io/github/mas0061/jacoco/CoverageDataFilter.kt:23-25 | sample rows: a wildcard and an exact class name keep both classes in input order |
| XmlCoverageReportRenderer.TrailingStar | src/main/kotlin/io/github/mas0061/jacoco/XmlCoverageReportRenderer.kt:87-90 | a pattern ending in `*` is the prefix test on the rest, whatever it holds |
| XmlCoverageReportRenderer.StarMatchesAll | src/main/kotlin/io/github/mas0061/jacoco/XmlCoverageReportRenderer.kt:87-90 | `*` matches every name |
| XmlCoverageReportRenderer.StarBothEnds | src/main/kotlin/io/github/mas0061/jacoco/XmlCoverageReportRenderer.kt:87-94 | `*x*` is the literal prefix test `*x` because the trailing-star branch comes first |
| XmlCoverageReportRenderer.LeadingStar | src/main/kotlin/io/github/mas0061/jacoco/XmlCoverageReportRenderer.kt:91-94 | a pattern starting but not ending with `*` is a suffix test |
| XmlCoverageReportRenderer.OneInteriorStar | src/main/kotlin/io/github/mas0061/jacoco/XmlCoverageReportRenderer.kt:95-98 | one interior `*` needs both the prefix before it and the suffix after it |
| XmlCoverageReportRenderer.SeveralInteriorStars | src/main/kotlin/io/github/mas0061/jacoco/XmlCoverageReportRenderer.kt:95-101 | two or more interior `*` never match |
| XmlCoverageReportRenderer.NoStar | src/main/kotlin/io/github/mas0061/jacoco/XmlCoverageReportRenderer.kt:103 | without `*` only the identical name matches |
| XmlCoverageReportRenderer.AggregateCounters | src/main/kotlin/io/github/mas0061/jacoco/XmlCoverageReportRenderer.kt:107-120 | the nested loops over a mutable map of pairs return `Aggregate`: per type, the sums of `missed` and of `covered` over the maps holding that type |
| XmlCoverageReportRenderer.AggregateKeys | src/main/kotlin/io/github/mas0061/jacoco/XmlCoverageReportRenderer.kt:110-114 | a type is in the aggregate if and only if some input map holds it |
| XmlCoverageReportRenderer.SumsConcat | src/main/kotlin/io/github/mas0061/jacoco/XmlCoverageReportRenderer.kt:110-114 | types and sums of two lists joined are the union and sums of each |
| XmlCoverageReportRenderer.AggregatePermutation | src/main/kotlin/io/github/mas0061/jacoco/XmlCoverageReportRenderer.kt:107-120 | the aggregate does not depend on the order of the inputs: any two lists holding the same maps the same number of times give the same counters |
| XmlCoverageReportRenderer.AggregateSingle | src/main/kotlin/io/github/mas0061/jacoco/XmlCoverageReportRenderer.kt:107-120 | aggregating one map whose counters are stored under their own types gives that map back |
| XmlCoverageReportRenderer.AggregateNonNegative | src/main/kotlin/io/github/mas0061/jacoco/XmlCoverageReportRenderer.kt:112-113 | sums of non-negative counts are non-negative |
| XmlCoverageReportRenderer.Selected | src/main/kotlin/io/github/mas0061/jacoco/XmlCoverageReportRenderer.kt:54-58 | a class is selected if and only if some pattern matches its full name or its package's display name |
| XmlCoverageReportRenderer.FilterReport | src/main/kotlin/io/github/mas0061/jacoco/XmlCoverageReportRenderer.kt:46-80 | the loop over packages, with the list it appends to, returns `Filtered` |
| XmlCoverageReportRenderer.FilteredPackagesSnoc | src/main/kotlin/io/github/mas0061/jacoco/XmlCoverageReportRenderer.kt:52-71 | one package more appends its pruned form and nothing else |
| XmlCoverageReportRenderer.FilteredShape | src/main/kotlin/io/github/mas0061/jacoco/XmlCoverageReportRenderer.kt:52-71 | the classes left are the selected ones in order; no package is left empty; each package's counters are the aggregate of its classes'; no more packages than before |
| XmlCoverageReportRenderer.FilteredReport | src/main/kotlin/io/github/mas0061/jacoco/XmlCoverageReportRenderer.kt:46-80 | the filtered report keeps its name, its classes are the selected ones in order, its counters are the aggregate of its packages', and each package's those of its classes |
| XmlCoverageReportRenderer.KeptClassesMember | src/main/kotlin/io/github/mas0061/jacoco/XmlCoverageReportRenderer.kt:52-59 | a class is kept if and only if some package holds it and selects it |
| XmlCoverageReportRenderer.StarKeepsAllClasses | src/main/kotlin/io/github/mas0061/jacoco/XmlCoverageReportRenderer.kt:52-59 | a pattern list containing `*` keeps every class |
| XmlCoverageReportRenderer.StarShowsAllClasses | src/main/kotlin/io/github/mas0061/jacoco/XmlCoverageReportRenderer.kt:24-29 | with `*` among the patterns, the class lines printed are every class of the report, each once, sorted by full name |
| XmlCoverageReportRenderer.ShownReport | src/main/kotlin/io/github/mas0061/jacoco/XmlCoverageReportRenderer.kt:24-29 | without patterns the report is rendered unchanged; with patterns, filtered |
| XmlCoverageReportRenderer.RenderLength | src/main/kotlin/io/github/mas0061/jacoco/XmlCoverageReportRenderer.kt:31-43 | eight frame lines, plus one for the total if shown, one per package if the package section appears, one per class |
| XmlCoverageReportRenderer.RenderFrame | src/main/kotlin/io/github/mas0061/jacoco/XmlCoverageReportRenderer.kt:122-140 | the title block and column header come first, the closing border and blank line last |
| XmlCoverageReportRenderer.RenderTotal | src/main/kotlin/io/github/mas0061/jacoco/XmlCoverageReportRenderer.kt:142-155 | with `showTotal` the `PROJECT TOTAL` row is the first line after the column header |
| XmlCoverageReportRenderer.RenderPackageRows | src/main/kotlin/io/github/mas0061/jacoco/XmlCoverageReportRenderer.kt:157-172 | when asked for and with more than one package, the lines after the six frame lines and the optional total line are the package rows of the packages sorted by display name, a sorted permutation of the packages |
| XmlCoverageReportRenderer.PackageRowsAt | src/main/kotlin/io/github/mas0061/jacoco/XmlCoverageReportRenderer.kt:163-171 | package line `j` shows package `j`: its display name with ` (package)` and its coverage |
| XmlCoverageReportRenderer.RenderClassRows | src/main/kotlin/io/github/mas0061/jacoco/XmlCoverageReportRenderer.kt:174-191 | after the frame, total and package lines come the class rows of all classes sorted by full name, a sorted permutation of all classes, and after them only the two footer lines |
| XmlCoverageReportRenderer.ClassRowsAt | src/main/kotlin/io/github/mas0061/jacoco/XmlCoverageReportRenderer.kt:180-189 | class line `j` shows class `j`: its full name indented by two spaces and its coverage |
| XmlCoverageReportRenderer.RowWidth | src/main/kotlin/io/github/mas0061/jacoco/XmlCoverageReportRenderer.kt:10-12 | a row whose name fits in 50 columns, with non-negative counts, is exactly 82 wide, the border width, and starts with the name |
| TableFormat.FormatRowShape | src/main/kotlin/io/github/mas0061/jacoco/XmlCoverageReportRenderer.kt:181-188 | `%-50s %15s %15s`: starts with the name, ends with the last value, widths as padded (longer text is not cut), 82 wide with spaces at 50 and 66 when everything fits |
| TableFormat.FormatPercentShape | src/main/kotlin/io/github/mas0061/jacoco/CoverageReportRenderer.kt:51-52 | `%.2f`: integer digits, `.` and two decimals that read back as the percentage rounded half up to hundredths; a negative percentage has a minus sign before the digits of the rounded magnitude; at most six characters between 0 and 100 |
| TableFormat.RoundHundredths | src/main/kotlin/io/github/mas0061/jacoco/CoverageReportRenderer.kt:51-52 | the nearest whole number of hundredths, ties away from zero |
| Sorting.SortBy | src/main/kotlin/io/github/mas0061/jacoco/CoverageReportRenderer.kt:19 | `sortedBy`: the result is in ascending Unicode-code order of the key and is a permutation of the input |
| Sorting.SortByStable | src/main/kotlin/io/github/mas0061/jacoco/CoverageReportRenderer.kt:19 | elements with equal keys keep their input order |
| CoverageReportRenderer.TableShape | src/main/kotlin/io/github/mas0061/jacoco/CoverageReportRenderer.kt:18-69 | nine lines plus one per row: blank, 80 `=`, title, 80 `=`, blank, header, 80 `-`, the data lines, 80 `-`, blank |
| CoverageReportRenderer.EmptyTable | src/main/kotlin/io/github/mas0061/jacoco/CoverageReportRenderer.kt:18-25 | without rows only the frame is printed |
| CoverageReportRenderer.TableRows | src/main/kotlin/io/github/mas0061/jacoco/CoverageReportRenderer.kt:19-23 | the data lines are the rows sorted by full class name, each row once (a permutation), line `7 + j` for the `j`-th |
| CoverageReportRenderer.DataRowName | src/main/kotlin/io/github/mas0061/jacoco/CoverageReportRenderer.kt:50-61 | a row whose class is `Total` starts with `TOTAL`, every other row with its full class name; the line ends with the branch coverage |
| CoverageReportRenderer.DataRowWidth | src/main/kotlin/io/github/mas0061/jacoco/CoverageReportRenderer.kt:54-61 | with a name of at most 50 characters and non-negative counts a data line is 82 wide, two more than the borders |
| CoverageReportRenderer.HeaderWidth | src/main/kotlin/io/github/mas0061/jacoco/CoverageReportRenderer.kt:36-43 | the column header is 82 wide |
| CoverageReportRenderer.TableStable | src/main/kotlin/io/github/mas0061/jacoco/CoverageReportRenderer.kt:19 | rows with the same full class name keep their input order |
| CoverageReportRenderer.SamplePercentages | src/main/kotlin/io/github/mas0061/jacoco/CoverageReportRenderer.kt:51-52 | 90 of 100 instructions print as `90.00` and 15 of 20 branches as `75.00` |
| CoverageReportRenderer.SampleTable | src/main/kotlin/io/github/mas0061/jacoco/CoverageReportRenderer.kt:18-63 | the two-row sample prints eleven lines, `TOTAL` first (`T` sorts before `c`), then the class under its full name |
| CoverageConfigurationManager.DetermineCsvFile | src/main/kotlin/io/github/mas0061/jacoco/CoverageConfigurationManager.kt:17-23 | a non-empty option is the path; otherwise the extension's path if set; otherwise the project's `build/reports/jacoco/test/jacocoTestReport.csv` |
| CoverageConfigurationManager.CsvOptionOverrides | src/main/kotlin/io/github/mas0061/jacoco/CoverageConfigurationManager.kt:17-23 | with an option the extension plays no part; the default is chosen only without an option |
| CoverageConfigurationManager.OptionPatterns | src/main/kotlin/io/github/mas0061/jacoco/CoverageConfigurationManager.kt:30-35 | a non-empty option gives one pattern per comma plus one, empty ones kept, each the trimmed piece and free of commas; the pieces joined give back the option |
| CoverageConfigurationManager.OptionOverrides | src/main/kotlin/io/github/mas0061/jacoco/CoverageConfigurationManager.kt:32-39 | a non-empty option always wins over the extension's patterns, because splitting never gives an empty list |
| CoverageConfigurationManager.NoOptionUsesExtension | src/main/kotlin/io/github/mas0061/jacoco/CoverageConfigurationManager.kt:36-39 | an empty option gives the extension's patterns unchanged |
| CoverageConfigurationManager.JoinedPatterns | src/main/kotlin/io/github/mas0061/jacoco/CoverageConfigurationManager.kt:30-39 | trimmed, comma-free patterns joined by commas on the command line come back unchanged |
| CoverageConfigurationManager.EmptyPieceKept | src/main/kotlin/io/github/mas0061/jacoco/CoverageConfigurationManager.kt:32 | `a, ,b ` gives `a`, an empty pattern, and `b` |
| CoverageConfigurationManager.Defaults | src/main/kotlin/io/github/mas0061/jacoco/JacocoCoverageExtension.kt:25-55 | a fresh extension: no CSV path (so the default location), the total shown, no patterns |

## Left out

- File access (`exists`, `canRead`, `readLines`, the XML document builder, its feature flags and
  entity resolver) are inputs. A file is modelled by the two access flags plus its lines or
  element tree; a document that cannot be read or parsed is a variant of the tree type.
- `println` is not modelled: the renderers return the lines they would print.
- Percentages are exact rationals, not `Double`. `%.2f` is modelled as rounding the exact value
  half up to hundredths, so a tie that a `Double` misses by a rounding error would differ.
  Negative percentages (negative counts) print with a minus sign, as `Locale.US` does, even
  when they round to `-0.00`. Rationals have no signed zero, though. With no covered items and a
  negative total, Kotlin computes `0.0 / total * 100 == -0.0`, which `%.2f` prints as `-0.00`;
  the model's percentage is `0.0` and prints `0.00`.
- `TableFormat.FormatPercentShape`: says nothing about any digit beyond reading back the rounded
  value, because that is what the format promises.
- Counts are unbounded integers. The 32-bit overflow of `missed + covered` and of the sums in
  `aggregateCounters` is not modelled. `toIntOrNull` does reject text outside the 32-bit range.
- `toIntOrNull` accepts ASCII digits only. `trim` and `isBlank` use a fixed set of whitespace
  characters, the union of `Character.isWhitespace` and `Character.isSpaceChar` as listed in
  `Strings.IsWhitespace`, not a lookup in Java's character tables.
- Strings are sequences of Unicode code points throughout. Kotlin strings are sequences of
  UTF-16 code units, and `length`, `%-50s` padding, `dropLast(1)`, `drop(1)` and `trim` all count
  code units. So a name with characters outside the Basic Multilingual Plane is padded and
  truncated differently here.
- String order in `sortedBy` is order of Unicode code points. Java compares UTF-16 code units,
  which orders characters outside the Basic Multilingual Plane differently against those
  from U+E000 to U+FFFF.
- The iteration order of Kotlin's `LinkedHashMap` in `aggregateCounters` is not modelled: maps
  are unordered here. The result does not depend on it.
- `CsvReportParser.ParseLineShape`: names five of the ten counts explicitly. The other five
  follow the same pattern and are covered by `CsvReportParser.ParseLineOfRowLine`.
- `JacocoCoverageExtension.validateConfiguration`, `JacocoCoverageTask` (choosing XML or CSV,
  the "no data" messages) and `JacocoCoverageConsolePlugin` are Gradle wiring and file checks;
  they are not part of this model.
- `project.file` is an opaque constructor `ProjectFile(path)`; resolving it against the project
  directory is not modelled.

## Findings

| source | as written | input that shows it | evidently intended | confidence | as-written member | corrected member |
|---|---|---|---|---|---|---|
| src/main/kotlin/io/github/mas0061/jacoco/CsvReportParser.kt:55-67 | the line number in "Failed to parse line N" is `index + 2`, where `index` counts only the non-blank data lines | a file of a valid header, an empty line, then a line with a bad count: the bad line is line 3 of the file but is reported as line 2 | the number of the line in the file, so blank lines count | medium, not executed | CsvReportParser.ParseAsWritten, CsvReportParser.ParseAsWrittenLineNumber, CsvReportParser.LineNumberAfterBlankLine | CsvReportParser.Parse, CsvReportParser.ParseLineNumber, CsvReportParser.ParsedRows |
