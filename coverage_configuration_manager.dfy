/** Where the plugin takes its settings from: the command-line options of the
    task first, then the `jacocoCoverageConsole { … }` extension, then defaults. */
module CoverageConfigurationManager {
  import opened Wrappers
  import opened Strings

  /** A `java.io.File`: a path as given, or one that `project.file` resolves
      against the project directory (the resolution itself is not modelled). */
  datatype File = PathFile(path: string) | ProjectFile(relativePath: string)

  /** `JacocoCoverageExtension`: an optional CSV path, whether to show the total,
      and the target patterns. */
  datatype Extension = Extension(csvReportPath: Option<File>, showTotal: bool, targetClasses: seq<string>)

  /** The extension as created, before the build script sets anything. */
  function DefaultExtension(): Extension {
    Extension(None, true, [])
  }

  const DefaultCsvPath: string := "build/reports/jacoco/test/jacocoTestReport.csv"

  /** `determineCsvFile`: the option if given, else the extension's path if set,
      else the default report location of the JaCoCo plugin. */
  function DetermineCsvFile(extension: Extension, csvPathOption: string): (f: File)
    ensures csvPathOption != [] ==> f == PathFile(csvPathOption)
    ensures csvPathOption == [] && extension.csvReportPath.Some? ==> f == extension.csvReportPath.value
    ensures csvPathOption == [] && extension.csvReportPath.None? ==> f == ProjectFile(DefaultCsvPath)
  {
    if csvPathOption != [] then PathFile(csvPathOption)
    else if extension.csvReportPath.Some? then extension.csvReportPath.value
    else ProjectFile(DefaultCsvPath)
  }

  /** A non-empty CSV option wins whatever the extension says; without it the
      extension decides, and the default location is used only when it sets nothing. */
  lemma CsvOptionOverrides(e1: Extension, e2: Extension, csvPathOption: string)
    ensures csvPathOption != [] ==> DetermineCsvFile(e1, csvPathOption) == DetermineCsvFile(e2, csvPathOption)
    ensures csvPathOption == [] && e1.csvReportPath == e2.csvReportPath ==>
      DetermineCsvFile(e1, csvPathOption) == DetermineCsvFile(e2, csvPathOption)
    ensures DetermineCsvFile(e1, csvPathOption) == ProjectFile(DefaultCsvPath) ==>
      csvPathOption == [] && (e1.csvReportPath.None? || e1.csvReportPath == Some(ProjectFile(DefaultCsvPath)))
  {
  }

  /** `map { it.trim() }`. */
  function TrimAll(pieces: seq<string>): (r: seq<string>)
    ensures |r| == |pieces| && forall k :: 0 <= k < |pieces| ==> r[k] == Trim(pieces[k])
  {
    if pieces == [] then [] else [Trim(pieces[0])] + TrimAll(pieces[1..])
  }

  /** The patterns given on the command line: its comma-separated pieces, trimmed;
      none when the option is empty. */
  function FromOption(classesOption: string): seq<string> {
    if classesOption != [] then TrimAll(Split(classesOption, ',')) else []
  }

  /** `determineTargetClasses`: the patterns of the option, or the extension's when
      the option gives none (`ifEmpty`). */
  function DetermineTargetClasses(extension: Extension, classesOption: string): seq<string> {
    var fromOption := FromOption(classesOption);
    if fromOption != [] then fromOption else extension.targetClasses
  }

  /** `shouldShowTotal`. */
  function ShouldShowTotal(extension: Extension): bool {
    extension.showTotal
  }

  /** A character a string lacks is not in its trim either. */
  lemma TrimKeepsOut(s: string, c: char)
    requires c !in s
    ensures c !in Trim(s)
  {
    TrimSlice(s);
    var i, j :| 0 <= i <= j <= |s| && Trim(s) == s[i..j] && IsBlank(s[..i]) && IsBlank(s[j..]);
    assert forall k :: 0 <= k < j - i ==> s[i..j][k] == s[i + k];
  }

  /** A non-empty option gives one pattern per comma plus one, empty pieces
      included; each is the trimmed piece between two commas and holds no comma,
      and the untrimmed pieces joined with commas give back the option. */
  lemma OptionPatterns(extension: Extension, classesOption: string)
    requires classesOption != []
    ensures var r := DetermineTargetClasses(extension, classesOption);
      var pieces := Split(classesOption, ',');
      && |r| == CountChar(classesOption, ',') + 1
      && (forall k :: 0 <= k < |r| ==> r[k] == Trim(pieces[k]) && ',' !in r[k])
      && Join(pieces, ',') == classesOption
  {
    var pieces := Split(classesOption, ',');
    JoinSplit(classesOption, ',');
    forall k | 0 <= k < |pieces| ensures ',' !in Trim(pieces[k]) {
      TrimKeepsOut(pieces[k], ',');
    }
  }

  /** A non-empty option always wins: splitting never gives an empty list, so the
      extension's patterns play no part. */
  lemma OptionOverrides(e1: Extension, e2: Extension, classesOption: string)
    requires classesOption != []
    ensures DetermineTargetClasses(e1, classesOption) == DetermineTargetClasses(e2, classesOption)
    ensures DetermineTargetClasses(e1, classesOption) == FromOption(classesOption) != []
  {
  }

  /** Without the option the extension's patterns are used unchanged. */
  lemma NoOptionUsesExtension(extension: Extension)
    ensures DetermineTargetClasses(extension, []) == extension.targetClasses
  {
  }

  /** Patterns that are already trimmed and free of commas come back unchanged
      when passed on the command line joined with commas. */
  lemma {:induction false} JoinedPatterns(extension: Extension, patterns: seq<string>)
    requires patterns != [] && Join(patterns, ',') != []
    requires forall k :: 0 <= k < |patterns| ==> ',' !in patterns[k] && Trim(patterns[k]) == patterns[k]
    ensures DetermineTargetClasses(extension, Join(patterns, ',')) == patterns
  {
    SplitJoin(patterns, ',');
    var r := TrimAll(patterns);
    assert forall k :: 0 <= k < |r| ==> r[k] == patterns[k];
  }

  /** The option `"a, ,b "` gives three patterns, the middle one empty. */
  lemma EmptyPieceKept()
    ensures DetermineTargetClasses(DefaultExtension(), "a, ,b ") == ["a", "", "b"]
  {
    var pieces := ["a", " ", "b "];
    SamplePiecesJoined();
    SplitJoin(pieces, ',');
    assert Split("a, ,b ", ',') == pieces;
    SamplePiecesTrimmed();
    var r := TrimAll(pieces);
    assert r == [Trim("a"), Trim(" "), Trim("b ")];
  }

  lemma SamplePiecesJoined()
    ensures Join(["a", " ", "b "], ',') == "a, ,b "
  {
    JoinCons("a", [" ", "b "], ',');
    JoinCons(" ", ["b "], ',');
    assert Join(["b "], ',') == "b ";
  }

  lemma SamplePiecesTrimmed()
    ensures Trim("a") == "a" && Trim(" ") == [] && Trim("b ") == "b"
  {
    TrimIdentity("a");
    assert IsBlank(" ");
    TrimBlank(" ");
    assert "b "[..1] == "b";
    assert DropTrailingBlanks("b ") == DropTrailingBlanks("b");
  }

  /** The default extension: no CSV path, so the JaCoCo default location; the total
      is shown; no target patterns. */
  lemma Defaults()
    ensures DetermineCsvFile(DefaultExtension(), []) == ProjectFile(DefaultCsvPath)
    ensures ShouldShowTotal(DefaultExtension())
    ensures DetermineTargetClasses(DefaultExtension(), []) == []
  {
  }
}
