/** Which CSV rows the console table shows: the `Total` row alone, every row, or
    the rows a list of class/package targets selects. */
module CoverageDataFilter {
  import opened Strings
  import opened Seqs
  import opened CsvReportParser

  /** The class name JaCoCo gives the summary row of a CSV report. */
  const TotalClassName: string := "Total"

  predicate IsTotalRow(row: CoverageRow) {
    row.className == TotalClassName
  }

  /** One target: with a trailing `*` a prefix of the full class name or of the
      package name, otherwise exactly one of the two. */
  predicate MatchesTarget(row: CoverageRow, target: string) {
    if target != [] && target[|target| - 1] == '*' then
      var prefix := DropLast(target);
      StartsWith(FullClassName(row), prefix) || StartsWith(row.packageName, prefix)
    else
      FullClassName(row) == target || row.packageName == target
  }

  /** `matchesTargetClasses`: some target selects the row. */
  function MatchesTargetClasses(row: CoverageRow, targets: seq<string>): (b: bool)
    ensures b <==> exists i :: 0 <= i < |targets| && MatchesTarget(row, targets[i])
  {
    if targets == [] then false
    else if MatchesTarget(row, targets[0]) then true
    else
      var b := MatchesTargetClasses(row, targets[1..]);
      assert forall i :: 0 < i < |targets| ==> targets[i] == targets[1..][i - 1];
      b
  }

  /** The row predicate of the `else` branch, as one value. */
  function Selects(targets: seq<string>): CoverageRow -> bool {
    row => MatchesTargetClasses(row, targets)
  }

  /** `filterCoverageData`. */
  function FilterCoverageData(data: seq<CoverageRow>, targets: seq<string>, showTotal: bool): (r: seq<CoverageRow>)
    ensures |r| <= |data|
    ensures targets == [] && !showTotal ==> r == data
    ensures targets == [] && showTotal ==>
      (forall i :: 0 <= i < |r| ==> r[i] in data && r[i].className == TotalClassName)
      && (forall i :: 0 <= i < |data| && data[i].className == TotalClassName ==> data[i] in r)
    ensures targets != [] ==>
      (forall i :: 0 <= i < |r| ==> r[i] in data && MatchesTargetClasses(r[i], targets))
      && (forall i :: 0 <= i < |data| && MatchesTargetClasses(data[i], targets) ==> data[i] in r)
  {
    if targets == [] && showTotal then Filter(data, IsTotalRow)
    else if targets == [] then data
    else Filter(data, Selects(targets))
  }

  /** The filter works row by row, so the rows it keeps stay in their input order. */
  lemma FilterCoverageDataConcat(a: seq<CoverageRow>, b: seq<CoverageRow>, targets: seq<string>, showTotal: bool)
    ensures FilterCoverageData(a + b, targets, showTotal)
         == FilterCoverageData(a, targets, showTotal) + FilterCoverageData(b, targets, showTotal)
  {
    if targets == [] && showTotal {
      FilterConcat(a, b, IsTotalRow);
    } else if targets != [] {
      FilterConcat(a, b, Selects(targets));
    }
  }

  /** Filtering twice with the same settings keeps the same rows. */
  lemma FilterCoverageDataIdempotent(data: seq<CoverageRow>, targets: seq<string>, showTotal: bool)
    ensures var once := FilterCoverageData(data, targets, showTotal);
      FilterCoverageData(once, targets, showTotal) == once
  {
    if targets == [] && showTotal {
      FilterAll(Filter(data, IsTotalRow), IsTotalRow);
    } else if targets != [] {
      FilterAll(Filter(data, Selects(targets)), Selects(targets));
    }
  }

  /** With targets, `showTotal` has no effect. */
  lemma ShowTotalIgnoredWithTargets(data: seq<CoverageRow>, targets: seq<string>)
    requires targets != []
    ensures FilterCoverageData(data, targets, true) == FilterCoverageData(data, targets, false)
  {
  }

  /** Rows no target selects are dropped without an error, down to an empty result. */
  lemma NoMatchGivesEmpty(data: seq<CoverageRow>, targets: seq<string>, showTotal: bool)
    requires targets != []
    requires forall i, k :: 0 <= i < |data| && 0 <= k < |targets| ==> !MatchesTarget(data[i], targets[k])
    ensures FilterCoverageData(data, targets, showTotal) == []
  {
    FilterNone(data, Selects(targets));
  }

  /** Without targets, `showTotal` on a report that has no `Total` row shows nothing. */
  lemma NoTotalRow(data: seq<CoverageRow>)
    requires forall i :: 0 <= i < |data| ==> data[i].className != TotalClassName
    ensures FilterCoverageData(data, [], true) == []
  {
    FilterNone(data, IsTotalRow);
  }

  /** A trailing `*` is a prefix test on the target without its `*`. */
  lemma WildcardTarget(row: CoverageRow, prefix: string)
    ensures MatchesTarget(row, prefix + "*")
        <==> StartsWith(FullClassName(row), prefix) || StartsWith(row.packageName, prefix)
  {
    var t := prefix + "*";
    assert DropLast(t) == prefix;
  }

  /** `*` alone selects every row. */
  lemma StarSelectsEverything(row: CoverageRow)
    ensures MatchesTargetClasses(row, ["*"])
  {
    WildcardTarget(row, []);
  }

  /** A target without a trailing `*` is an exact name: a longer class name that merely
      starts with it is not selected. */
  lemma ExactTargetIsNotPrefix(row: CoverageRow, target: string)
    requires target == [] || target[|target| - 1] != '*'
    requires StartsWith(FullClassName(row), target) && FullClassName(row) != target
    requires row.packageName != target
    ensures !MatchesTargetClasses(row, [target])
  {
  }

  /** A package name selects every row of that package. */
  lemma PackageNameSelectsPackage(data: seq<CoverageRow>, pkg: string, showTotal: bool)
    ensures forall i :: 0 <= i < |data| && data[i].packageName == pkg ==>
      data[i] in FilterCoverageData(data, [pkg], showTotal)
  {
    forall i | 0 <= i < |data| && data[i].packageName == pkg
      ensures MatchesTarget(data[i], pkg)
    {
      if pkg != [] && pkg[|pkg| - 1] == '*' {
        assert pkg[..|DropLast(pkg)|] == DropLast(pkg);
      }
    }
  }

  /** A target without a trailing `*` selects exactly the rows it names, by package or by class. */
  lemma ExactTarget(row: CoverageRow, target: string)
    requires target == [] || target[|target| - 1] != '*'
    ensures MatchesTargetClasses(row, [target])
        <==> FullClassName(row) == target || row.packageName == target
  {
  }

  /** The `Total` row has an empty package, so the target `Total` selects it. */
  lemma TotalRowSelectable(row: CoverageRow)
    requires row.packageName == [] && row.className == TotalClassName
    ensures MatchesTargetClasses(row, [TotalClassName])
  {
  }

  /** The rows of the filter's unit tests: two classes and the summary row. */
  function UserServiceRow(): CoverageRow {
    CoverageRow("test-project", "com.example.service", "UserService", 10, 90, 5, 15, 2, 18, 1, 9, 0, 5)
  }

  function UserRow(): CoverageRow {
    CoverageRow("test-project", "com.example.model", "User", 5, 45, 2, 8, 1, 9, 0, 5, 0, 3)
  }

  function SummaryRow(): CoverageRow {
    CoverageRow("test-project", "", "Total", 15, 135, 7, 23, 3, 27, 1, 14, 0, 8)
  }

  /** Filtering three rows, spelled out. */
  lemma FilterThree(a: CoverageRow, b: CoverageRow, c: CoverageRow, p: CoverageRow -> bool)
    ensures Filter([a, b, c], p)
         == (if p(a) then [a] else []) + (if p(b) then [b] else []) + (if p(c) then [c] else [])
  {
    assert [a, b, c][1..] == [b, c] && [b, c][1..] == [c];
    FilterOne(c, p);
  }

  function SampleRows(): seq<CoverageRow> {
    [UserServiceRow(), UserRow(), SummaryRow()]
  }

  /** The unit tests without targets: `showTotal` keeps the summary row only. */
  lemma SampleWithoutTargets()
    ensures FilterCoverageData(SampleRows(), [], true) == [SummaryRow()]
    ensures FilterCoverageData(SampleRows(), [], false) == SampleRows()
  {
    FilterThree(UserServiceRow(), UserRow(), SummaryRow(), IsTotalRow);
  }

  /** The full class names of the sample rows. */
  lemma SampleNames()
    ensures FullClassName(UserServiceRow()) == "com.example.service.UserService"
    ensures FullClassName(UserRow()) == "com.example.model.User"
    ensures FullClassName(SummaryRow()) == "Total"
  {
  }

  /** A list of one target is that target. */
  lemma OneTarget(row: CoverageRow, t: string)
    ensures MatchesTargetClasses(row, [t]) == MatchesTarget(row, t)
  {
    assert [t][1..] == [];
  }

  /** A list of two targets: either of them. */
  lemma TwoTargets(row: CoverageRow, t0: string, t1: string)
    ensures MatchesTargetClasses(row, [t0, t1]) == (MatchesTarget(row, t0) || MatchesTarget(row, t1))
  {
    assert [t0, t1][1..] == [t1];
    OneTarget(row, t1);
  }

  /** Filtering three rows with targets, given which of them the targets select. */
  lemma SelectThree(a: CoverageRow, b: CoverageRow, c: CoverageRow, targets: seq<string>, ka: bool, kb: bool, kc: bool)
    requires targets != []
    requires MatchesTargetClasses(a, targets) == ka
    requires MatchesTargetClasses(b, targets) == kb
    requires MatchesTargetClasses(c, targets) == kc
    ensures FilterCoverageData([a, b, c], targets, false)
         == (if ka then [a] else []) + (if kb then [b] else []) + (if kc then [c] else [])
  {
    FilterThree(a, b, c, Selects(targets));
  }

  /** A string that differs from a prefix at some position does not start with it. */
  lemma DiffersAt(s: string, prefix: string, k: nat)
    requires k < |prefix| && (k >= |s| || s[k] != prefix[k])
    ensures !StartsWith(s, prefix)
  {
    if |prefix| <= |s| {
      assert s[..|prefix|][k] == s[k];
    }
  }

  lemma StartsWithConcat(p: string, q: string)
    ensures StartsWith(p + q, p)
  {
    assert (p + q)[..|p|] == p;
  }

  /** An exact class name, and a package wildcard, select the one service class. */
  lemma SampleServiceTargets()
    ensures FilterCoverageData(SampleRows(), ["com.example.service.UserService"], false) == [UserServiceRow()]
    ensures FilterCoverageData(SampleRows(), ["com.example.service.*"], false) == [UserServiceRow()]
  {
    SampleExactClass();
    SampleServiceWildcard();
  }

  lemma SampleExactClass()
    ensures FilterCoverageData(SampleRows(), ["com.example.service.UserService"], false) == [UserServiceRow()]
  {
    var exact := "com.example.service.UserService";
    SampleNames();
    ExactTarget(UserServiceRow(), exact);
    ExactTarget(UserRow(), exact);
    ExactTarget(SummaryRow(), exact);
    assert |"com.example.model.User"| != |exact| && |"com.example.model"| != |exact|;
    SelectThree(UserServiceRow(), UserRow(), SummaryRow(), [exact], true, false, false);
  }

  lemma SampleServiceWildcard()
    ensures FilterCoverageData(SampleRows(), ["com.example.service.*"], false) == [UserServiceRow()]
  {
    var prefix := "com.example.service.";
    var wild := "com.example.service.*";
    assert wild == prefix + "*";
    SampleNames();
    OneTarget(UserServiceRow(), wild);
    OneTarget(UserRow(), wild);
    OneTarget(SummaryRow(), wild);
    WildcardTarget(UserServiceRow(), prefix);
    WildcardTarget(UserRow(), prefix);
    WildcardTarget(SummaryRow(), prefix);
    assert "com.example.service.UserService" == prefix + "UserService";
    StartsWithConcat(prefix, "UserService");
    DiffersAt("com.example.model.User", prefix, 12);
    DiffersAt("com.example.model", prefix, 12);
    DiffersAt("Total", prefix, 0);
    DiffersAt("", prefix, 0);
    SelectThree(UserServiceRow(), UserRow(), SummaryRow(), [wild], true, false, false);
  }

  /** A package name selects the class of that package. */
  lemma SamplePackageTarget()
    ensures FilterCoverageData(SampleRows(), ["com.example.model"], false) == [UserRow()]
  {
    var pkg := "com.example.model";
    SampleNames();
    ExactTarget(UserServiceRow(), pkg);
    ExactTarget(UserRow(), pkg);
    ExactTarget(SummaryRow(), pkg);
    assert |"com.example.service.UserService"| != |pkg| && |"com.example.service"| != |pkg|;
    SelectThree(UserServiceRow(), UserRow(), SummaryRow(), [pkg], false, true, false);
  }

  /** A wildcard and a class name together select both classes, in their input order. */
  lemma SampleTwoTargets()
    ensures FilterCoverageData(SampleRows(), ["com.example.service.*", "com.example.model.User"], false)
         == [UserServiceRow(), UserRow()]
  {
    var prefix := "com.example.service.";
    var wild := "com.example.service.*";
    var user := "com.example.model.User";
    assert wild == prefix + "*";
    SampleNames();
    TwoTargets(UserServiceRow(), wild, user);
    TwoTargets(UserRow(), wild, user);
    TwoTargets(SummaryRow(), wild, user);
    WildcardTarget(UserServiceRow(), prefix);
    WildcardTarget(SummaryRow(), prefix);
    assert "com.example.service.UserService" == prefix + "UserService";
    StartsWithConcat(prefix, "UserService");
    DiffersAt("Total", prefix, 0);
    DiffersAt("", prefix, 0);
    OneTarget(UserRow(), user);
    OneTarget(SummaryRow(), user);
    ExactTarget(UserRow(), user);
    ExactTarget(SummaryRow(), user);
    SelectThree(UserServiceRow(), UserRow(), SummaryRow(), [wild, user], true, true, false);
  }

  /** A wildcard no row falls under selects nothing, and that is not an error. */
  lemma SampleUnknownTarget()
    ensures FilterCoverageData(SampleRows(), ["com.nonexistent.*"], false) == []
  {
    var none := "com.nonexistent.";
    var wild := "com.nonexistent.*";
    assert wild == none + "*";
    SampleNames();
    OneTarget(UserServiceRow(), wild);
    OneTarget(UserRow(), wild);
    OneTarget(SummaryRow(), wild);
    WildcardTarget(UserServiceRow(), none);
    WildcardTarget(UserRow(), none);
    WildcardTarget(SummaryRow(), none);
    DiffersAt("com.example.service.UserService", none, 4);
    DiffersAt("com.example.service", none, 4);
    DiffersAt("com.example.model.User", none, 4);
    DiffersAt("com.example.model", none, 4);
    DiffersAt("Total", none, 4);
    DiffersAt("", none, 0);
    SelectThree(UserServiceRow(), UserRow(), SummaryRow(), [wild], false, false, false);
  }
}
