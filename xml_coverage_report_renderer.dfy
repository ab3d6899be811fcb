/** The console table for an XML report: the classes (and packages) a list of
    name patterns selects, their counters re-aggregated, then an optional project
    total, optional package summaries and one row per class. */
module XmlCoverageReportRenderer {
  import opened Strings
  import opened Seqs
  import opened Sorting
  import opened TableFormat
  import opened XmlReportParser

  // --------------------------------------------------------------- patterns

  /** `matchesPattern`: a trailing `*` is a prefix test, then a leading `*` a
      suffix test, then one interior `*` both; anything else must be equal. */
  predicate MatchesPattern(name: string, pattern: string) {
    if EndsWith(pattern, "*") then StartsWith(name, DropLast(pattern))
    else if StartsWith(pattern, "*") then EndsWith(name, pattern[1..])
    else if '*' in pattern then
      var parts := Split(pattern, '*');
      if |parts| == 2 then StartsWith(name, parts[0]) && EndsWith(name, parts[1]) else false
    else name == pattern
  }

  /** A trailing `*` tests the rest of the pattern as a literal prefix, whatever it holds. */
  lemma TrailingStar(name: string, prefix: string)
    ensures MatchesPattern(name, prefix + "*") <==> StartsWith(name, prefix)
  {
    var p := prefix + "*";
    assert p[|p| - 1..] == "*";
    assert DropLast(p) == prefix;
  }

  /** `*` matches every name. */
  lemma StarMatchesAll(name: string)
    ensures MatchesPattern(name, "*")
  {
    TrailingStar(name, []);
  }

  /** The first branch wins: `*x*` is the prefix test for the literal `*x`. */
  lemma StarBothEnds(name: string)
    ensures MatchesPattern(name, "*x*") <==> StartsWith(name, "*x")
  {
    TrailingStar(name, "*x");
  }

  /** A leading `*` on a pattern that does not end in `*` is a suffix test. */
  lemma LeadingStar(name: string, suffix: string)
    requires suffix != [] && suffix[|suffix| - 1] != '*'
    ensures MatchesPattern(name, "*" + suffix) <==> EndsWith(name, suffix)
  {
    var p := "*" + suffix;
    assert p[|p| - 1..] != "*" by { assert p[|p| - 1..][0] == suffix[|suffix| - 1]; }
    assert p[..1] == "*" && p[1..] == suffix;
  }

  /** One `*` between two star-free parts requires both the prefix and the suffix. */
  lemma OneInteriorStar(name: string, before: string, after: string)
    requires '*' !in before && '*' !in after
    ensures MatchesPattern(name, before + "*" + after) <==> StartsWith(name, before) && EndsWith(name, after)
  {
    var p := before + "*" + after;
    if after == [] {
      assert p == before + "*";
      TrailingStar(name, before);
    } else if before == [] {
      assert p == "*" + after;
      LeadingStar(name, after);
      assert p[|p| - 1] == after[|after| - 1];
    } else {
      assert p[|p| - 1..] != "*" by { assert p[|p| - 1..][0] == after[|after| - 1]; }
      assert p[..1] != "*" by { assert p[..1][0] == before[0]; }
      assert p[|before|] == '*';
      assert Join([before, after], '*') == p by {
        assert [before, after][1..] == [after];
      }
      SplitJoin([before, after], '*');
    }
  }

  /** Two or more interior `*` never match. */
  lemma SeveralInteriorStars(name: string, pattern: string)
    requires pattern != [] && pattern[0] != '*' && pattern[|pattern| - 1] != '*'
    requires CountChar(pattern, '*') >= 2
    ensures !MatchesPattern(name, pattern)
  {
    CountCharIn(pattern, '*');
    assert pattern[|pattern| - 1..] != "*" by { assert pattern[|pattern| - 1..][0] == pattern[|pattern| - 1]; }
    assert pattern[..1] != "*" by { assert pattern[..1][0] == pattern[0]; }
  }

  /** Without `*` a pattern matches only the identical name. */
  lemma NoStar(name: string, pattern: string)
    requires '*' !in pattern
    ensures MatchesPattern(name, pattern) <==> name == pattern
  {
    if pattern != [] {
      assert pattern[|pattern| - 1..] != "*" by { assert pattern[|pattern| - 1..][0] == pattern[|pattern| - 1]; }
      assert pattern[..1] != "*" by { assert pattern[..1][0] == pattern[0]; }
    }
  }

  // ------------------------------------------------------------ aggregation

  /** The counter types of the maps, together. */
  function KeysOf(ms: seq<Counters>): set<string> {
    if ms == [] then {} else KeysOf(ms[..|ms| - 1]) + ms[|ms| - 1].Keys
  }

  /** The missed count of type `t`, summed over the maps that have it. */
  function Missed(ms: seq<Counters>, t: string): int {
    if ms == [] then 0
    else Missed(ms[..|ms| - 1], t) + (if t in ms[|ms| - 1] then ms[|ms| - 1][t].missed else 0)
  }

  /** The covered count of type `t`, summed over the maps that have it. */
  function Covered(ms: seq<Counters>, t: string): int {
    if ms == [] then 0
    else Covered(ms[..|ms| - 1], t) + (if t in ms[|ms| - 1] then ms[|ms| - 1][t].covered else 0)
  }

  /** What `aggregateCounters` computes: one counter per type that occurs anywhere,
      with the missed and the covered counts summed separately. */
  function Aggregate(ms: seq<Counters>): Counters {
    map t | t in KeysOf(ms) :: CoverageCounter(t, Missed(ms, t), Covered(ms, t))
  }

  /** `aggregateCounters`: a running (missed, covered) pair per type, over every
      entry of every map, turned into counters at the end. */
  method AggregateCounters(countersList: seq<Counters>) returns (r: Counters)
    ensures r == Aggregate(countersList)
  {
    var aggregated: map<string, (int, int)> := map[];
    for i := 0 to |countersList|
      invariant Sums(aggregated, countersList[..i])
    {
      var counters := countersList[i];
      ghost var done := countersList[..i];
      var pending := counters.Keys;
      SumsStart(aggregated, done, counters);
      while pending != {}
        invariant pending <= counters.Keys
        invariant PartialSums(aggregated, done, counters, counters.Keys - pending)
        decreases pending
      {
        var t :| t in pending;
        ghost var before := aggregated;
        var current := if t in aggregated then aggregated[t] else (0, 0);
        aggregated := aggregated[t := (current.0 + counters[t].missed, current.1 + counters[t].covered)];
        SumsPending(before, aggregated, done, counters, pending, t);
        pending := pending - {t};
      }
      SumsEnd(aggregated, done, counters, countersList[..i + 1]);
    }
    assert countersList[..|countersList|] == countersList;
    r := map t | t in aggregated :: CoverageCounter(t, aggregated[t].0, aggregated[t].1);
  }

  /** The running pairs hold the sums over the maps `done`. */
  ghost predicate Sums(acc: map<string, (int, int)>, done: seq<Counters>) {
    acc.Keys == KeysOf(done)
    && forall t :: t in acc ==> acc[t] == (Missed(done, t), Covered(done, t))
  }

  /** The running pairs hold the sums over the maps `done` and over the entries
      `seen` of the next map `m`. */
  ghost predicate PartialSums(acc: map<string, (int, int)>, done: seq<Counters>, m: Counters, seen: set<string>) {
    acc.Keys == KeysOf(done) + seen
    && forall t :: t in acc ==>
      acc[t] == (Missed(done, t) + (if t in seen && t in m then m[t].missed else 0),
                 Covered(done, t) + (if t in seen && t in m then m[t].covered else 0))
  }

  lemma SumsStart(acc: map<string, (int, int)>, done: seq<Counters>, m: Counters)
    requires Sums(acc, done)
    ensures PartialSums(acc, done, m, {})
  {
  }

  lemma SumsEntry(acc: map<string, (int, int)>, done: seq<Counters>, m: Counters, seen: set<string>, t: string)
    requires PartialSums(acc, done, m, seen) && t in m && t !in seen
    ensures var current := if t in acc then acc[t] else (0, 0);
      PartialSums(acc[t := (current.0 + m[t].missed, current.1 + m[t].covered)], done, m, seen + {t})
  {
    if t !in acc { OutsideKeys(done, t); }
  }

  /** `SumsEntry`, for the entries still pending rather than those seen. */
  lemma SumsPending(acc: map<string, (int, int)>, acc': map<string, (int, int)>, done: seq<Counters>, m: Counters,
                    pending: set<string>, t: string)
    requires pending <= m.Keys && t in pending
    requires PartialSums(acc, done, m, m.Keys - pending)
    requires acc' == acc[t := ((if t in acc then acc[t].0 else 0) + m[t].missed, (if t in acc then acc[t].1 else 0) + m[t].covered)]
    ensures PartialSums(acc', done, m, m.Keys - (pending - {t}))
  {
    assert m.Keys - (pending - {t}) == (m.Keys - pending) + {t};
    SumsEntry(acc, done, m, m.Keys - pending, t);
  }

  lemma SumsEnd(acc: map<string, (int, int)>, done: seq<Counters>, m: Counters, next: seq<Counters>)
    requires PartialSums(acc, done, m, m.Keys)
    requires next == done + [m]
    ensures Sums(acc, next)
  {
    assert next[..|done|] == done;
  }

  /** A type that occurs in no map sums to nothing. */
  lemma {:induction false} OutsideKeys(ms: seq<Counters>, t: string)
    requires t !in KeysOf(ms)
    ensures Missed(ms, t) == 0 && Covered(ms, t) == 0
  {
    if ms != [] { OutsideKeys(ms[..|ms| - 1], t); }
  }

  /** The aggregate has a type exactly when some input map has it. */
  lemma {:induction false} AggregateKeys(ms: seq<Counters>, t: string)
    ensures t in Aggregate(ms) <==> exists i :: 0 <= i < |ms| && t in ms[i]
  {
    if ms != [] {
      var init := ms[..|ms| - 1];
      AggregateKeys(init, t);
      if t in KeysOf(init) {
        var i :| 0 <= i < |init| && t in init[i];
        assert t in ms[i];
      }
      if exists i :: 0 <= i < |ms| && t in ms[i] {
        var i :| 0 <= i < |ms| && t in ms[i];
        if i < |ms| - 1 { assert t in init[i]; }
      }
    }
  }

  lemma {:induction false} SumsConcat(a: seq<Counters>, b: seq<Counters>, t: string)
    ensures KeysOf(a + b) == KeysOf(a) + KeysOf(b)
    ensures Missed(a + b, t) == Missed(a, t) + Missed(b, t)
    ensures Covered(a + b, t) == Covered(a, t) + Covered(b, t)
  {
    if b == [] {
      assert a + b == a;
    } else {
      assert (a + b)[..|a + b| - 1] == a + b[..|b| - 1];
      assert (a + b)[|a + b| - 1] == b[|b| - 1];
      SumsConcat(a, b[..|b| - 1], t);
    }
  }

  /** The aggregate does not depend on the order of its inputs: any rearrangement
      of the same maps gives the same counters. */
  lemma AggregatePermutation(a: seq<Counters>, b: seq<Counters>)
    requires multiset(a) == multiset(b)
    ensures Aggregate(a) == Aggregate(b)
  {
    forall t ensures KeysOf(a) == KeysOf(b) && Missed(a, t) == Missed(b, t) && Covered(a, t) == Covered(b, t) {
      SumsPermutation(a, b, t);
    }
  }

  lemma {:induction false} SumsPermutation(a: seq<Counters>, b: seq<Counters>, t: string)
    requires multiset(a) == multiset(b)
    ensures KeysOf(a) == KeysOf(b) && Missed(a, t) == Missed(b, t) && Covered(a, t) == Covered(b, t)
  {
    if a == [] {
      assert |b| == |multiset(b)| == 0;
    } else {
      var init, x := a[..|a| - 1], a[|a| - 1];
      assert x in multiset(b);
      var k :| 0 <= k < |b| && b[k] == x;
      RemoveLast(a, b, k);
      SumsPermutation(init, b[..k] + b[k + 1..], t);
      assert a == init + [x];
      SumsConcat(init, [x], t);
      SumsWithout(b, k, t);
    }
  }

  /** Taking the last element off one list and an equal element off a rearrangement of it
      leaves rearrangements of each other. */
  lemma RemoveLast<T>(a: seq<T>, b: seq<T>, k: nat)
    requires multiset(a) == multiset(b) && a != [] && k < |b| && b[k] == a[|a| - 1]
    ensures multiset(a[..|a| - 1]) == multiset(b[..k] + b[k + 1..])
  {
    var x := b[k];
    var init, rest := a[..|a| - 1], b[..k] + b[k + 1..];
    assert a == init + [x];
    assert b == b[..k] + [x] + b[k + 1..];
    assert multiset(a) == multiset(init) + multiset{x};
    assert multiset(b) == multiset(rest) + multiset{x};
    assert multiset(init) == multiset(a) - multiset{x};
    assert multiset(rest) == multiset(b) - multiset{x};
  }

  /** The sums with the `k`-th map taken out, plus that map. */
  lemma SumsWithout(b: seq<Counters>, k: nat, t: string)
    requires k < |b|
    ensures var rest := b[..k] + b[k + 1..];
      && KeysOf(b) == KeysOf(rest) + KeysOf([b[k]])
      && Missed(b, t) == Missed(rest, t) + Missed([b[k]], t)
      && Covered(b, t) == Covered(rest, t) + Covered([b[k]], t)
  {
    var before, after := b[..k], b[k + 1..];
    assert b == before + [b[k]] + after;
    SumsConcat(before + [b[k]], after, t);
    SumsConcat(before, [b[k]], t);
    SumsConcat(before, after, t);
  }

  /** Aggregating one well-formed map (each counter filed under its own type) gives it back. */
  lemma AggregateSingle(m: Counters)
    requires forall t :: t in m ==> m[t].kind == t
    ensures Aggregate([m]) == m
  {
    assert [m][..0] == [];
    assert KeysOf([m]) == m.Keys;
    forall t | t in m
      ensures Aggregate([m])[t] == m[t]
    {
      assert Missed([m], t) == m[t].missed && Covered([m], t) == m[t].covered;
    }
  }

  /** Non-negative inputs give non-negative sums. */
  lemma {:induction false} AggregateNonNegative(ms: seq<Counters>, t: string)
    requires forall i, u :: 0 <= i < |ms| && u in ms[i] ==> ms[i][u].missed >= 0 && ms[i][u].covered >= 0
    ensures Missed(ms, t) >= 0 && Covered(ms, t) >= 0
  {
    if ms != [] { AggregateNonNegative(ms[..|ms| - 1], t); }
  }

  // -------------------------------------------------------------- filtering

  /** Some pattern matches the class's full name or its package's display name. */
  function Selected(c: CoverageClass, pkg: CoveragePackage, patterns: seq<string>): (b: bool)
    ensures b <==>
      exists k :: 0 <= k < |patterns| &&
        (MatchesPattern(FullName(c), patterns[k]) || MatchesPattern(DisplayName(pkg), patterns[k]))
  {
    if patterns == [] then false
    else if MatchesPattern(FullName(c), patterns[0]) || MatchesPattern(DisplayName(pkg), patterns[0]) then true
    else
      var b := Selected(c, pkg, patterns[1..]);
      assert forall k :: 0 < k < |patterns| ==> patterns[k] == patterns[1..][k - 1];
      b
  }

  /** The class predicate of one package, as one value. */
  function SelectedIn(pkg: CoveragePackage, patterns: seq<string>): CoverageClass -> bool {
    c => Selected(c, pkg, patterns)
  }

  /** `map { f(it) }` from elements to their counters. */
  function CountersOfEach<T>(xs: seq<T>, f: T -> Counters): (r: seq<Counters>)
    ensures |r| == |xs| && forall i :: 0 <= i < |xs| ==> r[i] == f(xs[i])
  {
    if xs == [] then [] else [f(xs[0])] + CountersOfEach(xs[1..], f)
  }

  /** `classes.map { it.counters }` */
  function ClassCounters(cs: seq<CoverageClass>): (r: seq<Counters>)
    ensures |r| == |cs| && forall i :: 0 <= i < |cs| ==> r[i] == cs[i].counters
  {
    CountersOfEach(cs, (c: CoverageClass) => c.counters)
  }

  /** `packages.map { it.counters }` */
  function PackageCounters(ps: seq<CoveragePackage>): (r: seq<Counters>)
    ensures |r| == |ps| && forall i :: 0 <= i < |ps| ==> r[i] == ps[i].counters
  {
    CountersOfEach(ps, (p: CoveragePackage) => p.counters)
  }

  /** One package after filtering: nothing when no class is left, else the kept
      classes with the package's counters recomputed from them. */
  function Pruned(pkg: CoveragePackage, patterns: seq<string>): seq<CoveragePackage> {
    var kept := Filter(pkg.classes, SelectedIn(pkg, patterns));
    if kept == [] then [] else [pkg.(classes := kept, counters := Aggregate(ClassCounters(kept)))]
  }

  function FilteredPackages(ps: seq<CoveragePackage>, patterns: seq<string>): seq<CoveragePackage> {
    if ps == [] then [] else Pruned(ps[0], patterns) + FilteredPackages(ps[1..], patterns)
  }

  /** What `filterReport` builds. */
  function Filtered(report: CoverageReport, patterns: seq<string>): CoverageReport {
    var ps := FilteredPackages(report.packages, patterns);
    report.(packages := ps, counters := Aggregate(PackageCounters(ps)))
  }

  /** `filterReport`: the packages in order, each pruned, collected in a list,
      then the report's counters recomputed from the packages kept. */
  method FilterReport(report: CoverageReport, patterns: seq<string>) returns (r: CoverageReport)
    ensures r == Filtered(report, patterns)
  {
    var filteredPackages: seq<CoveragePackage> := [];
    for i := 0 to |report.packages|
      invariant filteredPackages == FilteredPackages(report.packages[..i], patterns)
    {
      var pkg := report.packages[i];
      TakeOneMore(report.packages, i);
      var filteredClasses := Filter(pkg.classes, SelectedIn(pkg, patterns));
      if filteredClasses != [] {
        var packageCounters := AggregateCounters(ClassCounters(filteredClasses));
        filteredPackages := filteredPackages + [pkg.(classes := filteredClasses, counters := packageCounters)];
      }
      FilteredPackagesSnoc(report.packages[..i], pkg, patterns);
    }
    assert report.packages[..|report.packages|] == report.packages;
    var reportCounters := AggregateCounters(PackageCounters(filteredPackages));
    r := report.(packages := filteredPackages, counters := reportCounters);
  }

  lemma {:induction false} FilteredPackagesSnoc(ps: seq<CoveragePackage>, p: CoveragePackage, patterns: seq<string>)
    ensures FilteredPackages(ps + [p], patterns) == FilteredPackages(ps, patterns) + Pruned(p, patterns)
  {
    if ps == [] {
      assert [p][1..] == [];
    } else {
      assert (ps + [p])[1..] == ps[1..] + [p];
      FilteredPackagesSnoc(ps[1..], p, patterns);
    }
  }

  /** The classes kept, package by package, in their original order. */
  function KeptClasses(ps: seq<CoveragePackage>, patterns: seq<string>): seq<CoverageClass> {
    if ps == [] then [] else Filter(ps[0].classes, SelectedIn(ps[0], patterns)) + KeptClasses(ps[1..], patterns)
  }

  /** Filtering keeps the selected classes in order and nothing else; every package
      left has classes, its counters are the aggregate of them, and the report's
      counters are the aggregate of the packages; the report keeps its name. */
  lemma FilteredShape(ps: seq<CoveragePackage>, patterns: seq<string>)
    ensures var fs := FilteredPackages(ps, patterns);
      && AllClasses(fs) == KeptClasses(ps, patterns)
      && |fs| <= |ps|
      && forall j :: 0 <= j < |fs| ==>
           fs[j].classes != [] && fs[j].counters == Aggregate(ClassCounters(fs[j].classes))
  {
    FilteredClasses(ps, patterns);
    FilteredPackagesFormed(ps, patterns);
  }

  lemma {:induction false} FilteredClasses(ps: seq<CoveragePackage>, patterns: seq<string>)
    ensures AllClasses(FilteredPackages(ps, patterns)) == KeptClasses(ps, patterns)
  {
    if ps != [] {
      FilteredClasses(ps[1..], patterns);
      var head := Pruned(ps[0], patterns);
      var rest := FilteredPackages(ps[1..], patterns);
      AllClassesConcat(head, rest);
      if head != [] {
        assert head[1..] == [];
      }
    }
  }

  /** A package that filtering keeps has classes and the aggregate of their counters. */
  predicate Recounted(p: CoveragePackage) {
    p.classes != [] && p.counters == Aggregate(ClassCounters(p.classes))
  }

  lemma {:induction false} FilteredPackagesFormed(ps: seq<CoveragePackage>, patterns: seq<string>)
    ensures var fs := FilteredPackages(ps, patterns);
      |fs| <= |ps| && forall j :: 0 <= j < |fs| ==> Recounted(fs[j])
  {
    if ps != [] {
      FilteredPackagesFormed(ps[1..], patterns);
      var head := Pruned(ps[0], patterns);
      var rest := FilteredPackages(ps[1..], patterns);
      var fs := head + rest;
      assert forall j :: 0 <= j < |head| ==> Recounted(head[j]);
      forall j | 0 <= j < |fs| ensures Recounted(fs[j]) {
        if j >= |head| {
          assert fs[j] == rest[j - |head|];
        }
      }
    }
  }

  lemma FilteredReport(report: CoverageReport, patterns: seq<string>)
    ensures var r := Filtered(report, patterns);
      && r.name == report.name
      && AllClasses(r.packages) == KeptClasses(report.packages, patterns)
      && r.counters == Aggregate(PackageCounters(r.packages))
      && forall j :: 0 <= j < |r.packages| ==>
           r.packages[j].classes != [] && r.packages[j].counters == Aggregate(ClassCounters(r.packages[j].classes))
  {
    FilteredShape(report.packages, patterns);
  }

  /** A class is kept exactly when some package holds it and selects it. */
  lemma {:induction false} KeptClassesMember(ps: seq<CoveragePackage>, patterns: seq<string>, c: CoverageClass)
    ensures c in KeptClasses(ps, patterns)
        <==> exists i :: 0 <= i < |ps| && c in ps[i].classes && Selected(c, ps[i], patterns)
  {
    if ps != [] {
      KeptClassesMember(ps[1..], patterns, c);
      var head := Filter(ps[0].classes, SelectedIn(ps[0], patterns));
      if c in KeptClasses(ps[1..], patterns) {
        var i :| 0 <= i < |ps[1..]| && c in ps[1..][i].classes && Selected(c, ps[1..][i], patterns);
        assert ps[i + 1] == ps[1..][i];
      }
      if c in head {
        var k :| 0 <= k < |head| && head[k] == c;
        assert c in ps[0].classes && Selected(c, ps[0], patterns);
      }
      if exists i :: 0 <= i < |ps| && c in ps[i].classes && Selected(c, ps[i], patterns) {
        var i :| 0 <= i < |ps| && c in ps[i].classes && Selected(c, ps[i], patterns);
        if i == 0 {
          var k :| 0 <= k < |ps[0].classes| && ps[0].classes[k] == c;
          assert c in head;
        } else {
          assert ps[1..][i - 1] == ps[i];
        }
      }
    }
  }

  /** With `*` among the patterns every class is kept, in its original order. */
  lemma {:induction false} StarKeepsAllClasses(ps: seq<CoveragePackage>, patterns: seq<string>)
    requires "*" in patterns
    ensures KeptClasses(ps, patterns) == AllClasses(ps)
  {
    if ps != [] {
      StarKeepsAllClasses(ps[1..], patterns);
      forall c | c in ps[0].classes ensures Selected(c, ps[0], patterns) {
        StarMatchesAll(FullName(c));
      }
      FilterAll(ps[0].classes, SelectedIn(ps[0], patterns));
    }
  }

  // -------------------------------------------------------------- rendering

  /** `50 + 1 + 15 + 1 + 15`: the borders are exactly as wide as a row. */
  const TableWidth: nat := 82

  /** `printHeader`: no blank line after the second border. */
  function HeadingLines(): seq<string> {
    ["", Border('=', TableWidth), Title, Border('=', TableWidth)]
  }

  /** `printTableHeader`. */
  function ColumnHeaderLines(): seq<string> {
    [FormatRow("Class/Package", "Instruction (%)", "Branch (%)"), Border('-', TableWidth)]
  }

  /** `printFooter`. */
  function FooterLines(): seq<string> {
    [Border('-', TableWidth), ""]
  }

  /** A labelled row with the instruction and branch percentages of `counters`. */
  function CountersRow(name: string, counters: Counters): string {
    FormatRow(name, FormatPercent(InstructionCoverage(counters)), FormatPercent(BranchCoverage(counters)))
  }

  function TotalRow(report: CoverageReport): string {
    CountersRow("PROJECT TOTAL", report.counters)
  }

  function PackageRow(p: CoveragePackage): string {
    CountersRow(DisplayName(p) + " (package)", p.counters)
  }

  function ClassRow(c: CoverageClass): string {
    CountersRow("  " + FullName(c), c.counters)
  }

  /** `printPackageSummaries`, for packages already in display order. */
  function PackageRows(ps: seq<CoveragePackage>): (r: seq<string>)
    ensures |r| == |ps|
  {
    if ps == [] then [] else [PackageRow(ps[0])] + PackageRows(ps[1..])
  }

  lemma {:induction false} PackageRowsAt(ps: seq<CoveragePackage>, j: nat)
    requires j < |ps|
    ensures PackageRows(ps)[j] == PackageRow(ps[j])
  {
    if j > 0 { PackageRowsAt(ps[1..], j - 1); }
  }

  /** `printClassDetails`, for classes already in name order. */
  function ClassRows(cs: seq<CoverageClass>): (r: seq<string>)
    ensures |r| == |cs|
  {
    if cs == [] then [] else [ClassRow(cs[0])] + ClassRows(cs[1..])
  }

  lemma {:induction false} ClassRowsAt(cs: seq<CoverageClass>, j: nat)
    requires j < |cs|
    ensures ClassRows(cs)[j] == ClassRow(cs[j])
  {
    if j > 0 { ClassRowsAt(cs[1..], j - 1); }
  }

  /** The report as shown: unchanged without patterns, filtered with them. */
  function Shown(report: CoverageReport, patterns: seq<string>): CoverageReport {
    if patterns == [] then report else Filtered(report, patterns)
  }

  /** Whether the package section appears: asked for, and more than one package. */
  predicate ShowsPackages(report: CoverageReport, showPackageSummary: bool) {
    showPackageSummary && |report.packages| > 1
  }

  /** The table frame around its three sections. */
  function Layout(total: seq<string>, packages: seq<string>, classes: seq<string>): seq<string> {
    HeadingLines() + ColumnHeaderLines() + total + packages + classes + FooterLines()
  }

  /** Where each section of the frame sits. */
  lemma LayoutShape(total: seq<string>, packages: seq<string>, classes: seq<string>)
    ensures var lines := Layout(total, packages, classes);
      && |lines| == 8 + |total| + |packages| + |classes|
      && lines[..6] == HeadingLines() + ColumnHeaderLines()
      && lines[6..6 + |total|] == total
      && lines[6 + |total|..6 + |total| + |packages|] == packages
      && lines[6 + |total| + |packages|..|lines| - 2] == classes
      && lines[|lines| - 2..] == FooterLines()
  {
    var head := HeadingLines() + ColumnHeaderLines();
    assert |head| == 6;
    var lines := Layout(total, packages, classes);
    assert lines == head + total + packages + classes + FooterLines();
    assert lines[6..6 + |total|] == total by {
      forall k | 0 <= k < |total| ensures lines[6 + k] == total[k] {
        assert lines[6 + k] == (head + total)[6 + k];
      }
    }
  }

  function TotalSection(shown: CoverageReport, showTotal: bool): seq<string> {
    if showTotal then [TotalRow(shown)] else []
  }

  function PackageSection(shown: CoverageReport, showPackageSummary: bool): seq<string> {
    if ShowsPackages(shown, showPackageSummary) then PackageRows(SortBy(shown.packages, DisplayName)) else []
  }

  function ClassSection(shown: CoverageReport): seq<string> {
    ClassRows(SortBy(AllClasses(shown.packages), FullName))
  }

  /** The lines printed for the report as shown. */
  function RenderShown(shown: CoverageReport, showTotal: bool, showPackageSummary: bool): seq<string> {
    Layout(TotalSection(shown, showTotal), PackageSection(shown, showPackageSummary), ClassSection(shown))
  }

  /** `renderCoverageReport`, as the lines it prints. */
  function RenderCoverageReport(report: CoverageReport, patterns: seq<string>,
                                showTotal: bool, showPackageSummary: bool): seq<string>
  {
    RenderShown(Shown(report, patterns), showTotal, showPackageSummary)
  }

  /** The three sections have one line for the total (if asked for), one per
      package (if the package section appears) and one per class. */
  lemma SectionSizes(shown: CoverageReport, showTotal: bool, showPackageSummary: bool)
    ensures |TotalSection(shown, showTotal)| == if showTotal then 1 else 0
    ensures |PackageSection(shown, showPackageSummary)|
         == if ShowsPackages(shown, showPackageSummary) then |shown.packages| else 0
    ensures |ClassSection(shown)| == ClassCount(shown.packages)
  {
    AllClassesLength(shown.packages);
  }

  /** The line count: eight frame lines plus the three sections. */
  lemma RenderLength(shown: CoverageReport, showTotal: bool, showPackageSummary: bool)
    ensures |RenderShown(shown, showTotal, showPackageSummary)|
         == 8 + (if showTotal then 1 else 0)
              + (if ShowsPackages(shown, showPackageSummary) then |shown.packages| else 0)
              + ClassCount(shown.packages)
  {
    SectionSizes(shown, showTotal, showPackageSummary);
    LayoutShape(TotalSection(shown, showTotal), PackageSection(shown, showPackageSummary), ClassSection(shown));
  }

  /** The title block and column header come first and the closing border and blank
      line last, whatever is shown. */
  lemma RenderFrame(shown: CoverageReport, showTotal: bool, showPackageSummary: bool)
    ensures var lines := RenderShown(shown, showTotal, showPackageSummary);
      lines[..6] == HeadingLines() + ColumnHeaderLines() && lines[|lines| - 2..] == FooterLines()
  {
    LayoutShape(TotalSection(shown, showTotal), PackageSection(shown, showPackageSummary), ClassSection(shown));
  }

  /** With `showTotal` the project total is the first line after the column header. */
  lemma RenderTotal(shown: CoverageReport, showPackageSummary: bool)
    ensures RenderShown(shown, true, showPackageSummary)[6] == TotalRow(shown)
  {
    LayoutShape(TotalSection(shown, true), PackageSection(shown, showPackageSummary), ClassSection(shown));
    var lines := RenderShown(shown, true, showPackageSummary);
    assert lines[6] == lines[6..7][0];
  }

  /** The package lines are the shown packages in display-name order (`SortBy`
      returns them sorted and as a permutation); line `j` of them is `PackageRow`
      of package `j`, by `PackageRowsAt`. */
  lemma RenderPackageRows(shown: CoverageReport, showTotal: bool, showPackageSummary: bool)
    requires ShowsPackages(shown, showPackageSummary)
    ensures SortedBy(SortBy(shown.packages, DisplayName), DisplayName)
    ensures multiset(SortBy(shown.packages, DisplayName)) == multiset(shown.packages)
    ensures PackageLinesAt(RenderShown(shown, showTotal, showPackageSummary),
                           if showTotal then 1 else 0, SortBy(shown.packages, DisplayName))
  {
    LayoutPackages(TotalSection(shown, showTotal), SortBy(shown.packages, DisplayName), ClassSection(shown));
  }

  /** After the frame's six lines and `t` total lines come the package lines. */
  predicate PackageLinesAt(lines: seq<string>, t: nat, sorted: seq<CoveragePackage>) {
    6 + t + |sorted| <= |lines| && lines[6 + t..6 + t + |sorted|] == PackageRows(sorted)
  }

  /** The package section of a layout, as a slice at a known place. */
  lemma LayoutPackages(total: seq<string>, sorted: seq<CoveragePackage>, classes: seq<string>)
    ensures PackageLinesAt(Layout(total, PackageRows(sorted), classes), |total|, sorted)
  {
    LayoutShape(total, PackageRows(sorted), classes);
  }

  /** The class lines are the shown classes, each once, sorted by full name, and
      followed only by the footer (line `j` of them is `ClassRow` of class `j`, by
      `ClassRowsAt`). */
  lemma RenderClassRows(shown: CoverageReport, showTotal: bool, showPackageSummary: bool)
    ensures SortedBy(SortBy(AllClasses(shown.packages), FullName), FullName)
    ensures multiset(SortBy(AllClasses(shown.packages), FullName)) == multiset(AllClasses(shown.packages))
    ensures ClassLinesAt(RenderShown(shown, showTotal, showPackageSummary),
                         6 + (if showTotal then 1 else 0)
                           + (if ShowsPackages(shown, showPackageSummary) then |shown.packages| else 0),
                         SortBy(AllClasses(shown.packages), FullName))
  {
    assert |PackageSection(shown, showPackageSummary)|
        == if ShowsPackages(shown, showPackageSummary) then |shown.packages| else 0;
    LayoutClasses(TotalSection(shown, showTotal), PackageSection(shown, showPackageSummary),
                  SortBy(AllClasses(shown.packages), FullName));
  }

  /** From line `k` on come the class lines, then only the two footer lines. */
  predicate ClassLinesAt(lines: seq<string>, k: nat, sorted: seq<CoverageClass>) {
    k + |sorted| + 2 == |lines| && lines[k..|lines| - 2] == ClassRows(sorted)
  }

  /** The class section of a layout, as a slice at a known place. */
  lemma LayoutClasses(total: seq<string>, packages: seq<string>, sorted: seq<CoverageClass>)
    ensures ClassLinesAt(Layout(total, packages, ClassRows(sorted)), 6 + |total| + |packages|, sorted)
  {
    LayoutShape(total, packages, ClassRows(sorted));
  }

  /** Without patterns the report is shown unchanged; with patterns, filtered. */
  lemma ShownReport(report: CoverageReport, patterns: seq<string>, showTotal: bool, showPackageSummary: bool)
    ensures patterns == [] ==>
      RenderCoverageReport(report, patterns, showTotal, showPackageSummary) == RenderShown(report, showTotal, showPackageSummary)
    ensures patterns != [] ==>
      RenderCoverageReport(report, patterns, showTotal, showPackageSummary)
        == RenderShown(Filtered(report, patterns), showTotal, showPackageSummary)
  {
  }

  /** With `*` among the patterns the class lines are every class of the report,
      each once, sorted by full name. */
  lemma StarShowsAllClasses(report: CoverageReport, patterns: seq<string>, showTotal: bool, showPackageSummary: bool)
    requires "*" in patterns
    ensures var shown := Filtered(report, patterns);
      var sorted := SortBy(AllClasses(report.packages), FullName);
      && SortedBy(sorted, FullName) && multiset(sorted) == multiset(AllClasses(report.packages))
      && ClassLinesAt(RenderCoverageReport(report, patterns, showTotal, showPackageSummary),
                      6 + (if showTotal then 1 else 0)
                        + (if ShowsPackages(shown, showPackageSummary) then |shown.packages| else 0),
                      sorted)
  {
    var shown := Filtered(report, patterns);
    FilteredReport(report, patterns);
    StarKeepsAllClasses(report.packages, patterns);
    assert AllClasses(shown.packages) == AllClasses(report.packages);
    ShownReport(report, patterns, showTotal, showPackageSummary);
    RenderClassRows(shown, showTotal, showPackageSummary);
  }

  /** A row whose name fits in 50 columns, for non-negative counts, is exactly
      as wide as the borders. */
  lemma RowWidth(name: string, counters: Counters)
    requires |name| <= ClassColumnWidth
    requires forall t :: t in counters ==> counters[t].missed >= 0 && counters[t].covered >= 0
    ensures |CountersRow(name, counters)| == TableWidth
    ensures StartsWith(CountersRow(name, counters), name)
  {
    var ip := InstructionCoverage(counters);
    var bp := BranchCoverage(counters);
    assert 0.0 <= ip <= 100.0 && 0.0 <= bp <= 100.0;
    FormatPercentShape(ip);
    FormatPercentShape(bp);
    FormatRowShape(name, FormatPercent(ip), FormatPercent(bp));
  }

}
