/** The JaCoCo XML report model (counters, classes, packages, report) and the
    walk that builds it from a parsed document. The document is an element tree;
    the XML text parsing itself is outside the model: a document is given as
    well formed (the root element) or as one of the two ways reading it fails. */
module XmlReportParser {
  import opened Wrappers
  import opened Strings
  import opened Seqs
  import opened Percentages

  // ---------------------------------------------------------------- data model

  /** `CoverageCounter`: the missed/covered pair of one metric type. */
  datatype CoverageCounter = CoverageCounter(kind: string, missed: int, covered: int)

  type Counters = map<string, CoverageCounter>

  /** `CoverageCounter.total`. */
  function Total(c: CoverageCounter): int {
    c.missed + c.covered
  }

  /** `CoverageCounter.coveragePercentage`. */
  function CoveragePercentage(c: CoverageCounter): (p: real)
    ensures Total(c) == 0 ==> p == 0.0
    ensures c.missed == 0 && c.covered > 0 ==> p == 100.0
    ensures c.missed >= 0 && c.covered >= 0 ==> 0.0 <= p <= 100.0
    ensures Total(c) != 0 ==> p * (Total(c) as real) == 100.0 * (c.covered as real)
  {
    Percentage(c.covered, Total(c))
  }

  /** `counters[kind]?.coveragePercentage ?: 0.0`. */
  function CoverageOf(counters: Counters, kind: string): (p: real)
    ensures kind !in counters ==> p == 0.0
    ensures kind in counters ==> p == CoveragePercentage(counters[kind])
    ensures kind in counters && counters[kind].missed >= 0 && counters[kind].covered >= 0 ==> 0.0 <= p <= 100.0
  {
    if kind in counters then CoveragePercentage(counters[kind]) else 0.0
  }

  /** The `instructionCoverage` getter of classes, packages and reports. */
  function InstructionCoverage(counters: Counters): real {
    CoverageOf(counters, "INSTRUCTION")
  }

  /** The `branchCoverage` getter of classes, packages and reports. */
  function BranchCoverage(counters: Counters): real {
    CoverageOf(counters, "BRANCH")
  }

  /** `CoverageClass`: a slash-separated class name, its source file and its own counters. */
  datatype CoverageClass = CoverageClass(name: string, sourceFilename: Option<string>, counters: Counters)

  /** `CoveragePackage`: a slash-separated package name (empty for the default package). */
  datatype CoveragePackage = CoveragePackage(name: string, classes: seq<CoverageClass>, counters: Counters)

  /** `CoverageReport`. */
  datatype CoverageReport = CoverageReport(name: string, packages: seq<CoveragePackage>, counters: Counters)

  /** `CoverageClass.fullName`: the name with every `/` turned into `.`. */
  function FullName(c: CoverageClass): (r: string)
    ensures |r| == |c.name|
    ensures forall i :: 0 <= i < |r| ==> r[i] == if c.name[i] == '/' then '.' else c.name[i]
    ensures '/' !in r
  {
    ReplaceChar(c.name, '/', '.')
  }

  const DefaultPackageName: string := "(default package)"

  /** `CoveragePackage.displayName`. */
  function DisplayName(p: CoveragePackage): (r: string)
    ensures p.name == [] ==> r == DefaultPackageName
    ensures p.name != [] ==>
      (|r| == |p.name| && forall i :: 0 <= i < |r| ==> r[i] == if p.name[i] == '/' then '.' else p.name[i])
  {
    if p.name == [] then DefaultPackageName else ReplaceChar(p.name, '/', '.')
  }

  /** `CoverageReport.getAllClasses()`: `packages.flatMap { it.classes }`. */
  function AllClasses(packages: seq<CoveragePackage>): seq<CoverageClass> {
    if packages == [] then [] else packages[0].classes + AllClasses(packages[1..])
  }

  function ClassCount(packages: seq<CoveragePackage>): nat {
    if packages == [] then 0 else |packages[0].classes| + ClassCount(packages[1..])
  }

  /** Flattening keeps package order first, then class order. */
  lemma {:induction false} AllClassesConcat(a: seq<CoveragePackage>, b: seq<CoveragePackage>)
    ensures AllClasses(a + b) == AllClasses(a) + AllClasses(b)
  {
    if a == [] {
      assert a + b == b;
    } else {
      assert (a + b)[1..] == a[1..] + b;
      AllClassesConcat(a[1..], b);
    }
  }

  /** The flattened list has one entry per class of every package. */
  lemma {:induction false} AllClassesLength(packages: seq<CoveragePackage>)
    ensures |AllClasses(packages)| == ClassCount(packages)
  {
    if packages != [] { AllClassesLength(packages[1..]); }
  }

  /** A class is in the flattened list exactly when some package holds it. */
  lemma {:induction false} AllClassesMember(packages: seq<CoveragePackage>, c: CoverageClass)
    ensures c in AllClasses(packages) <==> exists i :: 0 <= i < |packages| && c in packages[i].classes
  {
    if packages != [] {
      AllClassesMember(packages[1..], c);
      if c in AllClasses(packages[1..]) {
        var i :| 0 <= i < |packages[1..]| && c in packages[1..][i].classes;
        assert c in packages[i + 1].classes;
      }
      if exists i :: 0 <= i < |packages| && c in packages[i].classes {
        var i :| 0 <= i < |packages| && c in packages[i].classes;
        if i > 0 { assert c in packages[1..][i - 1].classes; }
      }
    }
  }

  // ------------------------------------------------------------ element tree

  /** A DOM element: its tag name, its attributes and its child elements in document order. */
  datatype Element = Element(tag: string, attributes: map<string, string>, children: seq<Element>)

  /** `Element.getAttribute(name)`: the value, or "" when the attribute is absent. */
  function GetAttribute(e: Element, name: string): string {
    if name in e.attributes then e.attributes[name] else ""
  }

  /** A node reached by a search from some element: the child indices that lead
      to it from that element, and the element found there. Distinct positions
      are distinct DOM nodes, so a node is a child of the searched element
      exactly when its path has length one. */
  datatype Node = Node(path: seq<nat>, element: Element)

  /** Every element below `e` (not `e` itself) in document order. */
  function Descendants(e: Element): seq<Node> {
    Forest(e.children, 0)
  }

  /** The nodes of the trees `cs`, the first of which is child number `base`. */
  function Forest(cs: seq<Element>, base: nat): seq<Node> {
    if cs == [] then []
    else [Node([base], cs[0])] + Under(base, Descendants(cs[0])) + Forest(cs[1..], base + 1)
  }

  /** The nodes `ns` seen from one level higher, through child number `i`. */
  function Under(i: nat, ns: seq<Node>): (r: seq<Node>)
    ensures |r| == |ns|
    ensures forall k :: 0 <= k < |r| ==> r[k] == Node([i] + ns[k].path, ns[k].element)
  {
    if ns == [] then [] else [Node([i] + ns[0].path, ns[0].element)] + Under(i, ns[1..])
  }

  /** The nodes of `ns` whose tag is `tag`, in order. */
  function WithTag(ns: seq<Node>, tag: string): seq<Node> {
    if ns == [] then [] else (if ns[0].element.tag == tag then [ns[0]] else []) + WithTag(ns[1..], tag)
  }

  /** `getElementsByTagName(tag)`: every descendant with that tag, at any depth, in document order. */
  function ElementsByTagName(e: Element, tag: string): seq<Node> {
    WithTag(Descendants(e), tag)
  }

  /** The children of `e` whose tag is `tag`, in order. */
  function ChildrenWithTag(cs: seq<Element>, tag: string): seq<Element> {
    if cs == [] then [] else (if cs[0].tag == tag then [cs[0]] else []) + ChildrenWithTag(cs[1..], tag)
  }

  /** The elements of those nodes of `ns` whose parent is the searched element. */
  function ChildElements(ns: seq<Node>): seq<Element> {
    if ns == [] then []
    else ChildElements(ns[..|ns| - 1]) + (if |ns[|ns| - 1].path| == 1 then [ns[|ns| - 1].element] else [])
  }

  lemma {:induction false} ChildElementsConcat(a: seq<Node>, b: seq<Node>)
    ensures ChildElements(a + b) == ChildElements(a) + ChildElements(b)
  {
    if b == [] {
      assert a + b == a;
    } else {
      assert (a + b)[..|a + b| - 1] == a + b[..|b| - 1];
      ChildElementsConcat(a, b[..|b| - 1]);
    }
  }

  lemma ChildElementsStep(ns: seq<Node>, i: nat)
    requires i < |ns|
    ensures ChildElements(ns[..i + 1]) == ChildElements(ns[..i]) + (if |ns[i].path| == 1 then [ns[i].element] else [])
  {
    assert ns[..i + 1][..i] == ns[..i];
  }

  lemma ChildElementsSplit(ns: seq<Node>, i: nat)
    requires i <= |ns|
    ensures ChildElements(ns) == ChildElements(ns[..i]) + ChildElements(ns[i..])
  {
    assert ns == ns[..i] + ns[i..];
    ChildElementsConcat(ns[..i], ns[i..]);
  }

  lemma {:induction false} ChildElementsDeep(ns: seq<Node>)
    requires forall k :: 0 <= k < |ns| ==> |ns[k].path| >= 2
    ensures ChildElements(ns) == []
  {
    if ns != [] { ChildElementsDeep(ns[..|ns| - 1]); }
  }

  lemma {:induction false} WithTagConcat(a: seq<Node>, b: seq<Node>, tag: string)
    ensures WithTag(a + b, tag) == WithTag(a, tag) + WithTag(b, tag)
  {
    if a == [] {
      assert a + b == b;
    } else {
      var h := if a[0].element.tag == tag then [a[0]] else [];
      assert (a + b)[0] == a[0];
      assert (a + b)[1..] == a[1..] + b;
      assert WithTag(a + b, tag) == h + WithTag(a[1..] + b, tag);
      WithTagConcat(a[1..], b, tag);
      assert WithTag(a, tag) == h + WithTag(a[1..], tag);
    }
  }

  /** Every node found has the tag asked for and comes from the nodes searched. */
  lemma {:induction false} WithTagSub(ns: seq<Node>, tag: string)
    ensures forall k :: 0 <= k < |WithTag(ns, tag)| ==> WithTag(ns, tag)[k] in ns && WithTag(ns, tag)[k].element.tag == tag
  {
    if ns != [] {
      WithTagSub(ns[1..], tag);
    }
  }

  /** Every node of a forest lies at least one level below the searched element. */
  lemma {:induction false} ForestPaths(cs: seq<Element>, base: nat)
    ensures forall k :: 0 <= k < |Forest(cs, base)| ==> |Forest(cs, base)[k].path| >= 1
  {
    if cs != [] {
      ForestPaths(cs[1..], base + 1);
      var u := Under(base, Descendants(cs[0]));
      var f := Forest(cs[1..], base + 1);
      assert Forest(cs, base) == [Node([base], cs[0])] + u + f;
    }
  }

  lemma WithTagSingle(n: Node, tag: string)
    ensures WithTag([n], tag) == if n.element.tag == tag then [n] else []
  {
    assert [n][1..] == [];
  }

  lemma ChildElementsSingle(n: Node)
    ensures ChildElements([n]) == if |n.path| == 1 then [n.element] else []
  {
    assert [n][..0] == [];
  }

  /** Nodes found below a child are never children themselves. */
  lemma UnderIsDeep(i: nat, ns: seq<Node>, tag: string)
    requires forall k :: 0 <= k < |ns| ==> |ns[k].path| >= 1
    ensures ChildElements(WithTag(Under(i, ns), tag)) == []
  {
    var u := Under(i, ns);
    var w := WithTag(u, tag);
    WithTagSub(u, tag);
    forall k | 0 <= k < |w| ensures |w[k].path| >= 2 {
      var m :| 0 <= m < |u| && u[m] == w[k];
    }
    ChildElementsDeep(w);
  }

  /** Among the tagged descendants, those whose parent is the searched element
      are exactly its tagged children, in order. */
  lemma {:induction false} ChildElementsOfForest(cs: seq<Element>, base: nat, tag: string)
    ensures ChildElements(WithTag(Forest(cs, base), tag)) == ChildrenWithTag(cs, tag)
  {
    if cs != [] {
      var n := Node([base], cs[0]);
      var head := WithTag([n], tag);
      var deep := WithTag(Under(base, Descendants(cs[0])), tag);
      var rest := WithTag(Forest(cs[1..], base + 1), tag);
      assert Forest(cs, base) == [n] + Under(base, Descendants(cs[0])) + Forest(cs[1..], base + 1);
      WithTagConcat([n] + Under(base, Descendants(cs[0])), Forest(cs[1..], base + 1), tag);
      WithTagConcat([n], Under(base, Descendants(cs[0])), tag);
      assert WithTag(Forest(cs, base), tag) == head + deep + rest;
      ChildElementsConcat(head + deep, rest);
      ChildElementsConcat(head, deep);
      WithTagSingle(n, tag);
      ChildElementsSingle(n);
      assert ChildElements(head) == if cs[0].tag == tag then [cs[0]] else [] by {
        if cs[0].tag != tag { assert head == []; }
      }
      ForestPaths(cs[0].children, 0);
      UnderIsDeep(base, Descendants(cs[0]), tag);
      ChildElementsOfForest(cs[1..], base + 1, tag);
      assert ChildElements(head + deep + rest) == ChildElements(head) + [] + ChildElements(rest);
    }
  }

  lemma DirectChildren(e: Element, tag: string)
    ensures ChildElements(ElementsByTagName(e, tag)) == ChildrenWithTag(e.children, tag)
  {
    ChildElementsOfForest(e.children, 0, tag);
  }

  lemma {:induction false} ChildrenWithTagConcat(a: seq<Element>, b: seq<Element>, tag: string)
    ensures ChildrenWithTag(a + b, tag) == ChildrenWithTag(a, tag) + ChildrenWithTag(b, tag)
  {
    if a == [] {
      assert a + b == b;
    } else {
      assert (a + b)[0] == a[0] && (a + b)[1..] == a[1..] + b;
      ChildrenWithTagConcat(a[1..], b, tag);
      var h := if a[0].tag == tag then [a[0]] else [];
      assert ChildrenWithTag(a + b, tag) == h + ChildrenWithTag(a[1..] + b, tag);
      assert ChildrenWithTag(a, tag) == h + ChildrenWithTag(a[1..], tag);
    }
  }

  // ------------------------------------------------------------------ errors

  /** The `IllegalArgumentException` messages of the parser, by cause. */
  datatype XmlError =
    | FileNotFound(file: string)        // "XML file not found: ..."
    | FileNotReadable(file: string)     // "XML file is not readable: ..."
    | NotXmlFile(file: string)          // "Expected XML file, got: ..."
    | ReadFailed(file: string)          // "Failed to read XML file: ..." (an IOException)
    | MalformedXml(file: string)        // "Failed to parse XML file: ..." (a SAXException)
    | WrongRoot(found: string)          // "... root element should be 'report', found '...'"
    | InvalidMissed(value: string)      // "Invalid missed value in counter: ..."
    | InvalidCovered(value: string)     // "Invalid covered value in counter: ..."

  /** What the document builder makes of the file's bytes. */
  datatype XmlDocument = Document(root: Element) | Unreadable | Malformed

  /** The report file: its absolute path, its name (the last part of the path),
      the two access checks, and its content. */
  datatype XmlFile = XmlFile(path: string, name: string, present: bool, readable: bool, content: XmlDocument)

  // ------------------------------------------------------------------ parser

  /** `parseCounter`: integer `missed` and `covered` attributes, or an error naming the bad value. */
  function ParseCounter(e: Element): Result<CoverageCounter, XmlError> {
    var missedAttr := GetAttribute(e, "missed");
    var coveredAttr := GetAttribute(e, "covered");
    match ParseInt(missedAttr)
    case None => Err(InvalidMissed(missedAttr))
    case Some(missed) =>
      match ParseInt(coveredAttr)
      case None => Err(InvalidCovered(coveredAttr))
      case Some(covered) => Ok(CoverageCounter(GetAttribute(e, "type"), missed, covered))
  }

  /** A `<counter>` element as JaCoCo writes it; the reference the parser is checked against. */
  function CounterElement(c: CoverageCounter): Element {
    Element("counter", map["type" := c.kind, "missed" := IntToString(c.missed), "covered" := IntToString(c.covered)], [])
  }

  /** Every counter with 32-bit counts reads back from its element. */
  lemma ParseCounterOfCounterElement(c: CoverageCounter)
    requires IntMin <= c.missed <= IntMax && IntMin <= c.covered <= IntMax
    ensures ParseCounter(CounterElement(c)) == Ok(c)
  {
    ParseIntOfIntToString(c.missed);
    ParseIntOfIntToString(c.covered);
  }

  /** A missing or non-integer count is an error that quotes the attribute's value. */
  lemma ParseCounterRejects(e: Element)
    ensures ParseInt(GetAttribute(e, "missed")) == None ==>
      ParseCounter(e) == Err(InvalidMissed(GetAttribute(e, "missed")))
    ensures ParseInt(GetAttribute(e, "missed")).Some? && ParseInt(GetAttribute(e, "covered")) == None ==>
      ParseCounter(e) == Err(InvalidCovered(GetAttribute(e, "covered")))
    ensures "missed" !in e.attributes ==> ParseCounter(e) == Err(InvalidMissed(""))
  {
  }

  /** The counters of `cs` read in order into a map keyed by type, a later
      counter replacing an earlier one of the same type; the first bad counter fails. */
  function CountersFrom(cs: seq<Element>): Result<Counters, XmlError> {
    if cs == [] then Ok(map[])
    else
      match CountersFrom(cs[..|cs| - 1])
      case Err(e) => Err(e)
      case Ok(m) =>
        match ParseCounter(cs[|cs| - 1])
        case Err(e) => Err(e)
        case Ok(c) => Ok(m[c.kind := c])
  }

  /** The counters that belong to `e`: its direct `<counter>` children only. */
  function CountersOf(e: Element): Result<Counters, XmlError> {
    CountersFrom(ChildrenWithTag(e.children, "counter"))
  }

  /** `parseCounters`: scans every `<counter>` below the element in document order,
      keeps those whose parent is the element, and stores each under its type. */
  method ParseCounters(element: Element) returns (r: Result<Counters, XmlError>)
    ensures r == CountersOf(element)
  {
    var counterElements := ElementsByTagName(element, "counter");
    DirectChildren(element, "counter");
    var counters: Counters := map[];
    for i := 0 to |counterElements|
      invariant CountersFrom(ChildElements(counterElements[..i])) == Ok(counters)
    {
      var node := counterElements[i];
      ChildElementsStep(counterElements, i);
      if |node.path| == 1 {
        var counter := ParseCounter(node.element);
        CountersFromSnoc(ChildElements(counterElements[..i]), node.element);
        if counter.Err? {
          ChildElementsSplit(counterElements, i + 1);
          CountersFromFailed(ChildElements(counterElements[..i + 1]), ChildElements(counterElements[i + 1..]));
          return Err(counter.error);
        }
        counters := counters[counter.value.kind := counter.value];
      } else {
        assert ChildElements(counterElements[..i]) + [] == ChildElements(counterElements[..i]);
      }
    }
    assert counterElements[..|counterElements|] == counterElements;
    r := Ok(counters);
  }

  /** One more counter: an earlier failure stands, otherwise the counter is parsed and stored. */
  lemma CountersFromSnoc(a: seq<Element>, e: Element)
    ensures CountersFrom(a + [e]) ==
      match CountersFrom(a)
      case Err(err) => Err(err)
      case Ok(m) =>
        match ParseCounter(e)
        case Err(err) => Err(err)
        case Ok(c) => Ok(m[c.kind := c])
  {
    assert (a + [e])[..|a|] == a;
  }

  /** A parsed counter carries the element's `type`. */
  lemma ParseCounterKind(e: Element)
    requires ParseCounter(e).Ok?
    ensures ParseCounter(e).value.kind == GetAttribute(e, "type")
  {
  }

  /** Once a counter has failed, later counters change nothing. */
  lemma {:induction false} CountersFromFailed(a: seq<Element>, b: seq<Element>)
    requires CountersFrom(a).Err?
    ensures CountersFrom(a + b) == CountersFrom(a)
  {
    if b != [] {
      var init := b[..|b| - 1];
      assert a + b == (a + init) + [b[|b| - 1]];
      CountersFromFailed(a, init);
      CountersFromSnoc(a + init, b[|b| - 1]);
    } else {
      assert a + b == a;
    }
  }

  /** The counters read succeed exactly when every counter is well formed. */
  lemma {:induction false} CountersFromOk(cs: seq<Element>)
    ensures CountersFrom(cs).Ok? <==> forall i :: 0 <= i < |cs| ==> ParseCounter(cs[i]).Ok?
  {
    if cs != [] {
      var init := cs[..|cs| - 1];
      CountersFromOk(init);
      assert cs == init + [cs[|cs| - 1]];
      CountersFromSnoc(init, cs[|cs| - 1]);
      assert forall i :: 0 <= i < |init| ==> init[i] == cs[i];
    }
  }

  /** A failure reports the first bad counter. */
  lemma {:induction false} CountersFromFirstError(cs: seq<Element>)
    requires CountersFrom(cs).Err?
    ensures exists j :: 0 <= j < |cs| && ParseCounter(cs[j]) == Err(CountersFrom(cs).error)
                     && forall i :: 0 <= i < j ==> ParseCounter(cs[i]).Ok?
  {
    var init := cs[..|cs| - 1];
    assert cs == init + [cs[|cs| - 1]];
    CountersFromSnoc(init, cs[|cs| - 1]);
    assert forall i :: 0 <= i < |init| ==> init[i] == cs[i];
    if CountersFrom(init).Err? {
      CountersFromFirstError(init);
      var j :| 0 <= j < |init| && ParseCounter(init[j]) == Err(CountersFrom(init).error)
             && forall i :: 0 <= i < j ==> ParseCounter(init[i]).Ok?;
      assert ParseCounter(cs[j]) == Err(CountersFrom(cs).error);
    } else {
      CountersFromOk(init);
      assert ParseCounter(cs[|cs| - 1]) == Err(CountersFrom(cs).error);
    }
  }

  /** A successful read has one entry per distinct type, each stored under its own type. */
  lemma {:induction false} CountersFromKeys(cs: seq<Element>)
    requires CountersFrom(cs).Ok?
    ensures forall t :: t in CountersFrom(cs).value <==> exists i :: 0 <= i < |cs| && GetAttribute(cs[i], "type") == t
    ensures forall t :: t in CountersFrom(cs).value ==> CountersFrom(cs).value[t].kind == t
  {
    if cs != [] {
      var init := cs[..|cs| - 1];
      var last := cs[|cs| - 1];
      assert cs == init + [last];
      CountersFromSnoc(init, last);
      CountersFromKeys(init);
      ParseCounterKind(last);
      var m := CountersFrom(init).value;
      var c := ParseCounter(last).value;
      assert CountersFrom(cs).value == m[c.kind := c];
      KeysStep(m, c, m[c.kind := c], init, cs);
    }
  }

  /** Storing one more counter under its type keeps the map keyed by the types seen. */
  lemma KeysStep(m: Counters, c: CoverageCounter, m': Counters, init: seq<Element>, cs: seq<Element>)
    requires m' == m[c.kind := c]
    requires |cs| == |init| + 1 && forall i :: 0 <= i < |init| ==> cs[i] == init[i]
    requires GetAttribute(cs[|init|], "type") == c.kind
    requires forall t :: t in m <==> exists i :: 0 <= i < |init| && GetAttribute(init[i], "type") == t
    requires forall t :: t in m ==> m[t].kind == t
    ensures forall t :: t in m' <==> exists i :: 0 <= i < |cs| && GetAttribute(cs[i], "type") == t
    ensures forall t :: t in m' ==> m'[t].kind == t
  {
    forall t ensures t in m' <==> exists i :: 0 <= i < |cs| && GetAttribute(cs[i], "type") == t {
      if t in m {
        var i :| 0 <= i < |init| && GetAttribute(init[i], "type") == t;
        assert cs[i] == init[i];
      }
      if exists i :: 0 <= i < |cs| && GetAttribute(cs[i], "type") == t {
        var i :| 0 <= i < |cs| && GetAttribute(cs[i], "type") == t;
        if i < |init| { assert init[i] == cs[i]; }
      }
    }
  }

  /** The value stored for a type is the last counter of that type. */
  lemma {:induction false} CountersFromLastWins(cs: seq<Element>, j: nat)
    requires CountersFrom(cs).Ok? && j < |cs|
    requires forall k :: j < k < |cs| ==> GetAttribute(cs[k], "type") != GetAttribute(cs[j], "type")
    ensures ParseCounter(cs[j]).Ok?
    ensures GetAttribute(cs[j], "type") in CountersFrom(cs).value
    ensures CountersFrom(cs).value[GetAttribute(cs[j], "type")] == ParseCounter(cs[j]).value
  {
    var init := cs[..|cs| - 1];
    var last := cs[|cs| - 1];
    assert cs == init + [last];
    CountersFromSnoc(init, last);
    ParseCounterKind(last);
    if j < |cs| - 1 {
      assert init[j] == cs[j];
      assert forall k :: j < k < |init| ==> init[k] == cs[k];
      CountersFromLastWins(init, j);
    }
  }

  /** A child that is not a `<counter>` (a `<method>` with counters of its own,
      say) never changes the counters of its parent. */
  lemma NonCounterChildIgnored(e: Element, w: Element)
    requires w.tag != "counter"
    ensures CountersOf(Element(e.tag, e.attributes, e.children + [w])) == CountersOf(e)
  {
    ChildrenWithTagConcat(e.children, [w], "counter");
    assert ChildrenWithTag([w], "counter") == [] by {
      assert [w][1..] == [];
    }
    assert ChildrenWithTag(e.children, "counter") + [] == ChildrenWithTag(e.children, "counter");
  }

  /** `parseClass`: an empty `sourcefilename` becomes `null`. */
  function ParseClass(e: Element): (r: Result<CoverageClass, XmlError>)
    ensures r.Ok? <==> CountersOf(e).Ok?
    ensures r.Ok? ==> r.value.name == GetAttribute(e, "name") && Ok(r.value.counters) == CountersOf(e)
    ensures r.Ok? ==> (r.value.sourceFilename == None <==> GetAttribute(e, "sourcefilename") == "")
    ensures r.Ok? && r.value.sourceFilename.Some? ==> r.value.sourceFilename.value == GetAttribute(e, "sourcefilename")
  {
    var sourceFilename := GetAttribute(e, "sourcefilename");
    match CountersOf(e)
    case Err(err) => Err(err)
    case Ok(counters) =>
      Ok(CoverageClass(GetAttribute(e, "name"), if sourceFilename != "" then Some(sourceFilename) else None, counters))
  }

  /** `parseClasses`: one class per `<class>` anywhere below the package, in document order. */
  function ParseClasses(packageElement: Element): Result<seq<CoverageClass>, XmlError> {
    MapResult(ElementsByTagName(packageElement, "class"), (n: Node) => ParseClass(n.element))
  }

  /** `parsePackage`: its classes are read before its own counters. */
  function ParsePackage(e: Element): Result<CoveragePackage, XmlError> {
    match ParseClasses(e)
    case Err(err) => Err(err)
    case Ok(classes) =>
      match CountersOf(e)
      case Err(err) => Err(err)
      case Ok(counters) => Ok(CoveragePackage(GetAttribute(e, "name"), classes, counters))
  }

  /** `parsePackages`: one package per `<package>` anywhere below the report, in document order. */
  function ParsePackages(reportElement: Element): Result<seq<CoveragePackage>, XmlError> {
    MapResult(ElementsByTagName(reportElement, "package"), (n: Node) => ParsePackage(n.element))
  }

  /** The classes of a package are one per `<class>` below it, in document order,
      each the parse of its element; a failure is that of the first class that fails. */
  lemma ParseClassesStructure(e: Element)
    ensures var cs := ElementsByTagName(e, "class");
      && (ParseClasses(e).Ok? <==> forall i :: 0 <= i < |cs| ==> ParseClass(cs[i].element).Ok?)
      && (ParseClasses(e).Ok? ==>
            |ParseClasses(e).value| == |cs|
            && forall i :: 0 <= i < |cs| ==> ParseClass(cs[i].element) == Ok(ParseClasses(e).value[i]))
  {
    var cs := ElementsByTagName(e, "class");
    forall i | 0 <= i < |cs| ensures ((n: Node) => ParseClass(n.element))(cs[i]) == ParseClass(cs[i].element) {
    }
  }

  /** A failed read of the classes reports the first class that fails, every class before it parsing. */
  lemma ParseClassesFirstError(e: Element) returns (i: nat)
    requires ParseClasses(e).Err?
    ensures var cs := ElementsByTagName(e, "class");
      && i < |cs| && ParseClass(cs[i].element) == Err(ParseClasses(e).error)
      && forall j :: 0 <= j < i ==> ParseClass(cs[j].element).Ok?
  {
    var cs := ElementsByTagName(e, "class");
    var f := (n: Node) => ParseClass(n.element);
    i :| 0 <= i < |cs| && f(cs[i]) == Err(ParseClasses(e).error) && forall j :: 0 <= j < i ==> f(cs[j]).Ok?;
  }

  /** A package takes its name and direct counters from its element and its classes
      from `ParseClasses`; the classes are read first, so a bad class is reported
      before a bad counter of the package itself. */
  lemma ParsePackageStructure(e: Element)
    ensures ParsePackage(e).Ok? <==> ParseClasses(e).Ok? && CountersOf(e).Ok?
    ensures ParsePackage(e).Ok? ==>
      && ParsePackage(e).value.name == GetAttribute(e, "name")
      && Ok(ParsePackage(e).value.counters) == CountersOf(e)
      && Ok(ParsePackage(e).value.classes) == ParseClasses(e)
    ensures ParseClasses(e).Err? ==> ParsePackage(e) == Err(ParseClasses(e).error)
    ensures ParseClasses(e).Ok? && CountersOf(e).Err? ==> ParsePackage(e) == Err(CountersOf(e).error)
  {
  }

  /** The packages of a report are one per `<package>` below it, in document order,
      each the parse of its element; a failure is that of the first package that fails. */
  lemma ParsePackagesStructure(root: Element)
    ensures var ps := ElementsByTagName(root, "package");
      && (ParsePackages(root).Ok? <==> forall i :: 0 <= i < |ps| ==> ParsePackage(ps[i].element).Ok?)
      && (ParsePackages(root).Ok? ==>
            |ParsePackages(root).value| == |ps|
            && forall i :: 0 <= i < |ps| ==> ParsePackage(ps[i].element) == Ok(ParsePackages(root).value[i]))
  {
    var ps := ElementsByTagName(root, "package");
    forall i | 0 <= i < |ps| ensures ((n: Node) => ParsePackage(n.element))(ps[i]) == ParsePackage(ps[i].element) {
    }
  }

  lemma ParsePackagesFirstError(root: Element) returns (i: nat)
    requires ParsePackages(root).Err?
    ensures var ps := ElementsByTagName(root, "package");
      && i < |ps| && ParsePackage(ps[i].element) == Err(ParsePackages(root).error)
      && forall j :: 0 <= j < i ==> ParsePackage(ps[j].element).Ok?
  {
    var ps := ElementsByTagName(root, "package");
    var f := (n: Node) => ParsePackage(n.element);
    i :| 0 <= i < |ps| && f(ps[i]) == Err(ParsePackages(root).error) && forall j :: 0 <= j < i ==> f(ps[j]).Ok?;
  }

  /** `File.extension`: what follows the last `.` of the name, or "". */
  function Extension(fileName: string): string {
    AfterLast(fileName, '.')
  }

  /** `parse`: the file checks, the document, the root element, then packages and report counters. */
  function Parse(file: XmlFile): Result<CoverageReport, XmlError> {
    if !file.present then Err(FileNotFound(file.path))
    else if !file.readable then Err(FileNotReadable(file.path))
    else if LowercaseAscii(Extension(file.name)) != "xml" then Err(NotXmlFile(file.name))
    else
      match file.content
      case Unreadable => Err(ReadFailed(file.name))
      case Malformed => Err(MalformedXml(file.name))
      case Document(root) =>
        if root.tag != "report" then Err(WrongRoot(root.tag))
        else
          match ParsePackages(root)
          case Err(err) => Err(err)
          case Ok(packages) =>
            match CountersOf(root)
            case Err(err) => Err(err)
            case Ok(counters) => Ok(CoverageReport(GetAttribute(root, "name"), packages, counters))
  }

  /** The checks before the tree is walked, in the order the parser makes them. */
  lemma ParseRejects(file: XmlFile)
    ensures !file.present ==> Parse(file) == Err(FileNotFound(file.path))
    ensures file.present && !file.readable ==> Parse(file) == Err(FileNotReadable(file.path))
    ensures file.present && file.readable && LowercaseAscii(Extension(file.name)) != "xml" ==>
      Parse(file) == Err(NotXmlFile(file.name))
    ensures file.present && file.readable && LowercaseAscii(Extension(file.name)) == "xml" ==>
      && (file.content == Unreadable ==> Parse(file) == Err(ReadFailed(file.name)))
      && (file.content == Malformed ==> Parse(file) == Err(MalformedXml(file.name)))
      && (file.content.Document? && file.content.root.tag != "report" ==>
           Parse(file) == Err(WrongRoot(file.content.root.tag)))
  {
  }

  /** The extension is what follows the last `.` and its case does not matter:
      `report.XML` passes and `report.xml.txt` does not. */
  lemma ExtensionIgnoresCase(base: string)
    ensures LowercaseAscii(Extension(base + ".XML")) == "xml"
    ensures LowercaseAscii(Extension(base + ".xml")) == "xml"
    ensures LowercaseAscii(Extension(base + ".xml.txt")) != "xml"
  {
    ExtensionAfterDot(base, "XML");
    assert base + ".XML" == base + "." + "XML";
    ExtensionAfterDot(base, "xml");
    assert base + ".xml" == base + "." + "xml";
    ExtensionAfterDot(base + ".xml", "txt");
    assert base + ".xml.txt" == base + ".xml" + "." + "txt";
    LowercaseXml();
    assert LowercaseAscii("txt")[0] == 't';
  }

  lemma LowercaseXml()
    ensures LowercaseAscii("XML") == "xml" && LowercaseAscii("xml") == "xml"
  {
    assert LowerAscii('X') == 'x' && LowerAscii('M') == 'm' && LowerAscii('L') == 'l';
    assert LowerAscii('x') == 'x' && LowerAscii('m') == 'm' && LowerAscii('l') == 'l';
    var u := LowercaseAscii("XML");
    assert u[0] == 'x' && u[1] == 'm' && u[2] == 'l';
    var v := LowercaseAscii("xml");
    assert v[0] == 'x' && v[1] == 'm' && v[2] == 'l';
  }

  lemma ExtensionAfterDot(base: string, ext: string)
    requires '.' !in ext
    ensures Extension(base + "." + ext) == ext
  {
    assert base + "." + ext == base + ['.'] + ext;
    AfterLastAppend(base, '.', ext);
  }

  /** What a successful parse is made of. */
  lemma ParseStructure(file: XmlFile)
    requires Parse(file).Ok?
    ensures file.content.Document? && file.content.root.tag == "report"
    ensures var root := file.content.root; var report := Parse(file).value;
      && report.name == GetAttribute(root, "name")
      && Ok(report.counters) == CountersOf(root)
      && |report.packages| == |ElementsByTagName(root, "package")|
      && forall i :: 0 <= i < |report.packages| ==>
           ParsePackage(ElementsByTagName(root, "package")[i].element) == Ok(report.packages[i])
  {
  }
}
