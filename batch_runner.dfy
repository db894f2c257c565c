/**
  Turning findings into result records, and running rules over a batch of
  serialised trees. Discovering the `.ast.json` files, reading and parsing
  them are outside the model: the batch arrives as a list of trees, each
  with its path relative to the input directory, in discovery order.
*/
module BatchRunner {
  import opened Wrappers
  import opened Estree
  import opened RuleEngine

  /** A point of a result: a line and, when the location has one, a column. */
  datatype Point = Point(line: int, col: Option<int>)

  /** The external form of a finding. */
  datatype Result = Result(
    checkId: string,
    path: string,
    start: Option<Point>,
    end: Option<Point>,
    extra: Option<Json>)

  /** A serialised tree of the batch: its path relative to the input
      directory, and its contents. */
  datatype AstFile = AstFile(relPath: string, ast: Node)

  /** The file-name suffix of a serialised tree. */
  const AstSuffix: string := ".ast.json"

  /** A position becomes a point verbatim: same line, same column. */
  function PositionToPoint(p: Position): (pt: Point)
    ensures pt.line == p.line && pt.col == p.column
  {
    Point(p.line, p.column)
  }

  /** The result record of a finding, for the file at `path`. */
  function ReportToResult(report: Report, path: string): (r: Result)
    ensures r.checkId == report.checkId && r.path == path
    ensures r.extra.Some? <==> report.extra.Some? && Truthy(report.extra.value)
    ensures r.extra.Some? ==> r.extra == report.extra
    ensures report.node.loc.None? ==> r.start.None? && r.end.None?
    ensures r.start.Some? <==> report.node.loc.Some? && report.node.loc.value.start.Some?
    ensures r.start.Some? ==>
      r.start.value.line == report.node.loc.value.start.value.line &&
      r.start.value.col == report.node.loc.value.start.value.column
    ensures r.end.Some? <==> report.node.loc.Some? && report.node.loc.value.end.Some?
    ensures r.end.Some? ==>
      r.end.value.line == report.node.loc.value.end.value.line &&
      r.end.value.col == report.node.loc.value.end.value.column
  {
    var extra := if report.extra.Some? && Truthy(report.extra.value) then report.extra else None;
    match report.node.loc
    case None => Result(report.checkId, path, None, None, extra)
    case Some(loc) =>
      var start := if loc.start.Some? then Some(PositionToPoint(loc.start.value)) else None;
      var end := if loc.end.Some? then Some(PositionToPoint(loc.end.value)) else None;
      Result(report.checkId, path, start, end, extra)
  }

  /** `pat` occurs in `s` at index `i`. */
  predicate OccursAt(s: string, pat: string, i: int)
  {
    0 <= i && i + |pat| <= |s| && s[i..i + |pat|] == pat
  }

  /** JavaScript's `s.lastIndexOf(pat)`: the last index at which `pat`
      occurs, or -1 when it does not occur. */
  function LastIndexOf(s: string, pat: string): (r: int)
    ensures r == -1 || OccursAt(s, pat, r)
    ensures forall q :: r < q ==> !OccursAt(s, pat, q)
  {
    SearchBack(s, pat, |s| - |pat|)
  }

  function SearchBack(s: string, pat: string, i: int): (r: int)
    requires i <= |s| - |pat|
    ensures r == -1 || (r <= i && OccursAt(s, pat, r))
    ensures forall q :: r < q <= i ==> !OccursAt(s, pat, q)
    decreases i + 1
  {
    if i < 0 then -1
    else if s[i..i + |pat|] == pat then i
    else SearchBack(s, pat, i - 1)
  }

  /** The original file's path: the part of the relative path before the
      last occurrence of the tree-file suffix, or empty when the suffix does
      not occur (a substring whose end is -1 is clamped to the empty one). */
  function OriginalPath(relPath: string): (p: string)
    ensures p <= relPath
    ensures (exists q :: OccursAt(relPath, AstSuffix, q)) ==>
      OccursAt(relPath, AstSuffix, |p|) && forall q :: |p| < q ==> !OccursAt(relPath, AstSuffix, q)
    ensures (forall q :: !OccursAt(relPath, AstSuffix, q)) ==> p == ""
  {
    var i := LastIndexOf(relPath, AstSuffix);
    if i < 0 then "" else relPath[..i]
  }

  /** Stripping the suffix from `stem + ".ast.json"` gives back `stem`, even
      when `stem` itself contains ".ast.json". */
  lemma {:induction false} OriginalPathOfTreeFile(stem: string)
    ensures OriginalPath(stem + AstSuffix) == stem
  {
    var s := stem + AstSuffix;
    assert s[|stem|..|stem| + |AstSuffix|] == AstSuffix;
    assert OccursAt(s, AstSuffix, |stem|);
    var p := OriginalPath(s);
    assert |p| == |stem|;
    assert s[..|stem|] == stem;
  }

  /** The findings of one file: a run of all rules on a fresh context. */
  function FileReports(rules: seq<Rule>, f: AstFile): seq<Report>
  {
    Dispatch([], rules, Nodes(f.ast))
  }

  /** The results of `reports`, in order, each tagged with `path`. */
  function ResultsFor(reports: seq<Report>, path: string): (rs: seq<Result>)
    ensures |rs| == |reports|
    ensures forall k :: 0 <= k < |rs| ==> rs[k] == ReportToResult(reports[k], path)
  {
    seq(|reports|, k requires 0 <= k < |reports| => ReportToResult(reports[k], path))
  }

  /** The results of one file, each tagged with the file's original path. */
  function FileResults(rules: seq<Rule>, f: AstFile): (rs: seq<Result>)
    ensures |rs| == |FileReports(rules, f)|
  {
    ResultsFor(FileReports(rules, f), OriginalPath(f.relPath))
  }

  /** The results of a batch: file after file, in the order given. */
  function AllResults(rules: seq<Rule>, files: seq<AstFile>): seq<Result>
  {
    if files == [] then []
    else AllResults(rules, files[..|files| - 1]) + FileResults(rules, files[|files| - 1])
  }

  /** The number of findings of a batch. */
  function TotalReports(rules: seq<Rule>, files: seq<AstFile>): nat
  {
    if files == [] then 0
    else TotalReports(rules, files[..|files| - 1]) + |FileReports(rules, files[|files| - 1])|
  }

  /** `checkAllASTs` over an already discovered and parsed batch: each tree is
      run on a fresh context and each of its findings becomes one result. */
  method CheckAllASTs(rules: seq<Rule>, files: seq<AstFile>) returns (results: seq<Result>)
    ensures results == AllResults(rules, files)
  {
    results := [];
    for i := 0 to |files|
      invariant results == AllResults(rules, files[..i])
    {
      ResultsStep(rules, files, i);
      var context := RunRulesFresh(files[i].ast, rules);
      var reports := context.GetReports();
      results := PushResults(results, reports, files[i].relPath);
    }
    assert files[..|files|] == files;
  }

  /** The inner loop of `checkAllASTs`: one result per finding of a tree
      file, tagged with the original path recovered from the file's path. */
  method PushResults(results: seq<Result>, reports: seq<Report>, relPath: string) returns (out: seq<Result>)
    ensures out == results + ResultsFor(reports, OriginalPath(relPath))
  {
    ghost var mine := ResultsFor(reports, OriginalPath(relPath));
    out := results;
    for j := 0 to |reports|
      invariant out == results + mine[..j]
    {
      var originalPath := OriginalPath(relPath);
      PrefixStep(mine, j);
      out := out + [ReportToResult(reports[j], originalPath)];
    }
    assert mine[..|reports|] == mine;
  }

  lemma ResultsStep(rules: seq<Rule>, files: seq<AstFile>, i: nat)
    requires i < |files|
    ensures AllResults(rules, files[..i + 1]) == AllResults(rules, files[..i]) + FileResults(rules, files[i])
  {
    assert files[..i + 1][..i] == files[..i];
  }

  lemma PrefixStep<T>(s: seq<T>, j: nat)
    requires j < |s|
    ensures s[..j + 1] == s[..j] + [s[j]]
  {
  }

  /** The results of the first files of a batch are a prefix of the
      results of the whole batch. */
  lemma {:induction false} ResultsOfPrefix(rules: seq<Rule>, files: seq<AstFile>, m: nat)
    requires m <= |files|
    ensures AllResults(rules, files[..m]) <= AllResults(rules, files)
    decreases |files| - m
  {
    if m < |files| {
      ResultsOfPrefix(rules, files, m + 1);
      assert files[..m + 1][..m] == files[..m];
    } else {
      assert files[..m] == files;
    }
  }

  /** One result per finding per file: the results of file i form one block,
      after those of all earlier files, holding the file's findings in order,
      each tagged with that file's original path. */
  lemma {:induction false} ResultsLayout(rules: seq<Rule>, files: seq<AstFile>, i: nat, j: nat)
    requires i < |files|
    requires j < |FileReports(rules, files[i])|
    ensures var base := |AllResults(rules, files[..i])|;
      && base + j < |AllResults(rules, files)|
      && AllResults(rules, files)[base + j]
         == ReportToResult(FileReports(rules, files[i])[j], OriginalPath(files[i].relPath))
  {
    var all := AllResults(rules, files);
    var before := AllResults(rules, files[..i]);
    var mine := FileResults(rules, files[i]);
    assert files[..i + 1][..i] == files[..i];
    assert AllResults(rules, files[..i + 1]) == before + mine;
    ResultsOfPrefix(rules, files, i + 1);
    ElementOfPrefix(before + mine, all, |before| + j);
    ElementOfAppend(before, mine, j);
  }

  lemma ElementOfAppend<T>(a: seq<T>, b: seq<T>, j: nat)
    requires j < |b|
    ensures (a + b)[|a| + j] == b[j]
  {
  }

  lemma ElementOfPrefix<T>(a: seq<T>, b: seq<T>, k: nat)
    requires a <= b && k < |a|
    ensures k < |b| && b[k] == a[k]
  {
    assert a == b[..|a|];
  }

  /** The batch has exactly as many results as findings. */
  lemma {:induction false} ResultCount(rules: seq<Rule>, files: seq<AstFile>)
    ensures |AllResults(rules, files)| == TotalReports(rules, files)
    decreases |files|
  {
    if files != [] {
      ResultCount(rules, files[..|files| - 1]);
    }
  }

  /** A rule reporting "new-expr" on every `NewExpression`, run on a file
      `sample.ast.json` whose tree holds exactly one `NewExpression` (as the
      tree of `const x = new Array();` does), yields exactly one result, for
      the original file `sample`, located where that expression starts and
      ends. */
  lemma SampleScenario(tree: Node, e: Node, start: Position, end: Position)
    requires OfTag(Nodes(tree), "NewExpression") == [e]
    requires e.loc == Some(SourceLocation(Some(start), Some(end)))
    ensures AllResults([Rule(map["NewExpression" := ReportOnce("new-expr")])], [AstFile("sample.ast.json", tree)])
      == [Result("new-expr", "sample", Some(Point(start.line, start.column)), Some(Point(end.line, end.column)), None)]
  {
    var rules := [Rule(map["NewExpression" := ReportOnce("new-expr")])];
    var file := AstFile("sample.ast.json", tree);
    var report := Report(e, "new-expr", None);
    SampleReports(tree, e);
    SamplePath();
    ResultsOfOneReport(rules, file, report);
    ResultsOfOneFile(rules, file);
    assert AllResults(rules, [file]) == [ReportToResult(report, "sample")];
    SampleResult(e, start, end);
  }

  lemma SampleResult(e: Node, start: Position, end: Position)
    requires e.loc == Some(SourceLocation(Some(start), Some(end)))
    ensures ReportToResult(Report(e, "new-expr", None), "sample")
      == Result("new-expr", "sample", Some(Point(start.line, start.column)), Some(Point(end.line, end.column)), None)
  {
  }

  lemma ResultsOfOneReport(rules: seq<Rule>, file: AstFile, report: Report)
    requires FileReports(rules, file) == [report]
    ensures FileResults(rules, file) == [ReportToResult(report, OriginalPath(file.relPath))]
  {
  }

  lemma ResultsOfOneFile(rules: seq<Rule>, file: AstFile)
    ensures AllResults(rules, [file]) == FileResults(rules, file)
  {
    assert [file][..0] == [];
  }

  lemma SampleReports(tree: Node, e: Node)
    requires OfTag(Nodes(tree), "NewExpression") == [e]
    ensures FileReports([Rule(map["NewExpression" := ReportOnce("new-expr")])], AstFile("sample.ast.json", tree))
      == [Report(e, "new-expr", None)]
  {
    SingleHandlerReportsEachMatch([], "NewExpression", "new-expr", Nodes(tree));
    assert ReportsOn([e], "new-expr") == [Report(e, "new-expr", None)];
  }

  lemma SamplePath()
    ensures OriginalPath("sample.ast.json") == "sample"
  {
    OriginalPathOfTreeFile("sample");
    assert "sample" + AstSuffix == "sample.ast.json";
  }
}
