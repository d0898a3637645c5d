/** Report assembly (src/analyzer/mod.rs): from the resolved package set and
    its root, the direct dependencies of the root, the one-level dependency
    graph of every package, and the findings of every package that has any.

    The resolved package set and the root are inputs: the external metadata
    command that produces them is not part of this model. */
module Analyzer {
  import opened Wrappers
  import opened Models
  import opened Cargo
  import opened Scanner

  /** The report. */
  datatype DependencyAnalysis = DependencyAnalysis(
    totalDependencies: nat,
    directDependencies: seq<DependencyInfo>,
    dependencyTree: map<string, seq<string>>,
    securityIssues: map<string, seq<SecurityIssue>>)

  /** The metadata named no root package. */
  datatype AnalyzeError = NoRootPackage

  /** The summary of one declared dependency of the root. */
  function DirectDependency(d: Dependency): DependencyInfo
  {
    DependencyInfo(d.name, d.req, true, d.features, [])
  }

  /** One summary per declared dependency, in declared order: its name, its
      requirement as the version, marked direct, its features, and no
      transitive names. */
  function DirectDependencies(deps: seq<Dependency>): (r: seq<DependencyInfo>)
    ensures |r| == |deps|
    ensures forall i :: 0 <= i < |deps| ==>
      r[i].name == deps[i].name && r[i].version == deps[i].req && r[i].isDirect
      && r[i].features == deps[i].features && r[i].dependencies == []
  {
    if deps == [] then []
    else DirectDependencies(deps[..|deps| - 1]) + [DirectDependency(deps[|deps| - 1])]
  }

  /** The names of the given dependencies, in declared order. */
  function DependencyNames(deps: seq<Dependency>): (r: seq<string>)
    ensures |r| == |deps|
    ensures forall i :: 0 <= i < |deps| ==> r[i] == deps[i].name
  {
    if deps == [] then []
    else DependencyNames(deps[..|deps| - 1]) + [deps[|deps| - 1].name]
  }

  /** The dependency graph: each package's name bound to its dependency
      names, a later package overwriting an earlier one of the same name. */
  function DependencyTree(packages: seq<Package>): map<string, seq<string>>
  {
    if packages == [] then map[]
    else
      var last := packages[|packages| - 1];
      DependencyTree(packages[..|packages| - 1])[last.name := DependencyNames(last.dependencies)]
  }

  /** Inserts every package's dependency names into `tree`, in package order. */
  method BuildDependencyTree(packages: seq<Package>, tree: map<string, seq<string>>)
    returns (result: map<string, seq<string>>)
    ensures result == tree + DependencyTree(packages)
  {
    result := tree;
    var i := 0;
    while i < |packages|
      invariant 0 <= i <= |packages|
      invariant result == tree + DependencyTree(packages[..i])
    {
      assert packages[..i + 1][..i] == packages[..i];
      var package := packages[i];
      result := result[package.name := DependencyNames(package.dependencies)];
      i := i + 1;
    }
    assert packages[..i] == packages;
  }

  /** Whether a scan succeeded with at least one finding. */
  predicate Reports(scanned: Result<seq<SecurityIssue>, ScanError>)
  {
    scanned.Ok? && scanned.value != []
  }

  /** The scan the analysis runs on each package, with the given rules. */
  function PackageScan(rules: seq<Rule>): Package -> Result<seq<SecurityIssue>, ScanError>
  {
    p => PackageFindings(rules, p)
  }

  /** The issues map: for each package in order whose `scan` succeeds with
      findings, its name bound to those findings. A failed or empty scan
      leaves the map as it was. */
  function IssuesMap(scan: Package -> Result<seq<SecurityIssue>, ScanError>, packages: seq<Package>)
    : map<string, seq<SecurityIssue>>
  {
    if packages == [] then map[]
    else
      var last := packages[|packages| - 1];
      var before := IssuesMap(scan, packages[..|packages| - 1]);
      if Reports(scan(last)) then before[last.name := scan(last).value] else before
  }

  /** Scans every package and keeps the non-empty successful results. */
  method CollectIssues(rules: seq<Rule>, packages: seq<Package>)
    returns (issues: map<string, seq<SecurityIssue>>)
    ensures issues == IssuesMap(PackageScan(rules), packages)
  {
    issues := map[];
    var i := 0;
    while i < |packages|
      invariant 0 <= i <= |packages|
      invariant issues == IssuesMap(PackageScan(rules), packages[..i])
    {
      assert packages[..i + 1][..i] == packages[..i];
      var package := packages[i];
      var scanned := ScanPackage(rules, package);
      if scanned.Ok? {
        if scanned.value != [] {
          issues := issues[package.name := scanned.value];
        }
      }
      i := i + 1;
    }
    assert packages[..i] == packages;
  }

  /** The analysis of a resolved package set and its root, if it has one.
      The resolver always lists the root among the packages, so a set with a
      root is not empty; the total counts every package but the root. */
  method Analyze(packages: seq<Package>, root: Option<Package>)
    returns (r: Result<DependencyAnalysis, AnalyzeError>)
    requires root.Some? ==> |packages| > 0
    ensures root.None? ==> r == Err(NoRootPackage)
    ensures root.Some? ==> r.Ok? && r.value == DependencyAnalysis(
      |packages| - 1,
      DirectDependencies(root.value.dependencies),
      DependencyTree(packages),
      IssuesMap(PackageScan(Catalogue()), packages))
  {
    if root.None? {
      return Err(NoRootPackage);
    }
    var directDeps := DirectDependencies(root.value.dependencies);
    var tree := BuildDependencyTree(packages, map[]);
    assert map[] + DependencyTree(packages) == DependencyTree(packages);
    var issues := CollectIssues(Catalogue(), packages);
    return Ok(DependencyAnalysis(|packages| - 1, directDeps, tree, issues));
  }
}
