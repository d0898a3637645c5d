/** What the report assembly promises, proved about the functions that
    specify it (module Analyzer). */
module AnalyzerProperties {
  import opened Wrappers
  import opened Models
  import opened Cargo
  import opened Scanner
  import opened Analyzer

  function Names(packages: seq<Package>): set<string>
  {
    set p | p in packages :: p.name
  }

  /** Every package name is a key of the dependency graph, and nothing else is. */
  lemma {:induction false} DependencyTreeKeys(packages: seq<Package>)
    ensures DependencyTree(packages).Keys == Names(packages)
  {
    if packages != [] {
      var n := |packages| - 1;
      DependencyTreeKeys(packages[..n]);
      assert packages == packages[..n] + [packages[n]];
    }
  }

  /** A package's name is bound to that package's dependency names when no
      later package has the same name: the last package of a name wins. */
  lemma {:induction false} DependencyTreeLastWins(packages: seq<Package>, i: nat)
    requires i < |packages|
    requires forall j :: i < j < |packages| ==> packages[j].name != packages[i].name
    ensures packages[i].name in DependencyTree(packages)
    ensures DependencyTree(packages)[packages[i].name] == DependencyNames(packages[i].dependencies)
  {
    var n := |packages| - 1;
    if i < n {
      DependencyTreeLastWins(packages[..n], i);
    }
  }

  /** With distinct names the graph has exactly one entry per package. */
  lemma {:induction false} DependencyTreeSize(packages: seq<Package>)
    requires forall i, j :: 0 <= i < j < |packages| ==> packages[i].name != packages[j].name
    ensures |DependencyTree(packages)| == |packages|
  {
    if packages != [] {
      var n := |packages| - 1;
      DependencyTreeSize(packages[..n]);
      DependencyTreeKeys(packages[..n]);
      assert packages[n].name !in Names(packages[..n]);
    }
  }

  /** The issues map never holds an empty list. */
  lemma {:induction false} IssuesMapNoEmptyList(scan: Package -> Result<seq<SecurityIssue>, ScanError>, packages: seq<Package>)
    ensures forall k :: k in IssuesMap(scan, packages) ==> IssuesMap(scan, packages)[k] != []
  {
    if packages != [] {
      IssuesMapNoEmptyList(scan, packages[..|packages| - 1]);
    }
  }

  /** The keys of the issues map are the names of the packages whose scan
      succeeds with findings, so a subset of the package names. */
  lemma {:induction false} IssuesMapKeys(scan: Package -> Result<seq<SecurityIssue>, ScanError>, packages: seq<Package>)
    ensures IssuesMap(scan, packages).Keys == set p | p in packages && Reports(scan(p)) :: p.name
    ensures IssuesMap(scan, packages).Keys <= Names(packages)
  {
    if packages != [] {
      var n := |packages| - 1;
      IssuesMapKeys(scan, packages[..n]);
      assert packages == packages[..n] + [packages[n]];
    }
  }

  /** The entry of a name holds the findings of the last package of that
      name that reported any: a later empty or failed scan leaves it alone,
      a later non-empty one overwrites it. */
  lemma {:induction false} IssuesMapLastReportWins(scan: Package -> Result<seq<SecurityIssue>, ScanError>, packages: seq<Package>, i: nat)
    requires i < |packages| && Reports(scan(packages[i]))
    requires forall j :: i < j < |packages| && packages[j].name == packages[i].name ==>
      !Reports(scan(packages[j]))
    ensures packages[i].name in IssuesMap(scan, packages)
    ensures IssuesMap(scan, packages)[packages[i].name] == scan(packages[i]).value
  {
    var n := |packages| - 1;
    var last := packages[n];
    var before := IssuesMap(scan, packages[..n]);
    if i < n {
      assert packages[..n][i] == packages[i];
      forall j | i < j < n && packages[..n][j].name == packages[..n][i].name
        ensures !Reports(scan(packages[..n][j]))
      {
        assert packages[..n][j] == packages[j];
      }
      IssuesMapLastReportWins(scan, packages[..n], i);
      assert last.name == packages[i].name ==> !Reports(scan(last));
    }
  }

  /** A package whose scan fails or finds nothing contributes nothing: the
      map is what it would be without that package, and the loop goes on. */
  lemma {:induction false} IssuesMapSkipsSilentPackage(scan: Package -> Result<seq<SecurityIssue>, ScanError>, before: seq<Package>, p: Package, after: seq<Package>)
    requires !Reports(scan(p))
    ensures IssuesMap(scan, before + [p] + after) == IssuesMap(scan, before + after)
  {
    if after == [] {
      var all := before + [p] + after;
      assert all == before + [p];
      assert all[..|all| - 1] == before;
      assert all[|all| - 1] == p;
      assert before + after == before;
    } else {
      var n := |after| - 1;
      var last := after[n];
      IssuesMapSkipsSilentPackage(scan, before, p, after[..n]);
      var all := before + [p] + after;
      var rest := before + after;
      assert all[..|all| - 1] == before + [p] + after[..n];
      assert all[|all| - 1] == last;
      assert rest[..|rest| - 1] == before + after[..n];
      assert rest[|rest| - 1] == last;
    }
  }
}
