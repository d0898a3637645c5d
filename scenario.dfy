/** A worked example: a root "app" 0.5.0 depending on "libfoo" (any version)
    and "libbar" 1.2, where "libfoo" has 25 dependencies, a build script and a
    source file with an unsafe block. */
module Scenario {
  import opened Wrappers
  import opened Models
  import opened Cargo
  import opened Matching
  import opened Scanner
  import opened Analyzer

  function App(): Package
  {
    Package("app", Version(0, "0.5.0"),
      [Dependency("libfoo", "*", []), Dependency("libbar", "^1.2", [])],
      [Target(["bin"])], Some("/work/app"), None)
  }

  function LibFoo(): Package
  {
    Package("libfoo", Version(1, "1.0.0"),
      seq(25, i => Dependency("dep", "^1.0", [])),
      [Target(["lib"]), Target(["custom-build"])],
      Some("/registry/libfoo"), Some(Dir("src", [File("lib.rs", Some("unsafe { }"))])))
  }

  /** Where "libfoo"'s only source file lies. */
  function LibFooLibRs(): string
  {
    Join(Join("/registry/libfoo", "src"), "lib.rs")
  }

  function LibBar(): Package
  {
    Package("libbar", Version(1, "1.2.0"), [], [Target(["lib"])], Some("/registry/libbar"), None)
  }

  /** The unsafe-block rule matches "unsafe { }". */
  lemma UnsafeRuleMatches()
    ensures IsMatch(Spaced("unsafe", "{"), "unsafe { }")
  {
    var text := "unsafe { }";
    assert StartsWith(text, "unsafe");
    assert text[6..] == " { }";
    assert " { }"[1..] == "{ }";
    assert StartsWith("{ }", "{");
    assert SpacesThen(" { }", "{");
  }

  /** The patterns of the catalogue after the first. */
  function LaterPatterns(): seq<Matcher>
  {
    [Literal("std::mem::transmute"), Literal("#![no_std]"), Spaced("extern", "C"),
     Spaced("eval", "("), Literal("std::process::Command"),
     Choice("std::fs::", ["write", "create", "remove"]), Literal("TcpListener::bind")]
  }

  lemma CatalogueLaterPatterns(rules: seq<Rule>)
    requires rules == Catalogue()
    ensures forall i :: 1 <= i < |rules| ==> rules[i].matcher == LaterPatterns()[i - 1]
  {
  }

  /** Each later pattern begins with a character "unsafe { }" lacks. */
  lemma LaterPatternsMiss(text: string)
    requires text == "unsafe { }"
    ensures forall k :: 0 <= k < |LaterPatterns()| ==> !IsMatch(LaterPatterns()[k], text)
  {
    var ms := LaterPatterns();
    var absent := "m#xvdtT";
    forall k | 0 <= k < |ms| ensures !IsMatch(ms[k], text) {
      assert absent[k] in Head(ms[k]) && absent[k] !in text;
      MatchNeedsHead(ms[k], text, absent[k]);
    }
  }

  /** No other rule of the catalogue matches "unsafe { }". */
  lemma OtherRulesMiss(rules: seq<Rule>, text: string)
    requires rules == Catalogue() && text == "unsafe { }"
    ensures forall i :: 1 <= i < |rules| ==> !IsMatch(rules[i].matcher, text)
  {
    CatalogueLaterPatterns(rules);
    LaterPatternsMiss(text);
    forall i | 1 <= i < |rules| ensures !IsMatch(rules[i].matcher, text) {
      assert rules[i].matcher == LaterPatterns()[i - 1];
    }
  }

  /** When only the first of the rules matches, the first k rules report
      exactly that rule's finding. */
  lemma {:induction false} OnlyFirstRuleMatches(rules: seq<Rule>, path: string, text: string, k: nat)
    requires 1 <= k <= |rules|
    requires IsMatch(rules[0].matcher, text)
    requires forall i :: 1 <= i < |rules| ==> !IsMatch(rules[i].matcher, text)
    ensures FileFindings(rules[..k], path, text) == [RuleFinding(rules[0], path)]
  {
    if k == 1 {
      assert rules[..1][..0] == [];
    } else {
      OnlyFirstRuleMatches(rules, path, text, k - 1);
      assert rules[..k][..k - 1] == rules[..k - 1];
    }
  }

  /** Only the unsafe-block rule matches the text "unsafe { }". */
  lemma UnsafeFileFindings(rules: seq<Rule>, path: string, text: string)
    requires rules == Catalogue() && text == "unsafe { }"
    ensures FileFindings(rules, path, text) == [RuleFinding(rules[0], path)]
  {
    UnsafeRuleMatches();
    OtherRulesMiss(rules, text);
    assert rules[0].matcher == Spaced("unsafe", "{");
    OnlyFirstRuleMatches(rules, path, text, |rules|);
    assert rules[..|rules|] == rules;
  }

  /** "app" is pre-1.0 and requires "libfoo" by wildcard. */
  lemma AppScan(rules: seq<Rule>, p: Package)
    requires rules == Catalogue() && p == App()
    ensures PackageFindings(rules, p) == Ok([PreReleaseIssue(p), WildcardIssue(p, p.dependencies[0])])
  {
    var deps := p.dependencies;
    assert deps[..1] == [deps[0]] && deps[..1][..0] == [];
    assert !IsWildcard(deps[1]);
    assert WildcardFindings(p, deps) == [WildcardIssue(p, deps[0])];
    assert !HasBuildScript(p.targets);
    var meta := MetadataFindings(p);
    assert meta == [PreReleaseIssue(p), WildcardIssue(p, deps[0])];
    assert SourceFindings(rules, p) == Ok([]);
    assert meta + [] == meta;
  }

  lemma {:induction false} NoWildcardNoFinding(p: Package, deps: seq<Dependency>)
    requires forall i :: 0 <= i < |deps| ==> !IsWildcard(deps[i])
    ensures WildcardFindings(p, deps) == []
  {
    if deps != [] {
      NoWildcardNoFinding(p, deps[..|deps| - 1]);
    }
  }

  /** "libfoo" has many dependencies, none of them wildcards, and a build script. */
  lemma LibFooMetadata(p: Package)
    requires p == LibFoo()
    ensures MetadataFindings(p) == [DependencyCountIssue(p), BuildScriptIssue(p)]
  {
    NoWildcardNoFinding(p, p.dependencies);
    assert p.targets[1] in p.targets;
  }

  /** The walk of a source directory holding only lib.rs with an unsafe
      block finds that block. */
  lemma UnsafeSourceTree(rules: seq<Rule>, dir: string, text: string)
    requires rules == Catalogue() && text == "unsafe { }"
    ensures DirFindings(rules, dir, Dir("src", [File("lib.rs", Some(text))])) ==
      Ok([RuleFinding(rules[0], Join(dir, "lib.rs"))])
  {
    var file := File("lib.rs", Some(text));
    RsExtension("lib.rs");
    assert Extension("lib.rs") == Some("rs");
    UnsafeFileFindings(rules, Join(dir, "lib.rs"), text);
    var found := FileFindings(rules, Join(dir, "lib.rs"), text);
    assert [file][..0] == [];
    assert EntriesFindings(rules, dir, [file]) == Ok([] + found);
    assert [] + found == found;
  }

  /** The walk of "libfoo"'s sources finds the unsafe block in lib.rs. */
  lemma LibFooSources(rules: seq<Rule>, p: Package)
    requires rules == Catalogue() && p == LibFoo()
    ensures SourceFindings(rules, p) == Ok([RuleFinding(rules[0], LibFooLibRs())])
  {
    UnsafeSourceTree(rules, Join("/registry/libfoo", "src"), "unsafe { }");
    assert p.src == Some(Dir("src", [File("lib.rs", Some("unsafe { }"))]));
    assert p.manifestDir == Some("/registry/libfoo");
  }

  /** "libfoo" raises the dependency-count and build-script findings, then
      the unsafe-block finding of its source walk. */
  lemma LibFooScan(rules: seq<Rule>, p: Package)
    requires rules == Catalogue() && p == LibFoo()
    ensures PackageFindings(rules, p) ==
      Ok([DependencyCountIssue(p), BuildScriptIssue(p)] + [RuleFinding(rules[0], LibFooLibRs())])
  {
    LibFooMetadata(p);
    LibFooSources(rules, p);
    Combined(rules, p, [DependencyCountIssue(p), BuildScriptIssue(p)], [RuleFinding(rules[0], LibFooLibRs())]);
  }

  /** A package scan that succeeds lists the metadata findings, then the source findings. */
  lemma Combined(rules: seq<Rule>, p: Package, meta: seq<SecurityIssue>, found: seq<SecurityIssue>)
    requires MetadataFindings(p) == meta && SourceFindings(rules, p) == Ok(found)
    ensures PackageFindings(rules, p) == Ok(meta + found)
  {
  }

  /** "libbar" raises nothing. */
  lemma LibBarScan(rules: seq<Rule>, p: Package)
    requires rules == Catalogue() && p == LibBar()
    ensures PackageFindings(rules, p) == Ok([])
  {
    assert !HasBuildScript(p.targets);
    assert MetadataFindings(p) == [];
  }

  /** Three packages of which the last reports nothing give a map with two entries. */
  lemma {:induction false} ThreePackageIssues(scan: Package -> Result<seq<SecurityIssue>, ScanError>,
    a: Package, b: Package, c: Package, foundA: seq<SecurityIssue>, foundB: seq<SecurityIssue>)
    requires scan(a) == Ok(foundA) && foundA != []
    requires scan(b) == Ok(foundB) && foundB != []
    requires scan(c) == Ok([])
    ensures IssuesMap(scan, [a, b, c]) == map[a.name := foundA][b.name := foundB]
  {
    var ps := [a, b, c];
    assert ps[..2] == [a, b];
    assert ps[..2][..1] == [a];
    assert ps[..2][..1][..0] == [];
    assert Reports(scan(a)) && Reports(scan(b)) && !Reports(scan(c));
    assert IssuesMap(scan, [a]) == map[a.name := foundA];
    assert IssuesMap(scan, [a, b]) == map[a.name := foundA][b.name := foundB];
  }

  /** The findings map and the root's direct dependencies in the report:
      findings for "app" and "libfoo" only, and two direct dependencies. */
  lemma ScenarioReport()
    ensures IssuesMap(PackageScan(Catalogue()), [App(), LibFoo(), LibBar()]) == map[
      "app" := [PreReleaseIssue(App()), WildcardIssue(App(), App().dependencies[0])],
      "libfoo" := [DependencyCountIssue(LibFoo()), BuildScriptIssue(LibFoo())] +
                  [RuleFinding(Catalogue()[0], LibFooLibRs())]]
    ensures var direct := DirectDependencies(App().dependencies);
      |direct| == 2 && direct[0].name == "libfoo" && direct[1].name == "libbar"
      && direct[0].version == "*" && direct[1].version == "^1.2"
      && direct[0].isDirect && direct[1].isDirect
  {
    var rules := Catalogue();
    AppScan(rules, App());
    LibFooScan(rules, LibFoo());
    LibBarScan(rules, LibBar());
    ThreePackageIssues(PackageScan(rules), App(), LibFoo(), LibBar(),
      [PreReleaseIssue(App()), WildcardIssue(App(), App().dependencies[0])],
      [DependencyCountIssue(LibFoo()), BuildScriptIssue(LibFoo())] + [RuleFinding(rules[0], LibFooLibRs())]);
  }

  /** Three packages give a graph binding each name to its dependency names. */
  lemma {:induction false} ThreePackageTree(a: Package, b: Package, c: Package)
    ensures DependencyTree([a, b, c]) == map[a.name := DependencyNames(a.dependencies)]
      [b.name := DependencyNames(b.dependencies)][c.name := DependencyNames(c.dependencies)]
  {
    var ps := [a, b, c];
    assert ps[..2] == [a, b];
    assert ps[..2][..1] == [a];
    assert ps[..2][..1][..0] == [];
    assert DependencyTree([a]) == map[a.name := DependencyNames(a.dependencies)];
    assert DependencyTree([a, b]) == DependencyTree([a])[b.name := DependencyNames(b.dependencies)];
  }

  /** "libfoo" depends on "dep" 25 times over. */
  lemma LibFooNames(p: Package)
    requires p == LibFoo()
    ensures DependencyNames(p.dependencies) == seq(25, _ => "dep")
  {
    var names := DependencyNames(p.dependencies);
    assert |names| == 25;
    forall i | 0 <= i < 25 ensures names[i] == "dep" {
      assert p.dependencies[i].name == "dep";
    }
  }

  /** The dependency graph of the three packages. */
  lemma ScenarioTree()
    ensures DependencyTree([App(), LibFoo(), LibBar()]) ==
      map["app" := ["libfoo", "libbar"], "libfoo" := seq(25, _ => "dep"), "libbar" := []]
  {
    ThreePackageTree(App(), LibFoo(), LibBar());
    LibFooNames(LibFoo());
    assert DependencyNames(App().dependencies) == ["libfoo", "libbar"];
    assert DependencyNames(LibBar().dependencies) == [];
  }

  /** The analysis of the three packages with "app" as root: two packages
      besides the root, the root's two direct dependencies, and findings for
      "app" and "libfoo" only. */
  method ScenarioAnalysis() returns (r: Result<DependencyAnalysis, AnalyzeError>)
    ensures r.Ok? && r.value.totalDependencies == 2
    ensures r.Ok? && r.value.securityIssues == map[
      "app" := [PreReleaseIssue(App()), WildcardIssue(App(), App().dependencies[0])],
      "libfoo" := [DependencyCountIssue(LibFoo()), BuildScriptIssue(LibFoo())] +
                  [RuleFinding(Catalogue()[0], LibFooLibRs())]]
    ensures r.Ok? && r.value.dependencyTree ==
      map["app" := ["libfoo", "libbar"], "libfoo" := seq(25, _ => "dep"), "libbar" := []]
    ensures r.Ok? && r.value.directDependencies == [
      DependencyInfo("libfoo", "*", true, [], []),
      DependencyInfo("libbar", "^1.2", true, [], [])]
  {
    r := Analyze([App(), LibFoo(), LibBar()], Some(App()));
    ScenarioReport();
    ScenarioTree();
  }
}
