/** The security scanner (src/scanner/mod.rs): a catalogue of text rules
    applied to every Rust source file under a package's `src` directory, and
    metadata checks on the package's version, dependencies and build targets.

    Every check appends to one growing list of findings. Each method below
    takes that list and returns it extended, and is proved against a function
    that gives the findings it appends; the properties of the scan are proved
    about those functions in module ScannerProperties. */
module Scanner {
  import opened Wrappers
  import opened Models
  import opened Cargo
  import opened Matching

  /** One catalogue entry: a pattern, the description of what it flags, and
      the severity of the finding. */
  datatype Rule = Rule(matcher: Matcher, description: string, severity: Severity)

  /** Why a scan failed, naming the path involved. */
  datatype ScanError =
    | ReadDirFailed(dir: string)
    | EntryFailed(dir: string)
    | ReadFileFailed(path: string)

  function Severities(rules: seq<Rule>): seq<Severity>
  {
    seq(|rules|, i requires 0 <= i < |rules| => rules[i].severity)
  }

  /** The default rule catalogue, in the order the scanner applies it. */
  function Catalogue(): (rules: seq<Rule>)
    ensures |rules| == 8
    ensures Severities(rules) == [High, High, Medium, Medium, Critical, High, Medium, Medium]
  {
    [ Rule(Spaced("unsafe", "{"),
           "Contains unsafe blocks - review for memory safety", High),
      Rule(Literal("std::mem::transmute"),
           "Uses memory transmutation - potential type safety issues", High),
      Rule(Literal("#![no_std]"),
           "No standard library usage - verify safety implementations", Medium),
      Rule(Spaced("extern", "C"),
           "FFI usage detected - validate memory safety", Medium),
      Rule(Spaced("eval", "("),
           "Code evaluation detected - potential security risk", Critical),
      Rule(Literal("std::process::Command"),
           "Process execution capabilities - review for command injection", High),
      Rule(Choice("std::fs::", ["write", "create", "remove"]),
           "File system modification - review for proper permissions", Medium),
      Rule(Literal("TcpListener::bind"),
           "Network listener - verify proper security controls", Medium) ]
  }

  /** `issues` extended by the findings of a step, or that step's error. */
  function Extend(issues: seq<SecurityIssue>, step: Result<seq<SecurityIssue>, ScanError>): Result<seq<SecurityIssue>, ScanError>
  {
    match step
    case Ok(found) => Ok(issues + found)
    case Err(e) => Err(e)
  }

  // ---------------------------------------------------------------------
  // Source files
  // ---------------------------------------------------------------------

  /** The finding a matching rule reports for the file displayed as `path`. */
  function RuleFinding(rule: Rule, path: string): SecurityIssue
  {
    SecurityIssue(rule.severity, rule.description + " in " + path, [], None)
  }

  /** The findings for one file's text: one per matching rule, in rule order. */
  function FileFindings(rules: seq<Rule>, path: string, text: string): seq<SecurityIssue>
  {
    if rules == [] then []
    else
      var last := rules[|rules| - 1];
      FileFindings(rules[..|rules| - 1], path, text)
      + (if IsMatch(last.matcher, text) then [RuleFinding(last, path)] else [])
  }

  /** Reads a file and appends one finding per matching rule. A failed read
      is an error. */
  method ScanFile(rules: seq<Rule>, path: string, contents: Option<string>, issues: seq<SecurityIssue>)
    returns (r: Result<seq<SecurityIssue>, ScanError>)
    ensures contents.None? ==> r == Err(ReadFileFailed(path))
    ensures contents.Some? ==> r == Ok(issues + FileFindings(rules, path, contents.value))
  {
    if contents.None? {
      return Err(ReadFileFailed(path));
    }
    var text := contents.value;
    var acc := issues;
    var i := 0;
    while i < |rules|
      invariant 0 <= i <= |rules|
      invariant acc == issues + FileFindings(rules[..i], path, text)
    {
      assert rules[..i + 1][..i] == rules[..i];
      var rule := rules[i];
      if IsMatch(rule.matcher, text) {
        acc := acc + [RuleFinding(rule, path)];
      }
      i := i + 1;
    }
    assert rules[..i] == rules;
    return Ok(acc);
  }

  // ---------------------------------------------------------------------
  // Directory walk
  // ---------------------------------------------------------------------

  /** The walk of the node displayed as `dir`: a directory is walked entry by
      entry, a directory that cannot be listed is an error, and anything that
      is not a directory yields nothing. */
  function DirFindings(rules: seq<Rule>, dir: string, node: Node): Result<seq<SecurityIssue>, ScanError>
    decreases node
  {
    match node
    case Dir(_, entries) => EntriesFindings(rules, dir, entries)
    case Unlistable(_) => Err(ReadDirFailed(dir))
    case File(_, _) => Ok([])
    case BadEntry => Ok([])
  }

  /** The walk over the entries of the directory displayed as `dir`, in
      listing order; the first error ends it. Subdirectories are walked,
      files whose extension is "rs" are scanned, other files are skipped. */
  function EntriesFindings(rules: seq<Rule>, dir: string, entries: seq<Node>): Result<seq<SecurityIssue>, ScanError>
    decreases entries
  {
    if entries == [] then Ok([])
    else
      var last := entries[|entries| - 1];
      match EntriesFindings(rules, dir, entries[..|entries| - 1])
      case Err(e) => Err(e)
      case Ok(found) =>
        match last
        case BadEntry => Err(EntryFailed(dir))
        case Dir(name, _) => Extend(found, DirFindings(rules, Join(dir, name), last))
        case Unlistable(name) => Extend(found, DirFindings(rules, Join(dir, name), last))
        case File(name, contents) =>
          if Extension(name) != Some("rs") then Ok(found)
          else if contents.None? then Err(ReadFileFailed(Join(dir, name)))
          else Ok(found + FileFindings(rules, Join(dir, name), contents.value))
  }

  /** Once a prefix of the entries has failed, the whole walk fails with that error. */
  lemma {:induction false} EntriesErrPersists(rules: seq<Rule>, dir: string, entries: seq<Node>, i: nat, e: ScanError)
    requires i <= |entries|
    requires EntriesFindings(rules, dir, entries[..i]) == Err(e)
    ensures EntriesFindings(rules, dir, entries) == Err(e)
    decreases |entries| - i
  {
    if i == |entries| {
      assert entries[..i] == entries;
    } else {
      var n := |entries| - 1;
      assert entries[..n][..i] == entries[..i];
      EntriesErrPersists(rules, dir, entries[..n], i, e);
    }
  }

  /** Walks the node displayed as `dir`, appending the findings of every Rust
      source file below it; the first failed listing, entry or read ends the
      walk with an error. */
  method ScanDirectory(rules: seq<Rule>, dir: string, node: Node, issues: seq<SecurityIssue>)
    returns (r: Result<seq<SecurityIssue>, ScanError>)
    ensures r == Extend(issues, DirFindings(rules, dir, node))
    decreases node
  {
    match node {
      case Unlistable(_) =>
        return Err(ReadDirFailed(dir));
      case File(_, _) =>
        assert issues + [] == issues;
        return Ok(issues);
      case BadEntry =>
        assert issues + [] == issues;
        return Ok(issues);
      case Dir(_, entries) =>
        var acc := issues;
        var i := 0;
        while i < |entries|
          invariant 0 <= i <= |entries|
          invariant EntriesFindings(rules, dir, entries[..i]).Ok?
          invariant acc == issues + EntriesFindings(rules, dir, entries[..i]).value
        {
          var entry := entries[i];
          assert entries[..i + 1][..i] == entries[..i];
          assert entries[..i + 1][i] == entry;
          match entry {
            case BadEntry =>
              EntriesErrPersists(rules, dir, entries, i + 1, EntryFailed(dir));
              return Err(EntryFailed(dir));
            case File(name, contents) =>
              if Extension(name) == Some("rs") {
                var scanned := ScanFile(rules, Join(dir, name), contents, acc);
                if scanned.Err? {
                  EntriesErrPersists(rules, dir, entries, i + 1, scanned.error);
                  return scanned;
                }
                acc := scanned.value;
              }
            case Dir(name, _) =>
              var sub := ScanDirectory(rules, Join(dir, name), entry, acc);
              if sub.Err? {
                EntriesErrPersists(rules, dir, entries, i + 1, sub.error);
                return sub;
              }
              acc := sub.value;
            case Unlistable(name) =>
              var sub := ScanDirectory(rules, Join(dir, name), entry, acc);
              EntriesErrPersists(rules, dir, entries, i + 1, sub.error);
              return sub;
          }
          i := i + 1;
        }
        assert entries[..i] == entries;
        return Ok(acc);
    }
  }

  // ---------------------------------------------------------------------
  // Metadata checks
  // ---------------------------------------------------------------------

  /** The decimal rendering of a count, with no leading zero. */
  function DecimalString(n: nat): (s: string)
    ensures |s| > 0
    ensures n == 0 ==> s == "0"
    ensures n > 0 ==> s[0] != '0'
  {
    var digit := "0123456789"[n % 10];
    if n < 10 then [digit] else DecimalString(n / 10) + [digit]
  }

  function PreReleaseIssue(p: Package): SecurityIssue
  {
    SecurityIssue(Low,
      "Package " + p.name + " is pre-1.0 (" + p.version.text + ") - API may be unstable",
      [p.version.text], None)
  }

  function DependencyCountIssue(p: Package): SecurityIssue
  {
    SecurityIssue(Low,
      "Large number of dependencies (" + DecimalString(|p.dependencies|) + ") increases attack surface",
      [p.version.text], None)
  }

  /** The wildcard finding for dependency `d` of package `p`. Its affected
      version is the scanned package's own version, not the dependency's. */
  function WildcardIssue(p: Package, d: Dependency): SecurityIssue
  {
    SecurityIssue(High,
      "Wildcard dependency version for " + d.name + " - security risk",
      [p.version.text], None)
  }

  function BuildScriptIssue(p: Package): SecurityIssue
  {
    SecurityIssue(Medium,
      "Package " + p.name + " contains build scripts - review for security",
      [p.version.text], None)
  }

  predicate IsWildcard(d: Dependency)
  {
    '*' in d.req
  }

  predicate HasBuildScript(targets: seq<Target>)
  {
    exists t :: t in targets && "custom-build" in t.kind
  }

  function VersionFindings(p: Package): seq<SecurityIssue>
  {
    if p.version.major == 0 then [PreReleaseIssue(p)] else []
  }

  function DependencyCountFindings(p: Package): seq<SecurityIssue>
  {
    if |p.dependencies| > 20 then [DependencyCountIssue(p)] else []
  }

  /** One wildcard finding per dependency in `deps` whose requirement
      contains '*', in dependency order. */
  function WildcardFindings(p: Package, deps: seq<Dependency>): seq<SecurityIssue>
  {
    if deps == [] then []
    else
      var last := deps[|deps| - 1];
      WildcardFindings(p, deps[..|deps| - 1])
      + (if IsWildcard(last) then [WildcardIssue(p, last)] else [])
  }

  function BuildScriptFindings(p: Package): seq<SecurityIssue>
  {
    if HasBuildScript(p.targets) then [BuildScriptIssue(p)] else []
  }

  /** Pre-release check: appends a finding when the major version is 0. */
  method CheckVersion(p: Package, issues: seq<SecurityIssue>) returns (r: seq<SecurityIssue>)
    ensures r == issues + VersionFindings(p)
  {
    r := issues;
    if p.version.major == 0 {
      r := r + [PreReleaseIssue(p)];
    }
  }

  /** Dependency checks: the dependency-count finding when there are more
      than 20 dependencies, then one wildcard finding per wildcard requirement. */
  method CheckDependencies(p: Package, issues: seq<SecurityIssue>) returns (r: seq<SecurityIssue>)
    ensures r == issues + DependencyCountFindings(p) + WildcardFindings(p, p.dependencies)
  {
    r := issues;
    if |p.dependencies| > 20 {
      r := r + [DependencyCountIssue(p)];
    }
    ghost var counted := r;
    var i := 0;
    while i < |p.dependencies|
      invariant 0 <= i <= |p.dependencies|
      invariant r == counted + WildcardFindings(p, p.dependencies[..i])
    {
      assert p.dependencies[..i + 1][..i] == p.dependencies[..i];
      var dep := p.dependencies[i];
      if IsWildcard(dep) {
        r := r + [WildcardIssue(p, dep)];
      }
      i := i + 1;
    }
    assert p.dependencies[..i] == p.dependencies;
  }

  /** Build-script check: appends one finding when some target is a custom build. */
  method CheckBuildScripts(p: Package, issues: seq<SecurityIssue>) returns (r: seq<SecurityIssue>)
    ensures r == issues + BuildScriptFindings(p)
  {
    r := issues;
    if HasBuildScript(p.targets) {
      r := r + [BuildScriptIssue(p)];
    }
  }

  // ---------------------------------------------------------------------
  // Whole package
  // ---------------------------------------------------------------------

  /** All metadata findings, in the order the checks run. */
  function MetadataFindings(p: Package): seq<SecurityIssue>
  {
    VersionFindings(p) + DependencyCountFindings(p) + WildcardFindings(p, p.dependencies)
    + BuildScriptFindings(p)
  }

  /** The source findings of a package: its `src` directory is walked when
      the manifest has a parent directory and `src` exists there. */
  function SourceFindings(rules: seq<Rule>, p: Package): Result<seq<SecurityIssue>, ScanError>
  {
    if p.manifestDir.Some? && p.src.Some? then
      DirFindings(rules, Join(p.manifestDir.value, "src"), p.src.value)
    else Ok([])
  }

  /** The result of scanning a package: metadata findings then source
      findings, or the error of the source walk. */
  function PackageFindings(rules: seq<Rule>, p: Package): Result<seq<SecurityIssue>, ScanError>
  {
    Extend(MetadataFindings(p), SourceFindings(rules, p))
  }

  /** Scans one package: the version, dependency and build-script checks,
      then the source walk, all appending to one list. */
  method ScanPackage(rules: seq<Rule>, p: Package) returns (r: Result<seq<SecurityIssue>, ScanError>)
    ensures r == PackageFindings(rules, p)
  {
    var issues := [];
    issues := CheckVersion(p, issues);
    issues := CheckDependencies(p, issues);
    issues := CheckBuildScripts(p, issues);
    assert issues == MetadataFindings(p);
    if p.manifestDir.Some? {
      if p.src.Some? {
        var walked := ScanDirectory(rules, Join(p.manifestDir.value, "src"), p.src.value, issues);
        if walked.Err? {
          return Err(walked.error);
        }
        issues := walked.value;
        return Ok(issues);
      }
    }
    assert issues + [] == issues;
    return Ok(issues);
  }
}
