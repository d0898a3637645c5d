/** What the scanner promises, proved about the functions that specify it
    (module Scanner). */
module ScannerProperties {
  import opened Wrappers
  import opened Models
  import opened Cargo
  import opened Matching
  import opened Scanner

  // ---------------------------------------------------------------------
  // One file
  // ---------------------------------------------------------------------

  /** The positions of the rules that match `text`, in increasing order. */
  function MatchingRules(rules: seq<Rule>, text: string): (idx: seq<nat>)
    ensures forall k :: 0 <= k < |idx| ==> idx[k] < |rules|
    ensures forall j, k :: 0 <= j < k < |idx| ==> idx[j] < idx[k]
    ensures forall i :: 0 <= i < |rules| ==> (i in idx <==> IsMatch(rules[i].matcher, text))
  {
    if rules == [] then []
    else
      var n := |rules| - 1;
      var before := MatchingRules(rules[..n], text);
      assert forall i :: 0 <= i < n ==> rules[..n][i] == rules[i];
      before + (if IsMatch(rules[n].matcher, text) then [n] else [])
  }

  /** A file's findings are one per matching rule, in rule order: the k-th
      finding is the report of the k-th matching rule. */
  lemma {:induction false} FileFindingsPerMatchingRule(rules: seq<Rule>, path: string, text: string)
    ensures |FileFindings(rules, path, text)| == |MatchingRules(rules, text)|
    ensures forall k :: 0 <= k < |MatchingRules(rules, text)| ==>
      FileFindings(rules, path, text)[k] == RuleFinding(rules[MatchingRules(rules, text)[k]], path)
  {
    if rules != [] {
      var n := |rules| - 1;
      FileFindingsPerMatchingRule(rules[..n], path, text);
      var before := MatchingRules(rules[..n], text);
      var idx := MatchingRules(rules, text);
      var found := FileFindings(rules, path, text);
      assert found[..|before|] == FileFindings(rules[..n], path, text);
      forall k | 0 <= k < |idx| ensures found[k] == RuleFinding(rules[idx[k]], path) {
        if k < |before| {
          assert idx[k] == before[k];
          assert found[k] == found[..|before|][k];
          assert rules[..n][before[k]] == rules[before[k]];
        } else {
          assert idx[k] == n;
        }
      }
    }
  }

  /** A file yields at most one finding per rule, so at most eight with the
      default catalogue. */
  lemma {:induction false} FileFindingsAtMostOnePerRule(rules: seq<Rule>, path: string, text: string)
    ensures |FileFindings(rules, path, text)| <= |rules|
    ensures rules == Catalogue() ==> |FileFindings(rules, path, text)| <= 8
  {
    if rules != [] {
      FileFindingsAtMostOnePerRule(rules[..|rules| - 1], path, text);
    }
  }

  // ---------------------------------------------------------------------
  // The dependency count
  // ---------------------------------------------------------------------

  /** The number a string of decimal digits denotes. */
  function DecimalValue(s: string): nat
  {
    if s == [] then 0
    else
      var d := s[|s| - 1] as int - '0' as int;
      DecimalValue(s[..|s| - 1]) * 10 + (if 0 <= d <= 9 then d else 0)
  }

  /** The count in the dependency-count finding is written in decimal digits
      that denote the count. */
  lemma {:induction false} DecimalStringDenotes(n: nat)
    ensures forall k :: 0 <= k < |DecimalString(n)| ==> '0' <= DecimalString(n)[k] <= '9'
    ensures DecimalValue(DecimalString(n)) == n
  {
    var s := DecimalString(n);
    var digit := "0123456789"[n % 10];
    assert digit as int - '0' as int == n % 10;
    if n >= 10 {
      DecimalStringDenotes(n / 10);
      assert s[..|s| - 1] == DecimalString(n / 10);
    }
  }

  // ---------------------------------------------------------------------
  // Wildcard dependencies
  // ---------------------------------------------------------------------

  /** The positions of the dependencies whose requirement contains '*'. */
  function WildcardPositions(deps: seq<Dependency>): (idx: seq<nat>)
    ensures forall k :: 0 <= k < |idx| ==> idx[k] < |deps|
    ensures forall j, k :: 0 <= j < k < |idx| ==> idx[j] < idx[k]
    ensures forall i :: 0 <= i < |deps| ==> (i in idx <==> IsWildcard(deps[i]))
  {
    if deps == [] then []
    else
      var n := |deps| - 1;
      var before := WildcardPositions(deps[..n]);
      assert forall i :: 0 <= i < n ==> deps[..n][i] == deps[i];
      before + (if IsWildcard(deps[n]) then [n] else [])
  }

  /** n wildcard requirements give exactly n wildcard findings, in dependency
      order, each naming its dependency and carrying the scanned package's
      own version. */
  lemma {:induction false} WildcardFindingsPerWildcard(p: Package, deps: seq<Dependency>)
    ensures |WildcardFindings(p, deps)| == |WildcardPositions(deps)|
    ensures forall k :: 0 <= k < |WildcardPositions(deps)| ==>
      WildcardFindings(p, deps)[k] == WildcardIssue(p, deps[WildcardPositions(deps)[k]])
  {
    if deps != [] {
      var n := |deps| - 1;
      WildcardFindingsPerWildcard(p, deps[..n]);
      assert forall i :: 0 <= i < n ==> deps[..n][i] == deps[i];
    }
  }

  /** Every wildcard finding is High, tied to the scanned package's version,
      and has no fix version. */
  lemma WildcardFindingsShape(p: Package, deps: seq<Dependency>)
    ensures forall x :: x in WildcardFindings(p, deps) ==>
      x.severity == High && x.affectedVersions == [p.version.text] && x.fixVersion.None?
  {
    WildcardFindingsPerWildcard(p, deps);
  }

  // ---------------------------------------------------------------------
  // The directory walk
  // ---------------------------------------------------------------------

  /** The Rust source files (displayed path, contents) the walk of `node`
      reaches, at any depth: the files of `WalkFiles`, as a set. */
  ghost function RsFiles(dir: string, node: Node): set<(string, Option<string>)>
  {
    set f | f in WalkFiles(dir, node)
  }

  /** Every failure point the walk of `node` can reach: a directory that
      cannot be listed, an entry that cannot be read, or a Rust source file
      whose text cannot be read. */
  ghost function Failures(dir: string, node: Node): set<ScanError>
    decreases node
  {
    match node
    case Dir(_, entries) => EntriesFailures(dir, entries)
    case Unlistable(_) => {ReadDirFailed(dir)}
    case _ => {}
  }

  ghost function EntriesFailures(dir: string, entries: seq<Node>): set<ScanError>
    decreases entries
  {
    if entries == [] then {}
    else
      var last := entries[|entries| - 1];
      EntriesFailures(dir, entries[..|entries| - 1])
      + match last
        case BadEntry => {EntryFailed(dir)}
        case File(name, contents) =>
          if Extension(name) == Some("rs") && contents.None? then {ReadFileFailed(Join(dir, name))} else {}
        case Dir(name, _) => Failures(Join(dir, name), last)
        case Unlistable(name) => Failures(Join(dir, name), last)
  }

  /** The walk fails exactly when some failure point is reachable, and then
      with one of them. */
  lemma {:induction false} WalkFailsIffFailure(rules: seq<Rule>, dir: string, node: Node)
    ensures DirFindings(rules, dir, node).Err? <==> Failures(dir, node) != {}
    ensures DirFindings(rules, dir, node).Err? ==> DirFindings(rules, dir, node).error in Failures(dir, node)
    decreases node
  {
    match node
    case Dir(_, entries) => EntriesFailIffFailure(rules, dir, entries);
    case Unlistable(_) =>
    case File(_, _) =>
    case BadEntry =>
  }

  lemma {:induction false} EntriesFailIffFailure(rules: seq<Rule>, dir: string, entries: seq<Node>)
    ensures EntriesFindings(rules, dir, entries).Err? <==> EntriesFailures(dir, entries) != {}
    ensures EntriesFindings(rules, dir, entries).Err? ==>
      EntriesFindings(rules, dir, entries).error in EntriesFailures(dir, entries)
    decreases entries
  {
    if entries != [] {
      var last := entries[|entries| - 1];
      EntriesFailIffFailure(rules, dir, entries[..|entries| - 1]);
      match last
      case Dir(name, _) => WalkFailsIffFailure(rules, Join(dir, name), last);
      case Unlistable(name) => WalkFailsIffFailure(rules, Join(dir, name), last);
      case File(_, _) =>
      case BadEntry =>
    }
  }

  /** The findings that the given files should produce: one per (readable
      file, matching rule) pair. */
  ghost function Expected(rules: seq<Rule>, files: set<(string, Option<string>)>): set<SecurityIssue>
  {
    set f, r | f in files && r in rules && f.1.Some? && IsMatch(r.matcher, f.1.value) :: RuleFinding(r, f.0)
  }

  lemma ExpectedUnion(rules: seq<Rule>, a: set<(string, Option<string>)>, b: set<(string, Option<string>)>)
    ensures Expected(rules, a + b) == Expected(rules, a) + Expected(rules, b)
  {
    forall x | x in Expected(rules, a + b) ensures x in Expected(rules, a) + Expected(rules, b) {
      var f, r :| f in a + b && r in rules && f.1.Some? && IsMatch(r.matcher, f.1.value) && x == RuleFinding(r, f.0);
      if f in a {
        assert x in Expected(rules, a);
      } else {
        assert x in Expected(rules, b);
      }
    }
  }

  /** A readable file's findings are exactly the reports of the rules matching it. */
  lemma {:induction false} FileFindingsExpected(rules: seq<Rule>, path: string, text: string)
    ensures (set x | x in FileFindings(rules, path, text)) == Expected(rules, {(path, Some(text))})
  {
    if rules == [] {
      assert Expected(rules, {(path, Some(text))}) == {};
    } else {
      var n := |rules| - 1;
      var last := rules[n];
      FileFindingsExpected(rules[..n], path, text);
      assert rules == rules[..n] + [last];
      var file := (path, Some(text));
      forall x | x in Expected(rules, {file})
        ensures x in Expected(rules[..n], {file}) || (IsMatch(last.matcher, text) && x == RuleFinding(last, path))
      {
        var f, r :| f in {file} && r in rules && f.1.Some? && IsMatch(r.matcher, f.1.value) && x == RuleFinding(r, f.0);
        if r != last {
          assert r in rules[..n];
        }
      }
      if IsMatch(last.matcher, text) {
        assert RuleFinding(last, path) in Expected(rules, {file});
      }
      assert forall x :: x in Expected(rules[..n], {file}) ==> x in Expected(rules, {file});
    }
  }

  /** The set of the findings of readable files is the set of reports of
      their (file, matching rule) pairs. */
  lemma {:induction false} FilesFindingsExpected(rules: seq<Rule>, files: seq<(string, Option<string>)>)
    requires forall k :: 0 <= k < |files| ==> files[k].1.Some?
    ensures (set x | x in FilesFindings(rules, files)) == Expected(rules, set f | f in files)
  {
    if files == [] {
      assert Expected(rules, {}) == {};
    } else {
      var n := |files| - 1;
      var last := files[n];
      FilesFindingsExpected(rules, files[..n]);
      FileFindingsExpected(rules, last.0, last.1.value);
      assert (set f | f in files) == (set f | f in files[..n]) + {(last.0, Some(last.1.value))} by {
        assert files == files[..n] + [last];
      }
      ExpectedUnion(rules, set f | f in files[..n], {(last.0, Some(last.1.value))});
    }
  }

  /** A successful walk has read every Rust source file it reached, and the
      set of its findings is the set of reports of (Rust source file,
      matching rule) pairs: no other file contributes. */
  lemma WalkFindingsExpected(rules: seq<Rule>, dir: string, node: Node)
    requires DirFindings(rules, dir, node).Ok?
    ensures forall f :: f in RsFiles(dir, node) ==> f.1.Some?
    ensures (set x | x in DirFindings(rules, dir, node).value) == Expected(rules, RsFiles(dir, node))
  {
    WalkFindingsInOrder(rules, dir, node);
    FilesFindingsExpected(rules, WalkFiles(dir, node));
  }

  lemma EntriesFindingsExpected(rules: seq<Rule>, dir: string, entries: seq<Node>)
    requires EntriesFindings(rules, dir, entries).Ok?
    ensures forall f :: f in EntriesWalkFiles(dir, entries) ==> f.1.Some?
    ensures (set x | x in EntriesFindings(rules, dir, entries).value)
      == Expected(rules, set f | f in EntriesWalkFiles(dir, entries))
  {
    EntriesFindingsInOrder(rules, dir, entries);
    FilesFindingsExpected(rules, EntriesWalkFiles(dir, entries));
  }

  /** The Rust source files (displayed path, contents) the walk of `node`
      reaches, in the order it reads them. */
  ghost function WalkFiles(dir: string, node: Node): seq<(string, Option<string>)>
    decreases node
  {
    match node
    case Dir(_, entries) => EntriesWalkFiles(dir, entries)
    case _ => []
  }

  ghost function EntriesWalkFiles(dir: string, entries: seq<Node>): seq<(string, Option<string>)>
    decreases entries
  {
    if entries == [] then []
    else
      var last := entries[|entries| - 1];
      EntriesWalkFiles(dir, entries[..|entries| - 1])
      + match last
        case File(name, contents) =>
          if Extension(name) == Some("rs") then [(Join(dir, name), contents)] else []
        case Dir(name, _) => WalkFiles(Join(dir, name), last)
        case Unlistable(_) => []
        case BadEntry => []
  }

  /** The findings of the given files, file after file; an unreadable file
      contributes none. */
  function FilesFindings(rules: seq<Rule>, files: seq<(string, Option<string>)>): seq<SecurityIssue>
  {
    if files == [] then []
    else
      var last := files[|files| - 1];
      FilesFindings(rules, files[..|files| - 1])
      + (if last.1.Some? then FileFindings(rules, last.0, last.1.value) else [])
  }

  lemma {:induction false} FilesFindingsAppend(rules: seq<Rule>, a: seq<(string, Option<string>)>, b: seq<(string, Option<string>)>)
    ensures FilesFindings(rules, a + b) == FilesFindings(rules, a) + FilesFindings(rules, b)
  {
    if b == [] {
      assert a + b == a;
    } else {
      var n := |b| - 1;
      FilesFindingsAppend(rules, a, b[..n]);
      assert (a + b)[..|a + b| - 1] == a + b[..n];
    }
  }

  /** A successful walk has read every Rust source file it reached, and its
      findings are those files' findings, file after file in walk order:
      each file contributes one finding per rule matching it, so a file
      reached twice contributes twice. */
  lemma {:induction false} WalkFindingsInOrder(rules: seq<Rule>, dir: string, node: Node)
    requires DirFindings(rules, dir, node).Ok?
    ensures forall k :: 0 <= k < |WalkFiles(dir, node)| ==> WalkFiles(dir, node)[k].1.Some?
    ensures DirFindings(rules, dir, node).value == FilesFindings(rules, WalkFiles(dir, node))
    decreases node
  {
    match node
    case Dir(_, entries) => EntriesFindingsInOrder(rules, dir, entries);
    case Unlistable(_) =>
    case File(_, _) =>
    case BadEntry =>
  }

  lemma {:induction false} EntriesFindingsInOrder(rules: seq<Rule>, dir: string, entries: seq<Node>)
    requires EntriesFindings(rules, dir, entries).Ok?
    ensures forall k :: 0 <= k < |EntriesWalkFiles(dir, entries)| ==> EntriesWalkFiles(dir, entries)[k].1.Some?
    ensures EntriesFindings(rules, dir, entries).value == FilesFindings(rules, EntriesWalkFiles(dir, entries))
    decreases entries
  {
    if entries != [] {
      var n := |entries| - 1;
      var last := entries[n];
      EntriesFindingsInOrder(rules, dir, entries[..n]);
      var before := EntriesWalkFiles(dir, entries[..n]);
      var found := EntriesFindings(rules, dir, entries[..n]).value;
      match last
      case Dir(name, _) =>
        var sub := Join(dir, name);
        WalkFindingsInOrder(rules, sub, last);
        FilesFindingsAppend(rules, before, WalkFiles(sub, last));
        ReadableAppend(before, WalkFiles(sub, last));
        assert EntriesFindings(rules, dir, entries).value == found + DirFindings(rules, sub, last).value;
        assert EntriesWalkFiles(dir, entries) == before + WalkFiles(sub, last);
      case Unlistable(name) =>
      case BadEntry =>
      case File(name, contents) =>
        if Extension(name) == Some("rs") {
          var file := (Join(dir, name), contents);
          ReadableAppend(before, [file]);
          assert EntriesWalkFiles(dir, entries) == before + [file];
          assert (before + [file])[..|before|] == before;
        } else {
          assert EntriesWalkFiles(dir, entries) == before + [];
          assert before + [] == before;
        }
    }
  }

  lemma ReadableAppend(a: seq<(string, Option<string>)>, b: seq<(string, Option<string>)>)
    requires forall k :: 0 <= k < |a| ==> a[k].1.Some?
    requires forall k :: 0 <= k < |b| ==> b[k].1.Some?
    ensures forall k :: 0 <= k < |a + b| ==> (a + b)[k].1.Some?
  {
    forall k | 0 <= k < |a + b| ensures (a + b)[k].1.Some? {
      if k >= |a| {
        assert (a + b)[k] == b[k - |a|];
      }
    }
  }

  // ---------------------------------------------------------------------
  // A whole package
  // ---------------------------------------------------------------------

  /** Every source finding carries no affected version and no fix version. */
  lemma SourceFindingsShape(rules: seq<Rule>, p: Package)
    requires SourceFindings(rules, p).Ok?
    ensures forall x :: x in SourceFindings(rules, p).value ==>
      x.affectedVersions == [] && x.fixVersion.None?
  {
    if p.manifestDir.Some? && p.src.Some? {
      var dir := Join(p.manifestDir.value, "src");
      WalkFindingsExpected(rules, dir, p.src.value);
      forall x | x in SourceFindings(rules, p).value
        ensures x.affectedVersions == [] && x.fixVersion.None?
      {
        assert x in Expected(rules, RsFiles(dir, p.src.value));
      }
    }
  }

  /** No finding of a successful package scan has a fix version. */
  lemma FixVersionNeverSet(rules: seq<Rule>, p: Package)
    requires PackageFindings(rules, p).Ok?
    ensures forall x :: x in PackageFindings(rules, p).value ==> x.fixVersion.None?
  {
    SourceFindingsShape(rules, p);
    WildcardFindingsShape(p, p.dependencies);
  }

  /** A package scan fails exactly when its `src` directory is walked and
      some failure point is reachable in it. */
  lemma PackageScanFailsIff(rules: seq<Rule>, p: Package)
    ensures PackageFindings(rules, p).Err? <==>
      p.manifestDir.Some? && p.src.Some? && Failures(Join(p.manifestDir.value, "src"), p.src.value) != {}
  {
    if p.manifestDir.Some? && p.src.Some? {
      WalkFailsIffFailure(rules, Join(p.manifestDir.value, "src"), p.src.value);
    }
  }

  /** Without a manifest directory or a `src` entry there, or when `src` is
      not a directory, a package scan yields its metadata findings only. */
  lemma NoSourceFindingsWithoutSrcDir(rules: seq<Rule>, p: Package)
    requires p.manifestDir.None? || p.src.None? || p.src.value.File? || p.src.value.BadEntry?
    ensures PackageFindings(rules, p) == Ok(MetadataFindings(p))
  {
    assert MetadataFindings(p) + [] == MetadataFindings(p);
  }

  /** The pre-release finding appears exactly once when the major version is
      0, and not at all otherwise. */
  lemma PreReleaseExactlyOnce(rules: seq<Rule>, p: Package)
    requires PackageFindings(rules, p).Ok?
    ensures multiset(PackageFindings(rules, p).value)[PreReleaseIssue(p)] ==
      if p.version.major == 0 then 1 else 0
  {
    var x := PreReleaseIssue(p);
    assert x.description[0] == 'P';
    assert DependencyCountIssue(p).description[0] == 'L';
    WildcardFindingsShape(p, p.dependencies);
    SourceFindingsShape(rules, p);
    assert x !in WildcardFindings(p, p.dependencies);
    assert x !in SourceFindings(rules, p).value;
  }

  /** The dependency-count finding appears exactly once with more than 20
      dependencies (21 gives one, 20 gives none). */
  lemma DependencyCountExactlyOnce(rules: seq<Rule>, p: Package)
    requires PackageFindings(rules, p).Ok?
    ensures multiset(PackageFindings(rules, p).value)[DependencyCountIssue(p)] ==
      if |p.dependencies| > 20 then 1 else 0
  {
    var x := DependencyCountIssue(p);
    assert x.description[0] == 'L';
    assert PreReleaseIssue(p).description[0] == 'P';
    WildcardFindingsShape(p, p.dependencies);
    SourceFindingsShape(rules, p);
    assert x !in WildcardFindings(p, p.dependencies);
    assert x !in SourceFindings(rules, p).value;
  }

  /** The build-script finding appears exactly once when at least one target
      is a custom build, however many there are, and not at all otherwise. */
  lemma BuildScriptExactlyOnce(rules: seq<Rule>, p: Package)
    requires PackageFindings(rules, p).Ok?
    ensures multiset(PackageFindings(rules, p).value)[BuildScriptIssue(p)] ==
      if HasBuildScript(p.targets) then 1 else 0
  {
    var x := BuildScriptIssue(p);
    WildcardFindingsShape(p, p.dependencies);
    SourceFindingsShape(rules, p);
    assert x !in WildcardFindings(p, p.dependencies);
    assert x !in SourceFindings(rules, p).value;
  }
}
