# rustsec-guardian: the scanner and the report assembly in Dafny

rustsec-guardian audits a Rust workspace. It is given the package set resolved
from a `Cargo.toml` and its root package. For every package it runs:
- metadata checks: pre-1.0 version, many dependencies, wildcard version
  requirements, build scripts;
- a source scan: eight text rules applied to every `.rs` file under the
  package's `src` directory.

It then assembles a report. The report holds the root's direct dependencies,
a one-level dependency graph, the number of packages other than the root
(`total_dependencies`), and a map from package name to that package's
findings.

This project models that core:
- `models.dfy` (module `Models`): severities, their rendering and findings.
  Source: `src/models/mod.rs`.
- `cargo.dfy` (module `Cargo`): the resolved package snapshot.
  - The filesystem below a package is an inductive tree of files and
    directories.
  - Paths are joined with `/`.
  - File extensions follow the standard library's rule.
- `matching.dfy` (module `Matching`): the three pattern shapes the rule
  catalogue uses. They stand in for the regular expressions: a literal, a
  literal then `\s*` then a literal, and a literal followed by an
  alternation. `\s` is the Unicode White_Space set.
- `scanner.dfy` (module `Scanner`): the scanner of `src/scanner/mod.rs`.
  - Each check or scan method is imperative.
  - Each takes the growing list of findings and returns it extended, or
    returns an error.
  - Each is proved equal to a specification function on its inputs.
- `scanner_properties.dfy` (module `ScannerProperties`): what the scan
  promises, proved about those functions. This covers the per-rule,
  per-wildcard and exactly-once counts, the source findings of a walk in
  walk order, and when a scan fails.
- `analyzer.dfy` (module `Analyzer`) and `analyzer_properties.dfy`: the
  report assembly of `src/analyzer/mod.rs` and its properties. These cover
  the graph's keys and last-writer-wins, and the issues map's keys, its
  absence of empty lists and its skipping of failed scans.
- `scenario.dfy` (module `Scenario`): a worked three-package example. Every
  field of its report is stated: the total, the direct dependencies, the
  dependency graph and the issues map.

## Model

| member | source | states |
|---|---|---|
| Models.Display | src/models/mod.rs:22-31 | Every severity renders as an upper-case tag of 3 to 8 letters. |
| Models.ParseDisplay | src/models/mod.rs:22-31 | Reading back the rendering of any severity gives that severity. |
| Models.DisplayParse | src/models/mod.rs:24-30 | A string is accepted as a severity only if it is exactly that severity's rendering: "CRITICAL", "HIGH", "MEDIUM", "LOW" or "INFO". |
| Models.DisplayInjective | src/models/mod.rs:24-30 | Two severities render the same exactly when they are the same severity. |
| Models.Rank | src/models/mod.rs:14-20 | Each of the five severities has a position below 5. |
| Models.RankIsDeclarationOrder | src/models/mod.rs:14-20 | The positions follow declaration order (Critical, High, Medium, Low, Info) and tell every variant apart. |
| Cargo.LastDot | src/scanner/mod.rs:105 | Gives the index of the last '.' of a name, or None when the name has no '.'. |
| Cargo.ExtensionAfterLastDot | src/scanner/mod.rs:105 | A name has no extension exactly when it is ".." or has no '.' after its first character. Otherwise the extension is the text after the last '.', and that '.' is not the first character. |
| Cargo.RsExtension | src/scanner/mod.rs:105-106 | A file name has extension "rs" exactly when it ends in ".rs" after at least one other character. So "x.rs" and "a.b.rs" count, while ".rs", "rs", "x.rsx" and extensionless names do not. |
| Matching.IsMatch | src/scanner/mod.rs:119 | A match at the start of the text is a match. A text shorter than the pattern's leading literal never matches. |
| Matching.IsMatchSomewhere | src/scanner/mod.rs:119 | A pattern matches a text exactly when it matches starting at some position of the text. |
| Matching.MatchNeedsHead | src/scanner/mod.rs:119 | A text lacking a character of the pattern's leading literal never matches it. |
| Scanner.Catalogue | src/scanner/mod.rs:23-69 | The catalogue has eight rules with severities High, High, Medium, Medium, Critical, High, Medium, Medium, in that order. |
| Scanner.ScanFile | src/scanner/mod.rs:115-133 | A failed read gives an error, which this model labels with the file's path. Otherwise the list is extended by one finding per matching rule, in rule order. |
| Scanner.EntriesErrPersists | src/scanner/mod.rs:99-110 | Once an entry of a directory fails, the walk of that directory fails with that error. |
| Scanner.ScanDirectory | src/scanner/mod.rs:97-113 | The result is the list extended by the findings of the walk, or the walk's first error: an unlistable directory, a failed entry or an unreadable `.rs` file. Anything that is not a directory adds nothing. |
| Scanner.CheckVersion | src/scanner/mod.rs:135-147 | The list is extended by the pre-release finding exactly when the major version is 0. |
| Scanner.CheckDependencies | src/scanner/mod.rs:149-177 | The list is extended by the count finding when there are more than 20 dependencies, then by the wildcard findings. |
| Scanner.CheckBuildScripts | src/scanner/mod.rs:179-191 | The list is extended by one build-script finding when some target is of kind "custom-build". |
| Scanner.ScanPackage | src/scanner/mod.rs:74-95 | On success the findings come in this order: version, count, wildcards, build script, source. The walk of `<manifest dir>/src` runs only when both exist. A walk error becomes the package's error, with no partial list. |
| ScannerProperties.MatchingRules | src/scanner/mod.rs:118-119 | Gives the positions of the matching rules, strictly increasing; a position is listed exactly when its rule matches. |
| ScannerProperties.FileFindingsPerMatchingRule | src/scanner/mod.rs:118-130 | A file's findings are exactly one per matching rule, in rule order. Each finding has the rule's severity, the description "<rule description> in <path>", no affected versions and no fix version. |
| ScannerProperties.FileFindingsAtMostOnePerRule | src/scanner/mod.rs:118-131 | A file yields at most one finding per rule, so at most 8 with the catalogue. |
| Scanner.DecimalString | src/scanner/mod.rs:154-157 | The count renders as a non-empty string: "0" for zero, and with no leading zero otherwise. |
| ScannerProperties.DecimalStringDenotes | src/scanner/mod.rs:154-157 | The count in the count finding is written in decimal digits that denote the count. |
| ScannerProperties.WildcardPositions | src/scanner/mod.rs:164-165 | Gives the positions of the dependencies whose requirement contains '*', in increasing order; a position is listed exactly when its requirement contains '*'. |
| ScannerProperties.WildcardFindingsPerWildcard | src/scanner/mod.rs:164-176 | n wildcard requirements give exactly n wildcard findings, in dependency order, each naming its dependency. |
| ScannerProperties.WildcardFindingsShape | src/scanner/mod.rs:166-174 | Every wildcard finding is High and records the scanned package's own version, not the dependency's; its fix version is None. |
| ScannerProperties.WalkFailsIffFailure | src/scanner/mod.rs:97-116 | The walk fails exactly when it can reach one of: an unlistable directory, a failing entry, or an unreadable `.rs` file. The error is one of those. |
| ScannerProperties.EntriesFailIffFailure | src/scanner/mod.rs:99-110 | The same as WalkFailsIffFailure, for a directory's list of entries. |
| ScannerProperties.FilesFindingsExpected | src/scanner/mod.rs:115-131 | For readable files, the set of their findings is the set of reports of their (file, matching rule) pairs. |
| ScannerProperties.ExpectedUnion | src/scanner/mod.rs:103-108 | The expected findings of two groups of files are the expected findings of each group together. |
| ScannerProperties.FileFindingsExpected | src/scanner/mod.rs:115-133 | The set of a readable file's findings is exactly one report per (file, matching rule) pair. |
| ScannerProperties.WalkFindingsExpected | src/scanner/mod.rs:97-113 | A successful walk has read every `.rs` file at any depth. The set of its findings equals the set of reports of (`.rs` file, matching rule) pairs; files with other or no extension contribute nothing. |
| ScannerProperties.EntriesFindingsExpected | src/scanner/mod.rs:99-110 | The same as WalkFindingsExpected, for a directory's list of entries. Both follow from the in-order lemmas below. |
| ScannerProperties.FilesFindingsAppend | src/scanner/mod.rs:99-110 | The findings of two runs of files, one after the other, are the first run's findings followed by the second's. |
| ScannerProperties.WalkFindingsInOrder | src/scanner/mod.rs:97-116 | A successful walk has read every `.rs` file it reached. Its findings are, in walk order, each `.rs` file's own findings, one per matching rule. So a file contributes once per matching rule, and each time it is reached. |
| ScannerProperties.EntriesFindingsInOrder | src/scanner/mod.rs:99-110 | The same as WalkFindingsInOrder, for a directory's list of entries in listing order. |
| ScannerProperties.SourceFindingsShape | src/scanner/mod.rs:120-129 | Every source finding has no affected versions and no fix version. |
| ScannerProperties.FixVersionNeverSet | src/scanner/mod.rs:128 | No finding of a successful package scan has a fix version. |
| ScannerProperties.PackageScanFailsIff | src/scanner/mod.rs:86-94 | A package scan fails exactly when `src` is walked and a failure is reachable in it. The metadata checks never fail. |
| ScannerProperties.NoSourceFindingsWithoutSrcDir | src/scanner/mod.rs:87-92 | With no manifest directory, no `src`, or a `src` that is not a directory, the scan yields the metadata findings only. |
| ScannerProperties.PreReleaseExactlyOnce | src/scanner/mod.rs:135-146 | A successful scan holds the pre-release finding once when the major version is 0, and never otherwise. |
| ScannerProperties.DependencyCountExactlyOnce | src/scanner/mod.rs:150-161 | A successful scan holds the count finding once with more than 20 dependencies, and never with 20 or fewer. |
| ScannerProperties.BuildScriptExactlyOnce | src/scanner/mod.rs:179-190 | A successful scan holds the build-script finding once when any target is a custom build, however many are, and never otherwise. |
| Analyzer.DirectDependencies | src/analyzer/mod.rs:42-52 | Gives one summary per root dependency, in declared order. Each has the dependency's name, its requirement as the version, is_direct true, its features, and no nested names. |
| Analyzer.DependencyNames | src/analyzer/mod.rs:80-84 | Gives one name per dependency, in declared order. |
| Analyzer.BuildDependencyTree | src/analyzer/mod.rs:74-90 | Always succeeds, inserting each package's dependency names into the map in package order. |
| Analyzer.CollectIssues | src/analyzer/mod.rs:57-64 | The map holds, in package order, the name and findings of each package whose scan succeeds with findings. |
| Analyzer.Analyze | src/analyzer/mod.rs:31-72 | Without a root the result is the "no root package" error. Otherwise it is the report: the total \|packages\| - 1, the root's direct dependencies, the dependency graph, and the issues map built with the catalogue. |
| AnalyzerProperties.DependencyTreeKeys | src/analyzer/mod.rs:79-87 | The graph's keys are exactly the package names. |
| AnalyzerProperties.DependencyTreeLastWins | src/analyzer/mod.rs:79-87 | A name is bound to the dependency names of the last package with that name. |
| AnalyzerProperties.DependencyTreeSize | src/analyzer/mod.rs:79-87 | With distinct names the graph has exactly \|packages\| entries. |
| AnalyzerProperties.IssuesMapNoEmptyList | src/analyzer/mod.rs:58-63 | The issues map never holds an empty list. |
| AnalyzerProperties.IssuesMapKeys | src/analyzer/mod.rs:58-63 | The keys are exactly the names of packages whose scan succeeds with findings, a subset of the package names. |
| AnalyzerProperties.IssuesMapLastReportWins | src/analyzer/mod.rs:59-62 | A name holds the findings of the last same-named package that reported any. A later empty or failed scan leaves the entry alone. |
| AnalyzerProperties.IssuesMapSkipsSilentPackage | src/analyzer/mod.rs:58-64 | A package whose scan fails or finds nothing leaves the map as if it were absent, and the loop goes on. |
| Scenario.UnsafeFileFindings | src/scanner/mod.rs:23-29 | With the catalogue, the text "unsafe { }" yields exactly the unsafe-block finding. |
| Scenario.AppScan | src/scanner/mod.rs:74-95 | A 0.x package with one wildcard requirement and no sources yields the pre-release finding, then one wildcard finding. |
| Scenario.LibFooScan | src/scanner/mod.rs:74-95 | A 1.x package with 25 dependencies, a build script and an unsafe block in src/lib.rs yields the count, build-script and unsafe-block findings, in that order. |
| Scenario.LibBarScan | src/scanner/mod.rs:74-95 | A 1.x package with no dependencies, no build script and no sources yields nothing. |
| Scenario.ScenarioReport | src/analyzer/mod.rs:42-64 | For those three packages the issues map has entries for the two reporting packages only. The root's two dependencies are listed as direct, with their requirements "*" and "^1.2" as versions. |
| Scenario.ThreePackageIssues | src/analyzer/mod.rs:58-63 | With two reporting packages followed by a silent one, the issues map holds exactly the two reporting packages' findings. |
| Scenario.ThreePackageTree | src/analyzer/mod.rs:79-87 | The graph of three packages binds each name, in package order, to that package's dependency names. |
| Scenario.ScenarioTree | src/analyzer/mod.rs:79-87 | The example's graph binds "app" to ["libfoo", "libbar"], "libfoo" to 25 times "dep", and "libbar" to []. |
| Scenario.ScenarioAnalysis | src/analyzer/mod.rs:31-72 | The analysis of those three packages with "app" as root succeeds. Its total is 2, and it has that issues map and that dependency graph. It lists the two direct dependencies in full: name, requirement, direct, no features, no nested names. |

## Left out

- The command-line front end (`src/main.rs`): argument parsing, logging setup and rendering of the report. Its `deep` flag is never read.
- The call to `cargo metadata` and the root-package lookup are I/O:
  - The package list and the root are inputs.
  - A missing root is the `root` input being `None`, giving the `NoRootPackage` error.
  - The resolver lists the root among the packages, so `Analyze` requires a non-empty list when there is a root. This is what makes `packages.len() - 1` safe.
- Regular-expression semantics: the eight patterns are written in the `Matcher` datatype, a stand-in for the `regex` crate, which is not part of this model.
- The real filesystem is an input tree (`Cargo.Node`):
  - `read_dir`, `is_dir`, `exists` and `read_to_string` are not modelled as I/O.
  - Symbolic links and UTF-8 decoding are not modelled; a file whose text cannot be read has `None` contents.
  - Entry order is the tree's list order.
- Paths are displayed as `dir + "/" + name`, standing in for `Path::join` and `Path::display`.
- Semantic-version and requirement renderings are opaque strings supplied with each package (`Version.text`, `Dependency.req`). Only the major version is a number.
- `async` execution, `tracing` logging, `serde` serialization and `HashMap` iteration order are not modelled. The report's maps are Dafny `map`s.
- Scanner.ScanError: the path an error carries is this model's own label. The source's errors are I/O errors that do not name the path, and the analysis discards them (src/analyzer/mod.rs:59), so no report depends on it.
- The `SecurityScan` struct (src/scanner/mod.rs:11-15) is declared but never used.
- When a scan fails part-way, the findings already pushed stay in the caller's vector. `scan_package` then drops that vector, so a failed scan is modelled as the error alone.
- Scanning a package twice gives the same result. In this model that holds by definition, because the scan is a function of its input, so no lemma states it.
- A reader might expect some failures to be local; this model follows the code:
  - One unreadable `.rs` file, failed directory entry or unlistable directory aborts that package's whole scan. The package then gets no entry in the issues map. The failure is not local to the file.
  - Duplicate package names keep the last package's value, in both maps.
