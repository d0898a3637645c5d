/** The record types of the tool's report: severities, findings and
    direct-dependency summaries (src/models/mod.rs). */
module Models {
  import opened Wrappers

  /** A closed enumeration, declared from the most to the least severe. */
  datatype Severity = Critical | High | Medium | Low | Info

  /** The `Display` rendering of a severity tag. */
  function Display(s: Severity): (r: string)
    ensures 3 <= |r| <= 8
    ensures forall i :: 0 <= i < |r| ==> 'A' <= r[i] <= 'Z'
  {
    match s
    case Critical => "CRITICAL"
    case High => "HIGH"
    case Medium => "MEDIUM"
    case Low => "LOW"
    case Info => "INFO"
  }

  /** Reads a rendered tag back; anything other than the five renderings is refused. */
  function ParseSeverity(text: string): Option<Severity>
  {
    if text == "CRITICAL" then Some(Critical)
    else if text == "HIGH" then Some(High)
    else if text == "MEDIUM" then Some(Medium)
    else if text == "LOW" then Some(Low)
    else if text == "INFO" then Some(Info)
    else None
  }

  /** Parsing a rendered tag gives the severity back. */
  lemma ParseDisplay(s: Severity)
    ensures ParseSeverity(Display(s)) == Some(s)
  {
    match s
    case Critical =>
    case High =>
    case Medium =>
    case Low =>
    case Info =>
  }

  /** A successful parse only accepts the exact rendering of what it returns. */
  lemma DisplayParse(text: string, s: Severity)
    requires ParseSeverity(text) == Some(s)
    ensures Display(s) == text
  {
  }

  /** Distinct severities are rendered as distinct tags. */
  lemma DisplayInjective(a: Severity, b: Severity)
    ensures Display(a) == Display(b) <==> a == b
  {
    if Display(a) == Display(b) {
      ParseDisplay(a);
      ParseDisplay(b);
    }
  }

  /** Position in the declaration order; 0 is the most severe. */
  function Rank(s: Severity): (r: nat)
    ensures r < 5
  {
    match s
    case Critical => 0
    case High => 1
    case Medium => 2
    case Low => 3
    case Info => 4
  }

  /** The rank follows the declaration order and tells severities apart. */
  lemma RankIsDeclarationOrder(a: Severity, b: Severity)
    ensures Rank(a) == Rank(b) <==> a == b
    ensures Rank(Critical) < Rank(High) < Rank(Medium) < Rank(Low) < Rank(Info)
  {
  }

  /** One finding. `fixVersion` is `None` unless a remediation is known. */
  datatype SecurityIssue = SecurityIssue(
    severity: Severity,
    description: string,
    affectedVersions: seq<string>,
    fixVersion: Option<string>)

  /** A direct dependency of the analysed root, as reported. */
  datatype DependencyInfo = DependencyInfo(
    name: string,
    version: string,
    isDirect: bool,
    features: seq<string>,
    dependencies: seq<string>)
}
