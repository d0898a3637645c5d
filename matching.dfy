/** The three shapes of pattern the rule catalogue uses, as a small matcher
    language standing in for the regular expressions of the source:
    a literal, a literal, optional white space and a literal (`a\s*b`), and a
    literal followed by one of several literals (`p(x|y|z)`).
    A pattern matches a text when it matches starting at some position. */
module Matching {

  /** `\s`: a character with the Unicode White_Space property. */
  predicate IsSpace(c: char)
  {
    var n := c as int;
    (0x09 <= n <= 0x0D) || n == 0x20 || n == 0x85 || n == 0xA0 || n == 0x1680
    || (0x2000 <= n <= 0x200A) || n == 0x2028 || n == 0x2029 || n == 0x202F
    || n == 0x205F || n == 0x3000
  }

  datatype Matcher =
    | Literal(text: string)
    | Spaced(before: string, after: string)
    | Choice(prefix: string, alternatives: seq<string>)

  predicate StartsWith(t: string, s: string)
  {
    |s| <= |t| && t[..|s|] == s
  }

  /** `\s*s` anchored at the start of `t`. */
  predicate SpacesThen(t: string, s: string)
  {
    StartsWith(t, s) || (|t| > 0 && IsSpace(t[0]) && SpacesThen(t[1..], s))
  }

  /** `m` anchored at the start of `t`. */
  predicate MatchesAt(m: Matcher, t: string)
  {
    match m
    case Literal(s) => StartsWith(t, s)
    case Spaced(a, b) => StartsWith(t, a) && SpacesThen(t[|a|..], b)
    case Choice(p, alts) =>
      StartsWith(t, p) && exists k :: 0 <= k < |alts| && StartsWith(t[|p|..], alts[k])
  }

  /** Unanchored search: `m` matches somewhere in `text`. */
  predicate IsMatch(m: Matcher, text: string)
    ensures MatchesAt(m, text) ==> IsMatch(m, text)
    ensures IsMatch(m, text) ==> |Head(m)| <= |text|
  {
    MatchesAt(m, text) || (|text| > 0 && IsMatch(m, text[1..]))
  }

  /** The search finds a match exactly when the pattern matches at some position. */
  lemma {:induction false} IsMatchSomewhere(m: Matcher, text: string)
    ensures IsMatch(m, text) <==> exists i :: 0 <= i <= |text| && MatchesAt(m, text[i..])
  {
    assert text[0..] == text;
    if |text| > 0 {
      IsMatchSomewhere(m, text[1..]);
      if exists i :: 0 <= i <= |text| && MatchesAt(m, text[i..]) {
        var i :| 0 <= i <= |text| && MatchesAt(m, text[i..]);
        if i > 0 {
          assert text[1..][i - 1..] == text[i..];
        }
      }
      if IsMatch(m, text[1..]) {
        var j :| 0 <= j <= |text| - 1 && MatchesAt(m, text[1..][j..]);
        assert text[1..][j..] == text[j + 1..];
        assert MatchesAt(m, text[j + 1..]);
      }
    }
  }

  /** The literal every match of `m` begins with. */
  function Head(m: Matcher): string
  {
    match m
    case Literal(s) => s
    case Spaced(a, _) => a
    case Choice(p, _) => p
  }

  /** A text lacking one of the characters of a pattern's leading literal cannot match it. */
  lemma MatchNeedsHead(m: Matcher, text: string, c: char)
    requires c in Head(m) && c !in text
    ensures !IsMatch(m, text)
  {
    IsMatchSomewhere(m, text);
  }
}
