/** The resolved package snapshot the analysis consumes: what the external
    metadata command reports about each package, together with the part of
    the filesystem the scanner walks. */
module Cargo {
  import opened Wrappers

  /** A semantic version: the major component, which the checks inspect, and
      the version's rendering as text. */
  datatype Version = Version(major: nat, text: string)

  /** A declared dependency: its name, its version requirement rendered as
      text, and the features it enables. */
  datatype Dependency = Dependency(name: string, req: string, features: seq<string>)

  /** A build target and its kinds ("lib", "bin", "custom-build", ...). */
  datatype Target = Target(kind: seq<string>)

  /** A filesystem entry as the scanner sees it.
      - `File`: a file, with its text, or `None` if reading it as text fails;
      - `Dir`: a directory, with its entries in listing order;
      - `Unlistable`: a directory whose listing fails;
      - `BadEntry`: an entry the directory iterator reports as an error. */
  datatype Node =
    | File(name: string, contents: Option<string>)
    | Dir(name: string, entries: seq<Node>)
    | Unlistable(name: string)
    | BadEntry

  /** A resolved package. `manifestDir` is the directory holding the manifest
      (`None` when the manifest path has no parent) and `src` is what exists at
      `<manifestDir>/src` (`None` when nothing does). A `src` of `BadEntry`
      is a path whose metadata cannot be read: the standard library then
      reports it neither as existing nor as a directory, so it is not walked,
      like a `src` that is a file. */
  datatype Package = Package(
    name: string,
    version: Version,
    dependencies: seq<Dependency>,
    targets: seq<Target>,
    manifestDir: Option<string>,
    src: Option<Node>)

  /** The displayed path of an entry `name` of the directory displayed as `dir`. */
  function Join(dir: string, name: string): string
  {
    dir + "/" + name
  }

  /** The index of the last '.' in `s`, if any. */
  function LastDot(s: string): (r: Option<nat>)
    ensures r.None? ==> '.' !in s
    ensures r.Some? ==> r.value < |s| && s[r.value] == '.' && '.' !in s[r.value + 1..]
  {
    if s == [] then None
    else if s[|s| - 1] == '.' then Some(|s| - 1)
    else
      var r := LastDot(s[..|s| - 1]);
      assert s == s[..|s| - 1] + [s[|s| - 1]];
      r
  }

  /** The extension of a file name by the standard library's rule: the text
      after the last '.', except that a name whose only '.' is its first
      character, and the name "..", have none. */
  function Extension(name: string): Option<string>
  {
    if name == ".." then None
    else match LastDot(name)
      case None => None
      case Some(i) => if i == 0 then None else Some(name[i + 1..])
  }

  /** A name has no extension exactly when it is ".." or has no '.' after
      its first character; otherwise the extension is the text after its
      last '.', which is not the name's first character. */
  lemma ExtensionAfterLastDot(name: string)
    ensures Extension(name).None? <==> name == ".." || forall i :: 0 < i < |name| ==> name[i] != '.'
    ensures Extension(name).Some? ==>
      var e := Extension(name).value;
      |e| + 2 <= |name| && '.' !in e && name[|name| - |e| - 1] == '.' && name[|name| - |e|..] == e
  {
  }

  /** A file name has the extension "rs" exactly when it ends in ".rs" after
      at least one other character. */
  lemma RsExtension(name: string)
    ensures Extension(name) == Some("rs") <==> |name| > 3 && name[|name| - 3..] == ".rs"
  {
    if |name| > 3 && name[|name| - 3..] == ".rs" {
      assert name[|name| - 3] == '.';
      assert name[|name| - 2..] == "rs";
      assert LastDot(name) == Some(|name| - 3) by {
        assert name[|name| - 1] == 's' && name[|name| - 2] == 'r';
        assert name[..|name| - 1][..|name| - 2] == name[..|name| - 2];
      }
    }
    if Extension(name) == Some("rs") {
      var i := LastDot(name).value;
      assert name[i + 1..] == "rs";
      assert i == |name| - 3;
      assert name[|name| - 3..] == ['.'] + name[i + 1..];
    }
  }
}
