/**
 * The project root (src/project/root.rs): finding it from the current
 * directory, reading the HEAD file, and the `RootPath` joins and the
 * containment test.
 */
module RootPaths {
  import opened Errors
  import opened Paths

  /** The metadata directory of a project rooted at `root`. */
  function GustDir(root: Path): Path {
    root + [".gust"]
  }

  /**
   * `find_project_root`: from the current directory upwards, the first
   * directory holding a `.gust` entry; the filesystem root is tried last.
   */
  method FindProjectRoot(cwd: Path, fs: WorkTree) returns (r: Result<Path>)
    ensures r.Ok? ==> StartsWith(cwd, r.value) && Exists(fs, GustDir(r.value))
    ensures r.Ok? ==> forall k :: |r.value| < k <= |cwd| ==> !Exists(fs, GustDir(cwd[..k]))
    ensures r.Err? ==> r.error == User("No project found")
    ensures r.Err? ==> forall k :: 0 <= k <= |cwd| ==> !Exists(fs, GustDir(cwd[..k]))
  {
    var path := cwd;
    while true
      invariant StartsWith(cwd, path)
      invariant forall k :: |path| < k <= |cwd| ==> !Exists(fs, GustDir(cwd[..k]))
      decreases |path|
    {
      assert path == cwd[..|path|];
      if Exists(fs, path + [".gust"]) {
        return Ok(path);
      }
      if path == [] {
        return Err(User("No project found"));
      }
      path := path[..|path| - 1];
    }
  }

  /** Unicode `White_Space`, the characters `str::trim` strips. */
  const Whitespace: set<char> := {
    '\U{20}', '\U{9}', '\U{A}', '\U{B}', '\U{C}', '\U{D}', '\U{85}', '\U{A0}',
    '\U{1680}', '\U{2000}', '\U{2001}', '\U{2002}', '\U{2003}', '\U{2004}', '\U{2005}', '\U{2006}',
    '\U{2007}', '\U{2008}', '\U{2009}', '\U{200A}', '\U{2028}', '\U{2029}', '\U{202F}', '\U{205F}',
    '\U{3000}'
  }

  predicate IsWhitespace(c: char) {
    c in Whitespace
  }

  /** How many whitespace characters `s` starts with. */
  function LeadingWhitespace(s: string): (n: nat)
    ensures n <= |s|
    ensures forall k :: 0 <= k < n ==> IsWhitespace(s[k])
    ensures n < |s| ==> !IsWhitespace(s[n])
  {
    if s != [] && IsWhitespace(s[0]) then
      var n := LeadingWhitespace(s[1..]);
      assert forall k :: 1 <= k <= n ==> s[k] == s[1..][k - 1];
      1 + n
    else 0
  }

  /** How many whitespace characters `s` ends with. */
  function TrailingWhitespace(s: string): (n: nat)
    ensures n <= |s|
    ensures forall k :: |s| - n <= k < |s| ==> IsWhitespace(s[k])
    ensures n < |s| ==> !IsWhitespace(s[|s| - n - 1])
  {
    if s != [] && IsWhitespace(s[|s| - 1]) then
      var n := TrailingWhitespace(s[..|s| - 1]);
      assert forall k :: |s| - 1 - n <= k < |s| - 1 ==> s[k] == s[..|s| - 1][k];
      1 + n
    else 0
  }

  /**
   * `str::trim`: the contents between the leading and the trailing
   * whitespace; nothing when the text is whitespace only.
   */
  function Trim(s: string): (r: string)
    ensures r == [] || (!IsWhitespace(r[0]) && !IsWhitespace(r[|r| - 1]))
  {
    var i := LeadingWhitespace(s);
    if i == |s| then [] else s[i..|s| - TrailingWhitespace(s)]
  }

  /**
   * Trimming removes whitespace and nothing else: the result is the piece
   * of `s` starting after its leading whitespace, and every character of
   * `s` before or after that piece is whitespace.
   */
  lemma {:induction false} TrimIsInfix(s: string)
    ensures LeadingWhitespace(s) + |Trim(s)| <= |s|
    ensures Trim(s) == s[LeadingWhitespace(s)..LeadingWhitespace(s) + |Trim(s)|]
    ensures forall k :: 0 <= k < LeadingWhitespace(s) ==> IsWhitespace(s[k])
    ensures forall k :: LeadingWhitespace(s) + |Trim(s)| <= k < |s| ==> IsWhitespace(s[k])
  {
    var i := LeadingWhitespace(s);
    if i < |s| {
      assert TrailingWhitespace(s) < |s| - i;
    }
  }

  /** Trimming twice is trimming once. */
  lemma {:induction false} TrimIdempotent(s: string)
    ensures Trim(Trim(s)) == Trim(s)
  {
    var r := Trim(s);
    if r != [] {
      assert LeadingWhitespace(r) == 0;
      assert TrailingWhitespace(r) == 0;
      assert r[0..|r|] == r;
    }
  }

  /** `parse_head` on the contents of `.gust/HEAD`; reading the file is I/O and not modelled. */
  function ParseHead(contents: string): (name: string)
    ensures name == [] || (!IsWhitespace(name[0]) && !IsWhitespace(name[|name| - 1]))
    ensures Trim(name) == name
  {
    TrimIdempotent(contents);
    Trim(contents)
  }

  // ---------------------------------------------------------------------------
  // RootPath

  /** `RootPath::join`: the root joined with a path given as text. */
  function JoinStr(root: Path, s: string): Path {
    Join(root, FromStr(s))
  }

  /** `RootPath::is_inside_root`: component-prefix containment. */
  predicate IsInsideRoot(root: Path, p: Path) {
    StartsWith(p, root)
  }

  /**
   * `RootPath::join_path` with a root-relative path: the result lies inside
   * the root, and stripping the root gives the relative path back.
   */
  function JoinPath(root: Path, rel: Path): (p: Path)
    ensures IsInsideRoot(root, p)
    ensures RootRelative(p, root) == rel
  {
    root + rel
  }

  /** Converting an absolute path under the root to root-relative and joining it back gives the path. */
  lemma {:induction false} JoinRootRelative(root: Path, p: Path)
    requires IsInsideRoot(root, p)
    ensures JoinPath(root, RootRelative(p, root)) == p
  {
  }

  /** The root is inside itself. */
  lemma {:induction false} IsInsideRootReflexive(root: Path)
    ensures IsInsideRoot(root, root)
  {
  }

  /** `RootPath::join` of a relative text of proper names appends exactly those names. */
  lemma {:induction false} JoinStrNames(root: Path, names: seq<string>)
    requires |names| >= 1
    requires forall i :: 0 <= i < |names| ==> names[i] != "" && names[i] != "." && '/' !in names[i]
    ensures JoinStr(root, Unsplit(names)) == root + names
    ensures IsInsideRoot(root, JoinStr(root, Unsplit(names)))
  {
    ComponentsOfNames(names);
  }
}
