/**
 * The three path kinds of the engine (src/project/paths.rs) and the parts of
 * Rust's `std::path` they rely on.
 *
 * A path is the sequence of its components; the empty sequence is the
 * filesystem root `/`. Absolute paths and root-relative paths share this
 * representation; a CLI path also records whether it was written absolute,
 * because joining an absolute path replaces the base.
 */
module Paths {
  import opened Errors

  type Path = seq<string>

  /** `Path::starts_with`: `base` is a component-wise prefix of `p`. */
  predicate StartsWith(p: Path, base: Path) {
    |base| <= |p| && p[..|base|] == base
  }

  /** `Path::ends_with`: `suffix` is a component-wise suffix of `p`. */
  predicate EndsWith(p: Path, suffix: Path) {
    |suffix| <= |p| && p[|p| - |suffix|..] == suffix
  }

  // ---------------------------------------------------------------------------
  // From text to components

  /** The pieces of `s` between `/` separators, empty pieces included. */
  function Segments(s: string): (r: seq<string>)
    ensures |r| >= 1
  {
    if s == [] then [[]]
    else if s[0] == '/' then [[]] + Segments(s[1..])
    else
      var rest := Segments(s[1..]);
      [[s[0]] + rest[0]] + rest[1..]
  }

  /** Glues segments back together with `/` between them. */
  function Unsplit(segs: seq<string>): string
    requires |segs| >= 1
  {
    if |segs| == 1 then segs[0] else segs[0] + "/" + Unsplit(segs[1..])
  }

  /** Segments of text free of separators, joined with `/`, split back into themselves. */
  lemma {:induction false} SegmentsUnsplit(names: seq<string>)
    requires |names| >= 1
    requires forall i :: 0 <= i < |names| ==> '/' !in names[i]
    ensures Segments(Unsplit(names)) == names
  {
    if |names| == 1 {
      SegmentsOfName(names[0]);
    } else {
      SegmentsUnsplit(names[1..]);
      SegmentsOfName(names[0]);
      SegmentsAround(names[0], Unsplit(names[1..]));
      assert [names[0]] + names[1..] == names;
    }
  }

  /** A name without separators is a single segment. */
  lemma {:induction false} SegmentsOfName(a: string)
    requires '/' !in a
    ensures Segments(a) == [a]
  {
    if a != [] {
      assert '/' !in a[1..] by {
        forall i | 0 <= i < |a[1..]| ensures a[1..][i] != '/' {
          assert a[1..][i] == a[i + 1];
        }
      }
      SegmentsOfName(a[1..]);
      assert [a[0]] + a[1..] == a;
    }
  }

  /** A separator between two texts separates their segments. */
  lemma {:induction false} SegmentsAround(a: string, b: string)
    ensures Segments(a + "/" + b) == Segments(a) + Segments(b)
  {
    if a == [] {
      assert a + "/" + b == "/" + b;
      assert ("/" + b)[1..] == b;
    } else {
      assert (a + "/" + b)[1..] == a[1..] + "/" + b;
      SegmentsAround(a[1..], b);
    }
  }

  /** Rust drops empty components (repeated or trailing `/`) and interior `.` components. */
  function Normal(segs: seq<string>): seq<string> {
    if segs == [] then []
    else (if segs[0] == "" || segs[0] == "." then [] else [segs[0]]) + Normal(segs[1..])
  }

  lemma {:induction false} NormalOfNames(names: seq<string>)
    requires forall i :: 0 <= i < |names| ==> names[i] != "" && names[i] != "."
    ensures Normal(names) == names
  {
    if names != [] {
      NormalOfNames(names[1..]);
      assert [names[0]] + names[1..] == names;
    }
  }

  /** `Path::components` of a text: a relative path keeps a leading `.` (Rust's `CurDir`). */
  function Components(s: string): Path {
    var segs := Segments(s);
    if |s| > 0 && s[0] != '/' && segs[0] == "." then ["."] + Normal(segs[1..])
    else Normal(segs)
  }

  /** The components of a relative text built from proper names are those names. */
  lemma {:induction false} ComponentsOfNames(names: seq<string>)
    requires |names| >= 1
    requires forall i :: 0 <= i < |names| ==> names[i] != "" && names[i] != "." && '/' !in names[i]
    ensures |Unsplit(names)| > 0 && Unsplit(names)[0] != '/'
    ensures Components(Unsplit(names)) == names
  {
    SegmentsUnsplit(names);
    NormalOfNames(names);
    UnsplitStart(names);
  }

  lemma {:induction false} UnsplitStart(names: seq<string>)
    requires |names| >= 1 && names[0] != ""
    ensures |Unsplit(names)| > 0 && Unsplit(names)[0] == names[0][0]
  {
    if |names| > 1 {
      assert Unsplit(names) == names[0] + ("/" + Unsplit(names[1..]));
    }
  }

  // ---------------------------------------------------------------------------
  // CLI paths and joining

  /**
   * A path typed by the operator: relative to the current directory unless
   * written absolute. `parts` holds its normal components only; `.` and
   * empty components are dropped, so `.` alone is the empty relative path.
   */
  datatype CliPath = CliPath(absolute: bool, parts: Path)

  /** `PathBuf::from` on a text. */
  function FromStr(s: string): CliPath {
    CliPath(|s| > 0 && s[0] == '/', Components(s))
  }

  /** `PathBuf::join`: an absolute path replaces the base, a relative one extends it. */
  function Join(base: Path, p: CliPath): Path {
    if p.absolute then p.parts else base + p.parts
  }

  /** A relative path joined onto a base lies under that base, and the base can be stripped again. */
  lemma {:induction false} JoinRelative(base: Path, p: CliPath)
    requires !p.absolute
    ensures StartsWith(Join(base, p), base)
    ensures Join(base, p)[|base|..] == p.parts
  {
  }

  // ---------------------------------------------------------------------------
  // The working tree

  /** What a path of the working tree is. */
  datatype Entry = File | Directory

  /** The filesystem as seen by the engine: every existing absolute path and what it is. */
  type WorkTree = map<Path, Entry>

  predicate Exists(fs: WorkTree, p: Path) {
    p in fs
  }

  predicate IsDir(fs: WorkTree, p: Path) {
    p in fs && fs[p] == Directory
  }

  /** `Path::display` of an absolute path, used in error messages. */
  function Render(p: Path): string {
    if p == [] then "/" else RenderFrom(p)
  }

  function RenderFrom(p: Path): string {
    if p == [] then "" else "/" + p[0] + RenderFrom(p[1..])
  }

  // ---------------------------------------------------------------------------
  // Conversions between the path kinds

  /**
   * `TryFrom<CliPath> for AbsolutePath`: the CLI path joined onto the current
   * directory, refused with a user error when nothing exists there.
   */
  function AbsoluteFromCli(cwd: Path, cli: CliPath, fs: WorkTree): (r: Result<Path>)
    ensures r.Ok? <==> Exists(fs, Join(cwd, cli))
    ensures r.Ok? ==> r.value == Join(cwd, cli)
    ensures r.Err? ==> r.error.User?
  {
    var joined := Join(cwd, cli);
    if !Exists(fs, joined) then Err(User("Path is not inside root: " + Render(joined)))
    else Ok(joined)
  }

  /**
   * `RootRelativePath::new`: strips the root prefix. The source unwraps the
   * result of `strip_prefix`, so the path must lie under the root.
   */
  function RootRelative(p: Path, root: Path): (r: Path)
    requires StartsWith(p, root)
    ensures |r| == |p| - |root|
    ensures root + r == p
  {
    p[|root|..]
  }
}
