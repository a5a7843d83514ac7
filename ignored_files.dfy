/**
 * The ignore list (src/project/root/ignored_files.rs): the rules parsed from
 * `.gustignore`, and the first-match test that decides whether a path is
 * ignored.
 */
module Ignore {
  import opened Errors
  import opened Paths
  import opened RootPaths

  /**
   * A rule of the ignore file: `Fixed` names one absolute path (a line
   * starting with `/`, relative to the root); `Prefixed` holds a pattern that
   * a path matches when it ends with it.
   */
  datatype IgnoredFile = Fixed(path: Path) | Prefixed(pattern: Path)

  /**
   * The rule one line of `.gustignore` yields, if any. `joinFails` stands for
   * the failure of `RootPath::unsafe_join`, whose body is not part of this
   * model; when it succeeds its result is taken to be the root joined with
   * the rest of the line.
   */
  function LineRule(root: Path, line: string, joinFails: string -> bool): (rule: Option<IgnoredFile>)
    ensures |line| > 0 && line[0] == '#' ==> rule.None?
    ensures |line| > 0 && line[0] == '/' ==>
      (rule.Some? <==> !joinFails(line[1..])) && (rule.Some? ==> rule.value == Fixed(JoinStr(root, line[1..])))
    ensures (|line| == 0 || (line[0] != '#' && line[0] != '/')) ==> rule == Some(Prefixed(Components(line)))
  {
    if |line| > 0 && line[0] == '#' then None
    else if |line| > 0 && line[0] == '/' then
      if joinFails(line[1..]) then None else Some(Fixed(JoinStr(root, line[1..])))
    else Some(Prefixed(Components(line)))
  }

  /** The rules of a sequence of lines, in the order of the lines. */
  function ParseIgnoreLines(root: Path, lines: seq<string>, joinFails: string -> bool): (rules: seq<IgnoredFile>)
    ensures |rules| <= |lines|
  {
    if lines == [] then []
    else
      var last := LineRule(root, lines[|lines| - 1], joinFails);
      ParseIgnoreLines(root, lines[..|lines| - 1], joinFails) + (if last.Some? then [last.value] else [])
  }

  /** Parsing keeps file order: the rules of two blocks of lines are the rules of each, one after the other. */
  lemma {:induction false} ParseAppend(root: Path, a: seq<string>, b: seq<string>, joinFails: string -> bool)
    ensures ParseIgnoreLines(root, a + b, joinFails)
      == ParseIgnoreLines(root, a, joinFails) + ParseIgnoreLines(root, b, joinFails)
  {
    if b != [] {
      var n := |b| - 1;
      assert (a + b)[..|a + b| - 1] == a + b[..n];
      assert (a + b)[|a + b| - 1] == b[n];
      ParseAppend(root, a, b[..n], joinFails);
    } else {
      assert a + b == a;
    }
  }

  /** A file made of comment lines yields no rule. */
  lemma {:induction false} CommentsOnly(root: Path, lines: seq<string>, joinFails: string -> bool)
    requires forall i :: 0 <= i < |lines| ==> |lines[i]| > 0 && lines[i][0] == '#'
    ensures ParseIgnoreLines(root, lines, joinFails) == []
  {
    if lines != [] {
      CommentsOnly(root, lines[..|lines| - 1], joinFails);
    }
  }

  /** A line `/n1/…/nk` of proper names yields the Fixed rule for that path under the root. */
  lemma {:induction false} FixedRuleUnderRoot(root: Path, names: seq<string>, joinFails: string -> bool)
    requires |names| >= 1
    requires forall i :: 0 <= i < |names| ==> names[i] != "" && names[i] != "." && '/' !in names[i]
    requires !joinFails(Unsplit(names))
    ensures LineRule(root, "/" + Unsplit(names), joinFails) == Some(Fixed(root + names))
  {
    assert ("/" + Unsplit(names))[1..] == Unsplit(names);
    JoinStrNames(root, names);
  }

  /**
   * `Root::read_ignored`: no rules when `.gustignore` does not exist (`None`),
   * the read error when it cannot be read, and otherwise the rules of its
   * lines.
   */
  method ReadIgnored(root: Path, ignoreFile: Option<Result<seq<string>>>, joinFails: string -> bool)
    returns (r: Result<seq<IgnoredFile>>)
    ensures ignoreFile.None? ==> r == Ok([])
    ensures ignoreFile.Some? && ignoreFile.value.Err? ==> r == Err(ignoreFile.value.error)
    ensures ignoreFile.Some? && ignoreFile.value.Ok? ==>
      r == Ok(ParseIgnoreLines(root, ignoreFile.value.value, joinFails))
  {
    if ignoreFile.None? {
      return Ok([]);
    }
    if ignoreFile.value.Err? {
      return Err(ignoreFile.value.error);
    }
    var lines := ignoreFile.value.value;
    var parsed: seq<IgnoredFile> := [];
    var i := 0;
    while i < |lines|
      invariant 0 <= i <= |lines|
      invariant parsed == ParseIgnoreLines(root, lines[..i], joinFails)
    {
      var line := lines[i];
      assert lines[..i + 1][..i] == lines[..i];
      if |line| > 0 && line[0] == '#' {
        i := i + 1;
        continue;
      }
      if |line| > 0 && line[0] == '/' {
        if !joinFails(line[1..]) {
          parsed := parsed + [Fixed(JoinStr(root, line[1..]))];
        }
      } else {
        parsed := parsed + [Prefixed(Components(line))];
      }
      i := i + 1;
    }
    assert lines[..i] == lines;
    return Ok(parsed);
  }

  // ---------------------------------------------------------------------------
  // Classifying a path

  /** The rule ignores the path. */
  predicate Matches(rule: IgnoredFile, path: Path) {
    match rule
    case Fixed(p) => path == p
    case Prefixed(pattern) => EndsWith(path, pattern)
  }

  /** The path lies strictly inside an ignored directory: an error. */
  predicate Errs(rule: IgnoredFile, path: Path) {
    rule.Fixed? && path != rule.path && StartsWith(path, rule.path)
  }

  /** The rule does not decide: the next one is consulted. */
  predicate Passes(rule: IgnoredFile, path: Path) {
    !Matches(rule, path) && !Errs(rule, path)
  }

  /**
   * `Root::is_path_ignored`: the first rule in list order that matches or
   * errors decides; a path no rule decides is not ignored.
   */
  function IsPathIgnored(rules: seq<IgnoredFile>, path: Path): (r: Result<bool>)
    ensures r == Ok(false) <==> forall i :: 0 <= i < |rules| ==> Passes(rules[i], path)
    ensures r == Ok(true) ==>
      (exists i :: 0 <= i < |rules| && Matches(rules[i], path) && (forall j :: 0 <= j < i ==> Passes(rules[j], path)))
    ensures r.Err? ==> r.error.User?
    ensures r.Err? ==>
      (exists i :: 0 <= i < |rules| && Errs(rules[i], path) && (forall j :: 0 <= j < i ==> Passes(rules[j], path)))
  {
    if rules == [] then Ok(false)
    else if Matches(rules[0], path) then Ok(true)
    else if Errs(rules[0], path) then
      Err(User("Path " + Render(path) + " is inside a directory that is ignored"))
    else
      var rest := IsPathIgnored(rules[1..], path);
      assert forall i :: 1 <= i < |rules| ==> rules[i] == rules[1..][i - 1];
      rest
  }

  /** Consulting two lists of rules: the second is reached only when the first decides nothing. */
  lemma {:induction false} IgnoredAppend(a: seq<IgnoredFile>, b: seq<IgnoredFile>, path: Path)
    ensures IsPathIgnored(a + b, path) ==
      if IsPathIgnored(a, path) == Ok(false) then IsPathIgnored(b, path) else IsPathIgnored(a, path)
  {
    if a == [] {
      assert a + b == b;
    } else {
      assert (a + b)[0] == a[0];
      assert (a + b)[1..] == a[1..] + b;
      IgnoredAppend(a[1..], b, path);
    }
  }

  /**
   * A blank line is a `Prefixed` rule with an empty pattern, which every path
   * ends with: a `.gustignore` starting with a blank line ignores everything.
   */
  lemma {:induction false} BlankLineIgnoresEverything(root: Path, lines: seq<string>, joinFails: string -> bool, path: Path)
    ensures LineRule(root, "", joinFails) == Some(Prefixed([]))
    ensures IsPathIgnored(ParseIgnoreLines(root, [""] + lines, joinFails), path) == Ok(true)
  {
    ParseAppend(root, [""], lines, joinFails);
    assert Segments("") == [""];
    assert Components("") == [];
    assert [""][..0] == [];
    assert ParseIgnoreLines(root, [""], joinFails) == [Prefixed([])];
    IgnoredAppend([Prefixed([])], ParseIgnoreLines(root, lines, joinFails), path);
  }
}
