/**
 * Branches (src/project/branch.rs): a branch is an append-only log of commit
 * references, stored as `.gust/branches/<name>.json`. The directory of
 * stored logs is modelled by `BranchDir`.
 */
module Branches {
  import opened Errors
  import opened Paths
  import opened RootPaths
  import opened Commits

  /** `Branch::build_absolute_path`: the file a branch named `name` is stored in. */
  function StorePath(root: Path, name: string): Path {
    JoinStr(root, ".gust/branches/" + name + ".json")
  }

  /** A branch whose name holds no separator is stored directly inside `.gust/branches`. */
  lemma {:induction false} StorePathShape(root: Path, name: string)
    requires '/' !in name
    ensures StorePath(root, name) == root + [".gust", "branches", name + ".json"]
  {
    var names := [".gust", "branches", name + ".json"];
    assert '/' !in name + ".json";
    assert Unsplit(names[2..]) == name + ".json";
    assert Unsplit(names[1..]) == "branches/" + name + ".json";
    assert ".gust/branches/" + name + ".json" == Unsplit(names);
    JoinStrNames(root, names);
  }

  /** Distinct branch names (without separators) are stored in distinct files. */
  lemma {:induction false} StorePathInjective(root: Path, a: string, b: string)
    requires '/' !in a && '/' !in b
    ensures StorePath(root, a) == StorePath(root, b) <==> a == b
  {
    StorePathShape(root, a);
    StorePathShape(root, b);
    if StorePath(root, a) == StorePath(root, b) {
      assert (root + [".gust", "branches", a + ".json"])[|root| + 2] == a + ".json";
      assert a + ".json" == b + ".json";
      assert a == (a + ".json")[..|a|];
      assert b == (b + ".json")[..|b|];
    }
  }

  /** The contents of `.gust/branches`: the stored log of every branch, by name. */
  class BranchDir {
    var logs: map<string, seq<CommitRef>>
    /** Branches whose file cannot be read or parsed. */
    const unreadable: set<string>
    /** Branches whose file cannot be written. */
    const unwritable: set<string>
    /** Whether listing the directory, or reading one of its entries, fails. */
    const listFails: bool

    constructor (logs: map<string, seq<CommitRef>>, unreadable: set<string>, unwritable: set<string>, listFails: bool)
      ensures this.logs == logs && this.unreadable == unreadable && this.unwritable == unwritable
      ensures this.listFails == listFails
    {
      this.logs := logs;
      this.unreadable := unreadable;
      this.unwritable := unwritable;
      this.listFails := listFails;
    }
  }

  /** The log shown by `Branch::display`: the newest commit first. */
  function NewestFirst(commits: seq<CommitRef>): (r: seq<CommitRef>)
    ensures |r| == |commits|
    ensures forall i :: 0 <= i < |r| ==> r[i] == commits[|commits| - 1 - i]
  {
    if commits == [] then [] else NewestFirst(commits[1..]) + [commits[0]]
  }

  /** One line per reference, in the given order, each rendered by `show` (`CommitRef::display`). */
  function LogText(refs: seq<CommitRef>, show: CommitRef -> string): string {
    if refs == [] then "" else show(refs[0]) + "\n" + LogText(refs[1..], show)
  }

  /** Appending a reference appends its line. */
  lemma {:induction false} LogTextSnoc(refs: seq<CommitRef>, c: CommitRef, show: CommitRef -> string)
    ensures LogText(refs + [c], show) == LogText(refs, show) + show(c) + "\n"
  {
    if refs != [] {
      assert (refs + [c])[1..] == refs[1..] + [c];
      LogTextSnoc(refs[1..], c, show);
    }
  }

  /** After `insert`, the display shows the new reference on top of the old display. */
  lemma {:induction false} DisplayAfterInsert(commits: seq<CommitRef>, c: CommitRef, show: CommitRef -> string)
    ensures LogText(NewestFirst(commits + [c]), show) == show(c) + "\n" + LogText(NewestFirst(commits), show)
  {
    var after := NewestFirst(commits + [c]);
    assert after[0] == c;
    assert after[1..] == NewestFirst(commits);
  }

  /** With single-line renderings, the display has exactly one line per reference. */
  lemma {:induction false} LogTextLineCount(refs: seq<CommitRef>, show: CommitRef -> string)
    requires forall i :: 0 <= i < |refs| ==> '\n' !in show(refs[i])
    ensures multiset(LogText(refs, show))['\n'] == |refs|
  {
    if refs != [] {
      LogTextLineCount(refs[1..], show);
      assert multiset(show(refs[0]))['\n'] == 0;
    }
  }

  class Branch {
    const name: string
    /** The root of the project the branch belongs to. */
    const root: Path
    var commits: seq<CommitRef>
    /** Where the branch is saved. */
    const dir: BranchDir

    /** `Branch::from_stored`: a branch holding exactly the stored log. */
    constructor FromStored(stored: seq<CommitRef>, root: Path, name: string, dir: BranchDir)
      ensures IntoStored() == stored
      ensures this.name == name && this.root == root && this.dir == dir
    {
      this.name := name;
      this.root := root;
      commits := stored;
      this.dir := dir;
    }

    /** `Branch::new_from_commit_ref`: a fresh log holding just `c`. */
    constructor NewFromCommitRef(c: CommitRef, root: Path, name: string, dir: BranchDir)
      ensures commits == [c] && LastCommitRef() == Some(c)
      ensures this.name == name && this.root == root && this.dir == dir
    {
      this.name := name;
      this.root := root;
      commits := [c];
      this.dir := dir;
    }

    /** `ContainsStorePath::get_absolute_path`. */
    function AbsolutePath(): (p: Path)
      ensures '/' !in name ==> p == root + [".gust", "branches", name + ".json"]
    {
      if '/' !in name then StorePathShape(root, name); StorePath(root, name)
      else StorePath(root, name)
    }

    /** `Branch::into_stored`: the log that is written to the branch file. */
    function IntoStored(): (s: seq<CommitRef>)
      reads this
      ensures |s| == |commits| && forall i :: 0 <= i < |s| ==> s[i] == commits[i]
    {
      commits
    }

    /** `Branch::get_last_commit_ref`: the tip of the branch, if it has one. */
    function LastCommitRef(): (r: Option<CommitRef>)
      reads this
      ensures r.None? <==> commits == []
      ensures r.Some? ==> r.value == commits[|commits| - 1]
    {
      if commits == [] then None else Some(commits[|commits| - 1])
    }

    /** `ProjectStorable::save`: the log is written under the branch name unless writing fails. */
    method Save() returns (r: Result<()>)
      modifies dir
      ensures r.Ok? <==> name !in dir.unwritable
      ensures dir.logs == if r.Ok? then old(dir.logs)[name := commits] else old(dir.logs)
    {
      if name in dir.unwritable {
        return Err(Io("cannot write " + Render(AbsolutePath())));
      }
      dir.logs := dir.logs[name := commits];
      return Ok(());
    }

    /** `Branch::insert`: appends `c`, which becomes the tip, then saves. */
    method Insert(c: CommitRef) returns (r: Result<()>)
      modifies this, dir
      ensures commits == old(commits) + [c]
      ensures |commits| == |old(commits)| + 1 && commits[..|old(commits)|] == old(commits)
      ensures LastCommitRef() == Some(c)
      ensures r.Ok? <==> name !in dir.unwritable
      ensures dir.logs == if r.Ok? then old(dir.logs)[name := commits] else old(dir.logs)
    {
      commits := commits + [c];
      r := Save();
    }

    /** `Branch::display`: each reference on its own line, the newest first. */
    method Display(show: CommitRef -> string) returns (s: string)
      ensures s == LogText(NewestFirst(commits), show)
    {
      s := "";
      var i := |commits|;
      while i > 0
        invariant 0 <= i <= |commits|
        invariant s == LogText(NewestFirst(commits[i..]), show)
      {
        i := i - 1;
        assert commits[i..][1..] == commits[i + 1..];
        LogTextSnoc(NewestFirst(commits[i + 1..]), commits[i], show);
        s := s + show(commits[i]) + "\n";
      }
      assert commits[0..] == commits;
    }
  }

  /**
   * `Branch::load`: the stored log of `name`; a branch that was never saved,
   * or whose file cannot be read, is an error.
   */
  method Load(dir: BranchDir, root: Path, name: string) returns (r: Result<Branch>)
    ensures r.Ok? <==> name in dir.logs && name !in dir.unreadable
    ensures r.Ok? ==> fresh(r.value) && r.value.name == name && r.value.root == root
    ensures r.Ok? ==> r.value.dir == dir && r.value.commits == dir.logs[name]
  {
    if name in dir.unreadable {
      return Err(Io("cannot read " + Render(StorePath(root, name))));
    }
    if name !in dir.logs {
      return Err(ProjectParsing("Branch " + name + " does not exist"));
    }
    var b := new Branch.FromStored(dir.logs[name], root, name, dir);
    return Ok(b);
  }

  /**
   * `Branch::create`: like `Load`, except that a branch that was never saved
   * starts with an empty log.
   */
  method Create(dir: BranchDir, root: Path, name: string) returns (r: Result<Branch>)
    ensures r.Ok? <==> name !in dir.unreadable
    ensures r.Ok? ==> fresh(r.value) && r.value.name == name && r.value.root == root
    ensures r.Ok? ==> r.value.dir == dir
    ensures r.Ok? ==> r.value.commits == if name in dir.logs then dir.logs[name] else []
  {
    if name in dir.unreadable {
      return Err(Io("cannot read " + Render(StorePath(root, name))));
    }
    var b := new Branch.FromStored(if name in dir.logs then dir.logs[name] else [], root, name, dir);
    return Ok(b);
  }
}
