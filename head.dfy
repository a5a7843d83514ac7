/**
 * The head (src/project/head.rs): which branch new commits go to. Only the
 * attached form is implemented by the engine; every operation that would
 * act on a detached head is `unimplemented!`, so those operations require
 * an attached head here.
 */
module Heads {
  import opened Errors
  import opened Paths
  import opened RootPaths
  import opened Commits
  import opened Branches

  /** The form of the head written to `.gust/HEAD.json`. */
  datatype StoredHead = Attached(name: string) | Detached

  /** `StoredHead::default`: a project starts on `main`. */
  const DefaultStoredHead: StoredHead := StoredHead.Attached("main")

  /** `Head::build_absolute_path`: `.gust/HEAD.json` under the root. */
  function HeadStorePath(root: Path): (p: Path)
    ensures p == root + [".gust", "HEAD.json"]
  {
    assert ".gust/HEAD.json" == Unsplit([".gust", "HEAD.json"]);
    JoinStrNames(root, [".gust", "HEAD.json"]);
    JoinStr(root, ".gust/HEAD.json")
  }

  /** The file `.gust/HEAD.json`: `None` while it does not exist. */
  class HeadFile {
    var stored: Option<StoredHead>
    /** Whether the file exists but cannot be read or parsed. */
    const unreadable: bool
    /** Whether the file cannot be written. */
    const unwritable: bool

    constructor (stored: Option<StoredHead>, unreadable: bool, unwritable: bool)
      ensures this.stored == stored && this.unreadable == unreadable && this.unwritable == unwritable
    {
      this.stored := stored;
      this.unreadable := unreadable;
      this.unwritable := unwritable;
    }
  }

  datatype Head = Attached(branch: Branch) | Detached

  /** `Head::get_tree`: the tip of the attached branch. */
  function GetTree(h: Head): (r: Option<CommitRef>)
    requires h.Attached?
    reads h.branch
    ensures r.None? <==> h.branch.commits == []
    ensures r.Some? ==> r.value == h.branch.commits[|h.branch.commits| - 1]
  {
    h.branch.LastCommitRef()
  }

  /** `Head::insert_commit`: appends to the attached branch, so `c` becomes the tip. */
  method InsertCommit(h: Head, c: CommitRef) returns (r: Result<()>)
    requires h.Attached?
    modifies h.branch, h.branch.dir
    ensures h.branch.commits == old(h.branch.commits) + [c]
    ensures GetTree(h) == Some(c)
    ensures r.Ok? <==> h.branch.name !in h.branch.dir.unwritable
    ensures h.branch.dir.logs ==
      if r.Ok? then old(h.branch.dir.logs)[h.branch.name := h.branch.commits] else old(h.branch.dir.logs)
  {
    r := h.branch.Insert(c);
  }

  /** `Head::display`: a title naming the branch, then its log newest first. */
  method Display(h: Head, show: CommitRef -> string) returns (s: string)
    ensures h.Detached? ==> s == "Detached"
    ensures h.Attached? ==>
      s == "Commit history of " + h.branch.name + " branch:\n" + LogText(NewestFirst(h.branch.commits), show)
  {
    match h
    case Detached =>
      s := "Detached";
    case Attached(branch) =>
      var log := branch.Display(show);
      s := "Commit history of " + branch.name + " branch:\n" + log;
  }

  /** `Head::into_stored`: an attached head is stored as the name of its branch. */
  function IntoStored(h: Head): (s: StoredHead)
    ensures s.Attached? <==> h.Attached?
    ensures h.Attached? ==> s.name == h.branch.name
  {
    match h
    case Attached(branch) => StoredHead.Attached(branch.name)
    case Detached => StoredHead.Detached
  }

  /**
   * `Head::from_stored`: attaches the branch the stored head names, loading
   * its log (`Branch::create`); storing the result gives the stored head back.
   */
  method FromStored(stored: StoredHead, root: Path, dir: BranchDir) returns (r: Result<Head>)
    requires stored.Attached?
    ensures r.Ok? <==> stored.name !in dir.unreadable
    ensures r.Ok? ==> r.value.Attached? && IntoStored(r.value) == stored
    ensures r.Ok? ==> fresh(r.value.branch) && r.value.branch.dir == dir && r.value.branch.root == root
    ensures r.Ok? ==> r.value.branch.commits == if stored.name in dir.logs then dir.logs[stored.name] else []
  {
    var b := Create(dir, root, stored.name);
    if b.Err? {
      return Err(b.error);
    }
    return Ok(Head.Attached(b.value));
  }

  /** `Head::default`: attached to branch `main`, which is what the default stored head names. */
  method HeadDefault(root: Path, dir: BranchDir) returns (r: Result<Head>)
    ensures r.Ok? <==> "main" !in dir.unreadable
    ensures r.Ok? ==> r.value.Attached? && IntoStored(r.value) == DefaultStoredHead
    ensures r.Ok? ==> fresh(r.value.branch) && r.value.branch.dir == dir && r.value.branch.root == root
    ensures r.Ok? ==> r.value.branch.commits == if "main" in dir.logs then dir.logs["main"] else []
  {
    r := FromStored(DefaultStoredHead, root, dir);
  }

  /**
   * `ProjectStorable::new_from_absolute` for the head: the stored head, or
   * the default one when `.gust/HEAD.json` does not exist, attached.
   */
  method Load(file: HeadFile, root: Path, dir: BranchDir) returns (r: Result<Head>)
    requires file.stored != Some(StoredHead.Detached)
    ensures r.Ok? <==> !file.unreadable && file.stored.GetOr(DefaultStoredHead).name !in dir.unreadable
    ensures r.Ok? ==> r.value.Attached? && IntoStored(r.value) == file.stored.GetOr(DefaultStoredHead)
    ensures r.Ok? ==> fresh(r.value.branch) && r.value.branch.dir == dir && r.value.branch.root == root
    ensures r.Ok? ==>
      r.value.branch.commits == (if file.stored.GetOr(DefaultStoredHead).name in dir.logs then dir.logs[file.stored.GetOr(DefaultStoredHead).name] else [])
  {
    if file.unreadable {
      return Err(Json("cannot parse " + Render(HeadStorePath(root))));
    }
    r := FromStored(file.stored.GetOr(DefaultStoredHead), root, dir);
  }

  /** `save_to_path`: writes the stored form of `h` to `.gust/HEAD.json` unless writing fails. */
  method SaveTo(h: Head, file: HeadFile) returns (r: Result<()>)
    modifies file
    ensures r.Ok? <==> !file.unwritable
    ensures file.stored == if r.Ok? then Some(IntoStored(h)) else old(file.stored)
  {
    if file.unwritable {
      return Err(Io("cannot write HEAD.json"));
    }
    file.stored := Some(IntoStored(h));
    return Ok(());
  }
}
