/**
 * The staging area (src/project/staging_area.rs): the persisted map from
 * root-relative path to the kind of change waiting to be committed.
 */
module Staging {
  import opened Errors
  import opened Paths
  import opened RootPaths

  datatype ChangeType = Added | Modified | Removed

  /** `ChangeType::display`: the one-character symbol printed before a path. */
  function Symbol(c: ChangeType): (s: string)
    ensures |s| == 1
  {
    match c
    case Added => "+"
    case Modified => "M"
    case Removed => "-"
  }

  /** The three kinds print differently. */
  lemma {:induction false} SymbolInjective(a: ChangeType, b: ChangeType)
    ensures Symbol(a) == Symbol(b) ==> a == b
  {
  }

  /** `StagingArea::build_absolute_path`: `.gust/staging_area.json` under the root. */
  function StorePath(root: Path): (p: Path)
    ensures p == root + [".gust", "staging_area.json"]
  {
    assert ".gust/staging_area.json" == Unsplit([".gust", "staging_area.json"]);
    JoinStrNames(root, [".gust", "staging_area.json"]);
    JoinStr(root, ".gust/staging_area.json")
  }

  /**
   * The pruning `StagingArea::from_stored` applies on load: a staged removal
   * is always kept, a staged addition or modification only while its file
   * still exists under the root.
   */
  function Prune(stored: map<Path, ChangeType>, root: Path, fs: WorkTree): map<Path, ChangeType> {
    map p | p in stored && (stored[p] == Removed || Exists(fs, JoinPath(root, p))) :: stored[p]
  }

  /** Exactly the entries named above survive, with their kind unchanged. */
  lemma {:induction false} PruneKeeps(stored: map<Path, ChangeType>, root: Path, fs: WorkTree, p: Path)
    ensures p in Prune(stored, root, fs) <==>
      p in stored && (stored[p] == Removed || Exists(fs, root + p))
    ensures p in Prune(stored, root, fs) ==> Prune(stored, root, fs)[p] == stored[p]
  {
  }

  /** Pruning only removes entries: the result is a sub-map of what was stored. */
  lemma {:induction false} PruneShrinks(stored: map<Path, ChangeType>, root: Path, fs: WorkTree)
    ensures Prune(stored, root, fs).Keys <= stored.Keys
    ensures forall p :: p in Prune(stored, root, fs) ==> Prune(stored, root, fs)[p] == stored[p]
  {
  }

  /** Loading an already pruned staging area prunes nothing more. */
  lemma {:induction false} PruneIdempotent(stored: map<Path, ChangeType>, root: Path, fs: WorkTree)
    ensures Prune(Prune(stored, root, fs), root, fs) == Prune(stored, root, fs)
  {
    var once := Prune(stored, root, fs);
    var twice := Prune(once, root, fs);
    forall p ensures p in twice <==> p in once {
      PruneKeeps(stored, root, fs, p);
      PruneKeeps(once, root, fs, p);
    }
    assert twice.Keys == once.Keys;
  }

  class StagingArea {
    /** The staged changes held in memory. */
    var files: map<Path, ChangeType>
    /** The contents of `.gust/staging_area.json`. */
    var saved: map<Path, ChangeType>
    /** Whether writing `.gust/staging_area.json` fails (the environment's I/O outcome). */
    const saveFails: bool

    /** `StagingArea::from_stored`: the stored map, pruned; the file itself is not rewritten. */
    constructor FromStored(stored: map<Path, ChangeType>, root: Path, fs: WorkTree, saveFails: bool)
      ensures files == Prune(stored, root, fs) && saved == stored
      ensures this.saveFails == saveFails
    {
      files := Prune(stored, root, fs);
      saved := stored;
      this.saveFails := saveFails;
    }

    /** `ProjectStorable::save`: writes the in-memory map to the file. */
    method Save() returns (r: Result<()>)
      modifies this
      ensures files == old(files)
      ensures r.Ok? <==> !saveFails
      ensures saved == if saveFails then old(saved) else files
    {
      if saveFails {
        return Err(Io("cannot write staging_area.json"));
      }
      saved := files;
      return Ok(());
    }

    /** `StagingArea::insert`: stages `path` with `change`, replacing any earlier kind, then saves. */
    method Insert(path: Path, change: ChangeType) returns (r: Result<()>)
      modifies this
      ensures files == old(files)[path := change]
      ensures Contains(path) && files[path] == change
      ensures forall p :: p != path ==> (p in files <==> p in old(files))
      ensures forall p :: p != path && p in files ==> files[p] == old(files)[p]
      ensures r.Ok? <==> !saveFails
      ensures saved == if saveFails then old(saved) else files
    {
      files := files[path := change];
      r := Save();
    }

    /**
     * `StagingArea::remove`: unstages `path`, then saves. Unstaging a path
     * that is not staged is not an error.
     */
    method Remove(path: Path) returns (r: Result<()>)
      modifies this
      ensures files == old(files) - {path}
      ensures !Contains(path)
      ensures path !in old(files) ==> files == old(files)
      ensures r.Ok? <==> !saveFails
      ensures saved == if saveFails then old(saved) else files
    {
      files := files - {path};
      r := Save();
    }

    /** `StagingArea::clear`: empties the staging area, then saves. */
    method Clear() returns (r: Result<()>)
      modifies this
      ensures files == map[] && IsEmpty()
      ensures r.Ok? <==> !saveFails
      ensures saved == if saveFails then old(saved) else map[]
    {
      files := map[];
      r := Save();
    }

    /** `StagingArea::is_empty`. */
    function IsEmpty(): (b: bool)
      reads this
      ensures b <==> forall p :: p !in files
    {
      assert |files| == 0 <==> files == map[] by {
        if files != map[] {
          var p :| p in files;
          assert p in files.Keys;
          assert |files.Keys| > 0;
        }
      }
      |files| == 0
    }

    /** `StagingArea::contains`: whether `path` is staged. */
    function Contains(path: Path): (b: bool)
      reads this
      ensures b <==> path in GetFiles()
    {
      path in files
    }

    /** `StagingArea::get_files`: a copy of the staged map. */
    function GetFiles(): (r: map<Path, ChangeType>)
      reads this
      ensures r == files
    {
      files
    }
  }
}
