/**
 * Commit records (src/project/commit.rs, src/project/tracked_file.rs): data
 * only. A commit's tree maps root-relative paths to tracked files; a branch
 * log holds lightweight references to commits.
 */
module Commits {
  import opened Errors
  import opened Paths

  datatype CommitMetadata = CommitMetadata(name: string)

  /** A reference to a stored commit, as kept in a branch log. */
  datatype CommitRef = CommitRef(commitId: string, metadata: CommitMetadata)

  /** A versioned file inside a commit tree. */
  datatype TrackedFile = TrackedFile(blobId: string)

  /** A commit's snapshot: root-relative path to tracked file. */
  type Tree = map<Path, TrackedFile>

  /** What the commit-side change oracle (`Commit::has_file_changed`) reports for a file. */
  datatype FileStatus = Added | Modified | Unchanged

  /**
   * `Commit::from_commit_ref_option`: no reference means no commit; otherwise
   * the commit is loaded through `loadCommit`, which stands for reading the
   * commit record and may fail.
   */
  function CommitOfTip(tip: Option<CommitRef>, loadCommit: CommitRef -> Result<Tree>): (r: Result<Option<Tree>>)
    ensures tip.None? ==> r == Ok(None)
    ensures tip.Some? ==> (r.Ok? <==> loadCommit(tip.value).Ok?)
    ensures tip.Some? && r.Ok? ==> r.value == Some(loadCommit(tip.value).value)
    ensures tip.Some? && r.Err? ==> r.error == loadCommit(tip.value).error
  {
    match tip
    case None => Ok(None)
    case Some(ref) =>
      match loadCommit(ref)
      case Ok(tree) => Ok(Some(tree))
      case Err(e) => Err(e)
  }
}
