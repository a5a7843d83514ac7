# Gust engine core, modelled in Dafny

Gust is a small local version-control engine. A project is a directory
holding a `.gust` metadata directory. The engine facade `Root` holds four things:

- the project root;
- the `Head`, attached to a branch, where a branch is an append-only log of commit references;
- the `StagingArea`, a map from root-relative path to the kind of change (`Added`, `Modified`, `Removed`);
- the list of ignore rules read from `.gustignore`.

The commands are:

- `add` stages the detected changes that the command-line paths cover.
- `remove` unstages the files the command-line paths resolve to.
- `status` lists the staged changes, then the unstaged ones.
- `commit` appends one reference to the head's branch and clears the staging area.
- `info` shows the log.
- `branch` creates a branch seeded with the head's tip, or lists the branches.
- `checkout` persists a new head and then switches to it.

The model is split into one module per source file:

| module | file | models |
|---|---|---|
| `Errors` | `errors.dfy` | `GustError`, and `Option`/`Result` with early return |
| `Paths` | `paths.dfy` | Paths as sequences of components, the working tree as a map from path to file or directory, `CliPath` → `AbsolutePath` → `RootRelativePath` |
| `RootPaths` | `root.dfy` | `find_project_root`, `parse_head` (Unicode `trim`), `RootPath::{join, join_path, is_inside_root}` |
| `Commits` | `commit.dfy` | Commit records (data only) and loading the tip's commit |
| `Staging` | `staging_area.dfy` | The `StagingArea` class, load-time pruning, `ChangeType::display` |
| `Branches` | `branch.dfy` | The `Branch` class, the directory of stored branch logs, newest-first display |
| `Heads` | `head.dfy` | `Head`/`StoredHead`, the `.gust/HEAD.json` file |
| `Ignore` | `ignored_files.dfy` | `.gustignore` parsing and first-match classification |
| `PathProcessing` | `path_processing.dfy` | `scan_folder`, `get_changed_files`, the resolution step of `process_path_list` |
| `Project` | `project.dfy` | The `Root` class and its commands, and opening a project |

Records that the engine updates in place are classes: `StagingArea`, `Branch`, `Root`.
Stored files are classes too:

- `BranchDir` holds the logs under `.gust/branches`.
- `HeadFile` holds `.gust/HEAD.json`.
- `StagingArea.saved` holds `.gust/staging_area.json`.

Their read and write failures are fields set by the environment. Code whose body is not shown is passed in as a parameter:

- `loadCommit`: loading the head's commit;
- `hasFileChanged`: `Commit::has_file_changed`;
- `show`: `CommitRef::display`;
- `joinFails`: `RootPath::unsafe_join`;
- `made`: the outcome of `CommitRef::new`.

## Model

| member | source | states |
|---|---|---|
| Paths.AbsoluteFromCli | src/project/paths.rs:18-29 | Succeeds exactly when the current directory joined with the CLI path exists, and then gives that path; otherwise it is a User error |
| Paths.RootRelative | src/project/paths.rs:33-40 | For a path under the root, the result is what follows the root: root ++ result is the path, and its length is the difference |
| Paths.JoinRelative | src/project/paths.rs:22 | A relative CLI path joined onto a base lies under the base, and stripping the base gives its components back |
| RootPaths.FindProjectRoot | src/project/root.rs:55-71 | On success the root is a component prefix of cwd holding `.gust`, and no deeper prefix of cwd holds one (the nearest wins); otherwise it is `User("No project found")` and no prefix holds `.gust` |
| RootPaths.LeadingWhitespace | src/project/root.rs:75 | Counts the whitespace the text starts with: everything before the count is whitespace, and the character at the count is not |
| RootPaths.TrailingWhitespace | src/project/root.rs:75 | Counts the whitespace the text ends with: everything in the last count characters is whitespace, and the character before them is not |
| RootPaths.Trim | src/project/root.rs:75 | The trimmed text neither starts nor ends with whitespace |
| RootPaths.TrimIsInfix | src/project/root.rs:73-76 | The head name is the contiguous piece of the HEAD text that starts after its leading whitespace, and everything before and after it is whitespace |
| RootPaths.TrimIdempotent | src/project/root.rs:73-76 | Trimming twice equals trimming once |
| RootPaths.ParseHead | src/project/root.rs:73-76 | The parsed head name has no surrounding whitespace and is a fixed point of trimming |
| RootPaths.JoinPath | src/project/root.rs:82 | `join_path` of a root-relative path lies inside the root, and making it root-relative again gives the relative path back |
| RootPaths.JoinRootRelative | src/project/paths.rs:38-40 | Joining the root with the root-relative form of a path under the root gives the path back |
| RootPaths.IsInsideRootReflexive | src/project/root.rs:84-86 | The root is inside itself |
| RootPaths.JoinStrNames | src/project/root.rs:81 | `join` of a relative text made of proper names appends exactly those names and stays inside the root |
| Commits.CommitOfTip | src/project/root/path_processing.rs:33 | No tip means no commit. With a tip, it succeeds exactly when loading that commit succeeds; the value is then the loaded commit, and otherwise the loading error |
| Staging.Symbol | src/project/staging_area.rs:84-92 | Each kind of change displays as a single character |
| Staging.SymbolInjective | src/project/staging_area.rs:84-92 | The three kinds display differently (`+`, `M`, `-`) |
| Staging.StorePath | src/project/staging_area.rs:50-52 | The staging area is stored at root ++ [".gust", "staging_area.json"] |
| Staging.PruneKeeps | src/project/staging_area.rs:53-64 | After loading, an entry is kept exactly when it is a staged removal or its file exists under the root, and its kind is unchanged |
| Staging.PruneShrinks | src/project/staging_area.rs:55-64 | Load pruning only removes entries: the result is a sub-map of the stored map |
| Staging.PruneIdempotent | src/project/staging_area.rs:55-64 | Pruning twice equals pruning once |
| Staging.StagingArea.FromStored | src/project/staging_area.rs:53-66 | The loaded map is the pruned stored map; the file is not rewritten |
| Staging.StagingArea.Save | src/project/storable.rs:29-33 | Save succeeds exactly when writing succeeds, and the file then holds the in-memory map; otherwise the file is unchanged |
| Staging.StagingArea.Insert | src/project/staging_area.rs:23-26 | The path maps to the new kind, overwriting an earlier one; every other entry is unchanged; the result is the save's |
| Staging.StagingArea.Remove | src/project/staging_area.rs:27-32 | Only the path is deleted, and removing an unstaged path is a successful no-op on the map |
| Staging.StagingArea.Clear | src/project/staging_area.rs:40-44 | The map is empty and `is_empty` holds afterwards; the file holds the empty map when saving succeeds |
| Staging.StagingArea.IsEmpty | src/project/staging_area.rs:33 | Holds exactly when no path is staged |
| Staging.StagingArea.Contains | src/project/staging_area.rs:34-36 | Holds exactly when the path is a key of the staged map |
| Staging.StagingArea.GetFiles | src/project/staging_area.rs:37-39 | The result is the staged map itself, every key with its change type |
| Branches.StorePathShape | src/project/branch.rs:48-50 | A branch named n (without `/`) is stored at root ++ [".gust", "branches", n + ".json"] |
| Branches.StorePathInjective | src/project/branch.rs:48-50 | Two such branches share a store path exactly when their names are equal |
| Branches.NewestFirst | src/project/branch.rs:29 | The display order is the log reversed: element i is element n-1-i of the log |
| Branches.LogTextSnoc | src/project/branch.rs:28-33 | Adding a reference at the end of the rendered list adds its line at the end of the text |
| Branches.DisplayAfterInsert | src/project/branch.rs:22-34 | After `insert(c)`, the display is c's line followed by the previous display |
| Branches.LogTextLineCount | src/project/branch.rs:27-34 | When each reference renders on one line, the display has exactly one newline per reference |
| Branches.Branch.FromStored | src/project/branch.rs:51-53 | `from_stored` then `into_stored` gives back the stored log |
| Branches.Branch.NewFromCommitRef | src/project/branch.rs:35-42 | The new log is exactly [c], and its tip is c |
| Branches.Branch.IntoStored | src/project/branch.rs:54-56 | The stored form has the same references, in the same order, as the log |
| Branches.Branch.LastCommitRef | src/project/branch.rs:15-21 | None exactly when the log is empty, otherwise the last reference |
| Branches.Branch.AbsolutePath | src/project/branch.rs:59-63 | For a name without a separator, the branch file is `<root>/.gust/branches/<name>.json` |
| Branches.Branch.Save | src/project/storable.rs:29-33 | Succeeds exactly when the branch file is writable, and then stores the log under the branch name; no other log changes |
| Branches.Branch.Insert | src/project/branch.rs:22-26 | Appends: length grows by one, the earlier prefix is unchanged, the tip is the new reference; then saves |
| Branches.Branch.Display | src/project/branch.rs:27-34 | The text is one line per reference, newest first |
| Branches.Load | src/project/root/checkout.rs:29 | Loading succeeds exactly when the branch was saved and is readable, and gives a fresh branch holding its stored log |
| Branches.Create | src/project/head.rs:62 | Creation succeeds exactly when the branch file is readable, and gives the stored log, or an empty one if the branch was never saved |
| Heads.HeadStorePath | src/project/head.rs:57-59 | The head is stored at root ++ [".gust", "HEAD.json"] |
| Heads.GetTree | src/project/head.rs:26-31 | For an attached head, the tip of its branch: None exactly when the log is empty |
| Heads.InsertCommit | src/project/head.rs:33-38 | Appends to the attached branch, so the next `get_tree` returns the new reference |
| Heads.Display | src/project/head.rs:40-47 | "Detached", or the title naming the branch followed by its newest-first log |
| Heads.IntoStored | src/project/head.rs:66-71 | Attached(b) is stored as Attached(b.name), Detached as Detached |
| Heads.FromStored | src/project/head.rs:60-65 | Succeeds exactly when the named branch is readable; storing the result gives back the stored head; the branch carries its stored log |
| Heads.HeadDefault | src/project/head.rs:49-51 | The default head attaches `main`, which is what the default stored head names, with the stored log of `main` (empty if never saved); it fails exactly when that log cannot be read |
| Heads.Load | src/project/storable.rs:20-28 | A missing HEAD file yields the default head; an unreadable one is an error; otherwise the stored head is attached. The attached branch carries its stored log (empty if never saved) |
| Heads.SaveTo | src/project/root/checkout.rs:30 | Succeeds exactly when the file is writable, and then it holds the stored form of the head; otherwise it is unchanged |
| Ignore.LineRule | src/project/root/ignored_files.rs:19-28 | `#` lines yield no rule; `/rest` yields Fixed(root joined with rest) exactly when the join succeeds; every other line, blank ones included, yields Prefixed of its components |
| Ignore.ParseIgnoreLines | src/project/root/ignored_files.rs:19-28 | Never more rules than lines |
| Ignore.ParseAppend | src/project/root/ignored_files.rs:19-28 | The rules keep file order: parsing two blocks of lines gives the rules of the first, then those of the second |
| Ignore.CommentsOnly | src/project/root/ignored_files.rs:20 | A file of comment lines yields no rule |
| Ignore.FixedRuleUnderRoot | src/project/root/ignored_files.rs:21-24 | A line `/n1/…/nk` of proper names yields Fixed(root ++ [n1, …, nk]) |
| Ignore.ReadIgnored | src/project/root/ignored_files.rs:13-30 | No file gives no rules, a read error is returned, otherwise the rules of the lines in order |
| Ignore.IsPathIgnored | src/project/root/ignored_files.rs:32-51 | False exactly when every rule passes. True only when some rule matches and all earlier ones pass. An error is a User error, raised only when a Fixed rule has the path strictly inside it and all earlier rules pass |
| Ignore.IgnoredAppend | src/project/root/ignored_files.rs:33-49 | The first list is consulted first, and the second only when the first decides nothing |
| Ignore.BlankLineIgnoresEverything | src/project/root/ignored_files.rs:26 | A blank line is Prefixed([]), so an ignore file that starts with one ignores every path |
| PathProcessing.ChildBelow | src/project/root/path_processing.rs:78-79 | A subdirectory has strictly fewer entries below it than its parent, so the recursive scan terminates |
| PathProcessing.ScannedStep | src/project/root/path_processing.rs:76-84 | A directory's scanned files are its non-directory children plus the scanned files of its child directories |
| PathProcessing.ScanFolder | src/project/root/path_processing.rs:68-86 | Returns exactly the non-directory entries below the directory reached through directories, none of them inside the root's `.gust` |
| PathProcessing.ScanRelMember | src/project/root/path_processing.rs:37-38 | A relative path is scanned exactly when root ++ path is reported by the scan of the root |
| PathProcessing.ScanRelExists | src/project/root/path_processing.rs:37-38 | Every scanned relative path exists under the root |
| PathProcessing.ChangedFilesReport | src/project/root/path_processing.rs:30-66 | With no commit, every scanned file is Added. With a commit, a scanned file is reported exactly when the oracle says Added or Modified, with that kind. Removed exactly for tracked files that no longer exist. Keys are scanned or tracked paths |
| PathProcessing.NoCommitAllAdded | src/project/root/path_processing.rs:51-53 | With no head commit the changes are exactly the scanned files, all Added |
| PathProcessing.ClassifyAll | src/project/root/path_processing.rs:37-54 | Fails exactly when some file's check fails; otherwise holds each file whose classification is a change, with that kind |
| PathProcessing.AddRemovals | src/project/root/path_processing.rs:56-63 | Adds Removed for exactly the tracked files that no longer exist, overriding earlier entries |
| PathProcessing.RelativeFiles | src/project/root/path_processing.rs:38 | Converts the scanned files one for one to root-relative paths, which are exactly the scanned relative paths |
| PathProcessing.GetChangedFiles | src/project/root/path_processing.rs:30-66 | Succeeds exactly when the head commit loads and every check succeeds, and then returns the change map above |
| PathProcessing.ResolveSpec | src/project/root/path_processing.rs:14-25 | A CLI path resolves exactly when it exists and is inside the root (else a User error). A directory stands for exactly its scanned files, anything else for itself. All of them are inside the root and exist |
| PathProcessing.ResolvePath | src/project/root/path_processing.rs:14-25 | Returns the same outcome and the same files as the resolution |
| Project.SectionOf | src/project/root/commit_creation.rs:34-40 | A section is "No changes" exactly when there is nothing to list, else it lists all entries |
| Project.StatusPartition | src/project/root/commit_creation.rs:43-50 | Every change is listed in exactly one section: staged, or unstaged with its detected kind |
| Project.CoveredByWitness | src/project/root/commit_creation.rs:13-16 | A file that one CLI path covers (exists and is the file or above it) is covered |
| Project.CoveredBySome | src/project/root/commit_creation.rs:13-16 | A covered file is covered by one particular CLI path |
| Project.SelectedSpec | src/project/root/commit_creation.rs:11-16 | `add` selects exactly the changed files some existing CLI path equals or lies above, with their detected kind |
| Project.AddCurrentDir | src/project/root/commit_creation.rs:11-16 | `add .` (a CLI path with no normal component) selects exactly the changes at or below the current directory |
| Project.AddPrefix | src/project/root/commit_creation.rs:13-14 | What a prefix of the CLI paths covers, all of them cover; when all CLI paths exist, so do those of each prefix |
| Project.AddStep | src/project/root/commit_creation.rs:13-15 | Examining one more CLI path: the file is covered by it or by the earlier ones, and all of them exist exactly when the earlier ones and this one do |
| Project.SelectedAmongStep | src/project/root/commit_creation.rs:11-16 | Examining one more change adds it to the selection exactly when a CLI path covers it |
| Project.UnstagesWitness | src/project/root/commit_creation.rs:24-30 | A path some CLI path resolves to is unstaged by `remove` |
| Project.UnstagesSome | src/project/root/commit_creation.rs:24-30 | A path `remove` unstages is one some CLI path resolves to |
| Project.AllResolveAt | src/project/root/path_processing.rs:14-18 | When the whole list resolves, each CLI path does |
| Project.AllResolveFrom | src/project/root/path_processing.rs:14-18 | When each CLI path resolves, the whole list does |
| Project.RemoveStep | src/project/root/path_processing.rs:14-25 | Processing one more CLI path: all resolve exactly when the earlier ones and this one do; some has a file exactly when an earlier one or this one does |
| Project.UnstagesStep | src/project/root/commit_creation.rs:24-30 | Processing one more CLI path: a path is unstaged by it or by the earlier ones |
| Project.RemovePrefix | src/project/root/path_processing.rs:14-26 | What a prefix of the CLI paths unstages or targets, all of them do; when the whole list resolves, so does each prefix |
| Project.OtherNamesExcludeCurrent | src/project/root/branching.rs:26 | For names without `/`, the listed branches are all stored branches except the current one |
| Project.UnstagedEntries | src/project/root/commit_creation.rs:43-53 | Lists exactly the changed files that are not staged, and `unstaged_file_exists` holds exactly when there is one |
| Project.ListOthers | src/project/root/branching.rs:22-32 | One line "  name" for each other branch: no line is repeated, and every other branch appears |
| Project.Root.StageIfCovered | src/project/root/commit_creation.rs:12-18 | For one change: succeeds exactly when all CLI paths exist and, if one covers the file, saving works. On success the file is staged exactly when covered, and the staging file then holds the new map if the file was staged and is untouched otherwise. Whatever happens, the staging file is either untouched or holds the new map, and it is untouched when saving fails |
| Project.Root.Add | src/project/root/commit_creation.rs:8-22 | Fails unchanged when change detection fails. Otherwise it succeeds exactly when (there is no change or all CLI paths exist) and (nothing is selected or saving works), and then merges the selection over the staged map. Nothing unselected is staged and nothing staged is lost. On success the staging file holds the new map when something was selected and is untouched otherwise; it is untouched when saving fails |
| Project.Root.StageSelected | src/project/root/commit_creation.rs:11-19 | The loop of `add` for a given set of changes. It has the same outcome and the same effect on the staged map and on the staging file: the file holds the merged map on success when something was selected, is otherwise untouched on success, is never anything but the old file or the new map, and stays untouched when saving fails |
| Project.Root.UnstageAll | src/project/root/commit_creation.rs:25-29 | Unstages exactly the given files; it fails only on a save failure with at least one file; kept entries keep their kind. On success the staging file holds the new map if there was a file and is untouched otherwise; on failure it is untouched |
| Project.Root.UnstagePath | src/project/root/path_processing.rs:14-25 | One CLI path: fails exactly when it does not resolve, or when it has files and saving fails. If it does not resolve, nothing changes. On success exactly its files are unstaged, and the staging file holds the new map when it had files and is untouched otherwise. On failure the staging file is untouched |
| Project.Root.Remove | src/project/root/commit_creation.rs:24-30 | Succeeds exactly when every CLI path resolves and (no path has a file or saving works). On success, exactly the resolved files are unstaged, whether staged or not, and the staging file holds the new map when some path had a file. Nothing else is unstaged and no kind changes. When saving works and it fails, it stopped at the first CLI path that does not resolve: exactly the files of the earlier paths are unstaged and saved, and later paths have no effect. When saving fails, the staging file is untouched |
| Project.Root.Status | src/project/root/commit_creation.rs:32-55 | The staged section is exactly the staging map; the unstaged section exists exactly when change detection succeeds and lists exactly the unstaged changes |
| Project.Root.Commit | src/project/root/commit_creation.rs:57-63 | If the reference cannot be made nothing changes. Otherwise it is appended and becomes the tip. The staging area is cleared exactly when the branch saves, and success needs both saves. On every failure (no reference, unwritable branch, failed staging save) the staging file is untouched |
| Project.Root.Info | src/project/root/commit_creation.rs:65-68 | "Commit history:" followed by the newest-first log of the head's branch |
| Project.Root.BranchCommand | src/project/root/branching.rs:9-15 | With a name, it has CreateBranch's outcome: the saved log is `[tip]`, or the loaded log when the head has no commit, with the same failure conditions. Without a name it lists the branches and changes nothing, failing exactly when the directory cannot be listed. Any failure leaves the stored logs unchanged, and the head and its log stay as they were |
| Project.Root.DisplayBranches | src/project/root/branching.rs:17-38 | Fails exactly when `.gust/branches` or one of its entries cannot be read. Otherwise it lists every stored branch but the current one, once each and indented, then `* <current>` last |
| Project.Root.CreateBranch | src/project/root/branching.rs:40-49 | With a tip, the saved log is exactly [tip]. With no commit, it is the loaded log. Only that entry of the branch directory changes; the head and its log are untouched |
| Project.Root.Checkout | src/project/root/checkout.rs:15-26 | In mode Branch, the same effect as `checkout_branch` |
| Project.Root.CheckoutBranch | src/project/root/checkout.rs:28-33 | Succeeds exactly when the branch loads and the head file is writable. On success the head file names the branch, and the head is attached to the freshly loaded branch. On failure neither changes |
| Project.Open | src/project/root.rs:23-34 | Succeeds exactly when some ancestor of cwd holds `.gust`, HEAD can be read, the branch it names is readable, the staging file is absent or readable, and `.gustignore` is absent or readable. The root is then the nearest such ancestor, and the head is attached to the branch named by the trimmed HEAD text, with its stored log (empty if never saved). The staging area is the pruned stored map (empty when there is no file), with the stored map as its saved copy and the given save outcome. The ignore rules are those of `.gustignore`, and the branch directory and head file are the given ones |

## Left out

- File I/O (serde_json reading and writing, `read_dir`, `exists`, `current_dir`) is modelled by inputs. These are the working-tree map, cwd, the HEAD text, the branch directory, the stored staging map and the ignore file's lines, plus read/write failure flags; the bytes on disk are not modelled.
- `str::lines` is not modelled: the ignore file arrives already split into lines.
- `add` and `remove` take their paths already parsed (`&Vec<PathBuf>`), so the model takes them as `CliPath` values: whether the path is absolute, and its normal components, with `.` and empty components dropped (`.` alone is the current directory).
- A CLI path containing `..` fails in the model unless a directory literally named `..` exists, because `..` is kept as an ordinary component. `Path::exists` in the source resolves it through the filesystem, so such paths can succeed there.
- Parsing text into a path (for `RootPath::join` and ignore lines) is reduced to splitting at `/` and dropping empty and `.` components (a leading `./` is kept). `..` is an ordinary name and is not normalised.
- `RootPath::unsafe_join`, `Branch::load`, `Branch::create`, `save_to_path`, `checkout_head`, `CommitRef::new`, `CommitRef::display`, `Commit::from_commit_ref_option` and `Commit::has_file_changed` have no body in this source. They are parameters (`joinFails`, `made`, `show`, `loadCommit`, `hasFileChanged`) or are modelled by their evident effect. Loading fails on an unsaved branch; creation loads or starts empty; the head is replaced in memory.
- Branches.Create: follows `new_from_absolute` (a branch that was never saved starts empty). So `create_branch` on a name that already has a log, with a head that has no commit, keeps that log rather than saving an empty one.
- Stashing (all `unimplemented!`), `Root::create_project`, blob hashing and the superseded `Project`-based and HashSet-based drafts are not part of this model.
- Detached heads and the commit checkout mode are `unimplemented!` in the source. The model requires an attached head, and for `checkout` the mode `Branch`.
- Printed output (`status`, `info`, `display_branches`) is returned as values (sections, strings, lines) instead of being printed.
- `Root::new` as shown builds a `Branch` from the text of `.gust/HEAD`, while `checkout` writes `.gust/HEAD.json`. `Project.Open` follows `Root::new` (via `Branch::create`). `Heads.Load` models loading `HEAD.json`.
- Project.Open: a staging file that does not exist is represented by an empty saved map, since the model has no separate "absent" state for the file.
- Project.Open: `Root::new` as shown neither reads `.gustignore` nor fills an ignore list, but the `Root` that `is_path_ignored` works on holds one. Open therefore also reads it through `Root::read_ignored`, and fails when that read fails, which `Root::new` does not do.
- `commit_creation.rs` refers to `self.branch`, a field of the older `Root`. The model uses the head's branch.
- A failed save leaves the stored copy unchanged; partially written files are not modelled.
- The branch listing takes branch names from the keys of the branch directory; a file name that is not `<name>.json` is not modelled.
- `scan_folder` returns a `Result`, but with the filesystem given as a map it cannot fail. The model returns the list of files directly.
- Not in this source, so not in the model: `checkout` has no check for uncommitted changes and does not rewrite the working tree, and `get_changed_files` does not consult the ignore list.
- PathProcessing.ScanFolder: states which files are returned, not their order, because `read_dir` order is unspecified.
- Project.Root.DisplayBranches: states which lines are printed and that the current branch comes last, not the order of the other lines (directory order). When reading an entry fails, the lines already printed are not returned; which ones they are depends on directory order.
- Project.Root.Status: the order in which entries of a section are printed is not stated (HashMap iteration order).
- Project.Root.Add: when it fails part-way, it states only that each staged entry is either a selected change or an earlier entry. Which selected changes were already staged depends on HashMap iteration order.
- Project.Root.Remove: when saving fails, it states only that the staging file is untouched, that nothing outside the resolved files is unstaged, and that no kind changes. Which single file was dropped from memory before the failed save depends on the order of `scan_folder`, which follows `read_dir`.
