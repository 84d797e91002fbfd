# TidyFiles organising engine in Dafny

A model of the file-organising engine of TidyFiles (`tidyfiles/operations.py`).
It has four parts:

- **Classifier** (`get_folder_path`): picks a destination folder for a file from its suffix.
- **Planner** (`create_plans`): walks everything below the source directory and builds a transfer plan and a deletion plan.
- **Transfer executor** (`transfer_files`): resolves name collisions, creates parent directories, moves each file and returns `(succeeded, total)`.
- **Cleanup executor** (`delete_dirs`): removes each planned directory recursively and returns `(succeeded, total)`.

The model is split into four files:

- `paths.dfy` (module `PurePaths`): pure path arithmetic after `pathlib`. A path is the sequence of its components, and `[]` is the root. The module defines `name`, `parent`, `with_name`, `suffix` and `stem` (the suffix starts at the last dot, provided that dot is neither the first nor the last character), plus the decimal rendering of a copy number.
- `filesystem.dfy` (module `FileSystems`): the filesystem as a map from paths to entry kinds (`File`, `Dir`, `Special`, `BrokenLink`). It is held in the `entries` field of class `FileSystem`. The class invariant is that every ancestor of an entry is a directory. The class has three methods, one per primitive the engine calls: `mkdir(parents=True, exist_ok=True)`, `Path.replace` and `shutil.rmtree`. Whether the OS refuses a rename or a removal for reasons the tree does not record (permissions, an injected error) is passed in as a `permitted` flag. The executors take one flag per plan entry.
- `operations.dfy` (module `Operations`):
  - The classifier is a recursive function.
  - The planner is a method whose loop over the `rglob` listing is proved against two fold functions over the listing.
  - The collision loop is a method proved against the recursive function `FreeFrom`. Its termination measure is the number of entries whose name is at least as long as the current candidate's, because every renaming makes the name longer.
  - The two executors are methods whose loops are proved against the folds `TransferRun` and `DeleteRun`. The properties the source promises are proved about those folds.
- `scenarios.dfy` (module `Scenarios`): concrete runs worked out from the definitions. They cover the renaming chain `test.txt`, `test_1.txt`, `test_1_2.txt`, and the nested deletion plan `[parent, parent/child]`.

The repository's tests disagree with the code in two places. The model follows the code in both:

- `create_plans` receives `excludes` only through `**kwargs` and never reads it (tidyfiles/operations.py:32), so nothing is filtered out.
- `delete_dirs` keeps no record of what it has already removed (tidyfiles/operations.py:125-136). For the plan `[parent, parent/child]`, the first `rmtree` takes the child with it. The second `rmtree` then raises, so the reported count is 1, while tests/test_operations.py:212-228 expects 2. `Scenarios.NestedDeletionCountsOne` states the count the code produces.

## Model

| member | source | states |
|---|---|---|
| Operations.GetFolderPath | tidyfiles/operations.py:22-25 | the folder of the first rule, in plan order, whose extensions contain the file's suffix; the unrecognized folder when no rule matches, the empty plan included |
| PurePaths.Suffix | tidyfiles/operations.py:23 | a non-empty suffix is a tail of the name that starts with its only dot and is shorter than the name; an empty suffix means the name is empty, ends in a dot, or has no dot after its first character |
| PurePaths.Stem | tidyfiles/operations.py:93 | stem followed by suffix gives back the name |
| PurePaths.DecimalString | tidyfiles/operations.py:93 | the copy number rendered as decimal digits that denote it (read back by `DigitsValue`), with no leading zero except for 0 itself |
| PurePaths.WithName | tidyfiles/operations.py:92 | `with_name` keeps the parent and replaces the last component |
| Operations.EntriesOfKindMembers | tidyfiles/operations.py:52-54 | the entries of a kind picked from the listing are exactly the listed entries of that kind, without duplicates when the listing has none |
| Operations.TransfersOfShape | tidyfiles/operations.py:55-61 | the transfer plan's sources are the listed regular files in listing order, and each entry is the file paired with its classified folder joined with its name |
| Operations.PlanOfKind | tidyfiles/operations.py:52-61 | over a full listing, a plan of one kind holds exactly the entries of that kind strictly below the source directory, one entry each |
| Operations.EmptySourceNoPlans | tidyfiles/operations.py:49-63 | an empty source directory yields two empty plans |
| Operations.CreatePlans | tidyfiles/operations.py:49-63 | the deletion plan is exactly the directories strictly below the source directory, and the transfer plan's sources exactly the regular files there; other kinds and the source directory itself appear in neither plan; each destination is the classified folder joined with the file's name; the plan lengths are the numbers of such directories and files |
| Operations.Renamed | tidyfiles/operations.py:92-94 | a renaming keeps the parent directory and makes the name strictly longer |
| Operations.Candidate | tidyfiles/operations.py:90-95 | every destination the loop tries stays in the planned parent directory |
| Operations.LongNamesShrink | tidyfiles/operations.py:91-95 | once a taken name is lengthened, fewer entries have names at least as long, so the renaming loop terminates |
| Operations.FreeFrom | tidyfiles/operations.py:91-95 | the renaming loop ends on a destination that does not exist, in the planned parent directory |
| Operations.FreeFromFirstFree | tidyfiles/operations.py:90-95 | from any candidate, the loop ends on the first later candidate that does not exist, having passed only existing ones |
| Operations.EffectiveDestinationIsFirstFree | tidyfiles/operations.py:90-95 | the effective destination is the first of `d`, `stem_1.suffix`, `stem_1_2.suffix`, ... that does not exist, and keeps the planned parent |
| Operations.ResolveDestination | tidyfiles/operations.py:90-95 | the `while destination.exists()` loop returns the effective destination, which does not exist |
| Operations.TransferOneEffect | tidyfiles/operations.py:96-105 | an entry is counted exactly when the OS permits it, the target's parents can be created and the source is a present non-directory; a counted move puts the source's entry at a target that did not exist and removes the source; no other existing entry changes; only the target and missing parent directories are added; an uncounted entry loses nothing |
| Operations.TransferOneWellFormed | tidyfiles/operations.py:99-101 | one move keeps every ancestor of every entry a directory |
| Operations.TransferRun | tidyfiles/operations.py:88-106 | the count never exceeds the plan length; a dry run counts 0 and changes nothing |
| Operations.TransferRunWellFormed | tidyfiles/operations.py:88-106 | a whole transfer keeps the filesystem a tree |
| Operations.TransferRunNeverOverwrites | tidyfiles/operations.py:89-101 | a whole transfer leaves every existing entry that is not a planned source in place and unchanged |
| Operations.TransferEntry | tidyfiles/operations.py:90-105 | one pass of the loop body: the new filesystem and the success flag are those of the entry's move |
| Operations.TransferFiles | tidyfiles/operations.py:66-106 | the final filesystem and `succeeded` are those of the whole run; `total` is the plan length and `succeeded <= total`; a dry run counts 0 and changes nothing; the filesystem stays a tree |
| Operations.DeleteRun | tidyfiles/operations.py:125-136 | the count never exceeds the plan length; a dry run counts 0 and changes nothing |
| Operations.DeleteOneEffect | tidyfiles/operations.py:127-135 | an entry is counted exactly when it is a directory at that moment and the OS permits the removal; then it goes together with all its descendants and nothing else changes; otherwise the filesystem is unchanged |
| Operations.DeleteRunOnlyRemoves | tidyfiles/operations.py:125-136 | cleaning up only removes entries; whatever is left is unchanged |
| Operations.DeleteRunWellFormed | tidyfiles/operations.py:125-136 | cleaning up keeps the filesystem a tree |
| Operations.DeleteRunClearsPlan | tidyfiles/operations.py:126-135 | when the OS refuses nothing, no planned directory survives a real cleanup, and nothing is left below any planned entry |
| Operations.DeleteDirs | tidyfiles/operations.py:109-136 | the final filesystem and `succeeded` are those of the whole run; `total` is the plan length and `succeeded <= total`; a dry run counts 0 and changes nothing; the filesystem stays a tree |
| FileSystems.FileSystem.MakeDirs | tidyfiles/operations.py:100 | succeeds exactly when no ancestor-or-self of the path is a non-directory; then it adds exactly the missing ancestors as directories |
| FileSystems.FileSystem.Replace | tidyfiles/operations.py:101 | succeeds exactly when permitted and the source is a present non-directory, the target is not a directory and its parent is one; then the source's entry moves to the target |
| FileSystems.FileSystem.RemoveTree | tidyfiles/operations.py:131 | succeeds exactly when permitted and the path is a directory; then the path and all its descendants go |
| FileSystems.WithParents | tidyfiles/operations.py:100 | the keys after `mkdir(parents=True)` are the old ones plus every ancestor-or-self of the path, and old entries keep their kind |
| FileSystems.WithParentsWellFormed | tidyfiles/operations.py:100 | creating parents keeps the filesystem a tree and makes the path a directory |
| FileSystems.ReplacedWellFormed | tidyfiles/operations.py:101 | a permitted rename keeps the filesystem a tree |
| FileSystems.WithoutTree | tidyfiles/operations.py:131 | after `rmtree` exactly the entries not at or below the path remain, unchanged |
| FileSystems.WithoutTreeWellFormed | tidyfiles/operations.py:131 | removing a subtree keeps the filesystem a tree |
| Scenarios.NameParts | tidyfiles/operations.py:93 | `test.txt` and `test_1.txt` split into stems `test` and `test_1`, each with suffix `.txt` |
| Scenarios.RenamingChain | tidyfiles/operations.py:90-95 | the destinations tried for `dest/test.txt` are `dest/test_1.txt` and then `dest/test_1_2.txt` |
| Scenarios.NestedDeletionCountsOne | tidyfiles/operations.py:126-135 | for the plan `[parent, parent/child]`, both directories are gone but only one removal is counted |

## Left out

- Logging: the `loguru` messages carry no state and are dropped.
- Exclusions: `excludes` is never read by `create_plans`, so the model has no exclusion filtering.
- History and undo: there is no journal in this code, and none is modelled.
- `rglob` order is left open: the listing is any duplicate-free enumeration of the entries strictly below the source directory.
- The OS's permission and I/O failures for `replace` and `rmtree` are an oracle, one flag per plan entry. Races with other processes are not modelled.
- FileSystems.FileSystem.MakeDirs: its outcome is decided by the tree alone. A `mkdir` that fails partway for lack of permission, after creating some ancestors, is not modelled.
- FileSystems.FileSystem.RemoveTree: `rmtree` either removes the whole subtree or nothing. A removal that fails partway and leaves some descendants behind is not modelled.
- Symbolic links to existing entries are represented by their target's kind (`is_file`/`is_dir` follow links). The model therefore does not capture that `rmtree` refuses a symlinked directory, or that `rglob` does not descend into one.
- FileSystems.FileSystem.Replace: renaming a directory source is modelled as a failure. Plans only ever hold regular files as sources.
- Operations.TransferFiles: an error raised by `destination.exists()` in the renaming loop (for example a permission error on a directory of the path) is outside the `try` and aborts the whole call; the model has no such outcome, and every run processes every entry.
- Operations.CreatePlans: `rglob` silently skips directories it cannot read; the model's listing always holds every entry below the source directory, so unreadable subtrees are not modelled.
- Operations.TransferFiles: requires every planned destination to have a name. `with_name` raises on the root outside the `try`, which would abort the whole call, and that abort is not modelled.
- Suffix matching is plain string equality, as in the source; no case folding is modelled.
