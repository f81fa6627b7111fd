# Verified model of Oxen's dataset tools and merge base

This project models four pieces of the repository and proves what they promise.

* **Dataset reorganiser** (`bin/reorganize-dataset.py`). A list of files is dealt out over a
  directory tree, either by recursive random partition or by replaying a saved plan; every
  directory splits its files by largest-remainder apportionment. The tree is flattened into moves
  with collision-free destinations, the moves are run on a disk, and empty directories are removed.
* **Streaming dataset** (`oxen-python/python/oxen/streaming_dataset.py`). A background thread
  fetches buffers into a bounded queue while the caller takes rows one at a time. The model is a
  transition system in which the two threads interleave freely between small steps.
* **Merge base** (`crates/lib/src/core/v_latest/merge.rs`, `commits.rs`). The distances of all
  ancestors of a commit, and the common ancestor that a merge starts from.
* **Dataset generator** (`bin/generate-dataset.py`). The mosaic image, the spread of files over
  directories with fixed-width names, and sampling file sizes up to a target.

## How it is organised

| file | content |
|---|---|
| `Common`, `Arithmetic`, `Sums`, `Apportionment` | shared notions, sums, and the largest-remainder split with its quota rule and optimality |
| `Naming` | decimal suffixes and the least free name |
| `DirTrees` | directory nodes on the heap and the tree values they stand for |
| `Randomness`, `TreeBuilder`, `BuiltTrees` | random draws, the recursive builder, and exactly which trees it can make |
| `Plans`, `Replay` | saved plans, their replay, and how far a replay is from proportional |
| `Moves`, `Placement` | flattening a tree into moves, and where it puts every file |
| `FileSystems`, `Disk` | moves as a function on file maps, and the disk object that makes directories, runs them and is cleaned up |
| `Reorganizer`, `Containment`, `FlatDatasets`, `ReorganizeDataset` | a whole run, from listed files to the tidied disk, when it stays below the target, and inputs on which it goes wrong |
| `Streams`, `StreamSafety`, `StreamProgress`, `StreamLiveness`, `StreamFairness`, `StreamingDataset` | the transition system, its theorems, and the object whose methods are its steps |
| `Commits`, `MergeBase` | shortest distances in a commit history, and when the nearest common ancestor is a lowest one |
| `Mosaic`, `DatasetLayout`, `LayoutPlaces`, `FileSizes` | the generator |

`dafny verify dfyconfig.toml` checks everything.

## Reading the model

* Code that changes things step by step is a class or a method with loops, proved equal to a
  function of its inputs (`Apportionment.Split`, `TreeBuilder.Built`, `Moves.Destinations`,
  `FileSystems.Run`, `Streams.Step`); the theorems are lemmas about those functions.
* Proportions are exact reals. Index sorting is a parameter: any function that returns the indices
  by ascending key, so every statement holds for every way of breaking ties
  (`InsertionIsArgsort` shows that there are such functions).
* Random draws are parameters too: an arbitrary value in the stated range for each place where one
  is drawn (`Randomness.Draws`, `Mosaic.Draws`, `FileSizes.Draws`).
* A path is lexical, as in `pathlib`; `FileSystems.Resolve` gives the place on disk it leads to when
  a component is "..". Destinations are assigned to paths, directories are made and files moved at
  places (`Disk.OnDisk`). The target directory is identified with its place.
* `shutil.move` onto an existing directory puts the file inside it, and onto an existing file
  replaces that file. Both matter below.
* The order in which a hash map is gone through is a parameter, so what is said of the merge base
  holds for every order (`IterationExists`). Commits have a rank below that of their children; ids are
  hashes that cover the parents' ids, so there are no cycles.

## What is worth knowing before use

* The reorganiser describes its input as flat or shallowly nested, but on nested inputs
  a file can be lost: a destination may be a file that has yet to move. `NestedFileLost` gives two
  files and a plan after which one of the files is gone. `MovesPlaceExactly` and `ApplyTree` give the
  exact condition under which everything arrives. What is left after any run that succeeds is given
  by `FinalPlaces`; where the targets are distinct and no directories, `FilesLost` counts the losses.
* A plan may name a directory "..". A file whose directory is reached by going up past the target,
  and not back down the same names, ends outside and can replace a file there
  (`DotDotLeavesTarget`); going down and up again is harmless. `ContainedExactly` gives the exact
  condition for a tree, `PlanStaysExactly` for a plan before any run, and `OutsideUntouched` and
  `OutsideKeptExactly` what it means for the files outside. Flat inputs always end with every file in
  place as long as no directory is named ".." or like a file (`FlatIsClean`).
* A plan replayed on its own number of files, or a multiple, reproduces its shape exactly when no
  directory that counts no file has children (`ReplayScales`, `PlanRoundTrip`). Every plan the tool
  itself saves qualifies, of a built tree or of a replayed one.
* A pass over a streaming dataset with one buffer never ends unless that one buffer holds
  everything; the exact condition on the parameters is `CompletesExactly`. `__getitem__` uses its
  index only for the range check: the n-th row handed out is row n whatever index was asked for.
* The merge base need not be a lowest common ancestor. After a branch was merged, its fork point is
  near, and merging another branch that left the main line later can find that old fork point instead
  of its own (`OldBranchMisleads`). `PairLowestExactly` says when the choice is a lowest one for two
  given commits; for every merge it is exactly when all ways back from the base to the same commit
  are equally long (`AlwaysLowestExactly`). Fast-forward merges are always recognised
  (`FastForwardExactly`).

## Model

| member | source | states |
|---|---|---|
| `Apportionment.DeficitRange` | bin/reorganize-dataset.py:223-227 | after the floors, the units left over are at least none and fewer than the slots, so the slice of top indices is well-formed |
| `Apportionment.Apportion` | bin/reorganize-dataset.py:404-413 | the in-place floors and increments give out every unit, each slot at its floor or one more, and never prefer a smaller fraction |
| `Apportionment.SplitIsLargestRemainder` | bin/reorganize-dataset.py:223-231 | the split computed from any ascending index order is a largest-remainder allocation of all units |
| `Apportionment.WholeQuotaKept` | bin/reorganize-dataset.py:407-413 | a slot with a whole quota, zero included, gets exactly that quota |
| `Apportionment.QuotaRule` | bin/reorganize-dataset.py:404-413 | every slot gets a non-negative count less than one unit away from its exact quota |
| `Apportionment.LargestRemainderIsOptimal` | bin/reorganize-dataset.py:226-231 | no integer allocation of the same total has a smaller total deviation from the quotas, whatever the tie-breaking |
| `Apportionment.OnlyLargestRemainderIsOptimal` | bin/reorganize-dataset.py:223-231 | of all allocations of the units, those with the least total deviation are exactly the largest-remainder splits |
| `Naming.DecimalRoundTrip` | bin/reorganize-dataset.py:167-169 | decimal suffixes read back as their number, hence differ for different counters |
| `Naming.NumeralRoundTrip` | bin/reorganize-dataset.py:167-169 | every string of digits without a zero in front is the numeral of the number it reads as |
| `Naming.TakenSuffixesBounded` | bin/reorganize-dataset.py:166-168 | a search that has found every counter below c taken has used up c - 2 taken names, so it ends within one probe more than there are names |
| `Naming.FreshName` | bin/reorganize-dataset.py:294-303 | the name is not taken; it is the original if that is free, and otherwise carries the least free counter from 2, at most two above the number of taken names |
| `Naming.DeduplicateName` | bin/reorganize-dataset.py:162-169 | a sibling name is made free with the least suffix from 2 upward |
| `Naming.LastDotIsLast` | bin/reorganize-dataset.py:297-298 | the split into stem and suffix is at the last dot |
| `Naming.SuffixExactly` | bin/reorganize-dataset.py:297-298 | a name whose last dot is neither its first nor its last character is split there |
| `Naming.NoSuffixExactly` | bin/reorganize-dataset.py:297-298 | any other name is all stem |
| `Naming.ExtensionKeptExactly` | bin/reorganize-dataset.py:299-302 | the counter goes before the extension, which stays the extension of the new name unless the name ends in a dot |
| `Naming.TwoThenThree` | bin/reorganize-dataset.py:299-302 | the first name taken gets 2, the next 3 |
| `DirTrees.DirNode.constructor` | bin/reorganize-dataset.py:115-119 | a new node has its name, no files and no children |
| `DirTrees.DirNode.SetFiles` | bin/reorganize-dataset.py:204-209 | replaces the files of a node and nothing else of its tree |
| `DirTrees.DirNode.AddChild` | bin/reorganize-dataset.py:262-262 | appends a subtree as the last child and changes nothing else |
| `TreeBuilder.ChildQuotas` | bin/reorganize-dataset.py:212-224 | the proportions make exact quotas of the left-over files |
| `TreeBuilder.ChildSlots` | bin/reorganize-dataset.py:212-224 | there are as many slots as the branching draw says, but no more than left-over files, and each slot's quota is its drawn proportion of them |
| `TreeBuilder.ChildSizesSplit` | bin/reorganize-dataset.py:223-231 | the children's counts use up the left-over files and are a largest-remainder split of the children's shares: each less than one file away from its share, and no other split of the files is closer in total |
| `TreeBuilder.BuildTree` | bin/reorganize-dataset.py:177-264 | the heap tree is the one the draws determine; it terminates for every depth limit |
| `TreeBuilder.KeptHere` | bin/reorganize-dataset.py:199-209 | a directory keeps the first files, as many as the sample says but at least one; if that is all, or the depth limit is reached, it keeps all and has no children |
| `TreeBuilder.GrowChildren` | bin/reorganize-dataset.py:233-262 | each child with a positive count gets its own run of the files, in order, under a name made free among its siblings |
| `BuiltTrees.BuiltIsOrganic` | bin/reorganize-dataset.py:177-264 | for all draws: the files in preorder are the input exactly; every directory holds a file, none lies below the depth limit, siblings have distinct names |
| `BuiltTrees.OrganicBounds` | bin/reorganize-dataset.py:207-214 | such a tree is no higher than the room under the limit and has no more directories than files |
| `BuiltTrees.OrganicDirectories` | bin/reorganize-dataset.py:199-214 | counted by their addresses, such a tree has no more directories than files, none deeper than the room |
| `BuiltTrees.BuildsExactlyOrganic` | bin/reorganize-dataset.py:162-264 | the builder's range for a vocabulary of words: a tree can come out for some draws if and only if it is organic, holds the files in preorder, and every directory has the name some word gets among its elder siblings |
| `Replay.PlanToTree` | bin/reorganize-dataset.py:372-427 | the files in preorder are the input exactly, and the tree is a largest-remainder replay of the plan at every directory |
| `Replay.ReplayChildren` | bin/reorganize-dataset.py:420-425 | consecutive runs of the files go to the child plans in order, of the allotted sizes |
| `Plans.QuotasAreQuotas` | bin/reorganize-dataset.py:397-406 | the slots' shares are exact quotas of the files: non-negative, adding up to their number |
| `Replay.PlanCountsFiles` | bin/reorganize-dataset.py:358-369 | the plan saved from a tree counts exactly the files of the tree |
| `Replay.ChildShare` | bin/reorganize-dataset.py:397-413 | a child subtree gets less than one file more or less than its share, and nothing when its share is nothing |
| `Replay.ReplayErrorBelowDepth` | bin/reorganize-dataset.py:372-427 | the files that reach a subtree d levels down differ from its exact share of all files by less than d, dropped subtrees included |
| `Replay.ReplayScales` | bin/reorganize-dataset.py:358-427 | on k times the plan's files the replay's plan is the original with every count times k, if and only if no directory without files has children |
| `Replay.ShapeAndFilesDetermine` | bin/reorganize-dataset.py:358-364 | a tree is determined by its plan and its files in preorder |
| `Replay.PlanRoundTrip` | bin/reorganize-dataset.py:358-427 | saving a tree and replaying it on its own files gives it back if and only if it has no hollow directory |
| `ReorganizeDataset.BuiltTreeReplaysToItself` | bin/reorganize-dataset.py:488-507 | every tree the builder makes survives saving and replaying unchanged |
| `ReorganizeDataset.ReplayedTreeReplaysToItself` | bin/reorganize-dataset.py:481-507 | so does every tree that was itself replayed from a plan, whatever that plan |
| `Moves.FreeBaseName` | bin/reorganize-dataset.py:294-302 | a file keeps its basename if free, and otherwise gets the least free counter before its extension |
| `Moves.FlattenFiles` | bin/reorganize-dataset.py:289-306 | the files of a directory get their destinations in order, the names are reserved, files already in place are not moved |
| `Moves.FlattenMoves` | bin/reorganize-dataset.py:272-311 | the moves are the assigned destinations in preorder without those already in place, and the reservations are updated |
| `Placement.DestinationDir` | bin/reorganize-dataset.py:287-309 | every file goes to the parent followed by the names on its way through the tree, the names "." and "" left out |
| `Placement.DestinationDirPlain` | bin/reorganize-dataset.py:287-309 | without such names, to the parent followed by all the names |
| `Placement.NameExactly` | bin/reorganize-dataset.py:293-303 | in its directory it has its own name exactly if no earlier file has that name there, and otherwise the least free counter before its extension |
| `Reorganizer.MovesOfPairs` | bin/reorganize-dataset.py:304-306 | a move is listed exactly for each source that differs from its destination |
| `Moves.DestinationsTaken` | bin/reorganize-dataset.py:283-311 | a subtree's destinations were free, are pairwise distinct, and are exactly what becomes reserved |
| `Moves.DestinationsDistinct` | bin/reorganize-dataset.py:278-281 | no two files of any tree share a destination, even with equal sibling names, "." nodes or equal basenames |
| `Reorganizer.DestinationsWithin` | bin/reorganize-dataset.py:287-309 | every destination path begins with the target, goes through directories of the tree's names, and ends in the name of one of the files, possibly numbered |
| `Reorganizer.PlainDestination` | bin/reorganize-dataset.py:287-309 | in a tree without a directory ".." every destination path leads to the place it spells, below the target |
| `Reorganizer.MovesReachTargets` | bin/reorganize-dataset.py:304-306 | the moves lead each source to its own destination |
| `Reorganizer.PlannedMovesAreOfFiles` | bin/reorganize-dataset.py:532-533 | every planned move is of a listed file, and no file is moved twice |
| `Reorganizer.PlannedTargetsApart` | bin/reorganize-dataset.py:532-533 | without ".." the targets are distinct places and none is a file staying put |
| `Reorganizer.CleanWithoutDotDot` | bin/reorganize-dataset.py:532-551 | without ".." the condition for a clean start can be read off the paths: no file is a prefix of a needed directory, no target is or will be a directory, none is a file yet to move |
| `Containment.BelowExactly` | bin/reorganize-dataset.py:287-304 | for every walk from the target, with or without "..": a file put there lies below the target if and only if the walk goes up no levels past it, or comes back down the names it went up by |
| `Containment.StaysUnderExactly` | bin/reorganize-dataset.py:287-287 | a walk goes up no levels past its start if and only if at no point it has more ".." than other names |
| `Containment.NeverComesBack` | bin/reorganize-dataset.py:287-287 | unless a directory has the target's own name, only such walks stay inside |
| `Containment.PlaceBelowExactly` | bin/reorganize-dataset.py:287-304 | each destination leads below the target if and only if its directory path does |
| `Containment.ContainedExactly` | bin/reorganize-dataset.py:287-309 | all destinations of a tree lead below the target if and only if every directory with files of its own does |
| `Containment.PlanStaysExactly` | bin/reorganize-dataset.py:372-427 | read off a plan: all its replays, on any number of files, stay below the target if and only if every directory for which it counts files does, or its root if it counts none |
| `Containment.OutsideUntouched` | bin/reorganize-dataset.py:541-551 | if every directory with files is inside, no run, completed or not, changes a file outside the target |
| `FileSystems.FinalPlaces` | bin/reorganize-dataset.py:549-551 | after any run that succeeds, whatever its targets, the files are those not moved and the landing places that no later move empties |
| `FileSystems.FilesLost` | bin/reorganize-dataset.py:549-551 | where the targets are distinct, are no directories and no file stays at one, the run succeeds and loses exactly one file per move that lands on a file yet to move |
| `FileSystems.AllArrive` | bin/reorganize-dataset.py:549-551 | if moreover nothing is overwritten, the final file map is the original under the renaming, contents kept |
| `FileSystems.MovesPlaceExactly` | bin/reorganize-dataset.py:549-551 | for every list of moves of distinct files: the run succeeds with every file at its destination if and only if the targets are distinct places in existing directories, none a directory or a file staying put, and no file is moved onto one yet to move |
| `Disk.FileSystem.Mkdir` | bin/reorganize-dataset.py:545-546 | makes every directory the path comes by, ".." included, and stops exactly at the first that is a file |
| `Disk.FileSystem.MakeDirs` | bin/reorganize-dataset.py:541-546 | succeeds exactly when no file stands where a walk to a target comes by; then the new directories are those the walks come by |
| `Disk.FileSystem.Move` | bin/reorganize-dataset.py:551-551 | one move to the place the target leads to, into a directory or over a file, or a failure that changes nothing |
| `Disk.FileSystem.ExecuteMoves` | bin/reorganize-dataset.py:549-551 | runs the moves in order up to the first failure |
| `FileSystems.MoveSucceedsExactly` | bin/reorganize-dataset.py:551-551 | a move succeeds if and only if its file exists and its target is a directory without an entry of that name, or no directory but in one; otherwise nothing changes |
| `FileSystems.MoveLands` | bin/reorganize-dataset.py:551-551 | a move that succeeds puts the contents at its landing place and changes no other file |
| `FileSystems.RunStep` | bin/reorganize-dataset.py:549-551 | each move is made on what the moves before it left |
| `FileSystems.RunStops` | bin/reorganize-dataset.py:549-551 | a run ends at the first move that fails, with what the moves before it left |
| `FileSystems.RunSucceedsExactly` | bin/reorganize-dataset.py:549-551 | a run succeeds if and only if each of its moves does when its turn comes |
| `FileSystems.NothingReplacedInside` | bin/reorganize-dataset.py:549-551 | in a run that succeeds no move goes onto an entry inside a directory |
| `Disk.EmptyExactly` | bin/reorganize-dataset.py:433-436 | going deepest first, a directory is found empty exactly when no file lies below it |
| `Disk.FileSystem.RemoveEmptyDirs` | bin/reorganize-dataset.py:430-438 | a directory below the root survives if and only if a file lies somewhere below it; files are untouched; the count is the number removed |
| `Reorganizer.ApplyTree` | bin/reorganize-dataset.py:532-554 | completes with every file at its place if and only if the start is clean for the moves; otherwise what the moves up to a failure leave; the directories that remain below the target are those with files, and the count is the number removed |
| `Reorganizer.CompletesExactly` | bin/reorganize-dataset.py:541-551 | it completes if and only if all directories can be made and each move succeeds when its turn comes; if a directory cannot be made no file is touched |
| `FlatDatasets.DestinationsKeepNames` | bin/reorganize-dataset.py:293-304 | files with distinct basenames all keep them |
| `FlatDatasets.FlatIsClean` | bin/reorganize-dataset.py:13-18 | a flat dataset is a clean start if no planned directory is ".." and none, planned or present, is named like a file |
| `FlatDatasets.NestedFileLost` | bin/reorganize-dataset.py:372-551 | a nested dataset of two files and a plan of which a replay, run on any disk with those files, loses one file without any error |
| `FlatDatasets.DotDotLeavesTarget` | bin/reorganize-dataset.py:287-551 | a flat dataset of one file and a plan with a directory "..": the start is not clean, and the run replaces a file beside the target without any error |
| `ReorganizeDataset.RenamingPutsInPlace` | bin/reorganize-dataset.py:532-551 | after a renaming by the planned moves each listed file has its contents at its place, all others are as before, and nothing else exists |
| `ReorganizeDataset.PlacesAreDestinations` | bin/reorganize-dataset.py:287-309 | without ".." the places are the destination paths themselves, below the target in the directories of the tree |
| `ReorganizeDataset.OutsideKeptExactly` | bin/reorganize-dataset.py:532-551 | a run that puts every file in place leaves all outside the target as it was if and only if every directory with files is inside |
| `ReorganizeDataset.BuiltNamesNoDotDot` | bin/reorganize-dataset.py:124-169 | a tree named from a vocabulary without ".." has no directory ".." |
| `ReorganizeDataset.Reorganize` | bin/reorganize-dataset.py:446-560 | a whole run on the replayed tree, or the tree that the draws determine: flat inputs with names apart complete with all files in place, any input does exactly from a clean start, files outside are left alone if every directory with files is inside the target, and no directory made or found below the target is left without files |
| `StreamSafety.PathRows` | oxen-python/python/oxen/streaming_dataset.py:98-102 | the cumulative sizes delimit each file's own stretch of all rows |
| `StreamSafety.FetchedRows` | oxen-python/python/oxen/streaming_dataset.py:222-242 | a fetch stays within the current file and returns the next stretch of all rows |
| `StreamSafety.InvAlways` | oxen-python/python/oxen/streaming_dataset.py:163-242 | every interleaving keeps: rows taken, unread and in flight are exactly those fetched, in order; the queue is bounded |
| `StreamSafety.RowsInOrder` | oxen-python/python/oxen/streaming_dataset.py:149-201 | under every interleaving and whatever index is asked for, the n-th item has exactly the chosen features of row n of all files in order, with that row's cells, or is that row if none are chosen |
| `StreamProgress.FetchesForIsCeiling` | oxen-python/python/oxen/streaming_dataset.py:222-242 | a file takes as many fetches as full or partial buffers cover it, and one if it has no rows |
| `StreamProgress.FetchesExact` | oxen-python/python/oxen/streaming_dataset.py:203-242 | the background thread never makes more fetches than the files call for, and exactly that many when it ends |
| `StreamProgress.StepRank` | oxen-python/python/oxen/streaming_dataset.py:163-242 | every useful step lowers a rank, sleeping and failed tests leave it |
| `StreamProgress.UsefulStepsBounded` | oxen-python/python/oxen/streaming_dataset.py:163-242 | over all schedules, at most six useful steps per fetch and three per row, plus three |
| `StreamLiveness.NeverDeadlocks` | oxen-python/python/oxen/streaming_dataset.py:171-182 | with a completable configuration the pass can be finished from wherever the threads have got to |
| `StreamLiveness.NeverCompletes` | oxen-python/python/oxen/streaming_dataset.py:180-182 | otherwise no schedule hands out the last row |
| `StreamLiveness.CompletesExactly` | oxen-python/python/oxen/streaming_dataset.py:68-141 | a full pass is possible if and only if there is nothing to read, or all rows have the features, buffers hold rows, and there are two buffers or one that takes everything |
| `StreamFairness.FairRoundProgress` | oxen-python/python/oxen/streaming_dataset.py:171-182 | while rows are left, any stretch of a schedule that gives both threads their turns contains a useful step |
| `StreamFairness.FairSchedulesComplete` | oxen-python/python/oxen/streaming_dataset.py:149-242 | with a completable configuration every fair schedule hands out every row within a number of rounds fixed by files, rows and buffer size |
| `StreamingDatasets.StreamingDataset.constructor` | oxen-python/python/oxen/streaming_dataset.py:68-141 | the object starts in the initial state with the cumulative sizes of the files |
| `StreamingDatasets.StreamingDataset.FetchNextBuffer` | oxen-python/python/oxen/streaming_dataset.py:222-242 | one fetch is the fetch step of the transition system |
| `StreamingDatasets.StreamingDataset.TestForSpentBuffer` | oxen-python/python/oxen/streaming_dataset.py:178-182 | the test for a spent first buffer is its step of the transition system |
| `Streams.ItemIsSelection` | oxen-python/python/oxen/streaming_dataset.py:187-196 | an item is the row, or exactly its cells for the features; there is one if and only if no feature is missing |
| `StreamingDatasets.StreamingDataset.ExtractItem` | oxen-python/python/oxen/streaming_dataset.py:187-196 | the item is that selection of the row, or there is none and a feature is missing |
| `StreamingDatasets.StreamingDataset.TakeItem` | oxen-python/python/oxen/streaming_dataset.py:184-201 | taking an item hands out the selection of the next row of all files; with a missing feature nothing is taken |
| `StreamingDatasets.StreamingDataset.Interleave` | oxen-python/python/oxen/streaming_dataset.py:163-242 | the object's steps in any allowed order follow the transition system |
| `Commits.ListFromWithDepth` | crates/lib/src/core/v_latest/commits.rs:736-776 | lists exactly the commit and its ancestors that can be loaded, each with the length of the shortest way back to it, within that many rounds |
| `Commits.NoteKeepsCovered` | crates/lib/src/core/v_latest/commits.rs:756-773 | noting a shorter distance and pushing the parents keeps every parent of a listed commit listed near enough or waiting |
| `Commits.NoShorterWay` | crates/lib/src/core/v_latest/commits.rs:756-773 | with an empty stack no way back is shorter than the distance found |
| `Commits.RoundsBounded` | crates/lib/src/core/v_latest/commits.rs:754-773 | the loop never makes more rounds than one more than commits times parent links, although commits are visited again |
| `MergeBase.PickedIsNearest` | crates/lib/src/core/v_latest/merge.rs:1012-1036 | in every order of iteration the choice is none exactly without common ancestors, and otherwise one as near to the base as any |
| `MergeBase.NearestCanBePicked` | crates/lib/src/core/v_latest/merge.rs:1012-1036 | each of the nearest common ancestors is the choice for some order |
| `MergeBase.LowestCommonAncestorFromCommits` | crates/lib/src/core/v_latest/merge.rs:996-1037 | the loop over both lists makes that choice |
| `MergeBase.FastForwardExactly` | crates/lib/src/repositories/merge.rs:22-24 | the choice is the base itself if and only if the base is an ancestor of the merge commit |
| `MergeBase.LowestExactly` | crates/lib/src/core/v_latest/merge.rs:1008-1010 | a common ancestor is a lowest one if and only if no common ancestor has it as a parent |
| `MergeBase.PairLowestExactly` | crates/lib/src/core/v_latest/merge.rs:1008-1036 | for two given commits the choice is a lowest common ancestor in every order if and only if no nearest common ancestor is the parent of a common ancestor |
| `MergeBase.AlwaysLowestExactly` | crates/lib/src/core/v_latest/merge.rs:1008-1036 | the choice is a lowest common ancestor for every merge commit and every order if and only if all ways back from the base to the same commit are equally long |
| `MergeBase.OldBranchMisleads` | crates/lib/src/core/v_latest/merge.rs:1008-1036 | a history with one merged branch on which merging a later branch finds, in every order, a commit that has a common ancestor among its children |
| `Mosaic.FillBlock` | bin/generate-dataset.py:509-528 | paints each pixel of the block in the block's colour, or each in its own noise, and no other pixel |
| `Mosaic.BlocksTile` | bin/generate-dataset.py:504-518 | each pixel of the image lies in exactly one block, the cut-off blocks at the edges included |
| `Mosaic.BlockShows` | bin/generate-dataset.py:504-528 | a solid block shows its own colour throughout, and each pixel of a noise block its own draw |
| `Mosaic.GenerateImage` | bin/generate-dataset.py:489-530 | for every size and block size each pixel shows the colour drawn for its block, or the noise drawn for it if the block is noise |
| `DatasetLayout.PaddedNamesInOrder` | bin/generate-dataset.py:685-710 | fixed-width names are distinct, and sorted by name as by number |
| `DatasetLayout.AllFilesPlaced` | bin/generate-dataset.py:681-701 | the directories' sizes add up to the number of files |
| `DatasetLayout.OneDirEach` | bin/generate-dataset.py:693-713 | every file belongs to exactly one directory |
| `DatasetLayout.LimitKept` | bin/generate-dataset.py:229-252 | with a limit on files per directory, the accepted number of directories leaves none empty and none above the limit; a contradicting number is refused |
| `DatasetLayout.ResolvesExactly` | bin/generate-dataset.py:220-252 | the number of directories is accepted if and only if it is the number given, if one is, the least that keeps the limit, if there is one, and one if nothing is given |
| `DatasetLayout.LayOut` | bin/generate-dataset.py:681-713 | lists every file once, in its own directory and under its own number |
| `LayoutPlaces.PathSpells` | bin/generate-dataset.py:693-711 | each path is the target, the directory's number in fixed width if there are several, and the file's number in fixed width with its extension |
| `LayoutPlaces.DirsApart` | bin/generate-dataset.py:693-713 | two files share a directory if and only if they belong to the same one, and directories sort by name as by number |
| `LayoutPlaces.DirHolds` | bin/generate-dataset.py:681-713 | each directory holds its number of the files |
| `LayoutPlaces.LimitKeptOnDisk` | bin/generate-dataset.py:229-252 | with a limit no directory whatever holds more of the listed files |
| `DatasetLayout.FileNamesDistinct` | bin/generate-dataset.py:710-711 | no two files have the same name, whatever their extensions |
| `FileSizes.ClampPositive` | bin/generate-dataset.py:368-380 | every size ends as it is after being drawn again while it is not positive, up to a hundred times, and one if it still is not |
| `FileSizes.ClampedPositive` | bin/generate-dataset.py:368-380 | all sizes end up at least one, and sizes that already were stay as they were |
| `FileSizes.SettledIsFirstPositive` | bin/generate-dataset.py:368-380 | each size is the first positive of what was drawn for it and drawn again, up to a hundred times, and one if none is |
| `FileSizes.SampleUntil` | bin/generate-dataset.py:393-414 | the result is the shortest prefix of the clamped batches, in the order drawn, that reaches the target; it terminates |
| `FileSizes.StreamAt` | bin/generate-dataset.py:404-407 | the sizes come batch by batch, 1024 at a time, each settled with the redraws of its own batch and place |
| `FileSizes.ShortestIsUnique` | bin/generate-dataset.py:393-414 | the draws alone decide the result, however many batches are looked at |

## Left out

- Floating point: proportions, quotas and fractional parts are exact reals, so an effect of rounding in `np.floor` or of a near-tie is not modelled.
- Distributions: draws are arbitrary values in their ranges; nothing is said about likelihood or the order in which the generator's stream is consumed.
- Names in plans: a directory name is one path component, possibly "..", "." or empty; a plan whose names contain a separator is not modelled.
- Real file systems: no symbolic links, permissions, case folding or moves across devices; `shutil.move` is modelled for regular files.
- Threads: the steps between which the threads interleave are coarser than interpreter instructions, but every access to a field that both threads use is in a step of its own thread; sleeping is a step that changes nothing.
- The data provider is taken to return the rows of the slice it is asked for and the true size; network errors, which would end the background thread, are not modelled.
- The dataset's width and the exception for an empty list of paths are not modelled.
- StreamProgress.UsefulStepsBounded: bounds useful steps only; how often a thread sleeps depends on the scheduler.
- StreamingDatasets.StreamingDataset.constructor: takes a buffer size that is not negative; what a provider does with a negative slice is not modelled.
- Iterating a streaming dataset a second time, and reading it out of order, are not given the meaning a caller might expect: rows come in file order once.
- Output, argument parsing, JSON, `collect_stats`, `print_tree` and dry runs are not modelled; the names `generate_dir_name` can make are an arbitrary vocabulary.
- The merge itself, conflicts and the commits a merge writes are not modelled; errors in reading a commit are not either, but a parent that cannot be found is.
- The other tools of the repository, the server, the command line and the library are not part of this model.
