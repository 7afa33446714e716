# Verified models of Git's cores

Dafny models of parts of Git that are small in code and large in argument, with proofs of what they are for. The
models follow the C sources branch by branch. Operations that change state in place are classes and arrays with
frames; each is proved against a specification that does not mention its own steps. `dafny verify dfyconfig.toml`
checks everything.

| file | models | main results |
|---|---|---|
| FuzzyMatch.dfy | `blame --ignore-rev`: matching lines of two chunks by fingerprints, in `blame.c` | The memoised divide and conquer, with its invalidation windows, computes exactly what a version without memory computes (`Matcher.Recurse`); matches never cross. |
| CacheTree.dfy | the cached tree objects of the index, `cache-tree.c` | In every state reachable by edits, invalidations and updates every valid node agrees with a rebuild from the index; `cache_tree_verify` accepts a known set of trees, and of those with right entry counts exactly the ones that agree; trees written never name missing objects. |
| Blame.dfy, BlameMove.dfy, BlameIgnore.dfy, BlameWorld.dfy, BlameRun.dfy | the blame engine: dividing entries along diffs, moved and copied lines (`-M`, `-C`), ignored commits (`--ignore-rev`), the queue | For every history, queue order and set of ignored commits the run ends and every line asked about is in exactly one final entry (`Scoreboard.AssignBlame`). Its suspect changed the line with respect to its counterparts in all scapegoats, having looked for it elsewhere if asked to, or lies outside the history asked about. A trail of steps from the final image explains where it is, and is the reason for each mark it bears and for each it does not (`Scoreboard.Explained`). Without moves and copies the outcome, marks and all, is a function of the history alone (`Scoreboard.Determined`). |
| CritBit.dfy | the crit-bit tree, `cbtree.c` | Pointer writes refine insertion into a set of keys; lookup and iteration by prefix are exact and in order. |
| Image.dfy, Apply.dfy | applying hunks, `apply.c` | A diff from a to b applied to a gives b, and reversed applied to b it is a diff to a; a hunk is applied only where it fits, at the nearest place, with the least reduction of context that fits, and never over lines written before. |
| Hunks.dfy, SplitHunk.dfy, AddPatch.dfy | `git add -p`: splitting, merging, reassembling, `add-patch.c` | The patch written for a selection of hunks, split in any way, is a diff between the two files that differ in exactly those hunks if and only if overlapping hunks taken have a line of the new file before the overlap; its text is then read back as written, and applying it gives that file, with or without a newline at the end (`FileDiff.ApplySelection`, through the model of `apply.c`). |
| Attr.dfy | attribute lookup, `attr.c` | The values for a path do not depend on the paths looked up before; the incremental stack equals a fresh one. |
| BundleUri.dfy | fetching bundles by creation token, `bundle-uri.c` | The walk that goes down on failure and up on success is followed step by step; for which lists it ends is characterised exactly (`EndsIff`), every bundle it visits is applied or failed, and what it stores is the largest token applied; `unbundle_all_bundles` reaches the least fixed point. |
| Bisect.dfy | choosing a commit to test, `bisect.c` | Weights are numbers of commits reached; the commit chosen is half-way or as good as any whose weight is known, and when that is all of them is characterised exactly. |
| Tar.dfy | blocked output and pax records, `archive-tar.c` | Output is the padded payloads in order, in whole blocks; a pax record's length counts its own digits. |
| Alias.dfy | quoting and splitting command lines, `alias.c` | Splitting in place refines a reading of the line, and undoes quoting. |
| Base85.dfy | `base85.c` | Decoding undoes encoding for every length; the overflow test is exact. |
| Bloom.dfy | changed-path filters, `bloom.c` | A filter has exactly the bits of the changed paths and their directories; no query for them is answered no; relabelling a filter to another hash version is sound. |

## How the parts fit

- A specification function (`Naive`, `Build`, `Fresh`, `Enc`, `Parse`, ...) says what an operation computes without
  its caches, indices or in-place writes. The method is proved equal to it, and the properties promised are proved of
  the function.
- A run is a class whose methods keep `Valid()`. `IndexState`, `Scoreboard`, `CbTree`, `Check`, `Patch`, `FileDiff`,
  `BundleList`, `Bisection`, `Archive` and `Filter` are such classes. `Scoreboard.Left()` and the measures of the other
  loops show that runs end.
- AddPatch uses Hunks for what a selection means and Apply for what applying does, so the last theorem crosses both.

## Where the code is not what it seems

- `verify_cache` says that a file and a directory of the same name are neighbours in the index
  (`cache-tree.c:193-196`). They need not be: "a", "a-b", "a/c". `ClashNotFound` is that index, `WhatVerifyCacheMisses`
  says exactly which clashes are missed, `VerifyCacheComplete` when none is.
- `verify_one` takes entry counts on trust: with a wrong count it compares the wrong stretch of the index.
  `CountOnTrust` is a tree accepted that way; `VerifyOne` says exactly what is accepted, and that with right counts it
  is what agrees with the index.
- `merge_hunks` takes hunks for separate if the new offset does not grow (`add-patch.c:790`). A hunk at the first line
  that begins with removed lines can be split so that this misses an overlap: `StrictTestMisses`. `StrictTest` gives the
  exact condition. The patch of a selection is a diff whenever no overlap is missed (`SelectionIsDiff`) and never
  otherwise (`NotMergeable`), and only the first two hunks need a look (`MergeableIs`).
- `do_find_bisection` counts merges that do not change the tree, so it can stop before all weights are known:
  `CrowdedOut` is such a history, `ChooseInCrowd` shows that the root is chosen in it, and
  `Bisection.DoFindBisection` states for lists with parents first exactly when it happens.
- `find_pos` sends a negative line number to the end of the file, not to its beginning (`StartLine`).
- The token walk of `bundle-uri.c` starts without a direction; a first bundle that is new and marked as unbundled from
  the start keeps it in place for ever, once it has a file (`StaysForever`). `EndsIff` says that the walk is sure to end
  exactly when the first bundle is not so, and `BundleList.Walk` asks for that and nothing else.
- `bloom_keyvec_new` asserts that it made as many keys as the path has slashes and one. `TooManySlashes` is a path for
  which it did not; `KeyVec` takes every path, and `EnoughSlashes` says that the assertion holds exactly for paths that
  do not begin with a slash.
- An ignored commit with several parents is passed over to one parent after the other, and what one pass leaves is not
  put in order for the next. The order of first lines is kept whatever the guesses exactly when no two entries share
  more than two lines (`StaysInOrder`, `StaysOutOfOrder`). It does not matter: all a pass needs is order of hunks, and
  that is kept (`StaysByHunk`, `HunkDone`, `StillInHunkOrder`).
- `split_hunk` has a branch for "no newline" markers that counts them like lines (`add-patch.c:999-1010`). It is never
  taken: a marker follows the last line of a side, and no run of changes follows that (`ReadsNoMarker`).
- The `die` on an empty sub-tree (`cache-tree.c:344`), the `BUG`s on counts in `split_hunk` and on the length of a pax
  record, and the internal error of `blame_chunk_cb` cannot happen in these models.

## Model

| member | source | states |
|---|---|---|
| `FuzzyMatch.NaiveOrdered` | blame.c:765-914 | The reference never crosses matches: lines of B in order get lines of A in order, inside the range of A. |
| `FuzzyMatch.NaiveLowers` | blame.c:482-500 | Matching only takes byte pairs away, and only from lines of A inside the range. |
| `FuzzyMatch.ScanIsTop` | blame.c:659-698 | What the search loop finds is really the best and the second best line, ties resolved as specified. |
| `FuzzyMatch.TopUnique` | blame.c:659-698 | The best and second best lines are determined by that specification, so any two searches agree. |
| `FuzzyMatch.FreshInRange` | blame.c:659-730 | A best line, if there is one, is near and in range and has positive certainty; certainty is never about a line outside. |
| `FuzzyMatch.NoneCertain` | blame.c:785-807 | If no line of B is certain of a match then none has a match. |
| `FuzzyMatch.LowerScore` | blame.c:463-478 | Taking byte pairs away from a line of A can only lower its similarity with a line of B. |
| `FuzzyMatch.FreshStable` | blame.c:819-876 | Remembering a search is sound: if the range shrinks around the best two lines, and the one line whose fingerprint shrank is neither of them, a new search gives the same answer. |
| `FuzzyMatch.FarSurvives` | blame.c:819-827 | Lines of B further away than the window keep their best two lines on the right side of any match. |
| `FuzzyMatch.UncrossedSurvives` | blame.c:849-876 | What the invalidation loops leave remembered is not affected by the match just made. |
| `FuzzyMatch.SurvivorOk` | blame.c:819-876 | A remembered answer that survives is the answer of a fresh search in the smaller range with the subtracted fingerprint. |
| `FuzzyMatch.WindowBound` | blame.c:947-966 | The arithmetic behind max_search_distance_b. |
| `FuzzyMatch.WindowIsWide` | blame.c:947-966 | Lines of B more than the window apart map to lines of A more than twice the search distance apart. |
| `FuzzyMatch.CrossingIsInWindow` | blame.c:947-966 | Two lines of B whose matches could cross are within the window, so looking only there is enough. |
| `FuzzyMatch.ChunkHasRows` | blame.c:561-607 | The similarity table has its own slot for each pair of near lines, inside the allocated array. |
| `FuzzyMatch.Matcher.constructor` | blame.c:968-983 | The arrays start with nothing remembered. |
| `FuzzyMatch.Matcher.Similarity` | blame.c:671-688 | A remembered or computed similarity is the current similarity of the two lines, whatever was subtracted before. |
| `FuzzyMatch.Matcher.BestTwo` | blame.c:659-698 | The search with remembered similarities finds the same two lines as a search from scratch. |
| `FuzzyMatch.Matcher.FindBestLineMatches` | blame.c:636-731 | Match, second best and certainty of a line are what a fresh search gives; nothing else is touched. |
| `FuzzyMatch.Matcher.FindMostCertain` | blame.c:785-807 | The line found is the first most certain one of a fresh search over all lines. |
| `FuzzyMatch.Matcher.ForgetSimilarities` | blame.c:829-847 | Exactly the similarities of the subtracted line within the lines at hand are forgotten. |
| `FuzzyMatch.Matcher.ForgetMatches` | blame.c:849-876 | Certainties are forgotten or kept as they are, and none kept within the window crosses the new match. |
| `FuzzyMatch.Matcher.Choose` | blame.c:785-876 | The choice, the subtraction and the invalidation leave every remembered answer valid for the half it is needed in. |
| `FuzzyMatch.Matcher.FirstHalf` | blame.c:878-890 | The first recursive call computes the reference of its half and leaves what the second half needs. |
| `FuzzyMatch.Matcher.Recurse` | blame.c:765-914 | The memoised divide and conquer computes exactly the reference: same matches, same remaining fingerprints. |
| `FuzzyMatch.MatchChunk` | blame.c:925-1002 | A chunk with lines in the parent is matched as the reference does, for every input. |
| `FuzzyMatch.ReferenceOrdered` | blame.c:925-1002 | One match or none per line of the chunk, in line order, inside the parent's part. |
| `FuzzyMatch.FuzzyFindMatchingLines` | blame.c:925-1002 | No result exactly when the parent has no lines; otherwise the reference's matches, never crossing, inside the parent's part. |
| `FuzzyMatch.FirstMostCertain` | blame.c:785-807 | No line of the range is more certain than the one chosen, and none before it is as certain. |
| `CacheTree.SubtreePos` | cache-tree.c:58-77 | Finds a subtree by name, or the place where the order by length and bytes would have it. |
| `CacheTree.DoInvalidatePath` | cache-tree.c:112-156 | Computes the invalidation of a path: nodes on it are marked, and a subtree of its last name removed. |
| `CacheTree.EditThenInvalidate` | cache-tree.c:112-162 | For every edit of one entry: if every valid node agreed with the index before, then after the edit and the invalidation of its path every valid node agrees with the new index. |
| `CacheTree.CoherentElsewhere` | cache-tree.c:112-162 | Nodes of directories the edited path is not below keep agreeing. |
| `CacheTree.PrefixContiguous` | cache-tree.c:310-319 | In byte order the names with a common prefix are contiguous. |
| `CacheTree.OneRun` | cache-tree.c:310-319 | In a sorted index the entries below a directory are one run, found by stopping at the first that is not. |
| `CacheTree.GroupAt` | cache-tree.c:321-345 | The entries of a subdirectory that starts at an entry are the run below it, and nowhere else. |
| `CacheTree.BuildSubtree` | cache-tree.c:359-386 | What the entries of a subdirectory add to the tree object is one item, with the tree rebuilt from them alone. |
| `CacheTree.FindSubtree` | cache-tree.c:79-104 | The subtree found or made is in the list, in order, and the others are as they were. |
| `CacheTree.DiscardUnused` | cache-tree.c:218-233 | Exactly the subtrees marked used stay, in order. |
| `CacheTree.UpdateSubtree` | cache-tree.c:331-348 | A subdirectory is brought up to date, counted as many entries as it has, and nothing valid is lost, whatever fails. |
| `CacheTree.UpdateSubtrees` | cache-tree.c:303-349 | After the first loop every subdirectory with entries has a used, valid and stored node; nothing else changes. |
| `CacheTree.SubtreeItem` | cache-tree.c:375-386 | A subtree's item is the one a rebuild from the index gives, and the cursor moves to the next group. |
| `CacheTree.WriteTree` | cache-tree.c:356-440 | The buffer is exactly the tree rebuilt from the index entries; it fails only on a missing or null object, and names none that is missing. |
| `CacheTree.UpdateOne` | cache-tree.c:256-472 | Whatever it returns, every valid node agrees with the index; on success the count and object are those of a rebuild; with all objects there it succeeds; the store gains only complete trees. |
| `CacheTree.FailedUpdate` | cache-tree.c:256-472 | A failed update leaves every valid node in agreement. |
| `CacheTree.StaysConnected` | cache-tree.c:398-409 | Unless missing objects are allowed, writing the trees keeps the store closed under what trees name. |
| `CacheTree.StartOfDirectory` | cache-tree.c:919-941 | The entries of a directory start where its name with the slash would be inserted. |
| `CacheTree.NamePos` | read-cache.c:508-551 | Position of the name, or where it would be inserted, by binary search. |
| `CacheTree.AddsSubtree` | cache-tree.c:964-977 | In verifying, a coherent child stands for exactly the entries of its directory. |
| `CacheTree.VerifyEntry` | cache-tree.c:949-985 | One turn adds the item and moves the cursor as the node and the index say, whatever the counts are; where the cursor is at a directory's own entries it fails exactly when their subdirectory has no valid node, and adds what a rebuild adds. |
| `CacheTree.VerifyContent` | cache-tree.c:948-998 | Accepts exactly when the stretch of the index that the count covers reads as the tree the node names; with the right count, exactly when the node agrees with a rebuild. |
| `CacheTree.VerifyOne` | cache-tree.c:894-1003 | Accepts exactly the trees whose every valid node reads as its stretch of the index; a tree is coherent exactly when it is accepted and its counts are right. |
| `CacheTree.VerifyCache` | cache-tree.c:164-216 | Accepts exactly when no two neighbouring entries are a file and something below it. |
| `CacheTree.NextClashesOrShadows` | cache-tree.c:193-196 | After a file that clashes comes an entry that clashes too, or one that sorts between the file and its directory. |
| `CacheTree.WhatVerifyCacheMisses` | cache-tree.c:193-213 | verify_cache accepts exactly when every clash is hidden by the entry after the file. |
| `CacheTree.VerifyCacheComplete` | cache-tree.c:193-213 | Where no entry sorts between a file and its directory, it finds every clash. |
| `CacheTree.ClashNotFound` | cache-tree.c:193-196 | An index with a file and a directory of one name that it accepts. |
| `CacheTree.IndexState.constructor` | cache-tree.c:474-502 | A new index with no valid node is coherent. |
| `CacheTree.IndexState.EditEntry` | cache-tree.c:158-162 | Editing an entry and invalidating its path keeps the invariant, for every edit. |
| `CacheTree.IndexState.Update` | cache-tree.c:474-502 | Success gives the tree a rebuild gives, with all entries counted and the object stored; failure keeps the invariant; it succeeds if the objects are there and no neighbours clash. |
| `CacheTree.IndexState.Verify` | cache-tree.c:1005-1033 | It accepts in every state these operations reach; with the counts right it accepts no other. |
| `CacheTree.CountOnTrust` | cache-tree.c:942-1003 | An index and a tree that is accepted though it does not agree with the index: its count covers the first of two entries only. |
| `Blame.SplitKeepsLines` | blame.c:1636-1650 | Splitting an entry loses and doubles no line. |
| `Blame.GapLine` | blame.c:1922-1934 | A line between hunks is in no hunk, and is shifted by the difference of the hunks before. |
| `Blame.GoodShifted` | blame.c:1828-1833 | An entry between two hunks shows the same lines in the parent's file at the shifted numbers. |
| `Blame.PassedEntry` | blame.c:1811-1835 | An entry that starts before a hunk: the part passed and the part left have all its lines, rightly numbered. |
| `Blame.KeptEntry` | blame.c:1865-1892 | An entry that starts in a hunk: the part kept and the part left have all its lines. |
| `Blame.PassBefore` | blame.c:1811-1845 | Everything before a hunk goes to the parent, cut at the hunk, in order, conserving lines. |
| `Blame.KeepInside` | blame.c:1852-1911 | Everything inside a hunk stays, cut at its end, in order, conserving lines. |
| `Blame.Divide` | blame.c:1941-1977 | Over a whole diff: the lines in hunks stay as they are, all others go to the parent at their shifted numbers, marks and order kept, and each line of the image is in one place; what stays is parts of the entries there were, each inside one hunk. |
| `Blame.KeptEvery` | blame.c:1941-1977 | The lines that stay are lines there were before, each inside a hunk, with guesses or without. |
| `Blame.BlameMerge` | blame.c:1076-1114 | Merging two ordered lists keeps order and has the lines of both. |
| `BlameMove.SplitOverlap` | blame.c:1508-1555 | The chunk is all of the entry the stretch has, it is in the parent's file, and with the parts around it makes the entry. |
| `BlameMove.CopySplitIfBetter` | blame.c:2015-2033 | One of the two splits, scoring no lower than either. |
| `BlameMove.HandleSplit` | blame.c:2050-2066 | The stretch replaces the split at hand only if it scores no lower; nothing else can. |
| `BlameMove.GapIsSame` | blame.c:2077-2086 | A stretch between hunks is the same text in the entry and in the parent's file. |
| `BlameMove.FindCopyInBlob` | blame.c:2093-2122 | Of all stretches of the entry in the parent's file the split takes one that scores as high as any. |
| `BlameMove.SplitBlame` | blame.c:1562-1593 | The chunk goes to the parent, the parts around it stay, no line is lost, and fewer lines are left to try. |
| `BlameMove.FilterSmall` | blame.c:2129-2150 | Sets aside exactly the entries that score no more than the minimum. |
| `BlameMove.TryAll` | blame.c:2180-2197 | One pass conserves lines, passes only what scores enough, leaves only entries without such a stretch, and leaves fewer lines to try. |
| `BlameMove.FindMoveInParent` | blame.c:2156-2199 | It ends; every line is passed, left in an entry that has no stretch in the parent scoring enough, or set aside in an entry that is too small; what is left or set aside is parts of the entries there were, and what is passed keeps its marks. |
| `BlameMove.SortEntries` | blame.c:2388-2404 | The same lines in entries of the list, in order of the suspect's lines. |
| `BlameMove.TakeGroup` | blame.c:2388-2404 | Splits the list into the entries of one suspect and the others. |
| `BlameMove.BestSplits` | blame.c:2284-2316 | For each entry the split taken is one of a file tried, and scores as high as any stretch of it in any of the files. |
| `BlameMove.TryCopies` | blame.c:2279-2335 | One round conserves lines, passes only what scores enough, leaves only entries without such a stretch in any file, and leaves fewer lines to try. |
| `BlameMove.FindCopyInParent` | blame.c:2234-2338 | It ends; every line is passed to one of the files, left in an entry that has no stretch in any of them scoring enough, or set aside in an entry that is too small; what is left or set aside is parts of the entries there were, and what is passed keeps its marks. |
| `BlameIgnore.ScanParentRange` | blame.c:1664-1685 | The most similar line of the range if any reaches the threshold, of several the closest to the target's number, and of two as close the later. |
| `BlameIgnore.GuessInRange` | blame.c:1693-1724 | Every guess is a line of the parent. |
| `BlameIgnore.GuessLineBlames` | blame.c:1693-1724 | One tracker per line of the hunk: the match among the hunk's own lines, or else the best line of the whole parent by what earlier matches left of its fingerprints, or else the target's line. |
| `BlameIgnore.IsTracking` | blame.c:1859-1863 | Hunk by hunk, with the fingerprints each hunk leaves, the trackers are the guesses for the whole diff. |
| `BlameIgnore.PieceLines` | blame.c:1756-1781 | A run of adjacent lines goes as a whole to the lines of the parent guessed for it, or stays as a whole. |
| `BlameIgnore.PieceStays` | blame.c:1756-1781 | Runs that cannot be made longer leave exactly the longest stretches without a guess. |
| `BlameIgnore.StaysStart` | blame.c:1736-1785 | What stays of one entry starts at lines without a guess, each at the entry's start or after a line with one, in order. |
| `BlameIgnore.StartStays` | blame.c:1736-1785 | Every such line starts an entry that stays. |
| `BlameIgnore.StaysInOrder` | blame.c:1736-1785 | What stays of two entries that share at most two lines is in order of first lines, whatever the guesses. |
| `BlameIgnore.StaysOutOfOrder` | blame.c:1736-1785 | For any two entries that share more than two lines there are guesses that leave it out of that order. |
| `BlameIgnore.OrderedByHunk` | blame.c:1852-1911 | Entries in order of first lines, each inside a hunk, are in order of hunks. |
| `BlameIgnore.StaysByHunk` | blame.c:1852-1911 | What stays of entries in order of hunks is in order of hunks, whatever the guesses. |
| `BlameIgnore.HunkDone` | blame.c:1852-1911 | When the next entry starts beyond a hunk, nothing after it is in that hunk: order of hunks is all a pass needs. |
| `BlameIgnore.IgnoreBlameEntry` | blame.c:1736-1785 | Every line of the entry goes to the parent's line guessed for it, marked ignored, or stays if there is none, marked unblamable; other marks are kept; what stays is the longest stretches without a guess. |
| `BlameIgnore.IgnoreInside` | blame.c:1852-1911 | Everything inside a hunk goes, marked ignored, where it is guessed to come from, or stays, marked unblamable, if there is no guess; entries need only be in order of hunks. |
| `BlameIgnore.DivideIgnoring` | blame.c:1941-1977 | Over a whole diff, line by line with marks: lines outside hunks go to the parent shifted, lines in hunks go where they are guessed to come from, marked ignored, and exactly the lines in hunks without a guess stay, marked unblamable; each line of the image is in one place. |
| `BlameWorld.StepFalls` | blame.c:2413-2579 | A step of a trail leads to a commit of lower rank, or marks the line where it is; marks are never taken away and the line of the final image stays the same. |
| `BlameWorld.Marks` | blame.c:1736-1785 | A line is marked ignored exactly if its trail has a step by which an ignored commit's change was guessed to come from there, and unblamable exactly if it has one at which there was no guess. |
| `BlameWorld.NotIgnored` | blame.c:1736-1785 | A line whose trail meets no ignored commit has no mark. |
| `BlameWorld.PassedTraced` | blame.c:1941-1977 | Lines divided by a diff have trails to where they go, and stay bound to end where they were. |
| `BlameWorld.GuessedTraced` | blame.c:1941-1977 | Lines divided by guesses have trails to where they go, and stay bound to end where they were; those that stay are unblamable. |
| `BlameWorld.MovedTraced` | blame.c:2156-2338 | Lines found elsewhere have trails to where they are found. |
| `BlameWorld.GoesToFirst` | blame.c:2470-2484 | A line in hunks of the first files found goes to the next if that has it, which is where the history says it goes. |
| `BlameWorld.GoesToGuess` | blame.c:2486-2507 | A line no file found has goes to the first for which there is a guess, marked. |
| `BlameWorld.StaysPut` | blame.c:2413-2579 | A line that no file found has, and for an ignored commit no guess, goes nowhere. |
| `BlameRun.Scoreboard.constructor` | blame.c:1215-1231 | What is asked about is all pending with the final origin, unmarked. |
| `BlameRun.Scoreboard.GetOrigin` | blame.c:87-103 | The origin is known afterwards, and nothing pending moves. |
| `BlameRun.Scoreboard.QueueBlames` | blame.c:1215-1231 | The suspect has its lines and the new ones, in order, and its commit is in the queue. |
| `BlameRun.Scoreboard.PassBlameToParent` | blame.c:1941-1977 | Target keeps the lines in hunks, parent gains the others shifted, and the work left falls. |
| `BlameRun.Scoreboard.PassWholeBlame` | blame.c:2339-2357 | All lines move to the identical file. |
| `BlameRun.Scoreboard.TryScapegoat` | blame.c:2439-2467 | One scapegoat in one pass: the file is the origin's own, like one found already, or noted. |
| `BlameRun.Scoreboard.FindScapegoats` | blame.c:2436-2468 | Finds what two passes over the scapegoats find, in their order: an identical file, or one file for each scapegoat that has a new version; every counterpart, by name or else by rename, is then different and represented among those found. |
| `BlameRun.Scoreboard.PassToScapegoats` | blame.c:2470-2484 | What stays is in a hunk of the comparison with every file found. |
| `BlameRun.Scoreboard.CollectMoves` | blame.c:2512-2526 | Of what an origin keeps, the parts found in scapegoats' files are theirs; what is left is the origin's own and part of an entry of which nothing that scores enough was found, for every file found, and what is set aside is part of an entry too small. |
| `BlameRun.Scoreboard.DistributeBlame` | blame.c:2388-2404 | Every suspect gets its entries, sorted and merged; nothing is lost and the work left falls. |
| `BlameRun.ChangedFromAll` | blame.c:2436-2484 | Lines in hunks against all files found are changed from the counterparts in all scapegoats. |
| `BlameRun.Scoreboard.PassBlame` | blame.c:2413-2579 | Conserves lines and lowers the work left. The origin keeps only lines that differ from its counterparts in all scapegoats; if it is ignored and has a counterpart, all of them are unblamable; if moved or copied lines are looked for, every entry kept is too small or has been looked for in every file found, and among the other files of every scapegoat, without a stretch that scores enough. If nothing is looked for elsewhere, the lines kept are those the history alone says stay. |
| `BlameRun.Scoreboard.TakeResponsibility` | blame.c:2624-2641 | What is left with the origin becomes final, and nothing else moves. |
| `BlameRun.Scoreboard.BreakDown` | blame.c:2594-2641 | One suspect: what it ends with is settled, and the work left falls. |
| `BlameRun.Scoreboard.AssignBlame` | blame.c:2582-2647 | For every history, queue order, set of ignored commits, with or without moves and copies: it ends; every line asked about is in exactly one final entry; its place there is the end of a trail of steps, each with a reason, that starts at the line of the final image, which it still shows unless a step guessed; the suspect keeps it for the reasons in the row of PassBlame, or is a commit to stop at or an ancestor of one. |
| `BlameRun.CostFalls` | blame.c:2582-2647 | A line passed to a commit of lower rank lowers the measure by which the run ends. |
| `BlameRun.JoinEntries` | blame.c:1186-1207 | Adjoining entries as one show the same lines. |
| `BlameRun.BlameCoalesce` | blame.c:1186-1207 | The same lines in entries of which no two neighbours adjoin with the same marks. |
| `BlameRun.Scoreboard.Enqueue` | blame.c:1215-1231 | The commit of the origin is in the queue or at hand, and nothing leaves the queue. |
| `BlameRun.FoundIfAny` | blame.c:2436-2468 | If any scapegoat has a counterpart, one is found. |
| `BlameRun.Scoreboard.PassIgnoredToParent` | blame.c:1941-1977 | Target keeps exactly the lines no guess is made for, marked unblamable, in the order they come; parent gains the others at the lines guessed, marked ignored; the work left falls. |
| `BlameRun.Scoreboard.PassIgnored` | blame.c:2486-2507 | What an ignored commit is left with is passed to the counterparts in turn: conserves lines, lowers the work left; what stays differs from every counterpart, has no guess in any, and is unblamable if there was one. |
| `BlameRun.StillInHunkOrder` | blame.c:2486-2507 | What stays after one counterpart is in order of hunks of the comparison with every other, so the next pass meets what it needs. |
| `BlameRun.MovesIn` | blame.c:2156-2199 | What is found in a counterpart's file is its own, with a trail; what is not is part of an entry that has no stretch there scoring enough. |
| `BlameRun.CopiesIn` | blame.c:2234-2338 | What is found among other files of a scapegoat is theirs, with a trail; what is not is part of an entry that has no stretch in any of them scoring enough. |
| `BlameRun.CopyCandidates` | blame.c:2531-2540 | What is set aside is too small to be a copy; what was too small to be moved is taken up again if copies may be smaller. |
| `BlameRun.Scoreboard.HandMoved` | blame.c:2554-2570 | The origin keeps what was not found, whoever it was found with gets the rest, and the work left falls. |
| `BlameRun.Scoreboard.FindElsewhere` | blame.c:2509-2570 | Looking for moved and copied lines conserves lines, lowers the work left, and what stays is the origin's own and has been looked for wherever it should. |
| `BlameRun.Scoreboard.Explained` | blame.c:2582-2647 | Every line of a final entry has a trail from the final image to it. It is marked ignored or unblamable exactly if the trail has a step that says so, has no mark if the trail meets no ignored commit, and unless it is marked ignored it shows the text of the final image. |
| `BlameRun.Scoreboard.Determined` | blame.c:2582-2647 | If nothing is looked for elsewhere and no commit stops the search, every line ends, marks and all, where following the history from the final image leads, whatever the order of the queue and the cutting into entries. |
| `BlameRun.Scoreboard.CollectCopies` | blame.c:2528-2552 | Of what is left the parts found among other files are theirs; what is left then is the origin's own and part of an entry of which nothing that scores enough was found, for every scapegoat, and what is set aside is part of an entry too small; both are parts of what there was. |
| `CritBit.DirectionIsBit` | cbtree.c:16-27 | The arithmetic of the direction is a test of the critical bit. |
| `CritBit.NewOtherbitsIsFirstDifference` | cbtree.c:54-59 | The twiddling clears exactly the highest bit in which two bytes differ. |
| `CritBit.SideOrder` | cbtree.c:99-109 | Of two keys that first differ at a critical bit the one on the left is less. |
| `CritBit.BestFinds` | cbtree.c:92-97 | A key is in the tree exactly when the best match is the key itself. |
| `CritBit.GraftOk` | cbtree.c:30-90 | Inserting at the first difference from the best match keeps the crit-bit invariant: positions increase downwards and each parts its keys. |
| `CritBit.GraftKeys` | cbtree.c:30-90 | Insertion adds the key and keeps all others. |
| `CritBit.GraftReflects` | cbtree.c:63-87 | The pointer writes of the insertion make in memory the tree that the insertion describes. |
| `CritBit.GraftIds` | cbtree.c:30-90 | Each node is once a leaf and at most once an inner node. |
| `CritBit.InOrderAscending` | cbtree.c:99-109 | Left to right is strictly ascending byte order. |
| `CritBit.TopHasAll` | cbtree.c:111-136 | Every key with the prefix is below the top found. |
| `CritBit.TopTogether` | cbtree.c:111-136 | The keys below the top have the prefix all or none. |
| `CritBit.TopListsPrefix` | cbtree.c:111-136 | Hence one comparison decides, and the walk lists exactly the keys with the prefix, ascending. |
| `CritBit.CbTree.constructor` | cbtree.h:38-44 | A tree with no keys. |
| `CritBit.CbTree.BestMatch` | cbtree.c:16-27 | The walk through memory ends at the leaf the best match is in. |
| `CritBit.CbTree.Lookup` | cbtree.c:92-97 | A node is found exactly when some key has the given prefix, and it is one of those. |
| `CritBit.CbTree.FirstDifferent` | cbtree.c:47-61 | The position is where the keys first differ; none exactly when they are equal. |
| `CritBit.CbTree.FindPlace` | cbtree.c:67-84 | The slot is where the new node belongs in the order of positions. |
| `CritBit.CbTree.Join` | cbtree.c:63-87 | Only the new node and one child slot change, and memory then holds the grafted tree. |
| `CritBit.CbTree.Insert` | cbtree.c:30-90 | The set of keys grows by the key; the result is null exactly when it was not there, and otherwise names the node that has it and nothing changes. |
| `CritBit.CbTree.Descend` | cbtree.c:99-109 | Visits the leaves in ascending order until the callback stops it. |
| `CritBit.CbTree.Each` | cbtree.c:111-136 | The keys visited are a prefix of the ascending list of exactly the keys that have the prefix, all of it unless the callback stops it, which it does at the first chance. |
| `Image.Image.Prepare` | apply.c:329-351 | The table of lines describes the bytes, cut after each LF. |
| `Image.Image.Append` | apply.c:315-322 | A line is added to bytes and table alike. |
| `Image.Image.RemoveFirstLine` | apply.c:353-359 | Drops the first line from bytes and table. |
| `Image.Image.RemoveLastLine` | apply.c:361-366 | Drops the last line from bytes and table. |
| `Image.Image.Offset` | apply.c:2741-2743 | The sum of line lengths is the byte offset of the line. |
| `Image.LinesFromBytes` | apply.c:2543-2557 | Bytes that begin with complete lines begin with those lines. |
| `Image.FitsIsEqual` | apply.c:2483-2557 | On complete lines, hashes and bytes match exactly where the lines are equal and no earlier hunk has been. |
| `Image.Image.MatchFragment` | apply.c:2483-2557 | Says exactly whether the preimage fits at the line, byte for byte; white space is not ignored. |
| `Image.StartLine` | apply.c:2713-2739 | Where the search starts is always inside the file; a line in the file is where it starts, and a negative one sends it to the end. |
| `Image.Image.FindPos` | apply.c:2701-2787 | Finds a place if there is one, and of all places the one nearest to the start, forward first. |
| `Image.Image.Update` | apply.c:2794-2859 | Exactly the matched lines are replaced, in bytes and table, and the new ones marked. |
| `Image.EqualFits` | apply.c:2483-2557 | Equal lines that no hunk wrote are a fit, with or without a newline at the end. |
| `Apply.ParseFragment` | apply.c:1679-1787 | Reads lines with their "no newline" markers. A hunk is read exactly when a prefix of the lines has the counts of the header, each marker taken with the line before it; it is that prefix, with a marker after it if there is one, and leading and trailing context are those of that prefix. |
| `Apply.ReadLine` | apply.c:2909-2971 | One line goes to the preimage, the postimage or both, as its sign and the direction say. |
| `Apply.ReadBody` | apply.c:2888-2984 | Preimage and postimage are the two sides of the hunk, a line without its LF where a marker follows; it fails exactly on an unknown sign. |
| `Apply.SideAtLeast` | apply.c:3040-3055 | Context is on both sides, so trimming it never exceeds either. |
| `Apply.Reduce` | apply.c:3024-3056 | Finds the least reduction of context, in the order the code tries them, at which the preimage fits anywhere; reports failure only if no reduction allowed fits. |
| `Apply.Search` | apply.c:2994-3056 | Finds the place of the header if it fits there; otherwise the least reduction that fits; reports failure only if nothing fits at any reduction allowed; trims nothing when context may not be reduced. |
| `Apply.ApplyOneFragment` | apply.c:2866-3114 | Success replaces the trimmed preimage by the trimmed postimage and nothing else, at the least reduction of context that fits; failure changes nothing and means that no allowed reduction fits; a hunk that fits where its header says is applied there. |
| `Apply.ReverseIsDiff` | apply.c:2216-2233 | Exchanging the ranges of a diff from a to b and reading it in reverse gives a diff from b to a. |
| `Apply.HunkFits` | apply.c:2866-3114 | In the half patched file the next hunk of a diff fits exactly where its new range says. |
| `Apply.NextApplied` | apply.c:3242-3264 | After it the file is the new one up to there and the old one beyond. |
| `Apply.DoneKeepsWritten` | apply.c:2483-2557 | A hunk never takes away lines that earlier hunks wrote. |
| `Apply.Patch.Reverse` | apply.c:2216-2233 | Reversing a diff from a to b makes it a diff from b to a. |
| `Apply.Patch.Apply` | apply.c:3242-3264 | A diff from a to b applied to a gives b, byte for byte; and for any hunks that apply without overlap, what they write is all there in the end. |
| `Apply.CutsNext` | apply.c:3040-3055 | Each reduction takes a line from the longer end, or from both if they are equal, until no more than the context always kept is left. |
| `Apply.FirstCutNext` | apply.c:3024-3056 | If the preimage as reduced so far fits nowhere, the next reduction is the first candidate, or there is none. |
| `Apply.DetachAttach` | apply.c:1735-1770 | Writing markers as lines of their own and attaching them to the lines before undo each other. |
| `Apply.StopsThere` | apply.c:1679-1787 | A hunk text in which markers follow only lines is read to its end and not beyond. |
| `Apply.ReadBack` | apply.c:1679-1787 | A hunk written as text is read as that hunk, whatever follows that is no marker. |
| `Apply.ReadPatch` | apply.c:1679-1836 | Hunks written one after the other, each with its markers, are read as those hunks. |
| `Hunks.Diff.OffsetsAgree` | add-patch.c:667-728 | The headers of a consistent diff say where the new lines are when all hunks are applied. |
| `Hunks.Diff.OffsetsAreRight` | add-patch.c:701-704 | Header offsets shifted by the hunks not taken are the true places in the two files the patch is between, in both directions. |
| `Hunks.Diff.GroupInResult` | add-patch.c:764-889 | The lines of hunks that join are in the resulting file in one piece, at the place of the first. |
| `Hunks.Diff.MergedIsHunk` | add-patch.c:764-889 | The merged hunk is a hunk between the two files. |
| `Hunks.Diff.SharedEnds` | add-patch.c:764-889 | Context shared with the next hunk ends before the next hunk's changes do. |
| `Hunks.Diff.SameUntaken` | add-patch.c:891-925 | A hunk not taken is the same in both files. |
| `Hunks.Diff.OutNone` | add-patch.c:891-925 | With nothing picked the result is the file itself. |
| `Hunks.Diff.EmittedIsDiff` | add-patch.c:891-925 | If overlapping hunks taken join, what is written from a hunk on takes the one file from there on to the other. |
| `Hunks.Diff.SelectionIsDiff` | add-patch.c:891-925 | If overlapping hunks taken join, the patch of the selection is a diff between the two files that differ in exactly the hunks taken. |
| `Hunks.ContextJoins` | add-patch.c:783-793 | A hunk that begins with context joins any that overlaps it. |
| `Hunks.Diff.LaterContext` | add-patch.c:764-889 | Every hunk but the first begins with context. |
| `Hunks.Diff.MergeableIs` | add-patch.c:783-793 | All overlapping hunks taken join exactly if the first two do. |
| `Hunks.Diff.NotMergeable` | add-patch.c:764-925 | If some do not join, what is written is not a diff between the two files. |
| `SplitHunk.OneRun` | add-patch.c:927-1085 | Context, changes and context are one run, so a piece cannot be split again. |
| `SplitHunk.PiecesOverlap` | add-patch.c:927-1085 | Pieces that share context overlap. |
| `SplitHunk.ScanFinish` | add-patch.c:1020-1068 | When the next run starts, the piece read so far is a hunk of its own and the next starts with its trailing context. |
| `SplitHunk.ScanRuns` | add-patch.c:927-1085 | The runs still to come are always those left to split into. |
| `SplitHunk.ScanLast` | add-patch.c:1071-1080 | The last piece gets exactly the rest of the counts. |
| `SplitHunk.SplitBody` | add-patch.c:927-1085 | Splitting gives as many pieces as there are runs, each a well-formed hunk with right header, together the whole hunk; a hunk at the first line may begin with a change, and a last line without newline stays with the last piece. |
| `SplitHunk.ReadsNoMarker` | add-patch.c:997-1018 | While runs of changes are still to come, the line read has its newline, so no marker follows it. |
| `AddPatch.GroupCounts` | add-patch.c:878-881 | Counts of joined hunks taken together are those of the lines from first start to last end, so the sanity checks cannot fail. |
| `AddPatch.TestFindsOverlap` | add-patch.c:783-793 | The test on offsets holds exactly when the next hunk overlaps and the first has a line of the new file before it. |
| `AddPatch.StrictTest` | add-patch.c:783-793 | For any overlapping hunks the test holds exactly when the first has a line of the new side before the second starts. |
| `AddPatch.StrictTestMisses` | add-patch.c:783-793 | Two overlapping hunks that the test takes for separate. |
| `AddPatch.SplitConsistent` | add-patch.c:927-1085 | Splitting keeps the hunks of a file consistent. |
| `AddPatch.SplitMergesBack` | add-patch.c:927-1085 | With all pieces taken, merging joins exactly the pieces of the hunk again if the first two join, and otherwise leaves the first by itself. |
| `AddPatch.PieceIsHunk` | add-patch.c:927-1085 | A piece is a hunk of the file. |
| `AddPatch.FileDiff.Split` | add-patch.c:927-1085 | The hunk is replaced by its pieces and the others stay; merging them all gives the hunk back exactly if the first two join, which they do if the hunk begins with context. |
| `AddPatch.FileDiff.MergeHunks` | add-patch.c:764-889 | Merges as far as taken hunks join, with offsets of the first and the counts of the lines covered. |
| `AddPatch.FileDiff.RenderHunk` | add-patch.c:667-728 | The offsets written for a merged hunk are its true places in the file the patch is for and in the one it makes, in both directions; what is written is the hunk between those two files. |
| `AddPatch.FileDiff.ReassemblePatch` | add-patch.c:891-925 | Writes the patch of the selection, for all selections, in both directions. |
| `AddPatch.FileDiff.ApplySelection` | add-patch.c:1778-1803 | The patch of a selection, written out as text, read back and applied, gives exactly the file with the taken hunks changed, and never fails, with or without a newline at the end of either file, whenever every two overlapping hunks taken join. |
| `AddPatch.CountRuns` | add-patch.c:604-639 | The number of pieces a hunk can be split into is the number of runs of changes in its lines, markers aside. |
| `AddPatch.FileDiff.constructor` | add-patch.c:526-642 | Reading the hunks of a diff lays out their lines and gives each the number of pieces it can be split into. |
| `AddPatch.LaterJoin` | add-patch.c:927-1085 | Pieces of a hunk after the first join. |
| `AddPatch.EmittedRead` | add-patch.c:891-925 | Every hunk of the patch of a selection has the counts and the context its reader will find. |
| `Attr.ScanConcat` | attr.c:1088-1107 | Filling from one list of settings and then another is filling from both. |
| `Attr.ScanDone` | attr.c:1088-1107 | Once everything is set nothing changes, so stopping at rem == 0 is safe. |
| `Attr.ScanSets` | attr.c:1069-1086 | What is set stays, and every attribute with a setting gets a value. |
| `Attr.FirstWins` | attr.c:1069-1086 | Without macros an attribute has the value of its first setting in the order of search. |
| `Attr.ScanExpands` | attr.c:1109-1117 | A macro that is set has set, or found set, everything it stands for. |
| `Attr.NextIsChild` | attr.c:1009-1034 | Going on to the end of the next component gives a directory of the one before. |
| `Attr.Check.Bootstrap` | attr.c:909-947 | The stack starts with the built-in, system, user and root frames and the info frame on top. |
| `Attr.Check.PopFrames` | attr.c:980-998 | After popping, the stack is that of the longest known directory the path is in. |
| `Attr.Check.EndOfComponent` | attr.c:1015-1020 | The next separator, or the end of the directory part. |
| `Attr.Check.Prepare` | attr.c:949-1042 | The stack is the one a fresh start would build for the directory, whatever it was for before. |
| `Attr.Check.FillOne` | attr.c:1069-1086 | Settings of a rule, the last first, with macros expanded; rem counts what is unset. |
| `Attr.Check.MacroExpandOne` | attr.c:1109-1117 | A macro set to true sets what it stands for, and nothing otherwise. |
| `Attr.Check.FillFrame` | attr.c:1088-1107 | The matching rules of a frame, the last first. |
| `Attr.Check.Fill` | attr.c:1088-1107 | All frames, the top first, as one scan. |
| `Attr.Check.DetermineMacros` | attr.c:1124-1139 | For every attribute the definition that counts is the last of the topmost frame that has one. |
| `Attr.Check.Collect` | attr.c:1146-1173 | The values depend on the path alone: they are those of the reference, whatever paths were asked for before. |
| `Attr.Check.LastSlash` | attr.c:1154-1165 | Length of the directory part. |
| `BundleUri.LookedNext` | bundle-uri.c:584-651 | What one visit adds to what has been looked at, applied and the largest token. |
| `BundleUri.MarkedNext` | bundle-uri.c:584-651 | One visit keeps the pattern of marks that rules out a cycle, and lowers the measure by which the walk ends. |
| `BundleUri.BundleList.Visit` | bundle-uri.c:585-651 | One turn: what becomes of the bundle, whether the walk halts and where it goes next are those of the event that download and unbundling make. |
| `BundleUri.BundleList.Walk` | bundle-uri.c:584-651 | The walk is a run, step by step, of the course the outcomes determine, and it ends, from every list from which it can. Only bundles that the course applies count as applied, and the newest token kept is the largest of theirs. At the top, something has been applied, and every bundle visited has been applied or has failed, or was marked before. |
| `BundleUri.BundleList.FetchByToken` | bundle-uri.c:524-672 | Nothing is visited if no token is new. Otherwise it is an ended run of the course: it fails exactly when the run does not end at the top, and then stores nothing; on success the token stored is the largest of the bundles applied, above the old one, every bundle visited was applied or failed or was marked before, and bundles not visited are unchanged. |
| `BundleUri.BundleList.UnbundleAll` | bundle-uri.c:806-821 | What is applied in the end is the least set closed under applicability: nothing more can be applied, and nothing was that did not have to be. |
| `BundleUri.KeptNext` | bundle-uri.c:584-651 | Every step of a course keeps what is known of the run, and lowers the measure by which it ends unless it halts. |
| `BundleUri.StaysForever` | bundle-uri.c:584-651 | If the first bundle is new, is marked before the walk starts and has a file or gets one, the walk visits it for ever. |
| `BundleUri.RunsOut` | bundle-uri.c:584-651 | From where it can start, every course comes to an end after some number of visits. |
| `BundleUri.NeverEnds` | bundle-uri.c:584-651 | From where it cannot, no run of such a course ends. |
| `BundleUri.EndsIff` | bundle-uri.c:584-651 | Whatever downloads and unbundlings do the walk ends, exactly for those lists whose first bundle is not both new and marked. |
| `Bisect.Graph.ReachClosed` | bisect.c:45-70 | What a commit reaches is interesting, not after it, and reaches nothing more. |
| `Bisect.WeightFromParent` | bisect.c:371-383 | With one interesting parent the weight is the parent's, plus one if the commit changes the tree. |
| `Bisect.WeightOfRoot` | bisect.c:295-307 | Without interesting parents it is one, or none. |
| `Bisect.FirstHasParent` | bisect.c:352-390 | The first commit without a weight has a parent with one, so every pass makes progress. |
| `Bisect.AllKnown` | bisect.c:352-390 | If every merge changes the tree the count is exact, so all weights that matter are known in the end. |
| `Bisect.Bisection.CountDistance` | bisect.c:45-70 | Flags exactly what the commit reaches and counts those that change the tree, once each. |
| `Bisect.Bisection.CountInterestingParents` | bisect.c:96-108 | The number of interesting parents, the first only when asked. |
| `Bisect.Bisection.Initialize` | bisect.c:290-315 | Every weight given is right, and the count is that of the weights known. |
| `Bisect.Bisection.ClearDistance` | bisect.c:72-79 | Takes the flags off the list. |
| `Bisect.Bisection.CountMerges` | bisect.c:333-348 | Every merge gets its true weight and counts one, whether it changes the tree or not, or one close to the middle is found; commits with a single parent have no weight yet. |
| `Bisect.Bisection.FillOne` | bisect.c:353-388 | A commit with a parent whose weight is known gets its true weight. |
| `Bisect.Bisection.FillPass` | bisect.c:352-390 | Every pass gives at least one more commit its weight, or finds one close to the middle; in a list with parents first one pass gives all. |
| `Bisect.Bisection.FillBlanks` | bisect.c:352-390 | It ends, with as many counted as there are; it changes nothing if the merges alone are that many. |
| `Bisect.Bisection.BestBisection` | bisect.c:187-209 | A commit as far from both ends as any whose weight is known. |
| `Bisect.Bisection.DoFindBisection` | bisect.c:281-398 | A commit whose weight is close to half, or one as good as any whose weight is known. For a list with parents first, all that change the tree have a weight exactly when changing roots and merges are fewer than the commits to count, or nothing else changes the tree. When they are not fewer, no commit with a single parent gets a weight, and a root or merge that changes the tree is chosen if there is one. |
| `Bisect.Bisection.Reverse` | bisect.c:410-431 | The interesting commits the other way round, and how many change the tree. |
| `Bisect.Bisection.FindBisection` | bisect.c:400-451 | Nothing is found exactly when nothing is interesting; the commit found splits the commits as well as any, by the numbers actually reached, when no merge leaves the tree the same. |
| `Bisect.Bisection.CountMerge` | bisect.c:333-348 | One merge gets the number of tree-changing commits it reaches, and the flags are off again. |
| `Bisect.NextHasParent` | bisect.c:352-390 | In a list with parents first, the first commit without a weight has a parent with one. |
| `Bisect.CrowdedOut` | bisect.c:333-352 | A history in which merges that do not change the tree use up the count: only the root is a candidate, though another commit is nearer to the middle. |
| `Bisect.ChooseInCrowd` | bisect.c:281-398 | In the crowded history the root is chosen. |
| `Tar.Padded` | archive-tar.c:94-103 | Data followed by less than a record of filling, a whole number of records. |
| `Tar.Archive.WriteIfNeeded` | archive-tar.c:57-63 | Only a full block is written, and no byte is lost. |
| `Tar.Archive.DoWriteBlocked` | archive-tar.c:69-92 | The bytes written and those waiting are those before and the data, whatever the sizes. |
| `Tar.Archive.FinishRecord` | archive-tar.c:94-103 | Exactly the zeros missing from the last record are added. |
| `Tar.Archive.WriteBlocked` | archive-tar.c:105-109 | Data in whole records. |
| `Tar.Archive.WriteTrailer` | archive-tar.c:115-124 | At least two records of zeros, then a full block; nothing is left waiting. |
| `Tar.Archive.WriteArchive` | archive-tar.c:105-124 | The output of any number of payloads is their padded bytes in order and zeros, in whole blocks. |
| `Tar.DecimalLength` | archive-tar.c:159-179 | Number of digits of a number. |
| `Tar.AppendExtHeader` | archive-tar.c:159-179 | A record starts with its own length in decimal, that of the digits included, for every keyword and value. |
| `Alias.QuoteCmdline` | alias.c:54-69 | Each argument in double quotes with specials escaped, separated by blanks. |
| `Alias.ParseEscaped` | alias.c:104-115 | An escaped argument is read back as it was. |
| `Alias.ParseQuoted` | alias.c:80-134 | Quoted arguments are read one by one. |
| `Alias.RoundTrip` | alias.c:54-134 | Splitting what was quoted gives the arguments back, for every non-empty list of arguments without NUL. |
| `Alias.EndArgument` | alias.c:91-97 | Ends an argument in place and skips blanks. |
| `Alias.TakeChar` | alias.c:104-115 | One character in place, with a backslash in front of it dropped where it counts. |
| `Alias.SplitCmdline` | alias.c:80-134 | In place: the argument positions and bytes are those of the reference reading, and the errors the same. |
| `Base85.DeEn` | base85.c:29-38 | Digit to character and back. |
| `Base85.EnDe` | base85.c:29-38 | Character to digit and back. |
| `Base85.PrepBase85` | base85.c:29-38 | The table is the inverse of the alphabet and zero elsewhere. |
| `Base85.BytesOfWord` | base85.c:40-102 | Bytes to word and back, for a last group of any length. |
| `Base85.ValueOfChars` | base85.c:79-102 | Digits to word and back. |
| `Base85.RoundTrip` | base85.c:40-102 | Decoding what was encoded gives the data back, for every length. |
| `Base85.ReadValue` | base85.c:46-64 | The value of five characters, or the right error; the tests for overflow are exact. |
| `Base85.TakeBytes` | base85.c:67-72 | Rotating yields the bytes from the top. |
| `Base85.Encode` | base85.c:79-102 | Encodes as the reference does. |
| `Base85.Decode` | base85.c:40-77 | Decodes as the reference does, errors included. |
| `Bloom.VersionsAgree` | bloom.c:110-222 | The two hash variants agree on paths without high bits. |
| `Bloom.Murmur3` | bloom.c:110-222 | The loop over words and tail computes the hash. |
| `Bloom.KeyFill` | bloom.c:224-242 | The hashes of a key are those of double hashing. |
| `Bloom.WithSets` | bloom.c:249-262 | Setting the bit of a hash sets that bit and no other. |
| `Bloom.WithHas` | bloom.c:249-262 | A bit once set stays set. |
| `Bloom.Filter.AddKey` | bloom.c:249-262 | Exactly the bits of the key are added. |
| `Bloom.Filter.Contains` | bloom.c:573-591 | 1 exactly when all bits of the key are set, -1 exactly without data. |
| `Bloom.Filter.ContainsVec` | bloom.c:593-603 | 1 exactly when every key is contained. |
| `Bloom.LeadingIs` | bloom.c:506-529 | The paths entered for a change are the path and what is before each of its slashes. |
| `Bloom.KeyVec` | bloom.c:281-319 | For every path: the keys of the path and of what is before each slash but a leading one; the count the assertion expects is reached exactly when the path does not begin with a slash. |
| `Bloom.VecIsLeading` | bloom.c:281-319 | The directories keys are made for in a query are those entered when a path changes. |
| `Bloom.CollectPaths` | bloom.c:503-530 | The changed paths and their leading directories, each once. |
| `Bloom.TruncatedCovers` | bloom.c:343-350 | The filter of all ones has every path. |
| `Bloom.Compute` | bloom.c:436-571 | The filter has every changed path and leading directory, and unless truncated exactly their bits. |
| `Bloom.NoFalseNegatives` | bloom.c:436-603 | For every changed path, a query for it or any directory above it is never answered no. |
| `Bloom.NoHighBits` | bloom.c:355-389 | In a tree without high bits no path has one. |
| `Bloom.UpgradeCovers` | bloom.c:403-417 | A filter of paths without high bits covers them under the other version. |
| `Bloom.Upgrade` | bloom.c:403-417 | Relabels exactly when neither tree has high bits, and then the filter covers the same paths. |
| `Bloom.EnoughSlashes` | bloom.c:289-317 | A path has a directory for each of its slashes exactly when it does not begin with one. |
| `Bloom.TooManySlashes` | bloom.c:289-317 | "/a" has one slash and no directory above it, so the assertion does not hold. |
| `Bloom.ComputeAndAsk` | bloom.c:281-603 | A filter made of changed paths, asked with the keys of a changed path or a directory above one, answers maybe. |

## Left out

- Integer widths: line numbers, counts and offsets are unbounded, except where the width is the point (32-bit words of base85 and of the hash, `INT_MAX` in blame and alias). `find_pos` compares as unsigned; that is modelled by its effect on negative numbers.
- Memory management, reference counts, locks, files, the object store's format and the network. The object store is a set, a download or an unbundling succeeds or fails at will.
- FuzzyMatch: how fingerprints are made of a line's text; a fingerprint is a multiset of byte pairs.
- CacheTree: nodes are values, so sharing between index states is not modelled. Sparse directories, intent-to-add and removed entries, unmerged stages, `WRITE_TREE_REPAIR`, promisor objects, a failing write, and the on-disk format.
- CacheTree.VerifyOne: no subdirectory's node has an entry count of 0. At such a node `verify_one` would not move on in the index and not come to an end; no update makes one, but nothing in `verify_one` rules it out.
- Blame: entry lists are sequences and not linked cells. A diff is any list of hunks with equal lines between, so `-w`, which calls different lines equal, is outside.
- BlameMove.SortEntries: sorts by insertion; the source merges.
- BlameRun.CopyCandidates: puts what was too small before what is left; the source merges the two lists. Neither need be in order there, and the order does not matter to what follows.
- BlameWorld: which other files of a scapegoat are searched for copies, and that a file which cannot be read is skipped, is a parameter; so is the diff of an entry's lines and a file.
- BlameRun.Scoreboard.BreakDown: which ancestors of an uninteresting commit get marked is left open; marking of root commits as boundaries, which changes only what is shown, is not modelled.
- BlameMove.FindCopyInBlob: the score of an entry is any function of it.
- CritBit: memory is a map from node numbers, all keys have one length, and a callback is a function of the keys visited so far.
- Image.Image.MatchFragment: exact matching only; matching that ignores white space and its repair are not modelled.
- Apply.ParseFragment: recounting and inaccurate end of file are not modelled, and a hunk's lines are kept with the marker attached to the line before it.
- Apply.ReadBody: an empty context line written without its blank and followed by a marker is read as an empty line without LF; the source leaves it out of both sides.
- Apply.Patch.Apply: binary patches, three-way application, file names and modes are not modelled.
- Hunks: positions in the diff count lines and not bytes; edited hunks, colour and mode changes are not modelled. A hunk begins with context or at the first line, and ends with context or at the last line, as diffs with context do; neither file is empty.
- Attr: reading attribute files, threads and the built-in object mode. Whether a pattern matches is a parameter.
- BundleUri: reading bundle lists, and sorting them by token. `Walk` and `FetchByToken` do not say what a walk that never ends has done so far.
- Bisect: all commits by distance (`FIND_BISECTION_ALL`), skipped commits and display. Commits are numbered with parents before children.
- Tar: headers, modes and streaming of large blobs.
- Bloom: filters read from the commit-graph, remembered results for trees, and the diff that lists changed paths.
