# Verified model of the incremental-persist bench

This project models the logic of the repository's own scripts and C samples in Dafny and proves
properties of it. `dafny verify dfyconfig.toml` checks everything.

| files | what they model |
|---|---|
| `AbHarness` | `scripts/ab_branches.sh` as a step machine over the results table and the `/tmp` directories; a history is any sequence of starts, commands and kills |
| `AbTable`, `AbProgress` | what the table keeps: no key twice, nothing lost, interruptions do not show |
| `AbRows` | where the rows come from: each stands for a successful run, and every sample gets its repeats |
| `AbSnapshot` | isolation of the incremental runs |
| `AbLimits` | the exact condition for isolation, and the histories that break it |
| `AbStores` | when a run finds its own store: what makes a snapshot go for good, and the exact condition before a call |
| `AbUnique` | the exact condition on a table file for repeating no key |
| `AbScript` | the script itself as a class whose commands change the table and the directories; an oracle says which of them a kill interrupts, and the script stops early for no other reason; every property the machine keeps holds of it |
| `PrBuilder`, `PrIsolation` | `scripts/build_pr_bc.sh` over source trees as maps, the build being any function of the sources |
| `PrExact` | the exact conditions on a list of edits for its runs to be exact |
| `SyntheticTouch` | the synthetic edit: the sorted candidates, the choice by index, the inserted comment |
| `PrScript` | the builder as a class, with the same oracle for kills inside its commands |
| `FdlLoops` | `bc/fdl-loop-break/fdl_loop_break.c` over linked lists of any length |
| `CallerProbe`, `CallerChoice` | `scripts/make_caller_bc.py` |
| `ConeCompare`, `Bench` | `scripts/compare_cone_reports.py` and the status and exit code of `scripts/run_bench.sh` |
| `Regression` | `scripts/run_bug_regression.py` |
| `Summarize` | `scripts/ab_summarize.py`, on the tables the harness leaves |
| `ReadmeTable` | the table of `scripts/gen_bc_readme.py` |
| `Text`, `Sorting`, `Sublists`, `Reports`, `Wrappers` | text splitting, searching and decimals, Python's stable sort, lists made element by element, decoded reports, optional values |

## What the proofs found

Some promises hold only under a condition the scripts do not check. Each is proved with that
condition, and the failing inputs are proved too.

- Each incremental run of the harness starts without a store or on its own store's output, over every
  history, exactly when no project is named like another one followed by `_snap` (the snapshot
  directory of `p` is the models directory of `p_snap`) and no kill leaves its directory changed
  inside one of two commands: the snapshot copy of line 47 and the cleanup's removal of the snapshot
  in line 71. Kills may tear everything else (`IsolationIff`). In both commands the store row is
  already in the table, so the next call hands whatever the kill left to its incremental run; after
  the cleanup this takes a sample that failed (`TornCopyIsUsed`, `TornCleanupIsUsed`).
- An incremental run of a recorded store does not always have that store. Three things take a snapshot
  away for good while its store row stays (`GoneForever`): the cleanup at the end (`CleanupRemoves`); a
  kill between the append of the row and the copy of the snapshot, after which no run of that project
  ever has its store, without any cleanup or torn directory (`KilledBeforeCopy`); and a project named
  twice in one call, whose second turn comes after its own cleanup (`NamedTwice`). Before a call that
  names no project twice, whatever it asks for and however it goes, all its runs of a branch and project
  have their own store exactly when no store of it is recorded or the snapshot is there as the store left
  it (`StoreIffReady`).
- The lookup skips the first line of the table file, whatever it is, and a file that exists gets no
  header. From an empty file the first row is recorded again, and a first line that is a row is recorded
  again by the call that asks for it. The script can leave an empty file itself: a new file is opened
  before its header is written, and a kill may come between the two. A table can never come to repeat a
  key exactly when it is there, repeats none and has a first line that no call can append (`UniqueIff`);
  for an absent one this kill is the only way (`RowsStayUnique`). Isolation does not depend on the header.
- The builder's runs are exact over every build and every synthetic edit exactly when each source file
  that a pull request creates under a path resets keep (ignored, or excluded by `-e`) is written by
  every other one that applies and, if a synthetic edit is listed, no pull request creates any and
  resets keep no product of a build (`IsolatedIffCovered`). For given synthetic edits the condition is
  that they do not depend on what resets can keep (`IsolatedIffSafe`), which one that looks at source
  files only meets where no pull request leaves any, such as that of libjpeg-turbo
  (`SourceTouchSeesNoProducts`).
- Builds in `build-prbc` do leave products that resets keep, and `synthetic_touch` chooses among every C
  file it finds, those included. Where pull requests leave nothing, its runs are exact exactly when no
  product that resets keep is a candidate for it (`SyntheticIsolatedIff`). Otherwise the second of two
  synthetic edits can rewrite a file that the first one's build has made, and its bitcode is then the
  baseline's (`SyntheticOrderMatters`).
- A kill inside the copy of an output is repaired by a finished later run exactly when nothing or
  everything had been copied (`TornOutputRepairedIff`); so it is for `old.bc` (`DoProject`).
- The callback of `leak_after_unrelated_call` is no release, except that a callback which closes its
  argument closes the leaked descriptor when that happens to be 0 (`LeakAfterUnrelatedCall`). The
  statements after the last test in all three leaking functions are unreachable.
- `insert_probe` puts the probe after the line of the brace exactly when that line ends in a newline;
  otherwise the probe becomes the first line of the file (`InsertionPlace`).
- The sorted result list of the regression run depends on the completion order exactly when two
  different results carry one project name; the counts and the exit code never do
  (`OrderIndependentIff`, `VerdictIgnoresOrder`).
- `README.md` line 128 says that status `ok` means that a summary was loaded. The code tests only that the
  logged number is not `0`. That is the same exactly when the log has the line: a missing one reads `?` and
  passes (`OkReadsTheLog`, `OkWithoutTheLine`). It also says that
  `no_cone_bug` means that the store reported no bug across functions; the code writes it for every
  failure to change a caller, a changed text that does not assemble included (`NoConeBugIff`).

## Model

| member | source | states |
|---|---|---|
| AbTable.RowsStayUnique | scripts/ab_branches.sh:25-69 | over every history from a table that is absent, or repeats no key and has a first line that no call can append, for all repeat counts, tool results and kills, no two rows of the file share branch, project, mode and sample, unless a kill came between the opening of a new file and its header |
| AbTable.HeaderIsSafe | scripts/ab_branches.sh:25-25 | that kill cannot come to a file that was there at the beginning |
| AbTable.AppendRecords | scripts/ab_branches.sh:26-42 | a row appended to a file with a first line is found by the next lookup, and no lookup changes for any other key |
| AbProgress.ControlAppendsAsked | scripts/ab_branches.sh:35-68 | no event loses a key, and a key that appears is one the running call asks for |
| AbProgress.CompletionIsExact | scripts/ab_branches.sh:34-81 | after any number of killed attempts, a call that finishes without a failing tool run, on a file that kept its header, leaves exactly the keys it started from and the keys it asks for |
| AbProgress.CanComplete | scripts/ab_branches.sh:25-81 | from every idle state whose table has a first line, every call has such a course: successful commands alone lead to its end |
| AbProgress.InterruptionsDoNotShow | scripts/ab_branches.sh:56-81 | two such histories of the same call end with the same keys, wherever they were killed |
| AbRows.RowsAreRuns | scripts/ab_branches.sh:38-66 | over every history no line of the file is lost, and every row it gains stands for a run of the analyzer for that key which exited with 0, with the time of that run |
| AbRows.EverySampleIsTried | scripts/ab_branches.sh:51-70 | from the beginning of the loops over samples and repeats to the cleanup, whatever the runs return: every sample is recorded or has been run as often as the call asks for |
| AbSnapshot.PathsDistinct | scripts/ab_branches.sh:30-31 | exactly when two of the directories coincide |
| AbSnapshot.PathsNested | scripts/ab_branches.sh:30-31 | exactly when a models directory is another project's snapshot or lies inside it, for names with slashes too |
| AbSnapshot.PlainPathsApart | scripts/ab_branches.sh:30-31 | for names without slashes no directory lies inside another one |
| AbSnapshot.SnapshotsStayOk | scripts/ab_branches.sh:35-71 | every event keeps every recorded store's snapshot absent, pristine or torn by a kill |
| AbSnapshot.HereStays | scripts/ab_branches.sh:36-71 | what each command relies on at its place in the script survives every event |
| AbSnapshot.NewStart | scripts/ab_branches.sh:58-61 | an incremental run that starts, starts on the snapshot of that moment, which is absent, its own store's output or torn |
| AbSnapshot.EveryStartIsIsolated | scripts/ab_branches.sh:34-71 | over every history of interrupted invocations, from any disk and with or without a table header, each incremental run started on the snapshot of its moment, which was absent, or what its own last successful store left, or what a kill left |
| AbLimits.IsolationIff | scripts/ab_branches.sh:30-71 | for any set of commands inside which kills may leave their directory changed: every run over every history starts without a store or on its own store's output exactly when no project is named like another one's snapshot and the set has neither the snapshot copy nor the cleanup's removal of the snapshot (or there are no projects) |
| AbLimits.UntornHolds | scripts/ab_branches.sh:36-71 | outside these two commands no kill tears a snapshot in use, and no run starts on a torn one |
| AbLimits.AliasedSnapshotIsUsed | scripts/ab_branches.sh:30-61 | for any pair of names `p` and `p_snap`, a history without torn directories in which a run starts on the other project's directory |
| AbLimits.TornCopyIsUsed | scripts/ab_branches.sh:42-58 | a kill inside the snapshot copy can make the next incremental run start on any directory whatever |
| AbLimits.TornCleanupIsUsed | scripts/ab_branches.sh:58-71 | so can a kill inside the cleanup's removal of the snapshot, after a sample that failed |
| AbStores.CleanupRemoves | scripts/ab_branches.sh:71-71 | the cleanup leaves the store recorded and its snapshot gone |
| AbStores.KillBeforeCopy | scripts/ab_branches.sh:42-47 | so does a kill between the append of the store row and the copy of the snapshot |
| AbStores.KilledBeforeCopy | scripts/ab_branches.sh:36-47 | from a first use, without a torn directory, a call killed there leaves a store that succeeded, is recorded and has no snapshot |
| AbStores.NamedTwice | scripts/ab_branches.sh:28-71 | after the cleanup of a branch and project that the same call names again, some course of the call runs a sample of it without a store |
| AbStores.GoneForever | scripts/ab_branches.sh:35-71 | a recorded store whose snapshot is gone stays so over every later history, and every later incremental run of it starts without a store |
| AbStores.StoreIffReady | scripts/ab_branches.sh:28-71 | over all calls that name no project twice and all their courses, kills included: every run of a branch and project starts on what its own store left exactly when, before the call, no store of it is recorded or its snapshot is as the store left it |
| AbUnique.EmptyFileRepeats | scripts/ab_branches.sh:25-42 | from an existing empty table file, two killed calls record the same key twice |
| AbUnique.FirstRowRepeats | scripts/ab_branches.sh:26-66 | a first line that is a row is recorded again by a call that asks for it |
| AbUnique.HeaderLost | scripts/ab_branches.sh:25-25 | a first call killed between the opening of the file and its header leaves it empty |
| AbUnique.UniqueIff | scripts/ab_branches.sh:25-66 | for every table: it can never come to repeat a key exactly when it is there, repeats none and has a first line that no call can append |
| AbScript.Harness.Begin | scripts/ab_branches.sh:25-25 | a new table file is opened, then gets its header; a kill between leaves it empty; the call is alive exactly if no command so far was interrupted, here and in every row below |
| AbScript.Harness.RmRf | scripts/ab_branches.sh:36-36 | a removal removes its directory and nothing else, and moves the script to its next command, or the invocation dies in it |
| AbScript.Harness.MkdirP | scripts/ab_branches.sh:36-36 | the directory exists afterwards, empty unless it was there |
| AbScript.Harness.CpR | scripts/ab_branches.sh:47-58 | the target becomes a copy, stays as it was without a source, or receives a nested copy when it exists |
| AbScript.Harness.RunTool | scripts/ab_branches.sh:39-61 | the directory holds what the tool left, and the script continues as its exit code says |
| AbScript.Harness.AppendRow | scripts/ab_branches.sh:42-66 | the table grows by exactly the row, or the invocation dies before it |
| AbScript.Harness.Die | scripts/ab_branches.sh:36-71 | a kill changes no directory but that of its command, and leaves nothing where nothing was to be removed |
| AbScript.Harness.StorePhase | scripts/ab_branches.sh:34-48 | the store phase reaches the incremental phase, or the next branch when the store fails, along commands of the machine |
| AbScript.Harness.IncTurn | scripts/ab_branches.sh:56-68 | one turn of the repeat loop ends at the next turn |
| AbScript.Harness.RunBranchProject | scripts/ab_branches.sh:28-72 | a branch and project ends at the next one |
| AbScript.Harness.Invocation | scripts/ab_branches.sh:25-81 | an invocation terminates, at rest, finished exactly if no kill interrupts one of its commands, and keeps every property that the machine keeps |
| AbScript.AnySession | scripts/ab_branches.sh:25-81 | any number of invocations on an absent, empty or header-only table: without kills the last one finishes; every incremental run started isolated, and the file repeats no key unless it was empty or lost its header |
| PrIsolation.AppliedExactly | scripts/build_pr_bc.sh:305-322 | a pull request that applies gives exactly its changed files with one of the four extensions that its head has their head contents; every other path, deleted ones included, keeps its contents |
| PrIsolation.SourceHasExtension | scripts/build_pr_bc.sh:311-311 | the changed files that count are those with a dot and c, h, cc or cpp at the end |
| PrIsolation.AppliesIff | scripts/build_pr_bc.sh:308-320 | it applies exactly when it is fetched and its head still has one changed source |
| PrIsolation.ResetForeign | scripts/build_pr_bc.sh:388-389 | a reset keeps the untracked files that are kept, and is the baseline without them |
| PrIsolation.ResetLeaves | scripts/build_pr_bc.sh:388-389 | a reset leaves the baseline with its contents and exactly the untracked files that are ignored or excluded, with theirs |
| PrIsolation.UsedTreeDoesNotShow | scripts/build_pr_bc.sh:385-397 | under the condition, an edit of a tree that earlier edits and builds have used makes the sources it makes of the baseline |
| PrIsolation.BuildOneOk | scripts/build_pr_bc.sh:381-405 | a turn keeps every output the build of its own edit of the baseline, adds its own when it can be built, and counts once |
| PrIsolation.BuildAllOk | scripts/build_pr_bc.sh:380-406 | a finished loop has counted every listed id once and has recorded exactly the buildable ones besides what was there |
| PrIsolation.OrderDoesNotMatter | scripts/build_pr_bc.sh:380-406 | finished runs over the same ids, in any order and from any trees and outputs that interrupted runs over these ids left, whatever each of them had recorded, record the same outputs, apart from those a kill had torn |
| PrIsolation.TornOutputRepairedIff | scripts/build_pr_bc.sh:383-400 | a finished run over any list with that id, next to any other outputs, right or torn, repairs an output whose copy was killed exactly when nothing or all of it had been copied |
| PrExact.IsolatedIffCovered | scripts/build_pr_bc.sh:325-405 | for any list of pull requests and synthetic edits, every run from every tree that killed runs may have left is exact, over all builds, products and synthetic edits, exactly when each kept source file a pull request creates is written by every other that applies and, next to a synthetic edit, none is created and no product is kept; runs from a clean tree or after the baseline's build alone need the same |
| PrExact.IsolatedIffSafe | scripts/build_pr_bc.sh:325-405 | the same for given synthetic edits: over all builds and products, exactly when what pull requests leave is overwritten by the others and no synthetic edit depends on what a reset can keep |
| PrExact.SourceTouchSeesNoProducts | scripts/build_pr_bc.sh:253-269 | a synthetic edit that looks at source files only does not depend on products |
| PrExact.UncoveredIsSeen | scripts/build_pr_bc.sh:388-400 | a kept source file that one pull request leaves and another does not write shows in the second one's bitcode for some build |
| PrExact.StraySeenByTouch | scripts/build_pr_bc.sh:325-400 | so does one that is there for a synthetic edit |
| PrExact.ProductsAreSeen | scripts/build_pr_bc.sh:325-400 | a synthetic edit that depends on products is not exact after some build of the baseline |
| PrExact.KeptIsSeen | scripts/build_pr_bc.sh:388-400 | so is one that depends on anything a reset can keep, from some tree that killed runs may have left |
| PrExact.NothingLeftButProducts | scripts/build_pr_bc.sh:388-389 | where no pull request leaves a source file, that means products |
| PrExact.AppliesNextToLeaves | scripts/build_pr_bc.sh:388-397 | where one does, every synthetic edit that applies to the baseline depends on it |
| SyntheticTouch.SortedIsInOrder | scripts/build_pr_bc.sh:329-329 | the candidates are in the order of their path parts, each part by code points |
| SyntheticTouch.AfterBrace | scripts/build_pr_bc.sh:333-334 | the place behind the first brace at the beginning of a line after the first, or, when there is none, behind the first one before a newline; none exactly when there is neither |
| SyntheticTouch.CandidateIs | scripts/build_pr_bc.sh:329-330 | a candidate ends in .c and has none of the six words in its path |
| SyntheticTouch.MarkedIs | scripts/build_pr_bc.sh:333-338 | the new text is the old one with the comment for the index put in behind that brace, ending its line, and with -b exactly when the old text has the plain comment; there is none exactly without such a brace |
| SyntheticTouch.MarkComesOut | scripts/build_pr_bc.sh:338-338 | deleting what was put in gives the old text back |
| SyntheticTouch.TouchIs | scripts/build_pr_bc.sh:328-338 | the edit marks the candidate at the index modulo their number, and fails exactly without a candidate or when the chosen one has no such brace |
| SyntheticTouch.SeesNoProductsIff | scripts/build_pr_bc.sh:329-338 | the edits of all indices ignore the products of builds exactly when no product that resets keep is a candidate |
| SyntheticTouch.SyntheticIsolatedIff | scripts/build_pr_bc.sh:325-405 | where pull requests leave no source file: with the script's synthetic edit the runs of every list are exact, for every build and from every tree that killed runs may have left, exactly when no product that resets keep is a candidate |
| SyntheticTouch.SyntheticOrderMatters | scripts/build_pr_bc.sh:325-400 | with a build directory that resets keep, two synthetic edits are exact in one order and not in the other |
| PrScript.Builder.ResetTree | scripts/build_pr_bc.sh:388-389 | the tree is reset, or a kill leaves it without new kept source files |
| PrScript.Builder.CopyPrFiles | scripts/build_pr_bc.sh:313-318 | the copy loop and its flag, or a kill that has touched only files to be copied |
| PrScript.Builder.Edit | scripts/build_pr_bc.sh:391-397 | the fetched or synthetic edit of one id |
| PrScript.Builder.Build | scripts/build_pr_bc.sh:399-404 | the output is recorded exactly on success; a kill inside its copy leaves any prefix |
| PrScript.Builder.Turn | scripts/build_pr_bc.sh:381-405 | one id done as specified, or killed with every output still right, missing or torn |
| PrScript.Builder.BuildBaseline | scripts/build_pr_bc.sh:366-372 | old.bc is the build of the baseline itself, or a prefix that a kill left, and is there before any edit; what is there is never changed, and after a finished call it is whole exactly when nothing or all of it was there before |
| PrScript.Builder.BuildListed | scripts/build_pr_bc.sh:380-406 | the loop is the function BuildAll, unless a kill interrupts it |
| PrScript.Builder.DoProject | scripts/build_pr_bc.sh:355-407 | outputs, both counters and old.bc after a whole call, which ends early only when a kill interrupts it or the baseline does not build; a finished one counts as built exactly the listed ids whose edit applies and builds |
| PrScript.Resume | scripts/build_pr_bc.sh:380-406 | after any killed calls over the same ids, a call that finishes leaves outputs for exactly the edits that apply and build, each the build of the baseline overlaid with its edit, or a proper prefix of that where a kill came inside its copy; without kills none is killed |
| FdlLoops.ConnectLoop | bc/fdl-loop-break/fdl_loop_break.c:15-25 | how the loop ends, for every list and every pattern of socket results, and which descriptors it leaves open; the sentinel is never dereferenced |
| FdlLoops.NotALeak | bc/fdl-loop-break/fdl_loop_break.c:14-30 | 0 exactly for a nonempty list ending in the sentinel with all socket calls succeeding, and then the one new open descriptor is the one stored; otherwise nothing is open or stored |
| FdlLoops.SavedByCallback | bc/fdl-loop-break/fdl_loop_break.c:80-96 | the same with the descriptor handed to the callback |
| FdlLoops.RealLeakOnBreak | bc/fdl-loop-break/fdl_loop_break.c:34-52 | leaks exactly one descriptor when late, nonempty and the first call succeeds, none otherwise; always -1 and never stores; one socket call when late, else one at each node up to the first that fails |
| FdlLoops.LeakAfterUnrelatedCall | bc/fdl-loop-break/fdl_loop_break.c:56-76 | the same across the unrelated call, with the one exception of descriptor 0 |
| FdlLoops.RealLeakOnNormalExit | bc/fdl-loop-break/fdl_loop_break.c:100-114 | one socket call at most; leaks its descriptor exactly when it succeeds; always -1 and never stores |
| CallerProbe.InsertProbe | scripts/make_caller_bc.py:30-44 | the search terminates; character by character: the first mention of the function on a line that begins with define, the first brace from there, and the probe behind the end of that line or in front of the text; None exactly without such a place |
| CallerProbe.ProbeMeans | scripts/make_caller_bc.py:30-44 | the same of the result as a function of text and name |
| CallerProbe.ScanFindsFirst | scripts/make_caller_bc.py:33-38 | a line-by-line scan finds the line of the first match, and none exactly when there is no match |
| CallerProbe.SearchRefinesLines | scripts/make_caller_bc.py:30-44 | for every text and newline-free name the index search and the line search insert at the same place |
| CallerProbe.ProbeAddsOneLine | scripts/make_caller_bc.py:42-43 | an insertion adds the probe as one whole line, keeps every other line, and deleting it restores the text |
| CallerProbe.InsertionPlace | scripts/make_caller_bc.py:39-43 | the probe follows the line of the brace exactly when that line ends in a newline, and is the first line of the file otherwise |
| CallerChoice.FunctionsInOrder | scripts/make_caller_bc.py:20-24 | the functions of a report are exactly the named ones, without duplicates, by first occurrence |
| CallerChoice.TracesInOrder | scripts/make_caller_bc.py:14-27 | the traces are, one for one and in the order of the report, those of the items that name two different functions, under the name of their bug type |
| CallerChoice.LastFunction | scripts/make_caller_bc.py:20-24 | the last function of a trace is the one that the item names last of all for the first time |
| CallerChoice.Traces | scripts/make_caller_bc.py:14-27 | the loops compute that list |
| CallerChoice.ChooseCaller | scripts/make_caller_bc.py:59-68 | the earliest trace into whose last function the probe can be inserted decides; none exactly when there is none |
| CallerChoice.ChoiceDecides | scripts/make_caller_bc.py:59-68 | that trace is of the earliest item of the report into whose last named function the probe can be inserted |
| CallerChoice.ChangeOneCaller | scripts/make_caller_bc.py:47-74 | of the report's items: the caller is the function that the deciding item names last, the text has the probe in it, and no earlier item can be used; the two failures are that no item names two functions, and that none of those can be used |
| ConeCompare.BugsAre | scripts/compare_cone_reports.py:17-27 | the traces compared are those of the report items, one for one and in order, by bug type, function and line, a step without a function key standing for its function name |
| Reports.ItemsInOrder | scripts/compare_cone_reports.py:20-22 | the nested loops over a report come to every item once, in order |
| ConeCompare.LoadWorkset | scripts/compare_cone_reports.py:30-36 | the names are the lines without the white space around them that are neither empty nor comments |
| ConeCompare.StripIs | scripts/compare_cone_reports.py:33-33 | stripping takes away exactly the white space at both ends |
| ConeCompare.Compare | scripts/compare_cone_reports.py:43-61 | the six numbers are the sizes of the sets, and the exit code is 0 exactly on agreement |
| ConeCompare.AgreesIff | scripts/compare_cone_reports.py:50-52 | nothing invented and nothing missing is the same as: no trace is new, and both reports have the same traces touching the work set |
| ConeCompare.AgreesOnUnion | scripts/compare_cone_reports.py:39-52 | agreement on a union of work sets is agreement on both |
| ConeCompare.AgreesOnSubset | scripts/compare_cone_reports.py:39-52 | agreement is inherited by every part of a work set |
| ConeCompare.FullConeIsEquality | scripts/compare_cone_reports.py:50-61 | when every scratch trace touches the work set, agreement is equality of the reports |
| Bench.CountsReadBack | scripts/run_bench.sh:95-96 | the first line has the six entries as its fields, and for all counts the shell reads back exactly the two numbers the comparison printed |
| Bench.CompareScript | scripts/compare_cone_reports.py:43-61 | output and exit code as the shell sees them; an unreadable report is a failure without output |
| Bench.Judge | scripts/run_bench.sh:84-110 | the row of a sample, column by column: one condition for each of the five statuses, in terms of exit codes, work set, traces and log fields; the counts are the sizes of the sets, or 0 without a comparison, or ? when a report is unreadable; the run fails exactly for a status other than ok |
| Bench.RowIs | scripts/run_bench.sh:84-110 | these conditions hold of exactly one row |
| Bench.OkMeans | scripts/run_bench.sh:97-108 | ok exactly for agreement in the cone, a loaded field that is not 0 and no recheck; nothing is then invented and both reports have the same traces in the cone |
| Bench.OkReadsTheLog | scripts/run_bench.sh:49-106 | with the line in the log, ok exactly if the runs agree, none was rechecked and a summary was loaded; without it the loaded field is `?`, and ok does not depend on loading |
| Bench.OkWithoutTheLine | scripts/run_bench.sh:54-106 | two runs without a finding and without that line are ok |
| Bench.ChangeCaller | scripts/run_bench.sh:146-148 | the caller that the choice changes, if the changed text assembles, and None otherwise |
| Bench.NoConeBugIff | scripts/run_bench.sh:146-154 | no_cone_bug exactly when no caller can be changed into a text that assembles |
| Bench.Run.BenchOne | scripts/run_bench.sh:81-111 | appends exactly the row of the sample, and the sticky flag is set exactly when some row does not pass |
| Bench.Run.BenchProject | scripts/run_bench.sh:118-162 | appends the row of the failed store, or that of the caller and one for each sample, in order |
| Bench.AllRowsPass | scripts/run_bench.sh:118-168 | every row is ok or no_cone_bug exactly when every wanted project was stored and every comparison of its caller and samples was good |
| Bench.AllRowsAre | scripts/run_bench.sh:118-162 | project by project: none unless wanted with an old.bc, the failed store, or the row of the caller and then one for each sample but old, in order |
| Bench.BenchAll | scripts/run_bench.sh:118-168 | these rows, and exit 0 exactly when every row is ok or no_cone_bug, equivalently when every store and every comparison was good |
| Regression.FindSink | scripts/run_bug_regression.py:50-53 | the last step that has a line |
| Regression.BasenameIs | scripts/run_bug_regression.py:61-61 | what follows the last slash |
| Regression.SinksAre | scripts/run_bug_regression.py:41-66 | the findings are, one for one and in order, those of the reports not marked invalid: type or its short name, basename of the source file with the step's index, line and function of the last step with a line |
| Regression.ExtractSinks | scripts/run_bug_regression.py:41-66 | the loops compute those findings |
| Regression.DirectoriesDoNotMatter | scripts/run_bug_regression.py:56-63 | other source paths with the same basenames give the same findings |
| Regression.CountKeys | scripts/run_bug_regression.py:76-77 | distinct keys and their multiplicities |
| Regression.Compare | scripts/run_bug_regression.py:73-103 | passes exactly when the expected multiset is contained in the actual one; missing and extra are exactly the keys that differ, with both counts |
| Regression.MissingAndExtraDisjoint | scripts/run_bug_regression.py:79-87 | no key is both missing and extra |
| Regression.NoGapsIffPermutation | scripts/run_bug_regression.py:79-87 | both lists are empty exactly when the key lists are permutations |
| Regression.GapsBalance | scripts/run_bug_regression.py:79-98 | the difference of the totals is the surplus less the shortfall |
| Regression.RecordAndCompare | scripts/run_bug_regression.py:41-103 | a recorded report compared with a rerun of the same findings passes with nothing missing or extra |
| Regression.Collect | scripts/run_bug_regression.py:256-295 | the results by project, those of one project as they came; how many passed and failed; exit code 0 exactly when every case is ok |
| Regression.VerdictIgnoresOrder | scripts/run_bug_regression.py:238-295 | counts and exit code are the sequential run's for every completion order |
| Regression.OrderIndependentIff | scripts/run_bug_regression.py:256-271 | the whole outcome is the same for every completion order exactly when no two different results share a project name |
| Sorting.SortSorts | scripts/run_bug_regression.py:268-268 | the sort returns a sorted permutation |
| Sorting.SortIsStable | scripts/run_bug_regression.py:268-268 | elements with equal keys keep their order |
| Summarize.FullWinsIffPairing | scripts/ab_summarize.py:57-57 | for any two lists, the win count reaches the number of main times exactly when some pairing gives each main time a strictly smaller perf time of its own |
| Summarize.WinsArePositions | scripts/ab_summarize.py:57-57 | the win count is the number of positions at which the sorted perf times are strictly smaller, up to the end of the shorter list |
| Summarize.MedianIs | scripts/ab_summarize.py:20-20 | the median lies in the middle between the values of the two middle ranks |
| Summarize.WinsIgnoreOrder | scripts/ab_summarize.py:57-57 | the count depends only on the times, not on their order |
| Summarize.FullWinsLowerMedian | scripts/ab_summarize.py:20-57 | such a pairing of equally many times puts perf's median strictly below main's |
| Summarize.TotalIsRowSum | scripts/ab_summarize.py:14-30 | in a table as the harness writes it no store row is overwritten: the total is the sum of the rows |
| Summarize.HarnessLeavesSuchTables | scripts/ab_branches.sh:35-69 | every table the harness leaves, after any history from a first use, is of that kind, unless its header was lost |
| Summarize.PoolingKeepsEveryTime | scripts/ab_summarize.py:44-49 | pooling project by project loses and repeats no time of a project measured on both branches |
| Summarize.ReadTable | scripts/ab_summarize.py:10-17 | the store time of a project and branch is that of its last store row; its incremental times are those of its rows, in row order |
| Summarize.Summarize | scripts/ab_summarize.py:27-59 | totals, which for a harness table are the sums of the store rows, the times pooled from projects measured on both branches, their medians and the win count as a number of positions; it stops exactly when there is no main store time |
| ReadmeTable.FivePipes | scripts/gen_bc_readme.py:186-190 | every pull request row has exactly five unescaped pipes, for any title and file list, besides those that an id, a size or an address brings in |
| ReadmeTable.CellHasNone | scripts/gen_bc_readme.py:187-188 | an escaped cell has no unescaped pipe, even when truncation cuts an escape in half |
| ReadmeTable.EscapeComesOut | scripts/gen_bc_readme.py:187-188 | taking out the backslashes in front of the pipes gives the text back |
| ReadmeTable.RowReadsBack | scripts/gen_bc_readme.py:186-190 | a row read back at its unescaped pipes has its four cells in order: file and size, link, and up to 70 characters of the escaped title and 60 of the escaped file list, ? for a missing one |
| ReadmeTable.RowOrder | scripts/gen_bc_readme.py:87-88 | the rows are a permutation of the ids, numeric ones first and ascending by the value of their decimal digits, then the others by code points; it fails exactly on digits behind several dashes and on digits that are not decimal |

## Left out

- fermat-check: a tool run is an oracle that may exit with any code and leave any directory.
- AbHarness: project names with a slash, whose directories can lie inside those of another project; every theorem about directories asks for names without one.
- AbHarness: the table write of one row is one step; a kill cannot leave half a line.
- AbHarness: two invocations that run at the same time, and invocations with different output files that share the same directories under `/tmp`.
- AbHarness.Have: `awk` compares fields that both look like numbers as numbers; names are compared as text here.
- AbHarness: echo output, timing, the 600 second limit (a failing tool run) and removals or copies that fail for other reasons than a missing source.
- PrBuilder: builds that look at products of earlier builds, such as objects `make` finds up to date; a build is a function of the other files of the tree.
- PrBuilder: refs that a killed call leaves behind; fetching a pull request again gives the same head.
- PrBuilder: the statement that libjpeg-turbo's own synthetic edit inserts; there a synthetic edit is any function of the index and the tree that rewrites a file that is there.
- SyntheticTouch: characters that cannot be decoded and carriage returns, which reading and writing the file would drop or change; directories and links named like C files.
- FdlLoops: cyclic lists, and a list head that is the sentinel itself, which the C code would dereference.
- FdlLoops.ConnectLoop: the C file writes this loop out in both functions that do not leak; here both call it.
- CallerProbe: disassembling and assembling bitcode.
- ConeCompare: the up to sixteen detail lines after the first one are any text; whitespace beyond the ASCII range is not stripped.
- Bench.ChangeCaller: a caller name that ends in a newline, which the shell would strip.
- Bench: the search of the log parser, whose fields are taken as found, and the skipped projects' log lines.
- Regression: running the analyzer, `counts_actual`, console output and exceptions that end the run; lines are integers and a missing file prints as any text.
- Summarize.ReadTable: a file without a header line, whose first row would be taken for field names.
- Summarize: the printed layout; the list of projects is taken as any list without repeats that covers the table.
- ReadmeTable: the prose of the generated file, and the rows of old.bc and of the synthetic edits, whose cells are constant but for the id and the size.
- scripts/fa_ab.sh, scripts/build_old_bc.sh and the build functions: the same shapes with less state, or foreign processes.
- scripts/check_*.py and the straight-line C samples: fixed lists of names and single paths through a function, which the code shows as directly as a proof would.
