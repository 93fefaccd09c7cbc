# Models of the algorithms inside the Chromium OS development utilities

The repository is a collection of tools.  Most of each tool is plumbing; this project models the
algorithms inside them and proves what they guarantee, over every input and every run.  Where the
code does not do what its comments or its callers take for granted, the model follows the code, and
a lemma says exactly when it does.

`dafny verify dfyconfig.toml` checks everything.  One component is one or a few modules:

| component | modules |
|---|---|
| roafteriniter: the shared string caches, the search for interesting struct types (alone and in many compiler processes at once), the log and its evaluation | `SharedCache`, `StructTypes`, `Stage1`, `Stage1Interleaving`, `LogFormat`, `Stage2`, `Postprocess` |
| willis: the throttled worker pool with its shutdown handshake, the queue of nested manifests | `WorkerPool`, `WorkerPoolFairness`, `ManifestWorklist` |
| findmissing: the ranking of fixes of fixes, the life of a row, the tables, following Gerrit | `FixRanking`, `FixRows`, `FixesDb`, `GerritSync` |
| graphviz_overlays: the graph and its cut | `Digraph` |
| new_variant: the resumable step machine and the Cq-Depend bookkeeping | `VariantStatus`, `VariantPerform`, `VariantRuns`, `VariantCqDepend`, `VariantCqRuns`, `VariantBoards`, `VariantCompletion` |
| nebraska: the kinds of requests, and which app is given which payload | `OmahaRequest`, `OmahaResponse` |
| cros_unibuild_convert: splitting a schema into a public and a private tree | `GenConf` |
| syzbot-autotriager: reading `git log` | `Gitlog` |
| netboot_firmware_settings: packed settings and flash areas | `NetbootSettings` |
| gs_cache: where the members of a tar archive lie | `TarMembers` |

Code that changes things in place is modelled by classes and loops, and each method is proved
against a specification of its own: the cache against a list of strings, the digraph against an
abstract graph, the fixes table against events of its rows.  Concurrency and restarts are step
machines (`Stage1Interleaving`, `WorkerPool`, `VariantRuns`), and the theorems about them are about
every schedule.

## What the code does not do

* A write to a variable of an anonymous struct type is logged although the documentation promises
  interesting types only: the lookup answers `CACHE_EINVAL` for a missing name, and only
  `CACHE_CONTAINS_FAILED` is tested (`Stage2.AnonymousIsLogged`; `Stage2.LoggedAsDocumented` says
  when the log is as documented all the same).
* The scan of a cache leaves the mapping exactly when the string is absent and the buffer is full,
  which an insertion allows (`SharedCache.Cache.Contains`, `SharedCache.FillWholePage`).  cachereader
  maps 50 pages of files that are created with other sizes; it stays inside as long as the contents
  and one zero byte do (`SharedCache.FileSystem.Read`).
* When compilers race, a verdict can be lost for good, although every verdict that is recorded is
  right (`Stage1Interleaving.RaceLosesVerdict`, `Stage1Interleaving.VerdictsExactUnlessRaced`).  It
  cannot if no interesting type is reached by two of them (`Stage1Interleaving.ApartRunsAreExact`).
* A log line that is cut at 98 characters can turn an init write into another one, or end the
  evaluation with an exception (`Postprocess.CutStatusMisread`, `Postprocess.EndToEnd`,
  `LogFormat.ParseStoredLine`).
* Manifests that include one another in a circle are read forever (`ManifestWorklist.SelfInclude`,
  `ManifestWorklist.EndsUnlessCyclic`).
* `get_subsequent_fixes` is documented to list a fix after everything it fixes; it does not
  (`FixRanking.NotTopological`, `FixRanking.OrderedExactlyWhen`).  `getopen` drops the first entry as
  the given fix, which it need not be (`FixRanking.RootDisplaced`).
* `insert_by_patch_id` does repeat a row in conflict, although a comment there rules it out, and such
  a row is live with a close time (`FixesDb.ConflictIsRepeated`, `FixRows.LiveWithCloseTime`).
* `update_change_restored` reads the status to restore from a row that may be another one
  (`FixesDb.RestoredAsAnother`, `FixesDb.RestoredAsItsOwn`); no row is, where no sha is a kernel sha in
  one row and an upstream sha in another.
* The trembyle table names a dependency that no step creates, so its runs never get past
  `calc_cq_depend` (`VariantBoards.TrembyleNeverCalculates`, `VariantCqRuns.CanCalcExactly`).
* `--abort` fails once the upstream changelist has been found, because its record has no branch
  (`VariantCqRuns.AbortWorksExactlyBeforeFind`, `VariantCompletion.HatchUploadsLines`).
* `Gitlog` loses the first file of a commit whose message is only a title (`Gitlog.FilesReadBack`), and
  takes a file whose name begins with "commit" for a commit (`Gitlog.LogIsReadExactly`).

## Model

| member | source | states |
|---|---|---|
| `SharedCache.FlattenInjective` | contrib/roafteriniter/cache.h:84-119 | a buffer of NUL-terminated non-empty strings with a zero tail stands for one list of strings only |
| `SharedCache.BytesOfDistinct` | contrib/roafteriniter/cache.h:108-112 | a duplicate-free cache of names from a known vocabulary takes no more bytes than the vocabulary: how large a cache must be never to fill |
| `SharedCache.Cache.constructor` | contrib/roafteriniter/cache.h:165-172 | a new cache is the empty list |
| `SharedCache.Cache.Contains` | contrib/roafteriniter/cache.h:84-94 | the pointer walk answers by membership in the list; it leaves the mapping exactly if the string is absent and no byte is spare |
| `SharedCache.Cache.Insert` | contrib/roafteriniter/cache.h:97-119 | appends to the list exactly if the string is non-empty and fits, with addresses that wrap at 64 bits and a terminator that is never copied; the zero tail stays zero |
| `SharedCache.Cache.NotContainsInsert` | contrib/roafteriniter/cache.h:299-311 | test-and-set: each outcome exactly characterised, and a duplicate-free cache stays so |
| `SharedCache.Cache.Traverse` | contrib/roafteriniter/cache.h:247-261 | prints the strings of the list, in order; it stays inside exactly if the contents and one zero byte lie in the mapping as well as in the file |
| `SharedCache.FileSystem.Map` | contrib/roafteriniter/cache.h:137-176 | an existing file keeps its contents at any size, its own or that of the mapping, and only a new one is cleared; a size that is no multiple of the page is refused |
| `SharedCache.FileSystem.Read` | contrib/roafteriniter/cachereader.c:17-23 | whatever size the log was created with, reading it changes nothing, and prints it whole exactly if its contents end inside the 50 pages and the file |
| `SharedCache.FillWholePage` | contrib/roafteriniter/cache.h:84-119 | a cache that one string fills, and whose next lookup leaves it |
| `StructTypes.InterestingIsFixedPoint` | contrib/roafteriniter/roafteriniter.c:199-311 | "interesting" satisfies the recursive rule of the documentation: not blacklisted, has fields, every named struct among them interesting |
| `StructTypes.InterestingIsLeast` | contrib/roafteriniter/roafteriniter.c:199-311 | and it is contained in every set of types closed under the rule, so it is the least solution |
| `StructTypes.ReachingACycle` | contrib/roafteriniter/roafteriniter.c:174-196 | a type from which references lead into a cycle is not interesting |
| `StructTypes.ClosingThePath` | contrib/roafteriniter/roafteriniter.c:290-293 | a type met again while it is in progress is not interesting, so "no" is the right answer there |
| `Stage1.NameSet.RoomToSpare` | contrib/roafteriniter/cache.h:88-92 | a cache sized for the vocabulary always has room for the next name and the byte to spare that lookups need |
| `Stage1.NameSet.Has` | contrib/roafteriniter/cache.h:274-285 | the cache as a set: membership, or the end of the process, which a roomy cache never causes |
| `Stage1.NameSet.TestAndSet` | contrib/roafteriniter/cache.h:299-311 | the cache as a set: adds the name and says whether it was new |
| `Stage1.Plugin.HardcodedBlacklistTypename` | contrib/roafteriniter/roafteriniter.c:261-272 | true exactly for the hardcoded names |
| `Stage1.Plugin.CheckInterestingSttype` | contrib/roafteriniter/roafteriniter.c:199-249 | the field loop says yes exactly if the type has fields and all of them are interesting, though it recurses over a cyclic graph with shared memo tables |
| `Stage1.Plugin.InterestingStructType` | contrib/roafteriniter/roafteriniter.c:274-311 | the memoised search terminates, says yes exactly for the interesting types, and leaves every checked type that is not in progress rightly judged |
| `Stage1.Plugin.Evaluate` | contrib/roafteriniter/roafteriniter.c:298-311 | the verdict on a type that has just been claimed is exact, and it is recorded |
| `Stage1.Plugin.Record` | contrib/roafteriniter/roafteriniter.c:301-305 | accepting a type adds it, and nothing else, to the interesting ones |
| `Stage1.Plugin.Execute` | contrib/roafteriniter/roafteriniter.c:319-331 | afterwards the struct type of every global is checked, and recorded exactly if it is interesting, whatever the order of the globals and whatever earlier runs left in the caches; nothing else has been checked since but what fields reach from the type of a global |
| `Stage1Interleaving.StepKeepsInv` | contrib/roafteriniter/roafteriniter.c:274-311 | any cache call or local step of any process keeps the invariant of the shared caches and of all the stacks |
| `Stage1Interleaving.EveryRunIsSound` | contrib/roafteriniter/roafteriniter.c:286-310 | under every schedule of any number of processes: recorded types are interesting and checked, and each type is evaluated once over the whole run |
| `Stage1Interleaving.VerdictsExactUnlessRaced` | contrib/roafteriniter/roafteriniter.c:290-293 | a finished run has every verdict right if and only if no evaluation of an interesting type was cut short by a claim of another process |
| `Stage1Interleaving.ApartRunsAreExact` | contrib/roafteriniter/roafteriniter.c:274-331 | if the processes share no interesting type that their globals reach, every finished schedule has every verdict right |
| `Stage1Interleaving.SoloRunIsExact` | contrib/roafteriniter/roafteriniter.c:274-331 | a single process never loses a verdict |
| `Stage1Interleaving.FinishedRunCheckedEveryGlobal` | contrib/roafteriniter/roafteriniter.c:319-331 | a finished run has checked the type of every global of every process |
| `Stage1Interleaving.StepMakesProgress` | contrib/roafteriniter/roafteriniter.c:290-295 | every step claims a type or uses up bounded work |
| `Stage1Interleaving.EveryRunFinishes` | contrib/roafteriniter/roafteriniter.c:274-331 | every scheduling that does not idle while there is work finishes |
| `Stage1Interleaving.NeverStuck` | contrib/roafteriniter/roafteriniter.c:274-331 | a process with work left can take a step |
| `Stage1Interleaving.RaceLosesVerdict` | contrib/roafteriniter/roafteriniter.c:290-293 | two processes and a schedule after which an interesting type is checked and will never be recorded |
| `LogFormat.ParseWholeLine` | contrib/roafteriniter/postprocess.py:34-41 | a line that fits reads back as the entry it was printed from |
| `LogFormat.ParseStoredLine` | contrib/roafteriniter/roafteriniter.c:457-461 | what the script makes of a line of any length after it was cut: the entry with what is left of its status, or an exception if the status field is gone |
| `LogFormat.LineInjective` | contrib/roafteriniter/roafteriniter.c:457-461 | different entries have different lines |
| `LogFormat.SplitIntoWords` | contrib/roafteriniter/postprocess.py:39 | the words of a line, however many spaces stand between them |
| `LogFormat.FieldIsSecond` | contrib/roafteriniter/postprocess.py:35 | a field's value is what stands between its first colon and the next; without a colon there is an IndexError |
| `Stage2.LoggedAsDocumented` | contrib/roafteriniter/roafteriniter.c:433-467 | over any assignments, the log holds exactly the lines of the documented writes if and only if each write to a variable of an anonymous type prints a line that a documented one prints as well |
| `Stage2.AnonymousIsLogged` | contrib/roafteriniter/roafteriniter.c:454-455 | one write that is logged although it should not be |
| `Stage2.LogHolds` | contrib/roafteriniter/roafteriniter.c:433-467 | the log is, as a set, what was there before and the lines of the logged writes |
| `Stage2.LogInFields` | contrib/roafteriniter/roafteriniter.c:433-467 | over any assignments, the lines of the log, word by word, in terms of the fields of the assignments |
| `Stage2.Plugin.CheckAssignStmt` | contrib/roafteriniter/roafteriniter.c:433-467 | a write to a field of a global that is not annotated, of a recorded (or nameless) struct type, adds the line with variable, type, function and OK or NK, cut after 98 characters, if the log lacks it; any other statement adds nothing; the process dies exactly if the lookup leaves a full cache of types or the line does not fit, and then the log is as it was |
| `Stage2.Plugin.Execute` | contrib/roafteriniter/roafteriniter.c:476-489 | the log becomes that of all the assignments; the process dies exactly if some lookup leaves a full cache or that log does not fit, and then the log is that of the assignments before |
| `Postprocess.Postprocess` | contrib/roafteriniter/postprocess.py:27-55 | the loops compute the report: pairs with an init write and without any other, or an exception |
| `Postprocess.ReportIsInitOnly` | contrib/roafteriniter/postprocess.py:44-53 | for any logged entries, the report is right if and only if no line lost its status field and no init write whose status was cut belongs to a variable that only init functions write |
| `Postprocess.CutStatusMisread` | contrib/roafteriniter/roafteriniter.c:457-461 | an init write, one character too long, for which the report is wrong |
| `Postprocess.EndToEnd` | contrib/roafteriniter/postprocess.py:27-55 | from assignments, logged in any order, to the report: it names exactly the variables of recorded (or nameless) types that only init functions write, if and only if no line is longer than 100 characters and each init write with one longer than 98 is to a variable that another function writes as well |
| `Postprocess.LogAndReport` | contrib/roafteriniter/cachereader.c:13-27 | stage 2 of any number of translation units into an empty log, the reader with its mapping and the script: when a compiler dies, when the reader leaves its mapping, and when the report is right |
| `WorkerPool.StepKeepsInv` | contrib/willis.go:373-456 | any step of any worker, of the reporter or of main keeps the invariant |
| `WorkerPool.EveryRunIsSafe` | contrib/willis.go:373-456 | in every reachable state at most `maxGoCount` workers hold a token, the counters equal the workers at the corresponding places, and whoever touches shared data alone holds the mutex |
| `WorkerPool.AllReportedAfterWait` | contrib/willis.go:448-455 | after `wg.Wait` nothing runs, and the results hold each repository's report under its key |
| `WorkerPool.StepMakesProgress` | contrib/willis.go:396-424 | every step outside the reporter's loop brings the end closer |
| `WorkerPool.SomeStepHelps` | contrib/willis.go:396-453 | in every reachable state before the end some step helps towards it |
| `WorkerPool.EveryStateCanFinish` | contrib/willis.go:448-453 | from every reachable state the run can be completed: no deadlock, also not in the handshake |
| `WorkerPoolFairness.EveryFairRunEnds` | contrib/willis.go:373-456 | every infinite schedule in which whoever can step again and again does step comes to the end of main, however often the reporter goes round |
| `WorkerPoolFairness.FairRunExists` | contrib/willis.go:373-456 | every job has such a schedule |
| `ManifestWorklist.GetRepoManifest` | contrib/willis.go:114-157 | the queue yields the projects level by level of the include tree, or the error of an unreadable file |
| `ManifestWorklist.OnLevel` | contrib/willis.go:150-152 | a file is on level k exactly if a chain of k includes leads to it |
| `ManifestWorklist.EndsUnlessCyclic` | contrib/willis.go:118-155 | the queue empties or fails, except exactly if all reachable files are readable and includes form a cycle below the root |
| `ManifestWorklist.SelfInclude` | contrib/willis.go:118-155 | a manifest that includes itself, whose reading ends at no level |
| `ManifestWorklist.OncePerPath` | contrib/willis.go:150-152 | each file is read once per include path that leads to it |
| `FixRanking.LayerIsDistance` | contrib/findmissing/missing.py:59-68 | the rounds of the loop are the breadth-first distances from the root |
| `FixRanking.AnswersInTableOrder` | contrib/findmissing/cloudsql_interface.py:19-34 | of two answers to a query, the one whose row comes first in the table comes first |
| `FixRanking.GetSubsequentFixes` | contrib/findmissing/missing.py:30-75 | for any relation, cyclic or not, the loop ends with the reachable shas, once each, in the order of rank (one more than the largest distance of a sha it fixes), those of one rank in the order in which they are met; and the root is first exactly if none ranks below it |
| `FixRanking.RankOf` | contrib/findmissing/missing.py:59-68 | every sha has a rank |
| `FixRanking.RankUnique` | contrib/findmissing/missing.py:64-67 | a sha has one rank only |
| `FixRanking.FixFollows` | contrib/findmissing/missing.py:46 | a fix comes after every sha it fixes whose rank is its own distance |
| `FixRanking.OrderedExactlyWhen` | contrib/findmissing/missing.py:46 | a fix is listed after a sha it fixes exactly if it fixes something at least as far out as anything that sha fixes; farther out, where the fix is met first |
| `FixRanking.RankedExactlyWhen` | contrib/findmissing/missing.py:64-67 | the same of the ranks: that is when the fix ranks above the sha, or alike and is met later |
| `FixRanking.NotTopological` | contrib/findmissing/missing.py:46 | a table of five fixes for which the documented order fails |
| `FixRanking.TieInOrder` | contrib/findmissing/missing.py:46 | a table in which a fix and a sha it fixes rank alike and come in the documented order |
| `FixRanking.RootComesFirst` | contrib/findmissing/getopen.py:195-197 | the root is first if it fixes nothing that it reaches |
| `FixRanking.RootDisplaced` | contrib/findmissing/getopen.py:195-197 | a circle of three fixes whose root is not first |
| `FixRows.ReachableRows` | contrib/findmissing/cloudsql_interface.py:79-150 | over every sequence of operations merged is absorbing and has a close time, an initially merged row is merged, a conflict has no change id, and identity, first status and a change id once given stay |
| `FixRows.AbandonRestoreExact` | contrib/findmissing/cloudsql_interface.py:79-109 | for any row, abandoning and restoring gives the status back exactly if the row's change id and first status agree with it |
| `FixRows.AbandonRestore` | contrib/findmissing/cloudsql_interface.py:79-109 | every reachable open or conflicting row comes back, all but close time and reason |
| `FixRows.LiveWithCloseTime` | contrib/findmissing/missing.py:199-220 | a row is live with a close time exactly if it was entered as a conflict with one and was since neither abandoned nor merged |
| `FixesDb.History` | contrib/findmissing/cloudsql_interface.py:79-150 | over any sequence of table operations no row is lost and what `ReachableRows` promises holds for each |
| `FixesDb.FixesTable.UpdateChangeAbandoned` | contrib/findmissing/cloudsql_interface.py:79-93 | one row, if it is open or in conflict, becomes abandoned with close time and reason; no other field and no other row changes |
| `FixesDb.FixesTable.UpdateChangeRestored` | contrib/findmissing/cloudsql_interface.py:95-109 | the row found by either sha decides the status that the keyed row gets, if that is abandoned; none found is an error and changes nothing; where no sha is on both sides, the row gets back the status its own record calls for |
| `FixesDb.RestoredAsItsOwn` | contrib/findmissing/cloudsql_interface.py:95-109 | a row gets back its own status exactly if the row that is found calls for the same |
| `FixesDb.RestoredAsAnother` | contrib/findmissing/cloudsql_interface.py:95-109 | two rows of which one lends the other its conflict |
| `FixesDb.FixesTable.UpdateChangeMerged` | contrib/findmissing/cloudsql_interface.py:111-122 | one row, whatever its status, becomes merged with close time and reason; no other field and no other row changes |
| `GerritSync.UpdateChangeStatus` | contrib/findmissing/cloudsql_interface.py:124-139 | the row that the database picks for the change id undergoes the event that Gerrit's status stands for; an error exactly for an unknown id or a conflict, and then nothing changes |
| `FixesDb.FixesTable.UpdateConflictToOpen` | contrib/findmissing/cloudsql_interface.py:141-150 | a conflicting row becomes open under its new change id, with the reason that says so; no other field and no other row changes |
| `FixesDb.FixesTable.InsertRow` | contrib/findmissing/missing.py:331-345 | a row is added exactly if the key is free and its first status is in the column's enumeration |
| `FixesDb.InsertByPatchId` | contrib/findmissing/missing.py:191-268 | exactly the rows that appear for a duplicate of a known patch or for commits that contain it already, with their reasons; the row for a duplicate is live with a close time exactly if the duplicate is in conflict |
| `FixesDb.ConflictIsRepeated` | contrib/findmissing/missing.py:199-220 | a table and a patch for which it is |
| `FixesDb.InsertFixGerrit` | contrib/findmissing/missing.py:271-345 | the new row for each answer of git, and none where an earlier one covers the patch or no change could be created |
| `FixesDb.FixesTable.FixupUnmergedPatches` | contrib/findmissing/missing.py:347-386 | every unmerged row of the branch moves as git and Gerrit say; its updates never meet a row they were not meant for |
| `FixesDb.FixesTable.UpdateFixesInBranch` | contrib/findmissing/missing.py:389-421 | every unmerged row of the branch whose fix was applied ends merged with that reason; the others become merged, open under a new change id, or stay, as git and Gerrit say; merged rows and other branches stay |
| `GerritSync.SynchronizeWithGerrit` | contrib/findmissing/synchronize.py:117-142 | each row undergoes, in order, what Gerrit says for the visited changes for which the database picks it, and nothing else, also where rows share an id or Gerrit answers nothing known |
| `GerritSync.SyncedAlone` | contrib/findmissing/synchronize.py:117-142 | if no change id stands for two rows, exactly the open and abandoned rows with an id follow Gerrit, in whatever order they are visited |
| `GerritSync.FollowedInFields` | contrib/findmissing/synchronize.py:117-142 | in the words of Gerrit: an abandoned row is restored when its change is new, an open one abandoned with its change, either merged with it, and any other answer changes nothing |
| `FixesDb.AbandonFixCl` | contrib/findmissing/main.py:74-112 | over both tables, exactly the live rows found are abandoned, or nothing happens and the exit status is 1: if there is no row, or several and the caller does not insist |
| `FixesDb.RestoreFixCl` | contrib/findmissing/main.py:134-166 | over both tables, exactly the abandoned rows found are restored, or nothing happens and the exit status is 1 |
| `FixesDb.AbandonThenRestore` | contrib/findmissing/main.py:74-166 | abandoning a set of rows and restoring it undoes itself but for close time and reason; merged and other rows are untouched |
| `Digraph.Digraph.AddNode` | contrib/graphviz_overlays.py:79-92 | adds a node with a fresh id, and its subgraph membership, to the abstract graph; an existing one changes nothing |
| `Digraph.Digraph.SubgraphSet` | contrib/graphviz_overlays.py:94-106 | the node joins the named subgraph, old or new; ids stay unique |
| `Digraph.Digraph.AddEdge` | contrib/graphviz_overlays.py:108-115 | one edge more in the abstract graph |
| `Digraph.Digraph.AddReachable` | contrib/graphviz_overlays.py:58-67 | the recursive closure terminates on cycles and adds exactly what the node reaches and the cut lacked, with all edges of those nodes |
| `Digraph.Digraph.CutToRoots` | contrib/graphviz_overlays.py:46-76 | the result is the part of the graph that the roots reach, up to numbering, with every edge as often as before and the memberships of the surviving nodes; a KeyError exactly for an unknown root |
| `Digraph.Digraph.KeepMembers` | contrib/graphviz_overlays.py:71-74 | the surviving nodes keep exactly their subgraphs |
| `Digraph.CutUnique` | contrib/graphviz_overlays.py:46-76 | there is only one such part |
| `Digraph.CutReaches` | contrib/graphviz_overlays.py:46-76 | the roots reach the same nodes in the cut as in the graph |
| `Digraph.CutIdempotent` | contrib/graphviz_overlays.py:46-76 | cutting again by the same roots changes nothing |
| `VariantStatus.VariantStatus.Save` | contrib/variant/variant_status.py:51-55 | the file holds step and commits |
| `VariantStatus.VariantStatus.SaveClData` | contrib/variant/new_variant.py:1220-1233 | one record learns its changelist, and memory is saved |
| `VariantStatus.VariantStatus.PushCoreboot` | contrib/variant/new_variant.py:1102-1142 | true only if every listed commit has a changelist, false only if one has none; the others are looked for all the same; a record changes only by learning what the lookup says, and what was learnt is on file |
| `VariantStatus.VariantStatus.UploadCls` | contrib/variant/new_variant.py:1271-1309 | true only if every listed commit has a changelist, false only if one was not found, and then not uploaded or not found again; records learn what the lookups say, and that is on file |
| `VariantStatus.VariantStatus.FindCorebootUpstream` | contrib/variant/new_variant.py:1312-1398 | true exactly if the upstream changelist is on record, or exactly one came from the coreboot commit, which is then recorded; nothing else changes |
| `VariantStatus.VariantStatus.CalcCqDepend` | contrib/variant/new_variant.py:1401-1448 | succeeds exactly if every key has a record and every dependency a changelist, and then records for each key a line that begins with "Cq-Depend: " and, split at ", ", gives instance and number of each dependency, in order |
| `VariantStatus.LineNamesAll` | contrib/variant/new_variant.py:1428-1446 | any line that is recorded does so |
| `VariantStatus.LineOfTwo` | contrib/variant/new_variant.py:1428-1446 | the line of two dependencies, whatever their instances and numbers |
| `VariantStatus.DocumentedLine` | contrib/variant/new_variant.py:1428-1446 | the line of two changelists of the instance "chromium" |
| `VariantStatus.VariantStatus.AddCqDepend` | contrib/variant/new_variant.py:1451-1527 | on success each commit with a line has one in its message and is flagged; a line that was there stays; failure only where a message cannot be amended |
| `VariantStatus.VariantStatus.ReUpload` | contrib/variant/new_variant.py:1530-1552 | a flag is taken down only where the branch was uploaded in its directory, and on success none is left; failure names a flagged commit that could not be uploaded |
| `VariantStatus.VariantStatus.Abort` | contrib/variant/new_variant.py:1569-1607 | each branch in each directory is abandoned once; success means that all are, and every record had both; failure names the one that was refused |
| `VariantPerform.SaveAndPerform` | contrib/variant/new_variant.py:84-93 | one turn of the main loop over the mutable status is one of the transitions that runs consist of, for every step and every answer of git, gerrit and the scripts |
| `VariantRuns.EveryRunKeepsOrder` | contrib/variant/new_variant.py:84-96 | over every run of processes that fail, die and are continued or aborted: the file exists from the beginning to clean_up and not after it |
| `VariantRuns.StepsInOrder` | contrib/variant/new_variant.py:424-443 | until an abort the steps come in the order of the list, none is skipped, the next follows only a success, and a step comes again only in a new process |
| `VariantRuns.OnlyCleanUpAfterAbort` | contrib/variant/new_variant.py:430-433 | after an abort was begun only abort and clean_up are performed |
| `VariantCqDepend.StepKeepsCq` | contrib/variant/new_variant.py:1102-1552 | each step that succeeds hands the next what it relies on, and leaves a file that fits the step that a restart repeats |
| `VariantCqDepend.PartialKeepsCq` | contrib/variant/new_variant.py:1102-1552 | so does a step that is interrupted |
| `VariantCqRuns.CanCalcExactly` | contrib/variant/new_variant.py:1422-1448 | over every run with any restarts that comes to calc_cq_depend without an abort: all records and changelists are found exactly if every key of the table and every dependency is made by a step and every dependency is looked up by one |
| `VariantCqRuns.EveryRunAddsLines` | contrib/variant/new_variant.py:1498-1552 | once re_upload is past, exactly the commits with dependencies carry a line, which names all of them in order, each was uploaded after it got its line, and nothing is flagged |
| `VariantCqRuns.UnmetNeverCalculates` | contrib/variant/new_variant.py:1428-1446 | if the table fails that condition, no run ever gets past calc_cq_depend, aborted or not |
| `VariantBoards.TrembyleNeverCalculates` | contrib/variant/trembyle.py:65-72 | the trembyle table fails it |
| `VariantBoards.HatchIsCqBoard` | contrib/variant/hatch.py:17-101 | the hatch table meets it and is well-formed |
| `VariantCqRuns.NoAbortAfterFind` | contrib/variant/new_variant.py:1588-1607 | after any history, no abort succeeds once the upstream changelist is on record |
| `VariantCqRuns.AbortWorksExactlyBeforeFind` | contrib/variant/new_variant.py:1588-1607 | a run without an abort can be aborted exactly as long as that record is missing |
| `VariantCompletion.EveryRunCanFinish` | contrib/variant/new_variant.py:84-96 | every run of a proper board that was not aborted, however it failed or died, can be continued to clean_up |
| `VariantCompletion.HatchCalculates` | contrib/variant/hatch.py:17-101 | a run for the hatch board that comes to calc_cq_depend and can calculate |
| `VariantCompletion.HatchUploadsLines` | contrib/variant/hatch.py:17-101 | a run for the hatch board past re_upload, with its lines uploaded and the upstream changelist on record, which no abort can undo |
| `OmahaRequest.CheckAttribute` | nebraska/nebraska.py:162-194 | refuses exactly values that disagree, or lack where all must have one; otherwise returns what they agree on |
| `OmahaRequest.AllButOne` | nebraska/nebraska.py:144-151 | the count of update checks is one short exactly if one single app is silent |
| `OmahaRequest.KindByCount` | nebraska/nebraska.py:144-156 | the counts decide the kind of a request as documented; one silent app alone is an event, not an install |
| `OmahaRequest.ParseRequest` | nebraska/nebraska.py:117-211 | refuses exactly what is of no kind, lacks an id or version, or disagrees on version, track or board; keeps the apps in order |
| `OmahaRequest.AcceptableInFields` | nebraska/nebraska.py:117-211 | what is accepted, attribute by attribute of the apps |
| `OmahaResponse.MatchingExact` | nebraska/nebraska.py:309-353 | the filtered index lists exactly the entries of a tier, in order |
| `OmahaResponse.MatchesInStrings` | nebraska/nebraska.py:309-353 | when an entry matches a request: the kind of payload, and the id itself, its canary form or a part of it |
| `OmahaResponse.FirstTierInStrings` | nebraska/nebraska.py:625-649 | the entries that may go to an app suit it and name it in the strongest way in which any that suits does; ids are ignored only if no entry names the app |
| `OmahaResponse.Response.FirstMatches` | nebraska/nebraska.py:625-649 | the chain of filters is the first tier that has an entry |
| `OmahaResponse.Response.Find` | nebraska/nebraska.py:605-677 | gives what is chosen from the first tier, less what is given away, and gives that away |
| `OmahaResponse.ChosenIsUnique` | nebraska/nebraska.py:656-672 | tier, delta preference and position leave one choice only |
| `OmahaResponse.Respond` | nebraska/nebraska.py:405-411 | one answer for each app, in order, and what the answers carry is what is chosen for each after those before it |
| `OmahaResponse.ServedInStrings` | nebraska/nebraska.py:446-462 | what an app is answered with is one of those, from the index for its kind of request, and of the kind of payload that the server gives |
| `OmahaResponse.ServedFirst` | nebraska/nebraska.py:656-672 | it is the first of its kind among those that are left, and a delta before any full payload unless the server gives full ones only |
| `OmahaResponse.NamedIsServed` | nebraska/nebraska.py:653-674 | an app for which such an entry is left is not turned away |
| `OmahaResponse.AnswerInFields` | nebraska/nebraska.py:474-558 | the id, status and updatecheck of an answer, for every kind of app, served or not |
| `OmahaResponse.NothingServedTwice` | nebraska/nebraska.py:653-656 | no entry goes to two apps of a response |
| `OmahaResponse.ServedFromFirstTier` | nebraska/nebraska.py:446-462 | what an app is given is of its first non-empty tier, used up or not; a delta goes only to an update whose client takes deltas; an install gets a full payload, and nothing without an update check |
| `OmahaResponse.UnservedOnlyIfTaken` | nebraska/nebraska.py:653-674 | an app goes without only if everything suitable in its tier went to apps before it |
| `OmahaResponse.OrderDoesNotMatter` | nebraska/nebraska.py:405-411 | if the first tiers are disjoint, any permutation of the apps leaves each with what it had |
| `OmahaResponse.FirstComeFirstServed` | nebraska/nebraska.py:653-674 | without that the order decides who gets the one entry of a shared tier |
| `OmahaResponse.ServedIsUnique` | nebraska/nebraska.py:405-411 | a request has one response only |
| `GenConf.GenConf` | contrib/cros_unibuild_convert.py:623-646 | the recursion with its two dicts computes the public and the private tree |
| `GenConf.LeafInFields` | contrib/cros_unibuild_convert.py:637-646 | bit 0 of a leaf's flags decides whether its value, if that is neither None nor an empty dict, is in the public tree, and bit 1 whether it is in the private tree |
| `GenConf.BranchInFields` | contrib/cros_unibuild_convert.py:628-635 | at a dict of the schema the trees hold a dict that is not empty, with keys of the schema only, or nothing |
| `GenConf.EvalIsTree` | contrib/cros_unibuild_convert.py:623-646 | each tree holds at every leaf path the leaf's value exactly if the leaf has the flag and the value is neither None nor an empty dict; it has no other keys, and no None or empty dict at any depth of the schema |
| `GenConf.TreeIsUnique` | contrib/cros_unibuild_convert.py:623-646 | there is only one tree like that |
| `GenConf.MergeIsEither` | contrib/cros_unibuild_convert.py:623-646 | deep-merging the two trees gives the tree of all flagged leaves |
| `GenConf.NothingIsLost` | contrib/cros_unibuild_convert.py:623-646 | that is the whole evaluation exactly if every leaf with a value has a flag |
| `GenConf.OthersDoNotMatter` | contrib/cros_unibuild_convert.py:640-645 | nothing that private-only leaves compute, for any device, changes the public tree |
| `Gitlog.Gitlog.ReadBody` | contrib/syzbot-autotriager/git.py:59-66 | the body loop reads the indented lines and drops the line after them, unless a commit starts there |
| `Gitlog.Gitlog.ReadFiles` | contrib/syzbot-autotriager/git.py:68-75 | the file loop reads the non-blank lines up to the next commit |
| `Gitlog.Gitlog.ParseLog` | contrib/syzbot-autotriager/git.py:40-80 | the nested loops terminate and compute the parse of the lines, or end with an IndexError |
| `Gitlog.StripIsMiddle` | contrib/syzbot-autotriager/git.py:54-64 | title and body lines lose exactly the spaces at their ends |
| `Gitlog.BodyLine` | contrib/syzbot-autotriager/git.py:64 | a body line is stripped and ended by a newline |
| `Gitlog.FileLine` | contrib/syzbot-autotriager/git.py:68-75 | a file line counts exactly if it is not blank |
| `Gitlog.LogIsRead` | contrib/syzbot-autotriager/git.py:40-80 | what `git log --name-only` prints, with no file whose name begins with "commit", parses to its commits that are no merges, in order, with id, title, body and files, but for the first file of a commit that is only a title |
| `Gitlog.LogIsReadExactly` | contrib/syzbot-autotriager/git.py:40-80 | for names without spaces, that is so exactly if no file has a name that begins with "commit"; otherwise the program ends with an IndexError |
| `Gitlog.FilesReadBack` | contrib/syzbot-autotriager/git.py:59-76 | a commit's files are all read back exactly if it has a body or no files |
| `NetbootSettings.Settings.constructor` | host/netboot_firmware_settings.py:177-189 | four unset attributes with their codes |
| `NetbootSettings.Settings.SetItem` | host/netboot_firmware_settings.py:191-192 | one attribute changes its value; an unknown name is an error |
| `NetbootSettings.Settings.Pack` | host/netboot_firmware_settings.py:197-212 | the loop computes the representation for any order of the dict |
| `NetbootSettings.AttributeInBytes` | host/netboot_firmware_settings.py:158-175 | code and length with the low byte first, the value, and zeros up to a multiple of four; refused exactly where a number takes more than 32 bits |
| `NetbootSettings.PackedInBytes` | host/netboot_firmware_settings.py:208-212 | the signature, the number of attributes, and the attributes |
| `NetbootSettings.AttributeReadBack` | host/netboot_firmware_settings.py:158-175 | code, length and value of an attribute can be read back, and it is padded to four bytes |
| `NetbootSettings.SettingsReadBack` | host/netboot_firmware_settings.py:197-212 | whatever the order and whatever follows, decoding recovers every code and value; the length is a multiple of four |
| `NetbootSettings.Image.SetItem` | host/netboot_firmware_settings.py:91-111 | the area is overwritten, or nothing changes and the error says why |
| `NetbootSettings.Image.GetItem` | host/netboot_firmware_settings.py:113-124 | the bytes of the area, cut to the image; an unknown area is an error |
| `NetbootSettings.WrittenInBytes` | host/netboot_firmware_settings.py:101-111 | a write puts the value and zeros up to the area's size between what comes before the area and what comes after it |
| `NetbootSettings.GetInBytes` | host/netboot_firmware_settings.py:113-124 | reading an area is cut off at the end of the image |
| `NetbootSettings.LengthKept` | host/netboot_firmware_settings.py:106-111 | a write keeps the image's length exactly if the area lies inside it or is empty |
| `NetbootSettings.WriteThenRead` | host/netboot_firmware_settings.py:91-124 | the area reads as the padded value, areas apart from it as before |
| `NetbootSettings.OthersStay` | host/netboot_firmware_settings.py:91-111 | over any number of writes, length and untouched areas stay |
| `NetbootSettings.StoredSettingsReadBack` | host/netboot_firmware_settings.py:91-212 | settings stored in an area decode from it, also after any writes into areas apart from it |
| `TarMembers.AndBitByBit` | gs_cache/tarfile_utils.py:23-40 | the mask of Python's integers goes bit by bit, for negative numbers in two's complement |
| `TarMembers.MaskClears` | gs_cache/tarfile_utils.py:23-40 | the bit-wise mask of Python's integers, with -512, clears the last nine bits |
| `TarMembers.RoundUpIsLeast` | gs_cache/tarfile_utils.py:23-40 | adding 511 and masking gives the least multiple of 512 that is not below the number |
| `TarMembers.ListTarMembers` | gs_cache/tarfile_utils.py:134-162 | one member for every line but the last, each from its line and the next |
| `TarMembers.ListingIsTrue` | gs_cache/tarfile_utils.py:108-162 | for any archive with headers of any length and padded contents, every member's record and contents are where they are said to be |
| `TarMembers.EndOfRecord` | gs_cache/tarfile_utils.py:134-162 | each record starts where the member's header does and ends where the next one starts |
| `TarMembers.RecordsApart` | gs_cache/tarfile_utils.py:134-162 | the records of two members never overlap |
| `TarMembers.RecordsTile` | gs_cache/tarfile_utils.py:134-162 | every byte of the archive's span lies in a record |

## Left out

- Locks, mappings and files of the operating system: a cache call is one atomic step, processes that map one name share one object, and the system calls of `cache_map` succeed.
- `SharedCache.Cache.Insert`: is about a mapping as large as the file, as the compilers make it; the reader, whose mapping may be smaller or larger, only traverses.
- GCC trees and the gimple walk: a struct type is a list of members, with one definition per name; the assignments of a translation unit come as a list.
- `Stage1Interleaving.EveryRunIsSound`: takes the caches to have room; a process that finds one full ends by itself (`Stage1` has that case).
- A cache that is full: insertion failing, or a lookup that leaves the mapping, is the outcome that ends the process; what lies behind the mapping is not modelled.
- `ManifestWorklist.GetRepoManifest`: is stated for readings that end, at the level that its ghost parameter names; `ManifestWorklist.EndsUnlessCyclic` says which do.
- Timing, progress output and the rate of willis's reporter; XML of manifests beyond includes and projects; git and repo themselves.
- `WorkerPool.AllReportedAfterWait`: speaks of a repository's report only where its key is its own; two repositories with the same relative path overwrite each other in an order that the schedule decides.
- `FixRanking.OrderedExactlyWhen`: the answer of a query comes in the order of the table, which decides in what order shas are met.
- SQL, Gerrit and git behind findmissing: a statement is an update of the rows that it selects, and answers are parameters; MySQL is taken to run in strict mode, where a value outside an enumeration is refused.
- `GerritSync.SynchronizeWithGerrit`: which of several rows with one change id the database picks is a parameter, the same throughout; the order of the visits is that of the query's answer.
- `FixesDb.FixesTable.FixupUnmergedPatches`: takes kernel and upstream shas to be different commits, which `TableInv` demands.
- `create_new_fixes_in_branch` of findmissing, which only calls `insert_fix_gerrit` in a loop, and the report of `getopen`.
- The ids "N1", "N2" and "cluster_1" of graphs are numbers; the style sheet and the DOT output are not modelled.
- The scripts behind new_variant's steps: a step that makes a commit yields a record with a fresh change id; a save of the status file is atomic.
- `VariantRuns.EveryRunKeepsOrder`: a process that dies inside a step may leave anything that `StepPartial` allows; a second process running beside the first is not considered.
- Reading and printing XML in nebraska, attributes of an answer other than the payload, and the scan of the metadata directory.
- What the leaf functions of the schema compute, and the YAML text.
- `NetbootSettings.SettingsReadBack`: the decoder is a reference definition of the format; the firmware's own is not part of this repository.
- `Gitlog.LogIsReadExactly`: is about file names without spaces that do not begin with "Merge:"; `utils.clean_git_title` is a parameter.
- The regular expression that splits a line of `tar tvR`; a line is its block, size and name.
- HTTP servers, caches of gs_cache, regular-expression scrapers and the remaining scripts, which hold no algorithm of their own.
