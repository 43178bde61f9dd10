# Verification of the operational scripts

This project models the scripts of the repository that contain algorithms or state machines of their
own, and proves what they are for. It is written in Dafny 4.11; `dafny verify dfyconfig.toml` checks all
of it. Each module is named after the script it models and cites it in its first comment.

| module | script | subject |
|---|---|---|
| `Bsection` | `bsection.py` | binary search for a section of a sorted file by byte offsets |
| `BackyStore`, `BackyBackend`, `BackyHistory` | `sql.py` of backy2 | deduplicated backups: copying, space accounting, deletion |
| `TileRun`, `TileSafety`, `TileEvents` | `bootstrap-tile-storage.py` | resumable invalidation of map tiles |
| `RunnerConfig` | `gitlab-runner-merge-configs.py` | recursive merge of configuration files |
| `ResourceAudit` | `audit.py` | reachability in the graph of puppet resources, forwards and backwards |
| `LogCleanup` | `logcleanup.py` | the last lines of a file, and log rotation |
| `ServiceRestart` | `safe-service-restart.py` | restarting services while they are depooled |
| `InterfaceRps` | `interface-rps.py` | spreading network queues over CPUs |
| `GrafanaSync` | `ldap_users_sync.py` | Grafana accounts from LDAP groups |
| `IcingaStatus` | `icinga_status.py` | reading a status file for some hosts only |
| `FermStatus` | `ferm_status.py` | parsing and comparing iptables rule sets |
| `NodeLabels` | `sync_kubelet_node_labels.py` | node labels with a record of the managed ones |
| `EtcdBackup` | `etcd-backup.py` | rotation of numbered backup directories |
| `SshAgentProxy` | `ssh-agent-proxy.py` | codec and filter of an ssh-agent proxy |

`Text`, `Arithmetic`, `Sums` and `Common` hold what these share: lines and the order of strings, a little
division, sums over sets, optional values.

Where a script changes state step by step, the model is a class or a method with loops, proved against
functions and predicates on values; the lemmas are about those. What comes from outside, such as answers
of servers, clocks, generated uids or listings of directories, is a parameter, and the theorems hold for
every choice of it.

## Where the code does not do what it is for

In these places a promised property fails. The model follows the code, and a theorem says exactly when
the property holds.

- `bsection` answers "needle not found" although the needle is there exactly when a one-byte final line
  has it and the line before it does not (`FindableIsGrep`, `MissedLastByte`).
- Behind an empty first line `bsection` can fail with an assertion although the file is sorted. The
  documentation asks for lines at least as long as the needle, and with those it never does
  (`DocumentedIsExact`); but such a file gets as far as the assertion, since the newline counts when the
  program checks the length. It fails exactly on files of two or three empty lines that match, and where
  the second line matches and both searches probe into the first two lines before they probe another
  match (`Crashes` in the contract of `Run`, `OnlySecondLine`, `EmptyFirstLine`).
- `copy_version` numbers the copied blocks from zero and drops their encryption fields, so a copy is
  exact only for dense ids and unencrypted blocks (`CopyIsExact`).
- The deletion queue of backy2 keeps rows from earlier removals, so the grace period does not protect a
  block that was in use until a moment ago exactly if such a row is old enough (`GraceAtRemoval`,
  `StaleRowDefeatsGrace`).
- `du` counts blocks with an empty uid as space that a removal frees, but the removal never queues them
  (`FreedIsNewCandidates`).
- The tile script sets its marker before the last flush when `--max-tiles` is reached, so an abort
  between the two loses tiles (`PromiseIffNoLeftover`).
- Merging configurations is not associative where files disagree on the kind of a value
  (`AssociativeIffAgree`).
- Backup directories are sorted by name, which puts number 10 between 1 and 2: rotations go wrong as
  soon as there is a number 10 and more than two directories are kept (`RotationAgesIff`).
- A label run that is interrupted between the patch and the state file can leave labels that no later
  run removes (`InterruptionHeals`).
- `ferm_status` can find two inputs unequal and have no difference to show, exactly if they differ only in
  the order or the repetition of a chain's rules (`EqualOrSilent`, `OrderMatters`). If the policy of a
  common chain differs, `diff` raises TypeError and shows nothing at all (`DiffText`).
- Grafana accounts of group members whose LDAP metadata is invalid are deleted with the others
  (`FinalKeys`).

## Model

| member | source | states |
|---|---|---|
| Bsection.MaxPos | modules/bsection/files/bsection.py:183-196 | On a file that is not empty: the offset of the last byte, and the file is left at its start |
| Bsection.FindLineStart | modules/bsection/files/bsection.py:199-220 | The backward scan ends at the start of the line, except that a newline in byte 0 is not seen, so that a second line starting at offset 1 is answered as 0 |
| Bsection.PeekLine | modules/bsection/files/bsection.py:246-258 | The line at the current position, newline included; the position stays |
| Bsection.CheckNeedle | modules/bsection/files/bsection.py:223-243 | Answers 0, -1 or 1 by the order of the needle and the compared part of the line; the program's length assertion cannot fire when the line is long enough |
| Bsection.CheckDescends | modules/bsection/files/bsection.py:223-243 | On a sorted file the answers of check_needle never go up from one line to a later one |
| Bsection.FindNeedle | modules/bsection/files/bsection.py:56-93 | On every sorted file that is not empty and has no line shorter than the needle: a result is the start of a line with the needle, and -1 is answered exactly when no line but possibly a one-byte final one has it; the offset search terminates by end - start and one round without progress. Behind an empty first line it also says when the answer is the second line |
| Bsection.ScanOn | modules/bsection/files/bsection.py:82-93 | The closing linear scan finds a matching line after the current one unless only the one-byte final line is left |
| Bsection.LowerBound | modules/bsection/files/bsection.py:96-137 | Given a matching line, the first one: every earlier line sorts before the needle; the "unsorted portion" assertion cannot fire |
| Bsection.ScanForMatch | modules/bsection/files/bsection.py:131-137 | The closing scan of lower_bound stops at the first matching line |
| Bsection.UpperBound | modules/bsection/files/bsection.py:140-180 | Given a matching line, the end of the last one: all lines from it up to the result match and all later ones sort after the needle. One of the assertions fails, and that is told, exactly in the cases of Trips, all of them behind an empty first line |
| Bsection.UpperRound | modules/bsection/files/bsection.py:156-174 | One round of the search, by what the probe finds: no progress, the end of the file, the "unsorted portion" assertion, or a search that is narrower or closer to making no progress |
| Bsection.SkipMatching | modules/bsection/files/bsection.py:174-180 | The closing scan of upper_bound stops at the first line that does not match, without a step if that is the current one; if there is none it runs into the length assertion at the end of the file |
| Bsection.GrepSection | modules/bsection/files/bsection.py:15-22 | If the matching lines are those that start in [lo, hi), the bytes of that stretch are the concatenation of what a linear filter of the lines yields |
| Bsection.GrepNothing | modules/bsection/files/bsection.py:15-22 | The linear filter yields nothing exactly when check_needle answers 0 at no line start |
| Bsection.Run | modules/bsection/files/bsection.py:9-29 | On every sorted file that is not empty and has lines long enough: what the program writes is the concatenation of the lines that a linear filter keeps, "needle not found" is answered exactly when no line but possibly a one-byte final one matches, and one of its assertions fails exactly in the cases of Crashes |
| Bsection.TripsIsCrash | modules/bsection/files/bsection.py:9-29 | Whether upper_bound fails on the line that find_needle answered comes down to a condition on the file alone |
| Bsection.FindableIsGrep | modules/bsection/files/bsection.py:82-93 | "Needle not found" disagrees with the linear filter exactly when a one-byte final line starts with the needle and the line before it does not |
| Bsection.DocumentedIsExact | modules/bsection/files/bsection.py:32-53 | For a needle that is not empty and files as the documentation wants them, every line without its newline at least as long as the needle and ended by a newline, the answer always is that of the linear filter and no assertion fails |
| Bsection.OnlySecondLine | modules/bsection/files/bsection.py:199-220 | Whenever the line behind an empty first line is the only one with the needle, the program fails with an assertion |
| Bsection.MissedLastByte | modules/bsection/files/bsection.py:90-90 | A concrete sorted file whose only match is on its one-byte final line, where the program answers "needle not found" |
| Bsection.EmptyFirstLine | modules/bsection/files/bsection.py:199-220 | A concrete sorted file with an empty first line on which the program fails with an assertion although the needle is there |
| BackyStore.RemovalFreesExclusive | modules/backy2/files/sql.py:240-309 | The total size of the distinct referenced uids drops, when a version is removed, by exactly the sizes of the uids that no other version holds |
| BackyStore.RemovalQueuesExclusive | modules/backy2/files/sql.py:543-586 | Once the grace period has passed, the uids that became delete candidates through a removal are exactly the non-empty ones no other version held |
| BackyStore.FreedIsNewCandidates | modules/backy2/files/sql.py:240-586 | What du calls space_freed is the total size of the uids that become delete candidates through the removal, exactly unless the version alone holds blocks with an empty uid and a size: those are counted but never queued |
| BackyStore.GraceAtRemoval | modules/backy2/files/sql.py:543-586 | A uid that only the removed version held is a candidate at the moment of the removal, despite the grace period, exactly when the queue already had a row for it older than dt |
| BackyStore.CopiesHold | modules/backy2/files/sql.py:219-237 | The copied rows reference exactly the uids of the original |
| BackyStore.CopiedAt | modules/backy2/files/sql.py:219-237 | A block's id in the copy is the number of blocks before it in the original; uid, checksum, size and validity are copied, the encryption fields are not |
| BackyStore.CopyAdds | modules/backy2/files/sql.py:202-237 | A copy adds one unprotected version with the given names and the sizes and validity of the original, and these blocks; all other rows stay |
| BackyStore.CopyAddsNoReference | modules/backy2/files/sql.py:219-237 | Copying adds no reference, makes every block of both versions shared, and removing the copy gives the blocks table back |
| BackyStore.CopyIsExact | modules/backy2/files/sql.py:219-237 | A copy has the same block at every id exactly when the ids of the original are 0, ..., n-1 and none of its blocks is encrypted: copies are renumbered and lose their encryption fields |
| BackyBackend.MetaBackend.SetBlock | modules/backy2/files/sql.py:428-457 | Inserts the row, refusing a second one with the same primary key, and changes nothing else |
| BackyBackend.MetaBackend.InsertCopies | modules/backy2/files/sql.py:225-234 | The loop adds row i as block i of the new version and touches no other row |
| BackyBackend.MetaBackend.CopyVersion | modules/backy2/files/sql.py:219-237 | The whole new store of a copy, and no change if the version to copy is unknown |
| BackyBackend.MetaBackend.NullSpace | modules/backy2/files/sql.py:251-254 | The total size of the sparse blocks of the version |
| BackyBackend.RowCounted | modules/backy2/files/sql.py:275-297 | One row of the query, a uid with a size, keeps the running totals: the total equals the bytes of the rows dealt with and the sum of the three parts, and, if a uid determines its size, each part is the sum over the uids dealt with that are shared with others, repeated inside or exclusive |
| BackyBackend.MetaBackend.Du | modules/backy2/files/sql.py:240-309 | null_space is the total size of the sparse blocks and real_space that of the others, and real_space = dedup_others + dedup_own + space_freed, whatever the table; if a uid determines the size of its blocks, dedup_others, dedup_own + space_freed, space_freed and nodedup are the sums over the uids held elsewhere, held only here, these counted once, and held once, and removing the version lowers the stored total by space_freed |
| BackyBackend.SharedIffMore | modules/backy2/files/sql.py:279-297 | The count of a uid over all versions exceeds the count in this one exactly when another version holds it |
| BackyBackend.SharedPlusExclusive | modules/backy2/files/sql.py:279-297 | The bytes of a version are those of its shared uids plus those of its exclusive ones |
| BackyBackend.MetaBackend.SetBlocksInvalid | modules/backy2/files/sql.py:473-485 | Every block stays as it is but for valid, which becomes false exactly where uid and checksum are the given ones, so that no such block is ever answered for its checksum; exactly the versions that hold one are marked invalid, and are answered |
| BackyBackend.MetaBackend.GetBlockByChecksum | modules/backy2/files/sql.py:492-503 | None exactly when no valid block has the checksum; otherwise one of the preferred encryption version if there is one, unless another has a version of 100000 or more, and else of the highest version |
| BackyBackend.MetaBackend.RmVersion | modules/backy2/files/sql.py:543-563 | The version, its tags and its blocks are gone and nothing else; the queue gains one row for each of its blocks with a non-empty uid, counted with multiplicity; answers the number of blocks |
| BackyBackend.MetaBackend.CleanupDeleteCandidates | modules/backy2/files/sql.py:566-580 | Exactly the queue rows older than dt whose uid is referenced are deleted |
| BackyBackend.MetaBackend.GetDeleteCandidates | modules/backy2/files/sql.py:583-586 | Answers a uid exactly if no block references it and some queue row for it is older than dt |
| BackyBackend.MetaBackend.DelDeleteCandidates | modules/backy2/files/sql.py:589-591 | Exactly the queue rows of these uids are deleted |
| BackyBackend.MetaBackend.DeleteRows | modules/backy2/files/sql.py:566-591 | A bulk delete of queue rows keeps every other row with its multiplicity |
| BackyHistory.StepStaysSafe | modules/backy2/files/sql.py:219-591 | Every operation keeps: every non-empty uid that was ever stored is referenced, queued or handed out, and nothing handed out is referenced |
| BackyHistory.HistoriesAreSafe | modules/backy2/files/sql.py:219-591 | That holds in every world of every history from the empty store; blocks with an empty uid are never queued and so may be lost |
| BackyHistory.HandedNeverReturns | modules/backy2/files/sql.py:492-591 | A uid handed out for deletion is never referenced again, in any later world of any history |
| BackyHistory.CleanupKeepsCandidates | modules/backy2/files/sql.py:566-586 | Cleaning up with any grace period leaves the candidate set, for every grace period and time, as it was |
| BackyHistory.GraceProtects | modules/backy2/files/sql.py:543-591 | If at some time the queue has no row for a uid older than the grace period reaches back, the uid is no candidate in any later world while the grace period reaches back to that time |
| BackyHistory.StaleRowDefeatsGrace | modules/backy2/files/sql.py:543-586 | A concrete history from the empty store in which a block is referenced until a removal and a candidate at that very moment, despite a grace period of an hour |
| TileRun.PlacesKept | modules/osm/files/bootstrap-tile-storage.py:228-289 | Every step keeps the page, position and marker in place: the marker stands for the last page boundary, or for the object at which the cap was reached |
| TileRun.AccountedKept | modules/osm/files/bootstrap-tile-storage.py:239-266 | Every step keeps: what was sent, then what is pending, then the batch, are the tiles of the objects looked at, once and in order |
| TileRun.CappedKept | modules/osm/files/bootstrap-tile-storage.py:251-254 | Every step keeps the number of tiles below the cap until the run is done, and equal to it from then on |
| TileRun.SizesKept | modules/osm/files/bootstrap-tile-storage.py:95-103 | Every step keeps events and requests within their configured sizes and never empty |
| TileRun.LeftoverKept | modules/osm/files/bootstrap-tile-storage.py:245-266 | Every step keeps: within a page exactly the tiles that do not fill a request are unsent |
| TileRun.Reachable | modules/osm/files/bootstrap-tile-storage.py:228-289 | All of that holds in every state a run can reach or be aborted in |
| TileSafety.AfterIsFilter | modules/osm/files/bootstrap-tile-storage.py:31-49 | A listing after a marker has exactly the objects whose names are greater |
| TileSafety.PromiseAtAnyPoint | modules/osm/files/bootstrap-tile-storage.py:228-289 | At every abort point every tile up to and including the reported marker has been sent, unless --max-tiles was reached and tiles wait for the last flush, and then not |
| TileSafety.PromiseIffNoLeftover | modules/osm/files/bootstrap-tile-storage.py:251-266 | A run keeps that promise at all its abort points exactly when --max-tiles is unset, not reached, or reached on the last tile of a full request of its page: the marker is set before the last flush |
| TileSafety.Reaches | modules/osm/files/bootstrap-tile-storage.py:236-254 | Below the cap a run comes to look at every object of the listing |
| TileSafety.FinishedSendsAll | modules/osm/files/bootstrap-tile-storage.py:228-289 | A finished run has sent the tiles after its marker once and in order, or the first --max-tiles of them, in events and requests of at most the configured size |
| TileSafety.ResumePoint | modules/osm/files/bootstrap-tile-storage.py:228-293 | The tiles a run has before it are those up to the marker it reports followed by those that a run resumed there lists, nothing missing between |
| TileSafety.ResumedRunsSendAll | modules/osm/files/bootstrap-tile-storage.py:228-293 | Any chain of aborted runs none of whose caps can leave tiles behind, each resumed at the marker reported by the one before, with a last one that finishes, sends every tile of the listing |
| TileEvents.EventSender.constructor | modules/osm/files/bootstrap-tile-storage.py:85-93 | Nothing pending, nothing sent |
| TileEvents.EventSender.Flush | modules/osm/files/bootstrap-tile-storage.py:100-115 | Sends the pending events as one request if there are any; a refused request leaves them pending and the counters as they were |
| TileEvents.EventSender.AddEvent | modules/osm/files/bootstrap-tile-storage.py:95-98 | Adds the event and flushes when a request is full; tells whether that was accepted |
| TileEvents.PageIsSlice | modules/osm/files/bootstrap-tile-storage.py:31-49 | The page listed after a page boundary is the next stretch of the listing |
| TileEvents.NeverBoth | modules/osm/files/bootstrap-tile-storage.py:228-289 | A run that is stopped by a refused listing or POST is none that could complete |
| TileEvents.Invalidator.TakeTile | modules/osm/files/bootstrap-tile-storage.py:244-250 | A tile goes into the batch and a full batch to the sender, as the machine does it |
| TileEvents.Invalidator.CheckCap | modules/osm/files/bootstrap-tile-storage.py:251-254 | The test of --max-tiles, as the machine does it |
| TileEvents.Invalidator.OneObject | modules/osm/files/bootstrap-tile-storage.py:236-254 | One object of a page: the program's variables again are those of a reachable state, or show the state whose next POST was refused |
| TileEvents.Invalidator.OnePage | modules/osm/files/bootstrap-tile-storage.py:236-254 | The same for the loop over a page |
| TileEvents.Invalidator.ClosePage | modules/osm/files/bootstrap-tile-storage.py:256-261 | The same for the flush that closes a page |
| TileEvents.Invalidator.FetchPage | modules/osm/files/bootstrap-tile-storage.py:31-49 | The same for the next page of the listing |
| TileEvents.Invalidator.MoveMarker | modules/osm/files/bootstrap-tile-storage.py:262-283 | The same for the checkpoint, with the decision whether another page follows |
| TileEvents.Invalidator.OneListing | modules/osm/files/bootstrap-tile-storage.py:228-289 | A listing with its page: the program stands before the next listing, or at an end of its run, done or stopped where a listing or a POST was refused |
| TileEvents.Invalidator.Pages | modules/osm/files/bootstrap-tile-storage.py:228-289 | The whole loop ends in the final state of the machine with everything accepted, or in the state whose next listing or POST was refused |
| TileEvents.Invalidator.Run | modules/osm/files/bootstrap-tile-storage.py:228-293 | The program says Done exactly if the machine completes with all its listings and POSTs accepted, and otherwise stops at the first that is refused. When the cap cannot lose tiles, what it has sent when it stops, for whatever reason, covers the reported marker; when it says Done without a cap, it has sent all tiles once and in order |
| RunnerConfig.MergeGet | modules/gitlab_runner/files/gitlab-runner-merge-configs.py:28-31 | Of two tables: every key of either side, merged under that key, and no other |
| RunnerConfig.MergeItem | modules/gitlab_runner/files/gitlab-runner-merge-configs.py:10-27 | Of two runner lists: as many runners as the longer has, merged index by index |
| RunnerConfig.ListsJoin | modules/gitlab_runner/files/gitlab-runner-merge-configs.py:28-29 | Of any other two lists: the items of the first file, then those of the second |
| RunnerConfig.OthersReplaced | modules/gitlab_runner/files/gitlab-runner-merge-configs.py:17-35 | Where the two are not both lists or both tables, the second file's value stands |
| RunnerConfig.AbsorbedIffAddsNothing | modules/gitlab_runner/files/gitlab-runner-merge-configs.py:17-35 | Merging a value below another changes nothing exactly when it adds no key, no runner and no list item anywhere |
| RunnerConfig.AssociativeIffAgree | modules/gitlab_runner/files/gitlab-runner-merge-configs.py:17-35 | Merging three files left to right or right to left gives the same exactly when, wherever the middle one replaces a list or table that the outer two have, the first adds nothing to the third |
| RunnerConfig.AlikeAgree | modules/gitlab_runner/files/gitlab-runner-merge-configs.py:17-35 | Files whose values are of the same kind wherever they meet satisfy that condition |
| RunnerConfig.AlikeMerged | modules/gitlab_runner/files/gitlab-runner-merge-configs.py:17-35 | A file that is of like kind with two others is so with their merge |
| RunnerConfig.MergeFiles | modules/gitlab_runner/files/gitlab-runner-merge-configs.py:50-53 | The loop computes the left fold of the files, of which the next three rows tell what stands where |
| RunnerConfig.MergeAt | modules/gitlab_runner/files/gitlab-runner-merge-configs.py:17-35 | Along any path of keys and runner numbers, what stands at its end after a merge is the merge of what stood there |
| RunnerConfig.ListsInFileOrder | modules/gitlab_runner/files/gitlab-runner-merge-configs.py:17-53 | An ordinary list at the end of any such path is in the end what the files have there, joined in the order of the files, and is missing exactly if all of them lack it |
| RunnerConfig.LastFileWins | modules/gitlab_runner/files/gitlab-runner-merge-configs.py:17-53 | A plain value at the end of any such path is in the end that of the last file that has one |
| RunnerConfig.FoldSplits | modules/gitlab_runner/files/gitlab-runner-merge-configs.py:50-53 | For files of like kind, folding two groups apart and merging the results is folding them all |
| RunnerConfig.BracketingIsIrrelevant | modules/gitlab_runner/files/gitlab-runner-merge-configs.py:50-53 | For files of like kind every bracketing of the merges gives the program's result |
| RunnerConfig.UnlikeKindsDoNotAssociate | modules/gitlab_runner/files/gitlab-runner-merge-configs.py:17-35 | Concrete files of unlike kinds where the bracketing matters |
| ResourceAudit.Search.ContainedResources | utils/audit.py:183-192 | On any graph, cyclic or not, the search terminates, adds only what its root reaches, and leaves no added resource with contents not visited |
| ResourceAudit.Search.Visit | utils/audit.py:183-192 | With the visited set shared across roots, a search adds exactly what its root reaches |
| ResourceAudit.Search.Audit | utils/audit.py:195-200 | The unused classes are exactly those that no root reaches, whatever the order of the roots |
| ResourceAudit.Audit1 | utils/audit.py:161-180 | The unused classes of the lax check are those that are no root and that nothing contains |
| ResourceAudit.LaxImpliesStrict | utils/audit.py:161-200 | What the lax check calls unused is unused for the strict one |
| ResourceAudit.GetRdepends | utils/audit.py:203-209 | An edge for every edge turned around, and an entry for exactly the contained resources |
| ResourceAudit.AddReverse | utils/audit.py:206-208 | The inner loop adds exactly the reversed edges of one resource |
| ResourceAudit.ReverseReaches | utils/audit.py:203-209 | One resource reaches another in a graph exactly when the other reaches it in the reversed graph |
| ResourceAudit.Rdepends | utils/audit.py:225-231 | --rdepends finds exactly the resources that reach the one asked for |
| LogCleanup.LineHasOneNewline | modules/cloudnfs/files/logcleanup.py:40-68 | A line has at most one newline |
| LogCleanup.NewlinesCounts | modules/cloudnfs/files/logcleanup.py:64-65 | What is taken off the number of lines still wanted is the number of newlines read |
| LogCleanup.EnoughLines | modules/cloudnfs/files/logcleanup.py:40-68 | From any offset there are at least as many lines as newlines |
| LogCleanup.RestSuffices | modules/cloudnfs/files/logcleanup.py:61-68 | A rest of the file with more newlines than lines are wanted, wherever it starts inside a line, has the same last lines as the file |
| LogCleanup.Tail | modules/cloudnfs/files/logcleanup.py:40-68 | For every content and window, whatever the block boundaries: the last min(window, number of lines) lines |
| LogCleanup.TailIsTheEnd | modules/cloudnfs/files/logcleanup.py:40-68 | Written out line by line, the last lines of a log are its end from the start of one of its lines on, with the last line ended |
| LogCleanup.RotateSlot | modules/cloudnfs/files/logcleanup.py:79-92 | The option after a slot's name is the next slot's name, and there is none after the last |
| LogCleanup.LogDirectory.MoveStage | modules/cloudnfs/files/logcleanup.py:242-257 | One stage is renamed to the next or, at the end, removed; no other file changes |
| LogCleanup.MovedFurther | modules/cloudnfs/files/logcleanup.py:239-257 | Going from the last slot down, no rename overwrites a slot that is still to be moved |
| LogCleanup.LogDirectory.RotationForward | modules/cloudnfs/files/logcleanup.py:239-257 | Every slot's content moves on by one, the last one out, the first slot is free, other files stay |
| LogCleanup.LogDirectory.Fill | modules/cloudnfs/files/logcleanup.py:291-313 | The first slot gets the content and the log is emptied; other files stay |
| LogCleanup.LogDirectory.ProcessLogfile | modules/cloudnfs/files/logcleanup.py:276-313 | A run either leaves the log and its slots alone or puts the log, or its last lines if it is too large, in front of the three newest slots and empties it |
| LogCleanup.SlotsAreMostRecent | modules/cloudnfs/files/logcleanup.py:276-313 | After any number of runs, on days of rotation or not, the slots hold the contents rotated most recently, newest first, and behind them what they held before the first run |
| ServiceRestart.HasStateMeaning | modules/conftool/files/safe-service-restart.py:347-354 | Where pooling is wanted: enabled, up and pooled; where depooling is wanted: disabled and not pooled |
| ServiceRestart.ReplayWrites | modules/conftool/files/safe-service-restart.py:240-262 | Writing a state to some objects in turn sets exactly those |
| ServiceRestart.DepoolRestores | modules/conftool/files/safe-service-restart.py:240-262 | Depooling what is pooled leaves nothing pooled, and pooling it again restores the store |
| ServiceRestart.CourseIsSafe | modules/conftool/files/safe-service-restart.py:153-186 | In every course of a run, cut short anywhere, each restart happens with nothing pooled and only objects that were pooled are written |
| ServiceRestart.ServiceRestarter.SetAll | modules/conftool/files/safe-service-restart.py:240-262 | The objects are written in order up to the first refusal, whose write may still count; it succeeds exactly if all the writes are accepted |
| ServiceRestart.ServiceRestarter.FetchRetry | modules/conftool/files/safe-service-restart.py:277-337 | True exactly when one of the allowed tries gets an answer that settles the question: the wanted state, an HTTP error, a timeout or a malformed answer; connection issues and other states are tried again |
| ServiceRestart.ServiceRestarter.VerifyStatus | modules/conftool/files/safe-service-restart.py:264-275 | Fails exactly if the last load balancer asked let all its tries pass; on success every load balancer of every pool concerned has settled the question since the call began |
| ServiceRestart.ServiceRestarter.VerifyPool | modules/conftool/files/safe-service-restart.py:264-275 | The same for the load balancers of one pool |
| ServiceRestart.ServiceRestarter.RestartServices | modules/conftool/files/safe-service-restart.py:216-227 | Every service is restarted in turn, and the exit code is that of the last restart that failed, or 0 if none did |
| ServiceRestart.ServiceRestarter.SetAndVerify | modules/conftool/files/safe-service-restart.py:240-262 | Writes followed by asking the load balancers; it succeeds exactly if all writes are accepted and no load balancer concerned lets all its tries pass |
| ServiceRestart.ServiceRestarter.RestartAndPool | modules/conftool/files/safe-service-restart.py:176-186 | The restarts with what follows: pooling is tried exactly if no restart failed, and the exit code is 0 exactly if that succeeds |
| ServiceRestart.ServiceRestarter.RunCourse | modules/conftool/files/safe-service-restart.py:153-186 | The store, the events and the exit code of every branch of a run, and which branch it takes, by what the world answers. Restarts happen only after the depooling was settled with every load balancer concerned, and exit code 0 means that the pooling was settled after the restarts |
| ServiceRestart.ServiceRestarter.Run | modules/conftool/files/safe-service-restart.py:153-186 | In every world: the exit code is 0 exactly if all writes of the depooling and of the pooling are accepted, no load balancer concerned lets all its tries pass, and no restart fails. Every restart happens with nothing pooled and after the load balancers settled the depooling; exit code 0 means that the store is as before; a failed restart leaves exactly the formerly pooled objects depooled; nothing else is ever written |
| ServiceRestart.ServiceRestarter.Change | modules/conftool/files/safe-service-restart.py:188-214 | --pool and --depool: the objects in the one state are put into the other as far as the writes take effect; the exit code is 0 exactly if all are accepted and no load balancer concerned lets all its tries pass |
| ServiceRestart.ServiceRestarter.RunDepool | modules/conftool/files/safe-service-restart.py:188-200 | Exit code 0 exactly if all writes are accepted and no load balancer concerned lets all its tries pass, and then nothing is pooled; only pooled objects change, to depooled |
| ServiceRestart.ServiceRestarter.RunPool | modules/conftool/files/safe-service-restart.py:202-214 | Exit code 0 exactly if all writes are accepted and no load balancer concerned lets all its tries pass, and then what was depooled is pooled; inactive objects stay |
| InterfaceRps.GetCpuList | modules/interface/files/interface-rps.py:109-152 | The first thread siblings of the CPUs near the card, ascending and without repetition, without CPU 0 if so configured; an error exactly when CPU 0 is to be left out and is not among them |
| InterfaceRps.OnePerCore | modules/interface/files/interface-rps.py:138-146 | When the sibling lists agree, every core near the card is represented by exactly one thread |
| InterfaceRps.GetRxIrqs | modules/interface/files/interface-rps.py:239-261 | Succeeds exactly when the matching lines name the rx queues and nothing else, and then each queue has the interrupt of the last line that names it |
| InterfaceRps.CosQueueMap | modules/interface/files/interface-rps.py:206-222 | None exactly when there are not three tx queues for every rx queue; otherwise three bands for each rx queue |
| InterfaceRps.EachTxHasOneRx | modules/interface/files/interface-rps.py:206-222 | With rx queues 0, ..., n-1, tx queue t is listed for rx queue t mod n and for no other |
| InterfaceRps.CosMapPartitions | modules/interface/files/interface-rps.py:206-222 | The map deals out exactly the tx queues 0, ..., 3n-1 just when the rx queues are 0, ..., n-1 |
| InterfaceRps.SelectsOne | modules/interface/files/interface-rps.py:264-267 | The mask written for a CPU selects that CPU and no other |
| InterfaceRps.Card.SetCpu | modules/interface/files/interface-rps.py:264-279 | The masks of the interrupt, unless it is missing or 0, of the rx queue and of the tx queues become that of the CPU; no other mask changes |
| InterfaceRps.Card.SetXps | modules/interface/files/interface-rps.py:276-279 | The loop over the tx queues |
| InterfaceRps.Card.DistQueuesToCpus | modules/interface/files/interface-rps.py:282-286 | The queues are dealt out in turn; division by zero exactly when there is a queue and no CPU |
| InterfaceRps.Card.SetUp | modules/interface/files/interface-rps.py:360-379 | The masks after the queues are dealt out with the driver's tx map, the one-to-one map, or none |
| InterfaceRps.EveryRxPlaced | modules/interface/files/interface-rps.py:282-286 | After the distribution rx queue number i is on CPU number i mod m, whatever the tx queues are: later queues have not overwritten that |
| InterfaceRps.EveryTxPlaced | modules/interface/files/interface-rps.py:264-286 | So is every tx queue listed for it, if no tx queue is listed for two rx queues |
| InterfaceRps.EveryIrqPlaced | modules/interface/files/interface-rps.py:264-286 | An interrupt that is not 0 and belongs to one queue only ends up on the CPU of that queue |
| InterfaceRps.TxFollowsRx | modules/interface/files/interface-rps.py:206-286 | On a bnx2x card with rx queues 0, ..., n-1 and 3n tx queues every tx queue is on the one CPU of its rx queue |
| InterfaceRps.OneToOne | modules/interface/files/interface-rps.py:264-379 | On any other card with as many tx as rx queues every tx queue is on the CPU of the rx queue of its number |
| InterfaceRps.NoTxMasks | modules/interface/files/interface-rps.py:264-379 | When the numbers of queues do not fit, no tx mask is written |
| InterfaceRps.EvenShares | modules/interface/files/interface-rps.py:282-286 | CPU number c of m serves floor(n/m) of the n rx queues, and one more if c < n mod m |
| GrafanaSync.Syncer.CreateUser | modules/grafana/files/ldap_users_sync.py:147-159 | A new account with a fresh id; no other account changes |
| GrafanaSync.Syncer.DeleteUser | modules/grafana/files/ldap_users_sync.py:175-183 | Removes the account with the id, in a committed run only |
| GrafanaSync.Syncer.Grant | modules/grafana/files/ldap_users_sync.py:214-239 | The account gets the role, and the admin flag exactly if the role is Admin; no other account changes |
| GrafanaSync.Syncer.Ensure | modules/grafana/files/ldap_users_sync.py:199-231 | The account exists with the name and email of LDAP, having been created anew exactly if they differed; no other account changes |
| GrafanaSync.Syncer.SyncOne | modules/grafana/files/ldap_users_sync.py:185-239 | One user of a group: unchanged if seen before or without valid metadata, otherwise brought in line; all other logins unchanged |
| GrafanaSync.Syncer.SyncLdapUsers | modules/grafana/files/ldap_users_sync.py:185-239 | One group brings in line exactly its members with valid metadata that no earlier group had |
| GrafanaSync.Syncer.SyncGroups | modules/grafana/files/ldap_users_sync.py:345-355 | After all groups every login has the role of the first group that lists it, if its metadata is valid, and is otherwise unchanged |
| GrafanaSync.Syncer.DeleteMissing | modules/grafana/files/ldap_users_sync.py:356-362 | Exactly the accounts that are neither protected nor listed with valid metadata are deleted |
| GrafanaSync.Syncer.Run | modules/grafana/files/ldap_users_sync.py:341-362 | After a committed run every login has exactly the account it should, and an account that was there before keeps its id exactly if its name and email stay; with deletion the logins are the protected ones that were there and the listed ones with valid metadata; an uncommitted run changes nothing |
| GrafanaSync.OneMoreGroup | modules/grafana/files/ldap_users_sync.py:345-355 | One more group changes what is expected only of its members not listed before |
| GrafanaSync.FinalKeys | modules/grafana/files/ldap_users_sync.py:345-362 | The logins left are the protected ones that existed plus the listed ones with valid metadata, so users whose metadata is invalid are deleted |
| IcingaStatus.ParseBlock | modules/icinga/files/icinga_status.py:257-278 | The loop reads a block as the recursive reading does, leaving it at the first line that makes it of no interest |
| IcingaStatus.ParseMeans | modules/icinga/files/icinga_status.py:257-278 | A block is read up to the first line that makes it of no interest; with none, it has the name of its last header and for each key the value of the last pair |
| IcingaStatus.ParseStatus | modules/icinga/files/icinga_status.py:225-255 | The loop over the blocks, up to the first trailing section |
| IcingaStatus.StatusMeans | modules/icinga/files/icinga_status.py:225-255 | A file is accepted exactly if some block opens a trailing section and all before it are sound. A host is there exactly if a block is about it, with the status of the last such block; a service of it exactly if a block behind that one is about it, with the status of the last; the three numbers stand in their places |
| IcingaStatus.BlockNarrows | modules/icinga/files/icinga_status.py:257-278 | A well-formed block read for some hosts gives what a full reading gives, or its name alone if it is about another host |
| IcingaStatus.TakeNarrowed | modules/icinga/files/icinga_status.py:225-255 | Then its effect on the wanted hosts is that of the fully read block |
| IcingaStatus.EarlyIsFilteredFull | modules/icinga/files/icinga_status.py:225-278 | Whatever well-formed file a full reading accepts, the early-leaving one accepts, and yields exactly the wanted hosts with their services |
| IcingaStatus.Optimal | modules/icinga/files/icinga_status.py:142-148 | True exactly when the states of the host and its services add up to 0 |
| IcingaStatus.OptimalMeansAllUp | modules/icinga/files/icinga_status.py:142-153 | When no state is negative, that is exactly when the host's state is 0 and no service failed |
| FermStatus.Parser.Parse | modules/ferm/files/ferm_status.py:303-355 | The loop over the lines computes the tables of the recursive reading, or fails where it fails; the next rows tell what these are |
| FermStatus.ParseMeans | modules/ferm/files/ferm_status.py:303-355 | An input is parsed exactly if every chain of ours has a policy and a table and every rule of ours a chain declared in its section. Then it has each table as it was opened last, with the chains of that section as declared last and their rules in order, without what other programs own |
| FermStatus.RuleMeans | modules/ferm/files/ferm_status.py:242-269 | A rule is read exactly if no option lacks its word, every comment can be read, every address, port, protocol and limit normalised, and a match on state has one; each attribute is then what its last option says, normalised, but for the state that is matched on, which is lost, and the comments are all there in order |
| FermStatus.ForeignLinesDoNotMatter | modules/ferm/files/ferm_status.py:335-355 | Deleting all lines of ignored chains and ignored comments from any input that parses leaves the tables as they were |
| FermStatus.DiffChain | modules/ferm/files/ferm_status.py:131-149 | An entry is there exactly if the policies differ or a rule is on one side only, whatever the rule |
| FermStatus.DiffTable | modules/ferm/files/ferm_status.py:81-97 | An entry is there exactly if a chain is on one side only or differs |
| FermStatus.Diff | modules/ferm/files/ferm_status.py:312-327 | Exactly the entries by which two inputs differ, each once, none missing and none made up; no entry exactly when tables, chains, policies and the rule set of each chain agree |
| FermStatus.DiffText | modules/ferm/files/ferm_status.py:312-328 | Joining the entries into a text fails with TypeError exactly when a chain that both inputs have differs in its policy; otherwise the text has exactly the entries of the difference |
| FermStatus.NoEntryIffSame | modules/ferm/files/ferm_status.py:312-328 | Two inputs have no difference exactly when tables, chains, policies and rule sets agree |
| FermStatus.EqualOrSilent | modules/ferm/files/ferm_status.py:54-128 | When diff has nothing to show, two inputs are equal exactly if every chain has the same rules in the same order and as often |
| FermStatus.OrderMatters | modules/ferm/files/ferm_status.py:54-128 | Concrete inputs that are unequal, by the order of two rules, and between which diff finds nothing |
| NodeLabels.ParseLabels | modules/k8s/files/sync_kubelet_node_labels.py:44-56 | Each key has the value of the last pair that names it |
| NodeLabels.PairSplits | modules/k8s/files/sync_kubelet_node_labels.py:44-56 | A pair is its key and its value with the first equals sign between them, or its key alone with an empty value |
| NodeLabels.LoadManaged | modules/k8s/files/sync_kubelet_node_labels.py:59-83 | The recorded keys, none if there is no readable state file, and an error exactly if it names another node |
| NodeLabels.Syncer.Sync | modules/k8s/files/sync_kubelet_node_labels.py:237-331 | A run that goes through removes the managed labels that are no longer wanted, sets the wanted ones and records them; a mismatched node, empty labels or a refused patch change nothing |
| NodeLabels.LastWantedPlusForeign | modules/k8s/files/sync_kubelet_node_labels.py:237-331 | After any number of runs the node has the labels last wanted plus those of its first labels that no run wanted and the state file did not claim |
| NodeLabels.RunTwice | modules/k8s/files/sync_kubelet_node_labels.py:237-331 | A repeated run changes nothing |
| NodeLabels.InterruptionHeals | modules/k8s/files/sync_kubelet_node_labels.py:305-331 | A run that stopped between patch and state file is made up for by the next one exactly when every label it set was managed before or is wanted again |
| EtcdBackup.BeforeIsByName | modules/etcd/files/etcd-backup.py:39-44 | The order of two backup directories by name depends only on their numbers |
| EtcdBackup.NamesAreOrdered | modules/etcd/files/etcd-backup.py:39-44 | Different numbers have different names, one of which comes first |
| EtcdBackup.DescendingIsDown | modules/etcd/files/etcd-backup.py:39-44 | Up to number 9 the reversed listing by name is k, ..., 1, 0 |
| EtcdBackup.RenamesWhenClear | modules/etcd/files/etcd-backup.py:53-68 | A series of renames to the next number comes through exactly when each target is free or was freed by an earlier rename |
| EtcdBackup.RenamedAreShifted | modules/etcd/files/etcd-backup.py:53-68 | A series of renames that comes through has moved exactly the listed directories on by one |
| EtcdBackup.DropOldest | modules/etcd/files/etcd-backup.py:46-51 | Of 0, ..., k the first removed in the listing are the highest numbers |
| EtcdBackup.RotationAges | modules/etcd/files/etcd-backup.py:24-104 | From 0, ..., k with k at most 9 a rotation and a backup come through, age every survivor by one and drop only the oldest |
| EtcdBackup.ListingEnds | modules/etcd/files/etcd-backup.py:39-44 | With a number 10 the reversed listing ends in 10, 1, 0 |
| EtcdBackup.RotationAgesIff | modules/etcd/files/etcd-backup.py:24-104 | From 0, ..., k, for every listing by name, a rotation and a backup do so exactly when k is at most 9 or at most two directories are kept |
| EtcdBackup.NothingMoves | modules/etcd/files/etcd-backup.py:24-55 | Whatever directories there are: without an unnumbered one a rotation only removes the surplus |
| EtcdBackup.AllMoveOn | modules/etcd/files/etcd-backup.py:24-70 | With one, it comes through exactly if each next number is free in time, and then all that stay have moved on by one |
| EtcdBackup.ListingWithTen | modules/etcd/files/etcd-backup.py:39-44 | The listing of 0, ..., 10 has ".10" between ".2" and ".1" |
| EtcdBackup.TenCollides | modules/etcd/files/etcd-backup.py:53-68 | A concrete case: keeping 11 or more of 0, ..., 10, the first rename finds its target taken |
| EtcdBackup.TenDropsWrong | modules/etcd/files/etcd-backup.py:46-68 | A concrete case: keeping 10 of 0, ..., 10, number 9 is removed in place of the oldest, which becomes number 11 |
| EtcdBackup.KeepsItsShape | modules/etcd/files/etcd-backup.py:24-104 | Keeping at most 9, every history of runs stays at 0, ..., m with m at most 9, and from each of its states the next rotation comes through |
| EtcdBackup.BackupRoot.List | modules/etcd/files/etcd-backup.py:24-44 | The directories sorted by name, last first |
| EtcdBackup.BackupRoot.RemoveEach | modules/etcd/files/etcd-backup.py:46-51 | Removes exactly the listed directories |
| EtcdBackup.BackupRoot.RenameEach | modules/etcd/files/etcd-backup.py:57-68 | Renames in order, or stops at the first whose target is taken, with those before it renamed |
| EtcdBackup.BackupRoot.RotateLogs | modules/etcd/files/etcd-backup.py:24-70 | The rotation on the listing: which directories are left, under which numbers, or that a rename failed |
| EtcdBackup.BackupRoot.Backup | modules/etcd/files/etcd-backup.py:89-104 | A rotation followed by a backup into the unnumbered directory; if a rename fails, the surplus is removed, the directories before it are renamed, and there is no backup |
| SshAgentProxy.UnpackPack | modules/keyholder/files/ssh-agent-proxy.py:71-76 | Four bytes, most significant first, are read back as the number they were written for, wherever they stand |
| SshAgentProxy.PackUnpack | modules/keyholder/files/ssh-agent-proxy.py:71-76 | The number read at an offset is written as the four bytes that stand there |
| SshAgentProxy.StringAt | modules/keyholder/files/ssh-agent-proxy.py:71-76 | A string is read at an offset exactly when its length-prefixed encoding stands there |
| SshAgentProxy.ParseInvertsEncode | modules/keyholder/files/ssh-agent-proxy.py:203-221 | A sign request is parsed exactly from the complete encodings whose flag is accepted, and encoding is the inverse of parsing |
| SshAgentProxy.ParseErrors | modules/keyholder/files/ssh-agent-proxy.py:203-221 | Parsing fails for want of bytes exactly if the message is cut off, and as a protocol error exactly if it is complete but goes on behind the flag or has one that is not accepted |
| SshAgentProxy.ReceiveFrame | modules/keyholder/files/ssh-agent-proxy.py:146-159 | A message that was sent is received unchanged, with the rest of the stream left |
| SshAgentProxy.FramesRoundTrip | modules/keyholder/files/ssh-agent-proxy.py:146-159 | A sequence of messages that was sent is received as that sequence |
| SshAgentProxy.ForwardMeansPermitted | modules/keyholder/files/ssh-agent-proxy.py:161-187 | A message is forwarded exactly if it lists identities or is a complete sign request for a key that the client may use |
| SshAgentProxy.RefuseMeansForbidden | modules/keyholder/files/ssh-agent-proxy.py:161-187 | A message is refused and answered by a failure exactly if it has another code or is a complete sign request for a key that the client may not use |
| SshAgentProxy.RaiseMeansMalformed | modules/keyholder/files/ssh-agent-proxy.py:161-221 | It raises exactly if it lists identities with trailing bytes or is no complete sign request |
| SshAgentProxy.AtMessage | modules/keyholder/files/ssh-agent-proxy.py:146-201 | After any number of served messages the next one on the stream is served too or ends the service |
| SshAgentProxy.JudgedSnoc | modules/keyholder/files/ssh-agent-proxy.py:161-187 | How one more message adds to what was forwarded, or refused |
| SshAgentProxy.Handler.Handle | modules/keyholder/files/ssh-agent-proxy.py:146-201 | Over any bytes a client sends the backend receives exactly the permitted messages, unmodified and in order, and every refused one is answered by one failure message; the handler raises exactly when what follows the messages served has a size of 0 or is a message that cannot be read as what its code says |
| SshAgentProxy.Handler.ServeOne | modules/keyholder/files/ssh-agent-proxy.py:161-187 | One message: forwarded, answered or refused, with nothing else sent |

## Left out

- Bsection.Run: requires a sorted file that is not empty and has no line shorter than the needle, newline included, and not the empty needle together with an empty first line; for others the program raises OSError or one of its own assertions, or the order of its lines is not what it searches by.
- Bsection.FindNeedle: bytes are characters and midpoints are integer halves; decoding of multi-byte characters and the rounding of float division in very large files are not modelled.
- BackyBackend.MetaBackend.Du: backy_space is left out, as its shares are rounded floats; what the single parts mean is stated for tables in which a uid determines the size of its blocks.
- BackyBackend.MetaBackend.CopyVersion: the generated uid is a parameter and assumed new; dates of versions and blocks are not kept.
- BackyBackend.MetaBackend.GetBlockByChecksum: which of several equally ranked blocks is answered is left open, as it depends on the order of the rows.
- BackyHistory.HistoriesAreSafe: operations happen one at a time, each with one reading of the clock; forgetting candidates is limited to uids that were handed out.
- CSV export and import, schema migration, statistics and protection flags of backy2.
- TileEvents.Invalidator.Run: interrupts between two steps are covered by the theorems on every state of the machine rather than by the method; dry runs, rates and log lines are left out, and a name comes with the tile that parsing it gave.
- RunnerConfig.MergeFiles: works on parsed values; the order of keys and the TOML reader and writer are left out.
- ResourceAudit.Search.ContainedResources: the recursion limit of the original's language is not modelled.
- The queries and parsers from which audit.py gets its graphs.
- LogCleanup.Tail: the file can be sought by byte and its only line separator is the newline; the original opens it as text, where seeking from the end is not supported.
- Owners and modes of log files, the choice of the files to rotate, and the calendar.
- ServiceRestart.ServiceRestarter.Run: the run without --force; with it only the restarts are left. Selecting objects by tags, the pool counter and the waiting between tries are left out.
- InterfaceRps.Card.SetUp: starts from the lists of queues and interrupts; detecting the name pattern, setting the number of queues and the queueing discipline are left out, as is the hexadecimal notation of masks.
- GrafanaSync.Syncer.Run: no API call fails, metadata is the same whenever it is asked for, and ids of new accounts are fresh.
- IcingaStatus.ParseStatus: starts from the lines of each block; splitting the text, the queries and the output are left out.
- IcingaStatus.EarlyIsFilteredFull: one direction; the early-leaving reading also accepts files whose faults lie in blocks it leaves.
- FermStatus.Parser.Parse: starts from lines split into words, with networks, ports and quoted strings read by a given function. The state of a rule that matches on state is erased, as the original's in-place sort returns nothing. The text of rules is not kept; their hash is a function of what equality compares and is not modelled apart.
- FermStatus.Diff: the order of the entries is left open, as the original takes most of them from sets; they are not the lines of text that are printed.
- NodeLabels.Syncer.Sync: dry runs, permission checks and metrics are left out; whether the API server accepts the patch is a parameter.
- EtcdBackup.BackupRoot.RotateLogs: directories are those of one cluster, written without leading zeros and not empty, and --keep is not negative.
- SshAgentProxy.Handler.Handle: what the client sends is taken as one stream of bytes; the agent's answers and how they interleave with the client's requests are left out; which keys a client may use is a given predicate on key blobs.
- Network, LDAP, SQL, Kubernetes and conftool clients, argument parsing, logging, configuration readers, process spawning, and the scripts of the repository that only wrap a command.
