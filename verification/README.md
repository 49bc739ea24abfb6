# splicefeed, modelled in Dafny

splicefeed polls podcast-like shows, downloads their episodes, prunes them by a retention policy
and serves what is left as a feed. This project models its sync engine and proves what whole runs
of it keep. `dafny verify dfyconfig.toml` checks everything.

The modules follow the program:

- `Retention` plans what to keep: the loop of the planner, proved against the greedy choice, which
  is proved to be the lexicographically best feasible one.
- `Domain`, `Timestamps`, `Order`, `Episodes`, `Storage` are the episode table: lifecycle, text
  columns, sort order, one atomic step per storage call, and the class whose methods refine them.
- `Media`, `Download` are the file side: where an episode lives, one transfer attempt through a
  temp file, and the bounded retry.
- `Limits` states what a completed sync promises in numbers.
- `World` says what a sync, a pruning pass and a verify do to table and files, as functions of the
  state before and of everything the outside world answers; the class in `Library` carries the
  operations out step by step and is proved equal to them.
- `Rows`, `Agreement`, `Transfers`, `Verifying`, `Ledger`, `Convergence`, `Resync`, `Repair` and
  `Feed` prove what these functions promise over runs: agreement of database and disk, equivalence
  of every interleaving of concurrent downloads and checks with the sequential one, conservation,
  convergence, repair, and a feed that depends on the rows alone.
- `Shows`, `Syncing`, `Boundaries`, `Overlaps`, `Checkups` and `Mixed` prove that work for different shows
  does not interfere: whole syncs, and whole verifies, of different shows may overlap step by step.
- `Widening`, `Projection`, `Cycles` and `LongRuns` settle two questions exactly: which policies may
  have their byte cap raised or removed without losing an episode, and which are corrected by one
  cycle.
- `Difm` is the order of the provider's listing and when it matches the stored one.
- `Scheduler`, `NextPolls`, `Polls`, `Reload`, `Permits`, `Throttle` are the concurrent parts of the
  daemon as interleaved atomic steps.

Where the code and its own words disagree, the model follows the code:

- The field comment says a file path is unset outside `Cached` (`crates/core/src/storage.rs:117`);
  `mark_downloading` and `mark_failed` leave an old path in place. A row holds a path exactly when
  it was cached since it was last pruned (`Episodes.PathHeldExactly`).
- `DESIGN.md:240` gives the tiebreak of the stored order as the episode id; the query sorts it
  descending (`crates/core/src/storage.rs:430`).
- `DESIGN.md:210` promises at most one poll at any moment; the permit covers scheduled polls only
  (`Scheduler.AtMostOneSync`). With the sync at startup (`crates/daemon/src/main.rs:642`) and the
  one after a reload (`crates/daemon/src/reload.rs:108`) up to three run at once (`Polls.Overlap`).
  From a given state on the promise holds exactly when at most one of the three kinds can still
  poll (`Polls.MostPollsExactly`), and for good only if no reload can come any more
  (`Polls.MostPollsEverExactly`).
- `crates/splicefeed/src/lib.rs:322-323` promises that an optimistic fetch under a byte cap is
  corrected and remembered after one cycle at most. Of each single fetch this is true under every
  policy: its size is recorded in the same cycle and stays (`Convergence.SettleKeepsSteady`). Read
  of the whole library, that after one cycle no fetch of unknown size is wanted any more, it holds
  exactly without a count limit, or with one that decides alone (`LongRuns.OneCycleExactly`). With
  any other policy the corrected fetch makes room for the next optimistic one, which can take one
  cycle per episode of unknown size (`Cycles.EveryCycleTriesAnother`, `LongRuns.EveryLength`) and
  never takes more than one beyond that (`Resync.RepeatedSyncsConverge`, `LongRuns.BoundIsReached`).
- Two overlapping syncs of one show are not exclusive: see `Transfers.LoserFailsTheWinner`. The
  sync-level results are for one sync or verify of each show at a time, any number of shows
  overlapping; the table results are for any interleaving.

## Model

| member | source | states |
|---|---|---|
| `Retention.Split` | crates/core/src/retention.rs:28-50 | The one-pass walk with its running byte total yields the ids of the greedy choice in input order and the rejected ids oldest first. |
| `Retention.Plan` | crates/core/src/retention.rs:54-56 | The prune list is the rejected ids, oldest first. |
| `Retention.LimitTests` | crates/core/src/retention.rs:33-42 | The two limit tests of the walk, with the exemption for the newest kept episode, reject exactly the extensions that would make the kept set infeasible. |
| `Retention.LexicographicallyFirst` | crates/core/src/retention.rs:32-47 | Among all choices with at most `keep_last` items whose bytes fit the cap or that hold at most one item, the kept one is feasible and lexicographically first in newest-first order. |
| `Retention.FeasibleSubset` | crates/core/src/retention.rs:33-42 | Leaving episodes out of a set within the limits keeps it within the limits. |
| `Retention.SplitPartitions` | crates/core/src/retention.rs:28-50 | Kept and rejected partition the input as multisets, and both sit at strictly rising input positions. |
| `Retention.DoomedAreIrrelevant` | crates/core/src/retention.rs:32-47 | Removing any of the rejected candidates from the input leaves the kept list as it was. |
| `Retention.ReplanIsStable` | crates/core/src/retention.rs:32-47 | Planning the survivors again rejects nothing. |
| `Retention.KeptOfPrefix` | crates/core/src/retention.rs:32-47 | Older candidates never change what is kept of the newer ones; they only add themselves behind. |
| `Retention.CountTakesPrefix` | crates/core/src/retention.rs:33-46 | Under any byte cap, `keep_last` n keeps the first n of what is kept without a count limit. |
| `Retention.WideningCountOnlyAdds` | crates/core/src/retention.rs:33-46 | A larger `keep_last` keeps everything the smaller one kept, and adds only older episodes. |
| `Widening.ThreeDropExactly` | crates/core/src/retention.rs:37-42 | Of three candidates a larger byte cap drops one exactly when the second newest fits only the larger cap and then leaves no room for the third, which fitted before. |
| `Widening.RaisingIsSafeExactly` | crates/core/src/retention.rs:32-47 | Raising the byte cap drops nothing of any list exactly when there is no count limit and the cap was zero, or the count limit is at most one, for every smaller and every larger cap. |
| `Widening.LosingListLoses` | crates/core/src/retention.rs:32-47 | For every other policy and every larger cap, a list that loses a kept episode. |
| `Widening.RemovingIsSafeExactly` | crates/core/src/retention.rs:32-47 | Removing the byte cap drops nothing of any list exactly when there is no count limit or it is at most one. |
| `Domain.ParseSlug` | crates/core/src/domain.rs:34-55 | A slug parses exactly when it is non-empty over the slug alphabet; the text is kept and holds no slash. |
| `Domain.EdgesExactly` | crates/core/src/domain.rs:273-293 | An episode is cached or fails only out of a download, is pruned only out of the cache, and can be downloaded from wherever else it stands. |
| `Domain.ClassTextRoundTrip` | crates/core/src/domain.rs:219-245 | A text parses to an error class exactly when it is that class's text. |
| `Domain.DecodeInvertsEncode` | crates/core/src/storage.rs:739-759 | The two state columns written for a state read back as that state, and a pair of columns reads as a state exactly when it spells it. |
| `Domain.MimeRoundTrip` | crates/core/src/domain.rs:443-465 | Reading a MIME type and writing it again only normalises the two aliases. |
| `Timestamps.WholeSecondTextOrder` | crates/core/src/storage.rs:430 | For whole-second UTC times of the years 0000 to 9999, text order is time order (section 5.1 of RFC 3339). |
| `Timestamps.TextOrderExact` | crates/core/src/storage.rs:332-341 | With fractional seconds the text order misorders two times exactly when both fall in one second and the earlier fraction's text starts the later one's. |
| `Timestamps.SecondApart` | crates/core/src/storage.rs:332-341 | Times at least one second apart are always ordered correctly as text. |
| `Timestamps.TextInjective` | crates/core/src/storage.rs:430 | Different instants have different texts. |
| `Timestamps.TextLayout` | crates/core/src/storage.rs:430 | The text is that of section 5.6 of RFC 3339: fixed-width date and time fields, the fraction, and the zone. |
| `Timestamps.FractionExactly` | crates/core/src/storage.rs:332-341 | The fraction is left out when it is zero, and otherwise is the nine digits of the nanoseconds without trailing zeros. |
| `Order.BeforeIsStrictTotal` | crates/core/src/storage.rs:430 | The stored order (publication text descending, undated last, then id descending) is a strict total order on a show's rows. |
| `Order.SortedUnique` | crates/core/src/storage.rs:421-437 | A show's rows can be sorted in only one way, so insertion order never matters. |
| `Order.SortIds` | crates/core/src/storage.rs:421-437 | The query's sort yields that one order. |
| `Episodes.RunKeepsRows` | crates/core/src/storage.rs:326-600 | After any sequence of storage calls in any interleaving, refused ones included, every row holds exactly the optional columns its state allows, written out column by column. |
| `Episodes.StepIsLegal` | crates/core/src/storage.rs:326-600 | No call removes a row; every change of state, the bulk heal included, is a legal edge; rows appear as discovered; a known duration stays known. |
| `Episodes.HistoryIsLifecyclePath` | crates/core/src/domain.rs:273-293 | Over any run from an empty database, the states a row went through form a path of legal edges from discovered to its present state. |
| `Episodes.DiscoverRow` | crates/core/src/storage.rs:369-417 | A discovery adds exactly the listed unknown ids as discovered rows and leaves state and file columns of known rows alone. |
| `Episodes.DiscoverColumns` | crates/core/src/storage.rs:369-417 | The last entry for an id decides title, description and time, and the duration if it has one. |
| `Episodes.DiscoverNew` | crates/core/src/storage.rs:369-417 | A new row has the time of its discovery, a duration only from the listing, and nothing of a file or a transfer. |
| `Episodes.DiscoverUnlisted` | crates/core/src/storage.rs:369-417 | A row that is not listed stays as it was. |
| `Episodes.NewsAreNewRows` | crates/core/src/storage.rs:369-417 | An id is reported new exactly when its row appears in this discovery. |
| `Episodes.ReportedAreNewRows` | crates/core/src/storage.rs:369-417 | Over a whole run the ids reported new are exactly the rows that appeared. |
| `Episodes.ReportedOnce` | crates/core/src/storage.rs:369-417 | No id is ever reported new twice, whatever happens in between, repeated ids inside one listing included. |
| `Episodes.RowsStay` | crates/core/src/storage.rs:369-417 | Rows are never removed. |
| `Episodes.HealMargin` | crates/core/src/storage.rs:326-346 | The heal spares a transfer whose progress is at least one second newer than the cutoff and catches one at least one second older, in spite of comparing texts. |
| `Episodes.DeadStartIsHealed` | crates/core/src/storage.rs:326-346 | A row whose download was started and has not reported since is failed by the next heal of its show, at whatever time and whatever else happened in between. |
| `Limits.DeadStartIsPending` | crates/splicefeed/src/lib.rs:254-258 | So a process that dies between starting a download and its first report leaves a row that the next heal makes pending again. |
| `Episodes.PathHeldExactly` | crates/core/src/storage.rs:447 | Over any run from an empty database a row holds a path exactly when it was cached since it was last pruned, whatever its state is now. |
| `Episodes.CachedIsReachable` | crates/core/src/storage.rs:487-515 | There are such runs: listing an episode and fetching it leaves its row cached with its path. |
| `Episodes.PathOutlivesCached` | crates/core/src/storage.rs:530 | A cached row that is fetched again, and fails, still holds its path. |
| `Storage.RowRoundTrip` | crates/core/src/storage.rs:665-719 | A stored record decodes to itself, and its class column is set exactly for failures. |
| `Storage.Database.Discover` | crates/core/src/storage.rs:369-417 | Refines the table's discovery step and returns its news. |
| `Storage.Database.CheckTransition` | crates/core/src/storage.rs:560-600 | Answers not-found, illegal or allowed exactly as the lifecycle says; a valid database never reports a corrupt row. |
| `Storage.Database.MarkDownloading` | crates/core/src/storage.rs:440-454 | Refines the table step; allowed, it writes the state and clears the progress and touches no other column; refused, it changes nothing. |
| `Storage.Database.MarkCached` | crates/core/src/storage.rs:487-515 | Refines the table step; allowed, it writes path, size up to the largest signed 64-bit number, hash, type and time, a duration only where none was known, and nothing of the listing; refused, it changes nothing. |
| `Storage.Database.MarkFailed` | crates/core/src/storage.rs:518-539 | Refines the table step; allowed, it writes the class and clears the progress and touches no other column; refused, it changes nothing. |
| `Storage.Database.MarkPruned` | crates/core/src/storage.rs:543-556 | Refines the table step; allowed, it forgets the path and nothing else; refused, it changes nothing. |
| `Storage.Database.SetProgress` | crates/core/src/storage.rs:459-484 | Writes the reported numbers, up to what the column holds, and only to a row that is downloading. |
| `Storage.Database.ResetStaleDownloads` | crates/core/src/storage.rs:326-346 | Fails exactly the stale downloading rows of the show, those that never reported included, and counts them; the rest stays as it was. |
| `Storage.Database.EpisodesOf` | crates/core/src/storage.rs:421-437 | Returns all rows of the show in stored order, and fails exactly when one does not decode. |
| `Media.PathTextInjective` | crates/splicefeed/src/lib.rs:788-805 | A media path determines show, stem and extension. |
| `Media.OwnersShareStem` | crates/splicefeed/src/lib.rs:788-805 | Two episodes can meet at one path only within one show and with one stem. |
| `Media.StemsCollideExactly` | crates/splicefeed/src/lib.rs:789-800 | Ids share a stem exactly when they are equally long and differ only in replaced characters or underscores. |
| `Media.StemAt` | crates/splicefeed/src/lib.rs:789-800 | The stem keeps ASCII letters, digits, hyphens and underscores and replaces every other character by an underscore. |
| `Media.ExtensionExactly` | crates/splicefeed/src/lib.rs:888-902 | The extension is that of the resolved type; failing that, what follows the last dot of the URL path if it is one to four letters and digits; failing that, `bin`. |
| `Media.ExtensionWithoutDot` | crates/splicefeed/src/lib.rs:888-902 | A URL path without a dot counts as its own extension, if short enough. |
| `Domain.ExtensionByText` | crates/core/src/domain.rs:426-442 | The extension of each known audio type, by the text of the type. |
| `Media.MediaPathExactly` | crates/splicefeed/src/lib.rs:785-805 | An episode lives at `media/<show>/<stem>.<extension>`. |
| `Download.Stream` | crates/core/src/download.rs:213-223 | Chunks are appended to the temp file, hashed and counted in step, up to the first failed write; progress reports are the running counts and never decrease. |
| `Download.Attempt` | crates/core/src/download.rs:164-254 | One attempt ends with the destination holding the whole body or with all named files untouched, no temp file either way, and the error of the first thing that went wrong. |
| `Download.Fetch` | crates/core/src/download.rs:86-162 | At most three attempts, each further one only after a dropped connection, a short body or a status of 500 and above; giving up earlier means any other error. Success means size, hash and type are those of exactly the bytes at the destination, and the size is the promised one. |
| `Download.DeliveredInTheEnd` | crates/core/src/download.rs:138-162 | A complete exchange that comes after nothing but such failures is delivered. |
| `Download.FailedInTheEnd` | crates/core/src/download.rs:138-162 | The error reported is that of the attempt that decided. |
| `Limits.FailureClassExactly` | crates/core/src/download.rs:75-83 | Which class a failed fetch is recorded with, by what went wrong at the provider, on the wire or on disk. |
| `Download.DecidingUnique` | crates/core/src/download.rs:86-162 | Which attempt decides is fixed by what the attempts come to: the first that succeeds or fails for good, or the third. |
| `Library.Library.TryDownload` | crates/splicefeed/src/lib.rs:703-736 | Marks, resolves, fetches, records; each way out leaves the stated table and files. |
| `Library.Library.DownloadEpisode` | crates/splicefeed/src/lib.rs:673-701 | Ends in the one-download state transformer and answers whether the episode arrived. |
| `Library.Library.ApplyRetention` | crates/splicefeed/src/lib.rs:738-782 | Prunes exactly the planned cached rows, oldest first, skipping undeletable files, and counts rows and bytes. |
| `Library.Library.Sync` | crates/splicefeed/src/lib.rs:248-381 | The whole sync equals the state transformer over table and files; it fails only when the show cannot be listed. The new rows reported are the rows by which the table grew; with every file deletable the cache ends within the show's own limits, or the global ones where it sets none; told nothing is new, it downloads no more than the show's own `fetch_last`, or the global one. |
| `Library.OwnLimitsFirst` | crates/core/src/config.rs:328-334 | Each limit is the show's own where it sets one and the global one where it does not. |
| `Library.FindShow` | crates/splicefeed/src/lib.rs:248-257 | The show found is the first configured under the slug, and none is found only if there is none. |
| `Limits.SyncedWithinPolicy` | crates/splicefeed/src/lib.rs:367-368 | After a completed sync with every file deletable the show has at most `keep_last` cached rows, and unless it is a single one they fit the byte cap. |
| `Limits.WithinPolicyNothingGoes` | crates/splicefeed/src/lib.rs:738-782 | What is within both limits after the downloads is not pruned. |
| `Limits.UnchangedWindow` | crates/splicefeed/src/lib.rs:304-314 | When nothing changed the window is the newest stored rows, as many as `fetch_last` says or all there are. |
| `Limits.ReportedIsGrowth` | crates/splicefeed/src/lib.rs:282-303 | The rows reported as new are the rows by which the table grew. |
| `Library.Library.Verify` | crates/splicefeed/src/lib.rs:527-559 | The report covers every cached row once, intact plus problems equals checked, and the state is that of checking and repairing row by row. |
| `Library.RecordsFind` | crates/splicefeed/src/lib.rs:316-354 | Looking an id up among the listed records finds exactly its row. |
| `Rows.PendingMembers` | crates/splicefeed/src/lib.rs:339-354 | The pending list is the wanted window rows that are discovered, failed or pruned, each once, and each may start downloading. |
| `Rows.PlanMembers` | crates/splicefeed/src/lib.rs:743-756 | The prune plan names each cached row the policy rejects, once, and no other. |
| `Rows.DownloadRow` | crates/splicefeed/src/lib.rs:355-366 | Downloads of distinct rows each change their own row only, as if done alone. |
| `Rows.PruneRow` | crates/splicefeed/src/lib.rs:756-773 | Pruning turns exactly the planned rows whose file can go into tombstones. |
| `Rows.PrunedFileGoes` | crates/splicefeed/src/lib.rs:756-773 | The file of a pruned row is gone afterwards. |
| `Rows.OtherFilesStay` | crates/splicefeed/src/lib.rs:756-773 | Every other file keeps its contents. |
| `Rows.DeliveredFile` | crates/splicefeed/src/lib.rs:703-736 | With distinct stems a delivered body is what its path holds once all downloads are done. |
| `Agreement.CachedFilesAreSeparate` | crates/splicefeed/src/lib.rs:788-805 | No two cached rows share a path. |
| `Agreement.EveryRunAgrees` | crates/splicefeed/src/lib.rs:703-805 | Over every run of syncs, verifies, repairs and crashes, without tampering and with distinct stems, each cached row's file exists with the recorded size and hash at a path of its own, except for the rows whose pruning died between deletion and mark and that were neither pruned nor fetched since; their files are gone. |
| `Agreement.DisagreementIsAGap` | crates/splicefeed/src/lib.rs:756-773 | So over every run a row disagrees with the disk exactly when it is such a gap. |
| `Agreement.PruneCloses` | crates/splicefeed/src/lib.rs:756-773 | The next prune of a gapped row that is not refused its path closes the gap with a tombstone. |
| `Agreement.RepairCloses` | crates/splicefeed/src/lib.rs:527-579 | The next repairing verify closes it, and leaves the row cached and in agreement exactly if the audio arrives. |
| `Agreement.WithoutCutsAllAgree` | crates/splicefeed/src/lib.rs:703-805 | Without such a death all rows agree. |
| `Agreement.CutAgrees` | crates/splicefeed/src/lib.rs:756-769 | Between the deletion and the mark exactly the row being pruned joins those that disagree. |
| `Agreement.PruneOneAgrees` | crates/splicefeed/src/lib.rs:756-773 | Deletion and mark together open no gap, and close the one of the row being pruned unless its file cannot be deleted. |
| `Agreement.DeleteTouchesOne` | crates/splicefeed/src/lib.rs:756-773 | Pruning one row never removes another's file. |
| `Agreement.SyncAgrees` | crates/splicefeed/src/lib.rs:248-381 | One sync opens no gap, whatever fails, and closes those of the rows it prunes. |
| `Agreement.VerifyAgrees` | crates/splicefeed/src/lib.rs:527-579 | A verify opens no gap; a repairing one closes those of all rows it checks. |
| `Transfers.AnyInterleavingIsSequential` | crates/splicefeed/src/lib.rs:355-366 | Whatever the interleaving of the concurrent downloads and their progress reports, once all have finished the state is that of downloading one by one. |
| `Transfers.ConcurrentSyncSettles` | crates/splicefeed/src/lib.rs:355-368 | So a sync with overlapping downloads settles in the same state as a sequential one. |
| `Transfers.AgreesThroughout` | crates/splicefeed/src/lib.rs:703-736 | At every moment of every interleaving, so also after dying there, database and disk agree but for the gaps there were at the start; a gap closes as soon as its own download begins. |
| `Transfers.SyncLeavesGaps` | crates/splicefeed/src/lib.rs:339-354 | The downloads of a sync touch no gap, since its row is cached. |
| `Transfers.EveryStateStands` | crates/splicefeed/src/lib.rs:355-366 | In every reachable state each row and each path depends on its own download's phase only. |
| `Transfers.ReportsShow` | crates/core/src/storage.rs:455-484 | A progress report shows in the row of a download under way and nowhere else; before the start and after the end it changes nothing. |
| `Transfers.RefusedWhileUnderWay` | crates/splicefeed/src/lib.rs:684-688 | At any moment, starting a row of the batch is refused to another sync exactly while the batch has that download under way. |
| `Transfers.RefusedAtStart` | crates/splicefeed/src/lib.rs:684-688 | A download that finds its row taken is over at once: the row fails with class disk and keeps its other columns, and no file is touched. |
| `Transfers.LoserFailsTheWinner` | crates/splicefeed/src/lib.rs:684-688 | The refused sync then fails the row, and whatever the batch does afterwards, the row stays failed and its finished file is never recorded. |
| `Verifying.AnyOrderVerifies` | crates/splicefeed/src/lib.rs:541-550 | Whatever the interleaving of concurrent checks and repairs, a complete verify leaves the state of checking and repairing one by one. |
| `Verifying.AnyOrderReports` | crates/splicefeed/src/lib.rs:541-579 | Each outcome holds what its own check found and whether its own repair left the row cached; in the order of completion they are exactly the outcomes of going one by one. |
| `Verifying.ReportsTheDamaged` | crates/splicefeed/src/lib.rs:541-558 | On a readable disk the report has an outcome for exactly the episodes whose file is missing or differs in size or hash from its record. |
| `Verifying.CachedAreListed` | crates/splicefeed/src/lib.rs:533-539 | The cached rows a verify goes through meet the conditions of these results whenever database and disk agree, but for gaps. |
| `Verifying.InspectionIsTrue` | crates/splicefeed/src/lib.rs:561-566 | Checked while repairs of other episodes are under way, a file shows what it showed at the start. |
| `Verifying.ChecksAgreeThroughout` | crates/splicefeed/src/lib.rs:541-579 | At every moment of a verify database and disk agree but for the gaps there were at the start, less those whose repair has begun. |
| `Syncing.StepStanding` | crates/splicefeed/src/lib.rs:248-381 | A sync taken in single storage calls, file operations and download steps goes from where it stands to where it should stand next; once over, the world is that of the whole sync. |
| `Syncing.StandingAgrees` | crates/splicefeed/src/lib.rs:248-381 | At every such step database and disk agree but for the gaps the sync found and the row it is just pruning. |
| `Boundaries.SyncsAreLocal` | crates/splicefeed/src/lib.rs:248-381 | Every step of a sync reads and writes the rows and the media directory of its own show only. |
| `Shows.EachShowAlone` | crates/daemon/src/main.rs:641-643 | However such work for many shows is interleaved, each show and its part of the world stand where its own steps alone would have brought them. |
| `Shows.InterleavingIsIrrelevant` | crates/daemon/src/main.rs:641-643 | Two interleavings in which each show takes the same steps leave the same world. |
| `Overlaps.OverlappingSyncs` | crates/splicefeed/src/lib.rs:248-381 | However the steps of whole syncs of different shows interleave, once they are over the world is that of syncing the shows one after the other. |
| `Overlaps.AgreesThroughoutOverlaps` | crates/splicefeed/src/lib.rs:248-381 | At every moment of overlapping syncs database and disk agree but for the gaps found at the start and at most one row of each show between its deletion and its mark. |
| `Overlaps.EverySyncCanFinish` | crates/splicefeed/src/lib.rs:248-381 | From any moment on each sync can be brought to its end by steps of its own. |
| `Checkups.OverlappingVerifies` | crates/daemon/src/main.rs:447-449 | When several shows are verified at once, each reports what it would have reported alone and leaves its part of the world as it would have left it. |
| `Mixed.EveryTaskAsAlone` | crates/splicefeed/src/lib.rs:248-381 | The same with syncs of some shows beside verifies of others: each that is over has left its rows, files and report as it would have alone. |
| `Ledger.SyncConserves` | crates/splicefeed/src/lib.rs:363-380 | Cached rows and bytes after a completed sync over distinct ids equal those before plus what arrived minus what was pruned; skipped deletions count in neither. |
| `Ledger.PruneTally` | crates/splicefeed/src/lib.rs:756-782 | The rows and bytes a pruning pass reports are exactly what the cache lost. |
| `Ledger.RepeatedCount` | crates/splicefeed/src/lib.rs:339-366 | With repeated ids downloaded one after another, report and cache growth agree exactly when no arriving id is listed twice. |
| `Convergence.NeverFetchToPrune` | crates/splicefeed/src/lib.rs:332-368 | With a count limit, no byte cap and a prefix window, no episode a sync fetches is pruned by that sync, whichever downloads fail. |
| `Convergence.PlanHolds` | crates/splicefeed/src/lib.rs:332-368 | When all wanted sizes are recorded, planning by real sizes over the cached rows keeps of the window exactly what was planned before the downloads. |
| `Convergence.KnownSizesSettle` | crates/splicefeed/src/lib.rs:316-368 | Such a sync leaves cached exactly the planned set of the window, and a state where nothing is pending and nothing is to prune. |
| `Convergence.SettleKeepsSteady` | crates/splicefeed/src/lib.rs:316-368 | A cooperative sync keeps the conditions of convergence and learns exactly the sizes it wanted. |
| `Convergence.SyncsConverge` | crates/splicefeed/src/lib.rs:316-368 | Over a fixed prefix window at most U + 1 settling passes download or prune anything, U being the window rows without a recorded size. |
| `Resync.UnchangedNeverFetchesToPrune` | crates/splicefeed/src/lib.rs:304-368 | After a "not modified" answer the window is a prefix by construction, so nothing fetched is pruned. |
| `Resync.DiscoverAbsorbs` | crates/core/src/storage.rs:369-417 | Recording a listing without repeated ids once makes recording it again change nothing. |
| `Resync.UnchangedSyncSettles` | crates/splicefeed/src/lib.rs:259-314 | With nothing downloading and nothing new upstream, heal and discovery change nothing and the sync is its settling part. |
| `Resync.RepeatedSyncsConverge` | crates/splicefeed/src/lib.rs:248-381 | However often a show is synced against an unchanged listing and a cooperative upstream, at most U + 1 syncs report a download or a pruning. |
| `Resync.SettledSyncIsNoop` | crates/splicefeed/src/lib.rs:248-381 | After a sync that wants no unknown size, the next sync changes nothing, even if the upstream stops cooperating. |
| `Projection.UnknownRejected` | crates/core/src/retention.rs:33-42 | Under a byte cap alone an episode projected at size 0 is rejected only behind a newest episode that exceeds the cap by itself. |
| `Projection.OneCycleCorrects` | crates/splicefeed/src/lib.rs:316-338 | One cooperative sync corrects the projected sizes when there is no count limit, or one that decides alone: no byte cap, at most one episode, or a cap with room for the count of the largest recordable files. |
| `Projection.TwoSyncsSuffice` | crates/splicefeed/src/lib.rs:316-368 | So under such a policy at most two syncs against an unchanged listing report a download or a pruning. |
| `LongRuns.OneCycleExactly` | crates/splicefeed/src/lib.rs:316-338 | Those are exactly the policies for which one cooperative sync corrects every steady library. |
| `LongRuns.OneCycleFails` | crates/splicefeed/src/lib.rs:316-338 | For every other policy, a freshly listed show whose second sync wants an unknown size again. |
| `Cycles.EveryCycleTriesAnother` | crates/splicefeed/src/lib.rs:316-368 | In a library whose newest rows fill the cap, each sync downloads exactly one episode, the next of unknown size, records its true size and leaves it a tombstone again; nothing else in the window comes or goes. |
| `Cycles.ActiveExactly` | crates/splicefeed/src/lib.rs:316-381 | A cooperative sync of a steady library downloads or prunes something exactly when, on entry, a wanted episode is missing or a cached one is beyond the limits. |
| `LongRuns.EveryLength` | crates/splicefeed/src/lib.rs:248-381 | For every other policy and every k, k syncs of a library that starts empty, all of them active, with an upstream that serves everything and lists nothing new after the first. |
| `LongRuns.BoundIsReached` | crates/splicefeed/src/lib.rs:248-381 | For every other policy and every U, a steady library with U unknown sizes in which U + 1 syncs in a row are active. |
| `Repair.ProblemsAreTheFindings` | crates/splicefeed/src/lib.rs:527-579 | Whatever is repaired along the way, each cached row is judged as it was found, in order, and marked fixed exactly when its audio arrived. |
| `Repair.CheckFileExactly` | crates/splicefeed/src/lib.rs:807-850 | What a check reports on any disk: unreadable wherever the status or, once the size fits, the contents cannot be read; otherwise the first of missing, size and hash that applies. |
| `Repair.SecondVerifyIsClean` | crates/splicefeed/src/lib.rs:527-579 | After a repair in which every fix succeeded, those of unreadable files included, an immediate second verify of a readable disk finds nothing. |
| `Repair.FailedFixIsRecorded` | crates/splicefeed/src/lib.rs:673-701 | A failed re-fetch leaves its row failed with the class of the error. |
| `Repair.CheckingChangesNothing` | crates/splicefeed/src/lib.rs:561-579 | Without `fix` nothing changes. |
| `Difm.SortNewestFirst` | crates/providers/src/difm.rs:293 | The sort is newest first, undated last, and stable. |
| `Difm.StableSortUnique` | crates/providers/src/difm.rs:293 | There is only one such sort of a list. |
| `Difm.ListEpisodes` | crates/providers/src/difm.rs:273-298 | The listing is the front of the stably sorted parsed entries, as many as the limit says or all there are. |
| `Difm.StampOrdersAgree` | crates/providers/src/difm.rs:293 | On whole seconds the provider's order by time and the database's order by text agree. |
| `Difm.StampOrdersDisagree` | crates/core/src/storage.rs:430 | In general they differ exactly where the text order misorders. |
| `Difm.PrefixOfStoredOrder` | crates/splicefeed/src/lib.rs:282-314 | A window is a prefix of the stored order exactly when it is in stored order and no stored row outside sorts newer than one inside. |
| `Difm.ListingInStoredOrder` | crates/splicefeed/src/lib.rs:282-303 | A recorded newest-first listing is in stored order exactly when simultaneous and undated episodes come with descending ids and no two times are misordered as texts. |
| `Difm.FullListingExactly` | crates/splicefeed/src/lib.rs:282-303 | It is a prefix of the stored order exactly when, besides, no stored row outside sorts newer than one inside. |
| `Difm.FullListingIsPrefix` | crates/splicefeed/src/lib.rs:282-303 | For a recorded listing on whole seconds the fractions never matter, so only the order of simultaneous episodes and the rows outside do. |
| `Scheduler.AtMostOneSync` | crates/daemon/src/scheduler.rs:23-90 | In every interleaving of timers, swaps and shutdown at most one scheduled sync is in flight, over all generations. |
| `Scheduler.OldGenerationsAreDead` | crates/daemon/src/scheduler.rs:44-48 | Once a new generation has begun no loop of an older one can take a step. |
| `Scheduler.LastPublishedIsRun` | crates/daemon/src/scheduler.rs:23-53 | No swap is lost: the scheduler stops only on the last published library, and when nothing is pending that library is the one polled. |
| `Scheduler.NoLoopStopsUnasked` | crates/daemon/src/scheduler.rs:63-90 | A loop is gone only after a library newer than its own was published or the channel was closed. |
| `Scheduler.DrainIsBounded` | crates/daemon/src/scheduler.rs:43-48 | Between a pending change and the next rebuild the scheduler takes a bounded number of steps, however many publications follow. |
| `Scheduler.DrainNeverSticks` | crates/daemon/src/scheduler.rs:43-48 | As long as that work is not done some step is possible, and then the rebuild is. |
| `Scheduler.AtMostOneMoreExactly` | crates/daemon/src/scheduler.rs:63-88 | With a change pending, a loop starts at most one more sync in every continuation exactly when its interval is positive or it is gone. |
| `Scheduler.AtMostOneMoreSync` | crates/daemon/src/scheduler.rs:63-88 | With a positive interval it starts none at all unless it was asleep or waiting for the permit. |
| `Scheduler.UnboundedStarts` | crates/daemon/src/scheduler.rs:66-70 | With a zero interval it can start any number. |
| `Polls.OneOfEachKind` | crates/daemon/src/scheduler.rs:5-7 | Counting every syncing loop of every generation, the sync at startup and the one after a reload, at most one scheduled poll and at most three polls are in flight. |
| `Polls.NoPassIsCutShort` | crates/daemon/src/reload.rs:96-117 | Every reload syncs all the shows it published before the next reload begins: over any run, the polls completed and those still to come add up to the shows of all libraries published; likewise at startup. |
| `Polls.OnePollExactly` | crates/daemon/src/reload.rs:106-110 | Over all runs from the start, the promise of one poll at a time holds exactly when neither the startup sync nor the sync after a reload is begun. |
| `Polls.MostPollsExactly` | crates/daemon/src/scheduler.rs:5-7 | From any reachable state, the most polls ever in flight together in a continuation without another reload are exactly the sources left: startup shows, shows of the last reload, a scheduled poll still ahead. So one at a time is guaranteed exactly with at most one source left. |
| `Polls.MostPollsEverExactly` | crates/daemon/src/reload.rs:96-117 | With reloads still to come, one at a time is guaranteed exactly when the channel is closed and at most one source is left. |
| `NextPolls.PollAheadExactly` | crates/daemon/src/scheduler.rs:43-90 | A scheduled poll can still happen without another publication exactly when a loop of the current generation can get there or a library still to be started has one that will. |
| `Polls.Overlap` | crates/daemon/src/main.rs:641-643 | Runs in which either or both of them overlap a scheduled poll, up to three at once. |
| `Reload.Channel.Apply` | crates/daemon/src/reload.rs:28-69 | A reload publishes exactly when it loads, changes no restart-only setting, rebuilds and has receivers; on any error, which names the first thing that went wrong, the channel is untouched. |
| `Reload.OnSighup` | crates/daemon/src/reload.rs:96-117 | Over any number of hangup signals the channel only grows by the reloads that succeed, and serves the last of them, with the restart-only settings of the first. |
| `Reload.RestartOnlyNeverChanges` | crates/daemon/src/reload.rs:46-69 | Over any series of reloads the restart-only settings stay those of the start. |
| `Reload.SharedUntilChanged` | crates/splicefeed/src/lib.rs:193-208 | Two generations share their download permits exactly when no reload between them changed the concurrency. |
| `Permits.LimitsAlwaysHold` | crates/core/src/download.rs:138-162 | In every interleaving of fetches, retries and reloads no engine has more permit holders than its concurrency and no fetch makes more than three attempts. |
| `Permits.RetriesKeepThePermit` | crates/core/src/download.rs:144-161 | A transfer worth repeating keeps its permit for a second and a third attempt; any other, and the third, gives it back. |
| `Permits.AttemptsAreCounted` | crates/core/src/download.rs:144-161 | The count of a fetch is the number of attempts it made in the run, none before it has a permit. |
| `Permits.DroppedFetchFreesItsPermit` | crates/core/src/download.rs:144-161 | A fetch that is dropped gives its permit back at once, and a waiting fetch of its generation can take it. |
| `Permits.OneLimitAcrossReloads` | crates/splicefeed/src/lib.rs:193-208 | While the concurrency stays the same, the fetches of all generations together never exceed it. |
| `Permits.ChangedLimitIsExceeded` | crates/splicefeed/src/lib.rs:195-200 | A reload that changes it lets both generations together reach the sum of the two limits. |
| `Throttle.WritesAreThrottled` | crates/splicefeed/src/lib.rs:863-875 | Under any interleaving of loads (stale ones included) and compare-exchanges, accepted writes are at least 1000 ms apart, so within T ms there are at most T/1000 + 1. |
| `Throttle.LoneCallWrites` | crates/splicefeed/src/lib.rs:863-875 | A call nobody races with writes exactly when nothing was written yet or the last write is at least a second old. |
| `Feed.WriteFeed` | crates/splicefeed/src/lib.rs:586-622 | The items are a function of the show's rows alone; when database and disk agree there is one for each cached row, in order, whose length is the file's, whose enclosure is its place, and whose texts, time, type and duration are the row's. |
| `Feed.OneItemPerCachedRow` | crates/splicefeed/src/lib.rs:602-622 | When database and disk agree each cached row yields exactly its one item, in order, and no other row does. |
| `Feed.FeedDescribesFiles` | crates/splicefeed/src/lib.rs:602-622 | Each item of the feed carries its row's title, description, time and duration, the file's length and name, and the recorded type in its normal form, octet-stream only when none is recorded. |
| `Feed.FreshType` | crates/splicefeed/src/lib.rs:617-620 | A freshly fetched episode is published with the type of the response if it looked like audio, and else the one the provider named. |
| `Feed.FileNameExactly` | crates/splicefeed/src/lib.rs:608 | Below a directory, every ordinary last component is the file name of the enclosure; a step upwards is none. |
| `Feed.GuidInjective` | crates/splicefeed/src/lib.rs:610 | Distinct episodes of one provider, or of providers without a slash in their names, have distinct GUIDs whatever their ids contain. |
| `Feed.GuidsCollideExactly` | crates/splicefeed/src/lib.rs:610 | Two provider names admit a collision exactly when one extends the other by a slash and a text whose first segment is a slug. |
| `Feed.IdleSyncKeepsFeed` | crates/splicefeed/src/lib.rs:248-381 | A sync that is told "not modified" and downloads and prunes nothing leaves the items as they were. |

## Left out

- HTTP, JSON, SQLite, BLAKE3, `lofty`: a provider's answers, transfers, probed durations, clock readings and file system failures are inputs; each storage call is one atomic step on a map; the hash is any function of the bytes.
- Provider registry, per-provider credentials, endpoints and quarantine files: a listing is given as entries that parsed or did not, an audio source as resolved or not.
- Show rows, poll bookkeeping, ETags, events, artwork: none of them affects an episode row or a media file. Errors of these calls, and of the database itself, do not occur in the model.
- Feed and OPML text: only the list of items is modelled; the base URL enters as whether it can take path segments.
- Machine integers: sums of sizes and counts are unbounded; only the clamp to the signed size column and the 64-bit milliseconds of the throttle are modelled.
- The floating-point `max_gb`: a byte cap is an optional natural number.
- Paths: compared as text, under a data directory given by the `media/` prefix; a slug of only dots, which a file system would resolve, is not treated specially.
- Timestamp columns: a row holds the timestamp whose text is stored; reading the text back is not modelled.
- Library.Library.Sync: takes the downloads one after the other and reports no progress to the table; `Transfers` and `Throttle` cover the interleavings and the progress writes.
- Overlaps.OverlappingSyncs: each show's sync runs once and reads its answers from a fixed upstream; that different shows share download permits only delays steps, and is in `Permits`.
- Library.Library.Verify: goes row by row and reports in stored order; `Verifying` covers concurrent checks and the order of completion.
- Ledger.RepeatedCount: is for downloads one at a time; overlapping downloads of a repeated id behave as `Transfers.LoserFailsTheWinner` says.
- Permits.OneLimitAcrossReloads: fairness of the semaphore is not modelled, and artwork fetches count as any other fetch.
- Command line, control socket, TUI, HTTP server, telemetry, configuration loading.
