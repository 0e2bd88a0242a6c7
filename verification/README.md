# yourfs in Dafny

yourfs is a read-only FUSE file system over NFS that shows exactly the files a whitelist names. This project models
the parts of it in which a mistake would be hard to see, and proves what they are for.

* **The pipelined NFS pool** (`src/nfscli.rs`, driven by `src/fs.rs`, callbacks in `src/libnfs.rs`). `NfsPool` is a
  transition system: any number of `run_op` calls with their own reply channels, one actor per slot with its FIFO channel,
  counter and outstanding set, the `open_files` map, the FUSE open-file sessions, `shutdown`, and libnfs as an environment
  that may refuse a request, answer it later or inside the issue call, and hand out again any handle address that is free.
  A run is a sequence of atomic actions, so a statement about all runs is one about all interleavings. `NfsPoolCalls`,
  `NfsPoolLifecycle` and `NfsPoolHandles` hold the inductive invariants and what follows from them for runs;
  `NfsPoolSessions` says what each open-file session gets, and `NfsPoolWitness` has a run in which one goes all the way.
  `NfsFacade`
  maps each run, moment by moment, to what its callers see, and `NfsSerial` to a server that serves the same calls one at
  a time, in an order that respects real time. `NfsPoolProgress` has the termination of the drain loops.
  `NfsActor` is the actor itself as imperative code (`runner`, `handle_task`, `complete`, `update_rpc_credentials`)
  against an environment that chooses arrivals, answers and their order. `Libnfs` has the completion callbacks.
* **The connection pool and its retries** (`src/db.rs`): `ConnPool`, as a class with one method per critical section and
  as a monitor under any interleaving, with failing connects, connections that die at any time, barging and spurious
  wakeups; `ConnPoolRetry` says exactly when a retry is not enough.
* **The whitelist pipeline** (`src/scan.rs`, `src/paths.rs`, `src/db.rs`, `src/bin/yourfs_tool.rs`): `Scanner` walks a tree,
  `Rows` prints rows and reads them back, `Store` holds the sqlite and Redis writers and readers, `Pipeline` the load loop
  and the theorems from a tree to `resolve` and `list`, `PipelineNewlines` what a newline in a name does to them. `Paths`
  and `Names` are what they rest on.
* **The whitelist cache** (`src/db.rs`): `CachingDb`. **The option parser** (`src/cli.rs`): `OptionParser` and
  `OptionSpellings`; `Numbers` reads integers. **The calendar** (`src/key.rs`): `Calendar`.

Code that works by changing things is a method over mutable state, specified by a function of the same state as a value;
the theorems are about that function. Automatic induction is switched off on every lemma, so each induction is the
recursive call one reads.

## What turned out otherwise than the comments say

* `src/db.rs:379-383` and `:764-768` say that the retry runs on a fresh connection. `get` prefers an idle one
  (`src/db.rs:60`), so it may be another dead one: `ConnPoolRetry.RetryMayPickAnotherDeadConnection` gives the run. With
  the pool to itself and connects that succeed, a call fails if and only if the last two idle connections are dead
  (`ConnPoolRetry.CallFailsIff`); among other calls `ConnPool.RetryBound` holds, and `ConnPoolRetry.RetryBoundIsMet` has runs
  that meet it with equality for every number of dead connections.
* `src/scan.rs:27` mentions a policy of skipping names with newlines. `walk` has no such test; a row survives the text
  file as one line if and only if no field contains a newline (`Rows.RowIsOneLineIff`). The mount shows a scanned tree
  if and only if no kept name contains one (`Pipeline.SqliteEndToEnd`, `Pipeline.RedisEndToEnd`). Otherwise the path is lost,
  and a part of its row may be loaded as a row of its own: `PipelineNewlines.UnscannedPathResolves` has trees in which
  `/a/b` resolves without having been scanned.
* A row with an empty field prints as blanks and does not come back: `Rows.RoundTrip` says exactly when it does.
* `CachingDb` keys its maps by the path alone (`src/db.rs:180`, `:192`): over several tables it is right in every run if
  and only if the backend answers alike for all of them (`CachingDb.SeveralTablesIff`).
* A top-level entry also resolves when it is written with two leading slashes, because `split_path` of `//name` is
  `("/", "name")`: see `Pipeline.ScannedResolve` and `Paths.JoinUndoesSplitIff`.
* An unknown option or a missing argument inside a short cluster does not advance the parser, so the same complaint would
  come for ever, while the flags in front of it pile up (`OptionSpellings.UnknownInClusterRepeats` says exactly when); both
  programs stop at the first one.
* A read whose callback gets a null data pointer is not clamped (`Libnfs.ReadFitsBufferIff`).
* `days_from_civil` counts negative years, but no string that `string_to_time` reads has one, and a date can be read from
  some string if and only if nothing in it is negative (`Calendar.NegativeYearsFail`, `Calendar.DateIsReadableIff`).

## Model

| member | source | states |
|---|---|---|
| NfsPoolLifecycle.StepKeepsInv | src/nfscli.rs:185-446 | every step of every worker, actor, callback and of `shutdown` keeps the invariant on calls, counters and life cycle, so it holds at every moment of every interleaving (`RunKeepsInv`) |
| NfsPoolLifecycle.ExactlyOneOutcome | src/nfscli.rs:125-162 | each `Pending` is consumed at most once; a call that returned got exactly one outcome, its own: the callback's view of libnfs's answer to its request, the refusal of its own issue call, or EIO for a task never issued |
| NfsPoolLifecycle.InflightCountsRequests | src/nfscli.rs:312-367 | the counter equals the requests libnfs holds plus the one being issued, is positive whenever it is decremented, synchronous completion included, and zero whenever the actor blocks in `recv` |
| NfsPoolLifecycle.ContextsAreTouchedAlive | src/nfscli.rs:296-308 | no libnfs call touches a destroyed context or one being destroyed, and at most one actor is ever spawned for a slot, also when it starts after `Quit` was sent |
| NfsPoolLifecycle.NothingBehindQuitIsIssued | src/nfscli.rs:296-328 | a call that reaches a slot after `Quit` is never issued at any later point, and if it returns it returns EIO |
| NfsPoolLifecycle.ShutdownIsComplete | src/nfscli.rs:296-308 | when `shutdown` returns, the map is empty, every context is destroyed, and each actor never started, has returned or receives `Quit` before anything else |
| NfsPoolHandles.StepKeepsHandles | src/nfscli.rs:490-571 | every step keeps map, sessions and allocator in agreement, with freed addresses reusable by any slot |
| NfsPoolHandles.OpenFilesAgreeWithAllocator | src/nfscli.rs:207-208 | each key of `open_files` is an allocated non-null handle mapped to the slot that opened it, and each live session is registered under its own handle |
| NfsPoolHandles.RegisterNeverOverwrites | src/nfscli.rs:505-513 | `open` never overwrites an entry |
| NfsPoolHandles.EntriesAreNotLost | src/nfscli.rs:522-530 | an entry goes away only by the release of its own session or when `shutdown` clears the map, never by the close of an older session with the same address |
| NfsPoolHandles.IssuedOnOwningContext | src/nfscli.rs:524-567 | every read and every close is issued on the context that opened its handle, while the handle is still allocated to that session |
| NfsPoolHandles.HeldReadsKeepTheirHandle | src/fs.rs:145-171 | while libnfs holds a read, its handle is allocated to its session: no use after free |
| NfsPoolSessions.OpenReturns | src/nfscli.rs:490-514 | when an `open` returns, its session has the handle p on its slot if and only if the server answered its request with success and the non-null p, and has failed otherwise |
| NfsPoolSessions.RegisterMakesLive | src/nfscli.rs:505-513 | registration makes the session live under its handle, maps the handle to its slot and leaves all other entries alone |
| NfsPoolSessions.ReadStarts | src/nfscli.rs:542-571 | until the map is cleared a read of a live session starts a request with the caller's buffer on the slot that has its handle |
| NfsPoolSessions.ReadReturns | src/nfscli.rs:542-571 | a returning read leaves its session open, without itself among the readers |
| NfsPoolSessions.CloseStarts | src/nfscli.rs:522-530 | a release takes exactly its own entry out of the map and starts a close on the slot that has the handle |
| NfsPoolSessions.CloseReturns | src/nfscli.rs:522-530 | when the close returns, whatever its outcome, the session is over |
| NfsPoolWitness.AFileIsServed | src/nfscli.rs:490-571 | for every handle and all data that fits the buffer there is a run from the start in which a file is opened, registered, read with just that data, closed and freed, and the pool shut down |
| NfsFacade.StepRefines | src/nfscli.rs:422-446 | each step of the pool is one façade step about a single call, or invisible to callers |
| NfsFacade.RunRefines | src/nfscli.rs:1-34 | every pipelined run is, moment by moment and but for stuttering, a run of the façade in which each call is answered from its own request alone |
| NfsFacade.OutcomesAreFinal | src/nfscli.rs:26-34 | in every pool run, what a call was answered or returned, and its request, never change afterwards |
| NfsSerial.StepKeeps | src/nfscli.rs:1-34 | every pool step keeps the calls that took effect, replayed one after the other, in agreement with the handles the allocator has out |
| NfsSerial.ServedOneAtATime | src/nfscli.rs:1-34 | the calls that reached the server, each once and with its own verdict, are served one at a time by a server that opens only free addresses and lets a session read and close only its own open handle; any other call that returned got EIO |
| NfsSerial.RealTimeOrder | src/nfscli.rs:422-446 | in that order a call that had returned before another one began comes first |
| NfsSerial.HistoryGrows | src/nfscli.rs:1-34 | at each moment of a run the serial order so far is a beginning of the final one |
| NfsPoolProgress.WorkIsBounded | src/nfscli.rs:312-341 | without new calls a run holds no more working steps than a budget computed from unissued and outstanding requests |
| NfsPoolProgress.UnansweredCallsAdvance | src/nfscli.rs:312-341 | before shutdown, while a call is unanswered, a call of its slot can get on after at most two control moves of its actor |
| NfsPoolProgress.OnlyWaitingSpins | src/nfscli.rs:332-339 | control moves alone bring an actor nearer to a task or to `recv` unless libnfs holds a request |
| NfsPoolProgress.SpentBudgetAnswersAll | src/nfscli.rs:312-341 | a run without new calls that has held as many working steps as its budget has every call returned and nothing outstanding |
| NfsPoolProgress.EveryCallCanReturn | src/nfscli.rs:312-341 | before shutdown every run has a continuation of at most three steps for each unit of budget after which every call has returned |
| NfsActor.Actor.Runner | src/nfscli.rs:312-341 | exactly the operations in front of the first `Quit` are issued, each once, in channel order, under the right ids; each is answered with its own reply or still outstanding; without `Quit` none is left outstanding |
| NfsActor.Actor.HandleTask | src/nfscli.rs:344-367 | after one task it is at libnfs and counted or answered, for a refused, a queued and a synchronously completed request |
| NfsActor.Actor.DrainQueue | src/nfscli.rs:324-328 | everything queued is issued in order; a `Quit` stops it with exactly the operations in front of it handled |
| NfsActor.Actor.UpdateRpcCredentials | src/nfscli.rs:370-391 | installs the pair of the truth table on the context: the 32 bits of the caller's id, or the custom id |
| NfsActor.WhoAnOperationRunsAs | src/nfscli.rs:370-391 | the caller, by the 32 bits of its id, when no custom id is set or others keep their own and the caller is not the mount user, otherwise the custom id, which is then never -1; no other pair fits that |
| NfsActor.BitsIdentify | src/nfscli.rs:379-389 | ids below 2^31 are sent unchanged, and different callers never have the same bits |
| NfsActor.BatchCredentials | src/nfscli.rs:344-357 | in a batch of any size and order an operation with caller ids runs as its own caller in that sense, whatever else is queued; one without keeps the pair installed last |
| NfsActor.BeforeQuitIsPrefix | src/nfscli.rs:344-347 | what is handled is the longest prefix of the channel without `Quit` |
| Libnfs.SyncCbData.ReadCb | src/libnfs.rs:214-234 | status, pointer and buffer after the callback; only the delivered prefix of the buffer is overwritten |
| Libnfs.SyncCbData.CopyStructCb | src/libnfs.rs:155-174 | the whole struct is copied on success, nothing on an error or a null payload |
| Libnfs.SyncCbData.OpenCb | src/libnfs.rs:199-211 | the handle is stored on success only |
| Libnfs.SyncCbData.GenericCb | src/libnfs.rs:142-151 | status and completion flag only |
| Libnfs.Overwrite | src/libnfs.rs:226-233 | position by position, the first bytes come from the reply and all others stay |
| Libnfs.ReadFitsBufferIff | src/libnfs.rs:214-234 | a successful read reports at most the buffer's length exactly when data is non-null or the server did so itself, and then delivers the server's bytes |
| Libnfs.ReplyIs | src/libnfs.rs:142-234 | what the caller gets, field by field, for every callback and answer: server status but for a clamped read, the handle of a successful open, the bytes of a whole struct or of the delivered prefix, and the untouched buffer otherwise |
| ConnPool.Pool.TryCheckout | src/db.rs:57-90 | idle connection first, else a new one below the maximum, else wait, with the whole new monitor state |
| ConnPool.Pool.DropGuard | src/db.rs:138-149 | a bad connection frees its slot, any other one returns to the idle list; one waiter is notified |
| ConnPool.StepKeepsInv | src/db.rs:57-149 | conservation and the wakeup invariant are kept by every step |
| ConnPool.Conservation | src/db.rs:57-149 | `created` = idle + held + connecting + failed + being dropped, at most the maximum, and never fewer than the connections that exist |
| ConnPool.NoLostWakeup | src/db.rs:57-107 | while a thread sleeps, free capacity is at most the number of woken threads yet to look, so it never coexists with sleepers only |
| ConnPool.SleepersAreNotAlone | src/db.rs:57-107 | while a thread sleeps some thread inside a call can go on: no deadlock, even with capacity 1 |
| ConnPool.PutThenGet | src/db.rs:57-96 | the connection given back last is handed out next and nothing else changes |
| ConnPool.ConnectionsAreExclusive | src/db.rs:57-149 | every connection is in the idle list or with exactly one thread, never in two places |
| ConnPool.TwoAttempts | src/db.rs:384-407 | each call makes at most two attempts and holds nothing of the pool when it asks the second time |
| ConnPool.RetryBound | src/db.rs:384-407 | once connects succeed and nothing else dies, with d dead connections left the calls begun afterwards return at most d/2 I/O errors in total, in any interleaving |
| ConnPoolRetry.CallFailsIff | src/db.rs:384-407 | a call that has the pool to itself, with connects that succeed, returns an I/O error if and only if the last two idle connections are dead when it begins |
| ConnPoolRetry.RetryBoundIsMet | src/db.rs:384-407 | for every d up to the capacity there is a run from the start that leaves exactly d dead connections and then surfaces d/2 I/O errors |
| ConnPoolRetry.RetryMayPickAnotherDeadConnection | src/db.rs:379-383 | a run from the start in which two connections die idle and the next call tries both and fails: the retry need not be on a fresh connection |
| ConnPool.QueryRetry | src/db.rs:769-791 | when a call succeeds, is refused, cannot connect or fails, how often it tries and which guards are dropped as bad |
| Rows.PadField | src/scan.rs:91-106 | the loop computes the padded or the quoted and escaped form |
| Rows.ParseRow | src/scan.rs:112-160 | the character loop computes the reader function |
| Rows.PrintedColumns | src/scan.rs:66-72 | what the reader makes of a printed row: its non-empty fields, in order |
| Rows.RoundTrip | src/scan.rs:91-160 | the printed row is read back as the same triple if and only if no field is empty, whatever characters the fields contain |
| Rows.PrintIsInjective | src/scan.rs:66-72 | no two rows without empty fields print alike |
| Rows.UnquotedLinesTokenize | src/scan.rs:108-160 | a line without a double quote parses if and only if it has exactly three words, and then into those |
| Rows.WrittenFeeds | src/scan.rs:119-133 | whichever way a string is escaped between double quotes, it is read as that string |
| Rows.PlainRowLayout | src/scan.rs:84-106 | the columns of a row of short plain fields start at positions 0, 27 and 54 |
| Rows.LinesOfFile | src/bin/yourfs_tool.rs:96-100 | the file of newline-free rows reads back as one line a row |
| Rows.LinesAre | src/bin/yourfs_tool.rs:96-100 | a line ends at its newline, with or without a carriage return in front of it, and a last line without a newline counts as it is |
| Rows.RowIsOneLineIff | src/scan.rs:26-29 | a row is one line of the file if and only if no field contains a newline |
| Paths.SplitUndoesJoinIff | src/paths.rs:8-17 | for which directory and name splitting undoes joining |
| Paths.JoinUndoesSplitIff | src/paths.rs:8-17 | for which paths joining undoes splitting |
| Scanner.Walk | src/scan.rs:14-82 | the recursive loop writes the rows of each kept entry and of its subtree, in order |
| Scanner.ScanToFile | src/scan.rs:163-173 | the file is the text of the scan's rows, for scan paths with and without trailing slashes and for the root |
| Scanner.VPathIsInjective | src/scan.rs:43-64 | different entries have different virtual paths |
| Scanner.WalkIsSound | src/scan.rs:14-82 | every emitted row is that of a kept entry, reached through kept directories |
| Scanner.WalkIsComplete | src/scan.rs:14-82 | every kept entry is emitted; entries with invalid names are pruned with their subtree |
| Scanner.ScanEmitsKeptPaths | src/scan.rs:14-82 | a row is emitted if and only if it is the row of a kept path |
| Scanner.EveryNamedEntryIsScanned | src/scan.rs:14-82 | in every directory that is reached, every entry with a UTF-8 name other than the dot entries gets its row, and is reached itself if it is a directory |
| Store.AcceptedNames | src/db.rs:229-238 | `check_ident` accepts exactly the non-empty names of ASCII letters, digits and underscores, by their codes |
| Store.KeysAreInjective | src/db.rs:229-238 | keys of accepted tables are equal only for the same table, kind and directory |
| Store.MatchesOwnTableOnly | src/db.rs:858-884 | the sweep pattern of a table matches the keys of that table and of no other |
| Store.SqliteWriter.Finish | src/db.rs:556-576 | all rows are committed under ids from 1 or none is |
| Store.RedisWriter.Create | src/db.rs:858-884 | the SCAN/DEL loop removes exactly the keys matching the table's pattern |
| Store.RedisWriter.Finish | src/db.rs:898-918 | the transaction applies the two commands of every row in order |
| Store.RedisMirrorsRows | src/db.rs:857-918 | each directory's sorted set is in byte order of its characters, each name once, with exactly the keys of its hash, and each hash value is the realpath of the last row for that entry |
| Store.OtherTablesUntouched | src/db.rs:898-918 | writing a table leaves the keys of every other table alone |
| Store.BackendsAgreeIff | src/db.rs:800-813 | Redis and sqlite list a directory alike if and only if no two of its rows have the same name, and resolve alike if and only if the first and the last matching row agree |
| Store.DistinctBackendsAgree | src/db.rs:279-318 | they agree on everything when the (parent, name) pairs are distinct |
| Store.SqliteResolvesFirst | src/db.rs:280-303 | a path resolves to v if and only if v is the realpath of the first row for its parent and name |
| Store.SqliteListsEveryRow | src/db.rs:305-318 | a directory lists each name as often as it has rows with it, in byte order |
| Store.SqliteListedIffResolves | src/db.rs:279-318 | a name is listed in a directory if and only if the joined path resolves, for any rows |
| Store.RedisListedIffResolves | src/db.rs:800-813 | the same for Redis |
| Names.SortSorts | src/db.rs:305-318 | the listing order: the same elements with their multiplicities, no later name before an earlier one in the byte order of their characters, and strictly ordered for distinct names |
| Text.BeforeIff | src/db.rs:305-318 | a name comes before another if and only if it is a proper prefix of it or has the smaller character where they first differ |
| Names.StrictlySortedIsUnique | src/db.rs:811-813 | a strictly sorted listing is determined by its elements |
| Pipeline.LoadSqlite | src/bin/yourfs_tool.rs:88-133 | the load loop stores the parsed rows in order, counts written and malformed lines, and refuses names that `check_ident` refuses without touching the database |
| Pipeline.LoadRedis | src/bin/yourfs_tool.rs:88-133 | the same into a keyspace swept of the table and of nothing else |
| Pipeline.LoadUndoesScan | src/bin/yourfs_tool.rs:96-124 | loading a scanned file gives back exactly the scanned rows when no kept name contains a newline |
| Pipeline.LastRowNeedsNoNewline | src/bin/yourfs_tool.rs:96-124 | a loaded file keeps its last row when the final newline is missing |
| Pipeline.LinesAreAccounted | src/bin/yourfs_tool.rs:96-132 | every line is stored, counted as malformed or blank, and only one of these |
| Pipeline.LoadedHasNoNewline | src/bin/yourfs_tool.rs:96-124 | whatever text is loaded, no path with a newline resolves |
| Pipeline.ScannedResolve | src/db.rs:280-303 | what every string resolves to in a scanned table |
| Pipeline.ScannedList | src/db.rs:305-318 | what every string lists in a scanned table |
| Pipeline.SqliteEndToEnd | src/db.rs:279-318 | for every local tree, with sqlite: a path resolves to itself exactly for the root and the kept paths and a directory lists the names of its kept children in the byte order of their characters, if and only if no kept name contains a newline |
| Pipeline.RedisEndToEnd | src/db.rs:800-813 | the same equivalence with Redis on a swept keyspace |
| PipelineNewlines.UnscannedPathResolves | src/scan.rs:26-29 | trees with a newline in a name from which a path that is not in them is loaded and resolves |
| CachingDb.Cache.Resolve | src/db.rs:179-189 | a hit returns the cached answer, a miss the backend's and keeps it, an error keeps nothing, in terms of the two lock sections the theorems are about |
| CachingDb.Cache.List | src/db.rs:191-201 | the same for directories |
| CachingDb.KeepsPath | src/db.rs:184-187 | keeping a path's answer changes the two maps, seen as one, at that query only |
| CachingDb.AnswersAreTheBackends | src/db.rs:178-201 | over a changing backend and any interleaving, every cached or returned answer is one the backend gave for that query before |
| CachingDb.CacheIsTransparent | src/db.rs:178-201 | over an unchanging backend and one table every concurrent lookup is answered as the backend would |
| CachingDb.SeveralTablesIff | src/db.rs:179-201 | over several tables that is so if and only if the backend does not distinguish them |
| OptionParser.Parser.NextCommand | src/cli.rs:131-211 | one call, as a function of the parser state: result and whole new state |
| OptionParser.Parser.NextShort | src/cli.rs:170-206 | the cluster loop with its pending and queued options |
| OptionParser.OptionsMakeProgress | src/cli.rs:131-211 | each call that returns an option makes the measure of unread arguments and queues smaller |
| OptionParser.CollectCommands | src/bin/yourfs_tool.rs:20-63 | the callers' loop ends and collects what the function says |
| OptionSpellings.ParserUndoesSpelling | src/cli.rs:109-211 | any mix of accepted spellings, followed by any tail, is read back in exactly that order |
| OptionSpellings.EveryLineIsRead | src/cli.rs:131-211 | any argument list whatever starts with accepted spellings whose options are collected, followed by at most the complaint about the first argument that is none |
| OptionSpellings.AcceptedIffWellSpelled | src/cli.rs:131-211 | the parser gets through without a complaint if and only if the line is accepted spellings and a tail |
| OptionSpellings.UnknownInClusterRepeats | src/cli.rs:170-206 | a cluster is complained about if and only if one of its flags is unknown or lacks its argument behind plain flags; the position stays, those flags pile up, and the next call repeats the complaint |
| OptionSpellings.NothingIsFinal | src/cli.rs:135-146 | once nothing is returned, nothing ever is |
| OptionSpellings.PrefixAcceptedIff | src/cli.rs:113-129 | an abbreviated long name is found if and only if it abbreviates exactly one option |
| OptionSpellings.FirstEntryCounts | src/cli.rs:109-129 | in a table with repeated letters or names the first entry counts, and a letter of no entry is unknown |
| OptionSpellings.EveryOptionIsAccepted | src/cli.rs:113-211 | in an unambiguous table an option with its argument is accepted behind any flags, attached or following, and under its name or any unambiguous abbreviation, and means itself |
| OptionSpellings.EveryFlagIsAccepted | src/cli.rs:113-211 | the same for flags, alone, in front of others, and by name |
| Numbers.ParsePrefix | src/cli.rs:11-26 | the index loop computes the value of the longest numeric prefix |
| Numbers.AtoiReads | src/cli.rs:11-26 | white space, sign and digits before anything else read as the signed number if it fits 64 bits, otherwise as 0 |
| Numbers.AtoiUndoesDecimal | src/cli.rs:7-26 | every 64-bit number is read back from its decimal notation, with or without a plus sign and whatever text follows, and a number out of range reads as 0 |
| Calendar.DaysFromCivilCountsDays | src/key.rs:34-42 | the closed form is the day-by-day count from 1970-01-01 for every valid date of every year, negative ones included |
| Calendar.NextDayIsOneMore | src/key.rs:32-42 | the next calendar day is always exactly one more |
| Calendar.DaysAreOrdered | src/key.rs:34-42 | later dates have larger numbers |
| Calendar.StampParses | src/key.rs:44-55 | a stamp in the written format whose six fields parse is read as their seconds, and its date as its date |
| Calendar.IsReadIff | src/key.rs:44-55 | a string is read if and only if it spells a stamp, with nothing else but ignored text behind the date and behind the time, and then as that stamp |
| Calendar.TimeIsIncreasing | src/key.rs:44-55 | of two strings in the written format with fields in range, `string_to_time` reads the earlier one, and only that, as the smaller number |
| Calendar.TimeCountsSeconds | src/key.rs:44-55 | a stamp one second later, across the ends of minutes, hours, days, months and years, is read as the next number, and 1970-01-01 00:00:00 as 0 |
| Calendar.NegativeYearsFail | src/key.rs:44-55 | in every string that is read, year, month and day are not negative |
| Calendar.DateIsReadableIff | src/key.rs:44-55 | a date can be read from some string if and only if its three numbers are not negative and fit 64 bits |
| Calendar.NoOverflowInDays | src/key.rs:34-42 | every intermediate result of the closed form fits 64 bits within 290 thousand million years of year 0 |
| Calendar.NoOverflow | src/key.rs:54 | and so does every one of the final sum |

## Assumptions

* FUSE issues reads only on an open file and its release once, after the last read has returned (`src/nfscli.rs:516-521`).
* libnfs runs exactly one callback for an accepted request and none for a refused one, only while its context is in an
  issue call or in `nfs_service`; a successful answer carries at least the bytes it announces; a handle address is not
  handed out while it is allocated; a handle is freed only while its close is at libnfs.
* Calls that `shutdown` finds outstanding may stay unanswered; every claim about returned calls holds for them too.
* SCAN returns every matching key that is there from start to end of a full iteration, and only matching keys.
* A query on a connection fails with an I/O error if and only if its socket is dead.

## Left out

- libnfs, libfuse, `poll`, sockets, `fork` and raw pointers: replaced by the contract above; `pump` is "some outstanding requests complete".
- NfsActor.Actor.Pump: rounds that find no reply are left out, so that the loop ends; `NfsPool` has them.
- `pick`: any slot may be chosen, which covers the rotation.
- `ensure_started` is not held up while `shutdown` joins a thread under the slot's lock: the model allows more interleavings than the code.
- `readlink_cb`: the `strncat` of a symbolic link's target; its status and life cycle are those of the copying callbacks.
- The pointer in a reply of a copying callback is the caller's own buffer and is modelled by the buffer's contents.
- A read of zero bytes, which `yourfs_read` answers itself.
- `init`, `mount_extra` and the `lstat64`/`statvfs` wrappers, which add a path operation each.
- Fairness of the condition variable: barging allows starvation, so nothing is claimed beyond wakeups and deadlock.
- PostgreSQL rows: `trim_padded` and the collation break agreement for names that end in a space; only its `query_retry` is modelled.
- The SQL and Redis engines: a table is its row sequence, `LIMIT 1` takes the first row, Redis is one map of sorted sets and hashes; table names hold no pattern characters, so the pattern is a prefix.
- CachingDb.Cache.Resolve: calls its two lock sections with no other thread in between; `CachingDb.Step` interleaves them.
- Pipeline.LoadSqlite: success is claimed for every name `check_ident` accepts, although SQL refuses some of them unquoted (`1abc`, `table`).
- Store.SqliteWriter.Create: tables whose names differ in letter case only are told apart, which SQLite does not do.
- Strings are sequences of Unicode scalar values, whose order is that of their UTF-8 bytes; `walk` cuts a prefix it put in front itself, so byte and character positions agree.
- An unreadable directory, or one that disappears, shows no children.
- `redis_url`, `urlencode`, `parse_f64`, usage texts, the option tables themselves, `build_fuse_args`, stat copying, the key table and the clock.
