# Hedged requests for a DuckDB filesystem: a Dafny model of the hedging engine

The extension wraps a DuckDB filesystem so that a slow operation is raced against a
second attempt. Each operation runs on a thread, and that thread is the *primary*
attempt. If the primary has not finished when a delay runs out, one *hedge* attempt of
the same operation is started. The first attempt to finish answers the caller. Attempts
still running are handed to a shared registry, which waits for them later.

This project models that engine and proves properties of the model:

- **Attempts and tokens** (`future_utils.dfy`, module `FutureUtils`). An attempt's shared state holds `ready`, a result and an exception. A completion token is shared by the attempts of one race. The worker step stores exactly one of result and exception, then signals the token. The model covers `IsReady`, `Get`, `Wait`, the move operations, and `WaitForAny`'s stable split into not-ready and ready attempts.
- **The race rule** (`hedged_file_system.dfy`, module `HedgedFs`). This is `HedgedRequest`: a bounded wait on the primary, at most one hedge, the first ready attempt's outcome returned, and every attempt still running registered with the entry. The module also covers the wrapper's constructor checks, `GetName` and `ListFiles`.
- **The pending registry** (`hedged_request_fs_entry.dfy`, module `FsEntry`). This is `HedgedRequestFsEntry`, a list of pending handles plus the delay configuration. Adding a handle appends it and then drops every ready handle. `WaitAll` waits for every handle and clears the list.
- **The configuration** (`hedged_request_config.dfy`, module `RequestConfig`). It holds the nine operation kinds, their default delays, and the configuration value with one delay per operation.
- **The settings** (`hedged_fs_settings.dfy`, module `FsSettings`). Each setting name maps to one operation, with its registered default and its setter.
- **The SQL functions** (`hedged_fs_functions.dfy`, module `FsFunctions`). `hedged_fs_list_filesystems()` emits the sorted names in chunks of `STANDARD_VECTOR_SIZE` through an advancing cursor. `hedged_fs_wrap(name)` fails with `InvalidInputException` or registers a wrapper.

Shared types live in `common.dfy`: option, result, the exceptions, an attempt's outcome, and 64-bit integers. The sequence facts live in `sequences.dfy`: the flag-driven stable split behind both `WaitForAny` and `erase(remove_if(...))`, and sorting of names.

**Threads are replaced by a timing oracle.** A race is described by
`Timing(timeout, primaryLatency, hedgeLatency)`, in milliseconds:

- The primary finishes at `primaryLatency`.
- A hedge is started when the bounded wait of `timeout` ends, so it finishes at `timeout + hedgeLatency`.
- An attempt is ready at an instant exactly when it has finished by then.
- The race is decided at the first finish.
- If both attempts finish at the same instant, both are ready. The ready part keeps issue order, so the primary answers.

A worker thread finishing in the background is one atomic step (`FinishWorker`). The oracle decides which attempts take that step before a wait returns. The "attempts issued" counter returned by `HedgedRequest` is what the tests observe through the mock filesystem's open count.

The source is inconsistent in a few places. The model follows the code bodies:

- `WaitForAny` returns only the not-ready attempts and leaves the ready ones in `futs`. Its caller reads `.pending_futures` and `.result` from the return value. The model returns both parts and takes the winner to be the first attempt of the ready part.
- `WaitForAny` takes `futs` by lvalue reference, but the race passes `std::move(futs)`. The model passes the attempts.
- `AddPendingRequest` takes a `std::function` in the header and a `FutureWrapper<void>` in the implementation. The model registers an opaque handle that exposes only whether it is ready (`PendingRequest`).
- `GetConfig`, `SetConfig` and `UpdateConfig` are declared but not defined. They are modelled from their declarations and comments: a by-value snapshot, a whole replacement, and the replacement of one delay.
- `hedged_fs_wrap` constructs `HedgedFileSystem` with two arguments, while the constructor defined in src/hedged_file_system.cpp takes three (with a timeout). The model records only the registered wrapper's name.
- The race in src/hedged_file_system.cpp always waits for the filesystem's own `timeout`. The per-operation delays in the entry's configuration, which the settings update, are never read by the race in the files modelled here.

## Model

| member | source | states |
|---|---|---|
| FutureUtils.Token.constructor | src/include/future_utils.hpp:15-19 | a new token has not signalled a completion |
| FutureUtils.Token.Complete | src/include/future_utils.hpp:189-194 | signalling sets `completed` |
| FutureUtils.Token.Reset | src/hedged_file_system.cpp:39-43 | after the bounded wait the race clears `completed` |
| FutureUtils.AttemptState.constructor | src/include/future_utils.hpp:79-84 | a fresh state is not ready and holds neither result nor exception |
| FutureUtils.AttemptState.Stored | src/include/future_utils.hpp:64-68 | a ready state yields its exception if it stored one, otherwise its result |
| FutureUtils.RunWorker | src/include/future_utils.hpp:174-195 | the worker stores exactly one of result and exception (the one the functor produced), sets `ready`, then sets the token's `completed`, whether the functor returned or threw |
| FutureUtils.FutureWrapper.constructor | src/include/future_utils.hpp:25 | a default wrapper has no token, state or thread, and is not ready |
| FutureUtils.FutureWrapper.Create | src/include/future_utils.hpp:166-198 | creating a future gives a fresh, not-ready state, the given token, and a running thread that will produce the functor's outcome |
| FutureUtils.FutureWrapper.Move | src/include/future_utils.hpp:30-32 | move construction transfers token, state and thread; the source keeps none and is no longer ready |
| FutureUtils.FutureWrapper.MoveAssign | src/include/future_utils.hpp:33-40 | self-assignment changes nothing; otherwise token, state and thread are transferred and the source is emptied |
| FutureUtils.FutureWrapper.IsReady | src/include/future_utils.hpp:51-57 | ready exactly when there is a state and its flag is set; false for a default or moved-from wrapper |
| FutureUtils.FutureWrapper.FinishWorker | src/include/future_utils.hpp:174-195 | a background finish makes the attempt ready with the outcome its thread was to produce, and signals the token |
| FutureUtils.FutureWrapper.Wait | src/include/future_utils.hpp:72-76 | after waiting, a wrapper with a state is ready and holds the outcome it was going to produce; the thread is joined |
| FutureUtils.FutureWrapper.Get | src/include/future_utils.hpp:60-69 | `Get` yields the attempt's outcome: the exception it threw or the value it returned |
| FutureUtils.SplitByReadiness | src/include/future_utils.hpp:244-256 | the returned part is exactly the not-ready attempts and `futs` exactly the ready ones, each in input order |
| FutureUtils.AwaitCompletion | src/include/future_utils.hpp:239-242 | the wait returns only once the token reports a completion; the attempts the oracle names have finished, and no attempt's outcome changes |
| FutureUtils.WaitForAny | src/include/future_utils.hpp:237-258 | waits for a completion, then splits the attempts by readiness into two order-preserving parts |
| FutureUtils.WaitForAnyScenario | test/unittest/future_utils_test.cpp:65-78 | with one fast and one slow attempt, one attempt is left pending and the fast one's value is the result |
| Sequences.SelectPartitions | src/include/future_utils.hpp:247-253 | every input element lands in exactly one of the two parts |
| Sequences.SelectInterleaves | src/include/future_utils.hpp:247-253 | the two parts are an order-preserving merge of the input |
| Sequences.SelectMembership | src/include/future_utils.hpp:247-253 | an element lands in a part exactly when some position holding it has that part's flag |
| Sequences.Insert | src/hedged_fs_functions.cpp:57 | placing a name into an ascending list keeps it ascending and adds exactly that name |
| Sequences.SortNames | src/hedged_fs_functions.cpp:57 | sorting yields an ascending permutation of the names |
| Sequences.SortedPermutationUnique | src/hedged_fs_functions.cpp:57 | two ascending arrangements of the same names are equal, so sorting's result is determined |
| RequestConfig.Index | src/include/hedged_request_config.hpp:9-20 | every operation's enum value is below `COUNT` = 9 |
| RequestConfig.FromIndex | src/include/hedged_request_config.hpp:9-20 | every index below `COUNT` is the enum value of an operation |
| RequestConfig.IndexInjective | src/include/hedged_request_config.hpp:9-20 | different operations have different enum values |
| RequestConfig.DefaultDelay | src/include/hedged_request_config.hpp:23-33 | `GLOB` and `LIST_FILES` default to 5000 ms, every other operation to 3000 ms; all defaults are positive |
| RequestConfig.NewHedgedRequestConfig | src/include/hedged_request_config.hpp:41-45 | the default configuration holds, for every operation, the default delay at its index |
| RequestConfig.UpdateDelay | src/include/hedged_request_fs_entry.hpp:37-38 | updating one operation's delay sets that delay and keeps every other |
| RequestConfig.UpdateDelayOverwrites | src/include/hedged_request_fs_entry.hpp:37-38 | a second update of the same operation overrides the first; rewriting the current value changes nothing |
| RequestConfig.UpdateDelayCommutes | src/include/hedged_request_fs_entry.hpp:37-38 | updates of different operations do not interfere |
| FsEntry.PendingRequest.IsReady | src/hedged_request_fs_entry.cpp:22 | the cleanup's predicate is the handle's readiness |
| FsEntry.PendingRequest.Wait | src/hedged_request_fs_entry.cpp:28-30 | after waiting, a handle is ready |
| FsEntry.UnfinishedMembership | src/hedged_request_fs_entry.cpp:21-23 | a handle survives the cleanup exactly when it was listed and is not ready |
| FsEntry.UnfinishedNoneReady | src/hedged_request_fs_entry.cpp:21-23 | no ready handle survives the cleanup |
| FsEntry.UnfinishedPartitions | src/hedged_request_fs_entry.cpp:21-23 | the cleanup drops only ready handles; survivors and dropped handles together are the old list, survivors in their old order |
| FsEntry.UnfinishedAppend | src/hedged_request_fs_entry.cpp:14-18 | appending then cleaning up equals cleaning up the old list and keeping the new handle iff it is not ready |
| FsEntry.UnfinishedIdempotent | src/hedged_request_fs_entry.cpp:20-24 | a second cleanup removes nothing |
| FsEntry.HedgedRequestFsEntry.constructor | src/hedged_request_fs_entry.cpp:7-8 | a new entry has no pending requests and the default delays |
| FsEntry.HedgedRequestFsEntry.ObjectType | src/include/hedged_request_fs_entry.hpp:21-23 | the cache key is a non-empty fixed name |
| FsEntry.HedgedRequestFsEntry.GetObjectType | src/include/hedged_request_fs_entry.hpp:17-19 | the virtual type name equals the static one, `"hedged_request_fs_entry"` |
| FsEntry.HedgedRequestFsEntry.CleanupCompleted | src/hedged_request_fs_entry.cpp:20-24 | the list becomes its not-ready handles in order; the configuration is untouched |
| FsEntry.HedgedRequestFsEntry.AddPendingRequest | src/hedged_request_fs_entry.cpp:14-18 | the new handle stays iff it is not ready, no ready handle remains, the list grows by at most one, and the configuration is untouched |
| FsEntry.HedgedRequestFsEntry.WaitAll | src/hedged_request_fs_entry.cpp:26-32 | every pending handle is waited on (ready afterwards) and the list is left empty |
| FsEntry.HedgedRequestFsEntry.Destroy | src/hedged_request_fs_entry.cpp:10-12 | destruction drains the registry: every handle ready, list empty |
| FsEntry.HedgedRequestFsEntry.GetConfig | src/include/hedged_request_fs_entry.hpp:31-32 | returns the current configuration by value |
| FsEntry.HedgedRequestFsEntry.SetConfig | src/include/hedged_request_fs_entry.hpp:34-35 | replaces the whole configuration with one holding a delay for each of the `COUNT` operations; the entry stays well formed and the pending list is untouched |
| FsEntry.HedgedRequestFsEntry.UpdateConfig | src/include/hedged_request_fs_entry.hpp:37-38 | sets one operation's delay, keeps every other delay and the pending list |
| FsEntry.ConfigSnapshotIsIsolated | src/include/hedged_request_fs_entry.hpp:31-38 | a snapshot taken by `GetConfig` keeps the old delays after a later update |
| HedgedFs.Timing.DecidedAt | src/hedged_file_system.cpp:55 | the hedged wait returns at the first finish of the two attempts, not before the timeout |
| HedgedFs.Timing.ReadyAtDecision | src/hedged_file_system.cpp:55 | when the wait returns, an attempt is ready exactly when it finished no later than the other; at least one is |
| HedgedFs.Timing.IssuedCount | src/hedged_file_system.cpp:37-53 | one attempt when the primary finishes within the timeout, otherwise exactly two |
| HedgedFs.Timing.LoserCount | src/hedged_file_system.cpp:55-59 | one attempt is left running exactly when a hedge was started and the two do not finish together |
| HedgedFs.WinnerFinishesFirst | src/hedged_file_system.cpp:44-61 | the answering attempt finished within the timeout, or first; a hedge answers only when it finishes strictly before the primary |
| HedgedFs.AttemptsAccounted | src/hedged_file_system.cpp:55-59 | every started attempt is the winner, a ready loser, or handed to the entry |
| HedgedFs.HedgedRequest | src/hedged_file_system.cpp:32-62 | returns the winning attempt's outcome, starts exactly `IssuedCount` attempts, registers exactly the still-running ones as new not-ready handles, and changes no configuration |
| HedgedFs.RaceWithHedge | src/hedged_file_system.cpp:48-61 | with a late primary: the first ready attempt's outcome, and as many still-running attempts as the timing leaves |
| HedgedFs.StartHedge | src/hedged_file_system.cpp:48-53 | the hedge runs on the primary's token; the wait's vector holds the primary, then the hedge, neither finished yet, on two different states |
| HedgedFs.HandOverPending | src/hedged_file_system.cpp:56-59 | each still-running attempt is registered once, in order, and all of them survive the entry's cleanups |
| HedgedFs.AllUnfinishedKept | src/hedged_request_fs_entry.cpp:21-23 | a list without ready handles is left unchanged by the cleanup |
| HedgedFs.SlowOpenScenario | test/unittest/hedged_file_system_test.cpp:28-42 | 1000 ms timeout and a 5000 ms operation: two attempts, the primary answers, one left pending |
| HedgedFs.FastOpenScenario | test/unittest/hedged_file_system_test.cpp:52-66 | 1000 ms timeout and an immediate operation: one attempt, nothing pending |
| HedgedFs.HedgedNameSplits | src/hedged_file_system.cpp:160-162 | the wrapper's name is `"HedgedFileSystem - "` followed by the wrapped name |
| HedgedFs.HedgedNameInjective | src/hedged_file_system.cpp:160-162 | different wrapped filesystems give different wrapper names |
| HedgedFs.HedgedFileSystem.GetName | src/hedged_file_system.cpp:160-162 | the name starts with the prefix and the rest is the wrapped filesystem's name |
| HedgedFs.ConstructionError | src/hedged_file_system.cpp:72-77 | a missing wrapped filesystem is reported first, a missing entry second, both as internal errors with their messages; none when both exist |
| HedgedFs.HedgedFileSystem.constructor | src/hedged_file_system.cpp:69-71 | the wrapper keeps the wrapped filesystem, the timeout and the entry |
| HedgedFs.NewHedgedFileSystem | src/hedged_file_system.cpp:69-78 | construction fails exactly when the wrapped filesystem or the entry is missing, with the checks' error; otherwise the wrapper holds its arguments |
| HedgedFs.WinnerListing | src/hedged_file_system.cpp:244-258 | the listing to forward is one attempt's own listing, or nothing when the race threw |
| HedgedFs.Collected | src/hedged_file_system.cpp:244-249 | an attempt yields its own listing with its bool, or its exception |
| HedgedFs.SharedResultsTieDuplicates | src/hedged_file_system.cpp:235-259 | when both attempts finish together, the shared vector holds every listed entry twice |
| HedgedFs.SharedResultsCounterexample | src/hedged_file_system.cpp:235-259 | a concrete tie forwards a one-entry directory as two entries, unlike the winner's listing |
| HedgedFs.SharedResultsAgreeWithoutHedge | src/hedged_file_system.cpp:244-258 | without a hedge, the shared vector is exactly the primary's listing |
| HedgedFs.HedgedFileSystem.ListFilesSharedResults | src/hedged_file_system.cpp:235-259 | as written: returns the race's outcome and, unless it threw, forwards everything in the shared vector in order |
| HedgedFs.HedgedFileSystem.ListFiles | src/hedged_file_system.cpp:235-259 | corrected: returns the race's outcome and forwards exactly the winner's listing, once, in order |
| Common.ToInt64 | src/hedged_fs_settings.cpp:24-25 | the `uint64_t` setting value read as `int64_t`: equal below 2^63, negative above, congruent modulo 2^64 |
| FsSettings.SettingOperation | src/hedged_fs_settings.cpp:23-71 | a delay setting's name configures the operation whose name it is |
| FsSettings.SettingRoundTrip | src/hedged_fs_settings.cpp:23-71 | each operation's setting name maps back to that operation |
| FsSettings.MaxCountIsNoDelaySetting | src/hedged_fs_settings.cpp:140-142 | the maximum-count setting configures no delay |
| FsSettings.DelayOption | src/hedged_fs_settings.cpp:86-138 | each delay option is registered under its operation's setting name, with that operation's default delay and setter |
| FsSettings.RegisteredOptions | src/hedged_fs_settings.cpp:86-142 | the nine delay options in enum order, then the maximum count |
| FsSettings.RegisteredOptionsWellFormed | src/hedged_fs_settings.cpp:86-142 | ten options with ten distinct names; each delay option's setter updates the operation its name names, and its default is that operation's default |
| FsSettings.UpdateConfigDelay | src/hedged_fs_settings.cpp:15-21 | the entry's delay for the operation becomes the value; nothing else changes |
| FsSettings.SetHedgingDelay | src/hedged_fs_settings.cpp:23-71 | a setter stores the value's `int64_t` reading as that operation's delay: the value itself up to INT64_MAX, a negative delay above |
| FsFunctions.ListFilesystemsData.constructor | src/hedged_fs_functions.cpp:38-44 | a new cursor is at position 0 |
| FsFunctions.ListFilesystemsInit | src/hedged_fs_functions.cpp:53-59 | the cursor holds the subsystems' names sorted ascending, a permutation of them, at position 0 |
| FsFunctions.Chunk | src/hedged_fs_functions.cpp:64-72 | a call emits the next names from the cursor: at most `STANDARD_VECTOR_SIZE`, fewer only when the list runs out |
| FsFunctions.ListFilesystemsFunction | src/hedged_fs_functions.cpp:61-73 | output row k is the name at the cursor plus k, the cursor advances by the row count and never passes the end |
| FsFunctions.DrainIsSuffix | src/hedged_fs_functions.cpp:61-73 | successive calls from a position emit exactly the rest of the list, in order |
| FsFunctions.ListingCoversAll | src/hedged_fs_functions.cpp:53-73 | from a fresh cursor the calls emit every subsystem exactly once, ascending |
| FsFunctions.NotFound | src/hedged_fs_functions.cpp:87-90 | a missing filesystem is reported as an invalid-input error |
| FsFunctions.HedgedFsWrapFunction | src/hedged_fs_functions.cpp:79-101 | every row with a filesystem registers a wrapper named after it and yields true; the first row without one throws the not-found error and stops |

## Left out

- Threads, mutexes, condition variables, `join` and `wait_for` are replaced by the timing oracle and atomic completion steps. Wall clocks, spurious wake-ups and scheduling are not modelled.
- FutureUtils.FutureWrapper: `FutureWrapper<void>` is modelled as `FutureWrapper<()>`, whose state stores the unit result. The destructor's join is `Wait`. Calling `Get` on a wrapper without a state is undefined in the source and is excluded by a precondition.
- FutureUtils.FutureWrapper.MoveAssign: move-assigning over a wrapper whose thread is still joinable calls `std::terminate`. The model requires that thread to be gone.
- HedgedFs.HedgedRequest: a losing attempt is registered as a fresh opaque handle that is not ready. The model does not link that handle to the losing thread's later progress.
- HedgedFs.HedgedFileSystem.ListFilesSharedResults: the oracle gives the shared vector's content when the race returns. The order in which the two attempts' appends interleave is left open. Appends by a loser that is still running while the callbacks iterate (a data race in the source) are not modelled.
- src/hedged_file_handle.cpp is not part of this model. It is a separate polling race on `std::async` in which a losing read still copies into the caller's buffer, and it uses a member that does not exist.
- The pass-through methods at src/hedged_file_system.cpp:84-210 (`Read`, `Write`, `Trim`, `Truncate`, `CreateDirectory`, `RemoveDirectory`, `MoveFile`, …, `OnDiskFile`) are not modelled except `GetName`. They call the wrapped filesystem directly and never start a race, so they do not hedge.
- The hedged adapters other than `ListFiles` (`OpenFile`, `DirectoryExists`, `FileExists`, `Glob`, `GetFileSize`, `GetLastModifiedTime`, `GetVersionTag` and `GetFileType`, src/hedged_file_system.cpp:216-313) are not modelled one by one. Each is one `HedgedRequest` over one call to the wrapped filesystem, so `HedgedFs.HedgedRequest` covers it.
- `CopyFileOpener` is not modelled: it does DuckDB-specific `dynamic_cast`s.
- src/include/hedged_file_system.hpp conflicts with the .cpp: it has no timeout parameter or field. The model follows the .cpp.
- The mock filesystem, extension loading, and the settings' registration into `DBConfig` are host code. The registered options are modelled as a list.
- The maximum-count setting's setter is not modelled. `UpdateMaxHedgedRequestCount` and `DEFAULT_MAX_HEDGED_REQUEST_COUNT` are not defined in the files modelled, and the race never reads a count. The option's default is therefore absent in `FsSettings.RegisteredOptions`.
- FsSettings.SetHedgingDelay: the nine setter functions are one method taking the operation. The object-cache lookup is replaced by passing the entry. The unused setting name and scope are dropped.
- FsFunctions.ListFilesystemsInit: the in-place `std::sort` is modelled on the value, as `SortNames`, and not as an in-place array sort.
- FsFunctions.STANDARD_VECTOR_SIZE is fixed at 2048, DuckDB's default build value. The constant is not defined in the files modelled.
- FsFunctions.HedgedFsWrapFunction: the names are a `seq<string>`, so NULL input rows cannot be expressed. DuckDB's `UnaryExecutor` (src/hedged_fs_functions.cpp:84) skips them without calling the function.
- FutureUtils.FutureWrapper.Move models the constructor at src/include/future_utils.hpp:30. That constructor takes `FutureWrapper other` by value, which is ill-formed as a copy or move constructor, and sits next to the `= disable` lines at :27-28. The model reads it as the intended move constructor.
- FsFunctions.HedgedFsWrapFunction: the virtual filesystem's `ExtractSubSystem` and `RegisterSubSystem` are host code. Extraction is an oracle per row, and a registered wrapper is recorded by its name. The debug log line is left out. `ListFilesystemsBind` only declares the single VARCHAR column `name` and is not modelled.

## Findings

| source | as written | input that shows it | evidently intended | confidence | as-written member | corrected member |
|---|---|---|---|---|---|---|
| src/hedged_file_system.cpp:235-259 | both attempts of `ListFiles` append to one shared `results` vector, and after the race everything in it is passed to the callback | a 1000 ms timeout, a primary listing taking 2000 ms and a hedge taking 1000 ms finish together; a directory with the single file `a` reaches the callback twice | the callback sees one listing, the winner's, once: the hedging rule takes the first attempt's result and discards the rest, as `HedgedRequest` does for every other operation | medium, not executed (needs both attempts finished when the race returns; a loser still running can also leak a partial listing) | HedgedFs.SharedResultsCounterexample | HedgedFs.HedgedFileSystem.ListFiles |
