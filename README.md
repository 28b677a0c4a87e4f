# Activity poller status bookkeeping, in Dafny

This project models the bookkeeping core of the PingOne activity poller
(`poll-activity-data/poll_activities.js`). The poller keeps a status record
with two lists of `[start, end]` timestamp pairs: `requested`, the windows
still to be fetched, and `finished`, the windows already fetched. The model
covers four pieces of that file:

- `balanceStatus`, the left-to-right fold that collapses a finished range into
  the previous one when the previous one's end equals its start
  (`Intervals.Balance`, run as a loop by `StatusStore.Status.BalanceStatus`);
- `addRequest`, which appends a pair unless an identical pair is already
  queued, and `updateStatus`, which enqueues, balances and writes
  (`StatusStore`);
- the window decision of `initRequest`: the start is the default start,
  overridden by the end of the last finished range, overridden in turn by the
  end of the last requested range; `[start, end]` is enqueued only when the
  two strings differ (`Scheduler`);
- the loop of `program`: fetch each requested window, record completed ones
  in a map keyed by `start + end`, re-partition the requested list into
  still-requested and finished, then balance and write (`Ingestion`).

Timestamps are only compared for equality in the source, so a `TimeRange` is a
pair of opaque strings. The wall-clock values (`now` floored to the minute and
five minutes before it) are the parameters `endDate` and `defaultStart`. The
saved status is an `Option<StatusValue>` (`None` when reading or parsing the
file fails). The model assumes that every read and write of the status file
completes, which the file helpers as written do not (see "Left out"). Each file write is modelled as the document written. The
outcome of each fetch of activities is the parameter `fetched: nat -> bool`:
`fetched(i)` says whether the fetch made in iteration `i` of the loop
completed, so two copies of one window may have different outcomes.

Modules: `Wrappers` (Option), `Intervals` (ranges, the merge fold, the
duplicate filter), `StatusStore` (the status document, the `Status` class and
its in-place updates), `Scheduler` (`initRequest`), `Ingestion` (`program`).

Behaviour of the code worth knowing:

- the finished list is merged only between list neighbours, never as a global
  interval union;
- no window's start is checked to lie before its end;
- after `initRequest` the status is re-read; assuming the file helpers
  complete, a run without a readable status file starts from an empty status and writes the default five-minute window,
  and fails only when there is nothing to reload, that is when no status was
  saved and the default start equals the end;
- the whole requested list is re-partitioned after every window, rather than
  one window being promoted at a time;
- the completed-window test is JavaScript's `in` on a plain object, which also
  holds for names the object inherits (`toString`, `constructor`, …); the
  model lists the names inherited from `Object.prototype` as
  `Ingestion.InheritedKeys` (storing the key `"__proto__"` is not modelled,
  see "Left out").

## Model

| member | source | states |
|---|---|---|
| Intervals.Absorb | poll-activity-data/poll_activities.js:143-150 | One reduce step never shortens the list and adds at most one range, and the last range then ends at the current range's end |
| Intervals.Balance | poll-activity-data/poll_activities.js:141-152 | The merged list is empty exactly when the input is, is never longer, starts with the first input's start and ends with the last input's end |
| Intervals.RunStartsExact | poll-activity-data/poll_activities.js:142-151 | Input range i opens a new output range iff i = 0 or the end of range i-1 differs from the start of range i; these indices are strictly increasing |
| Intervals.BalanceRuns | poll-activity-data/poll_activities.js:142-151 | There is one output range per run, and output k is [start of its run's first input, end of its run's last input] |
| Intervals.BalanceMerged | poll-activity-data/poll_activities.js:143-149 | No two consecutive output ranges touch (out[k].end != out[k+1].start) |
| Intervals.BalanceFixesMerged | poll-activity-data/poll_activities.js:142-151 | A list with no touching neighbours comes back unchanged |
| Intervals.BalanceIdempotent | poll-activity-data/poll_activities.js:141-152 | Balancing twice equals balancing once, and a list is a fixed point iff no neighbours touch |
| Intervals.BalanceLeavesNonTouchingPairs | poll-activity-data/poll_activities.js:145-148 | A range is not joined onto a predecessor that starts where it ends (reverse order), nor onto one it merely overlaps |
| Intervals.BalanceKeepsSeparated | poll-activity-data/poll_activities.js:142-151 | Two ranges that touch but have another range between them in the list stay apart: the merge is not an interval union |
| Intervals.Matches | poll-activity-data/poll_activities.js:135 | The duplicate filter returns only copies of the pair, as many as the list holds, and is empty iff the pair is not queued |
| StatusStore.Enqueue | poll-activity-data/poll_activities.js:133-138 | The pair is queued afterwards; the list is unchanged if it already held the pair, otherwise the pair is appended after all earlier entries |
| StatusStore.EnqueueIdempotent | poll-activity-data/poll_activities.js:135-136 | Enqueueing the same pair twice gives the same list as once |
| StatusStore.EnqueueRepeated | poll-activity-data/poll_activities.js:133-137 | Any number of enqueues of a new pair append it once and it occurs exactly once |
| StatusStore.EnqueueKeepsDistinct | poll-activity-data/poll_activities.js:134-137 | A duplicate-free requested list stays duplicate-free |
| StatusStore.Updated | poll-activity-data/poll_activities.js:126-131 | updateStatus keeps the queued windows as a prefix, adds the request if given and otherwise leaves them alone, and leaves finished merged and no longer |
| StatusStore.UpdatedValid | poll-activity-data/poll_activities.js:126-131 | After updateStatus requests stay distinct, the finished list is fully merged, and the queued windows are the old ones plus the request |
| StatusStore.Status.constructor | poll-activity-data/poll_activities.js:100-106 | The status object holds the given requested and finished lists |
| StatusStore.Status.AddRequest | poll-activity-data/poll_activities.js:133-138 | requested becomes the enqueue of the pair; finished is not touched |
| StatusStore.Status.BalanceStatus | poll-activity-data/poll_activities.js:141-152 | The loop leaves finished equal to the merge of the old list, merged and no longer; requested is not touched |
| StatusStore.Status.UpdateStatus | poll-activity-data/poll_activities.js:126-132 | The new status is the old one with the optional request enqueued and finished balanced, and that status is what is written |
| Scheduler.StartDate | poll-activity-data/poll_activities.js:101-115 | Without a saved status the start is the default; with one, the last requested end wins, else the last finished end, else the default |
| Scheduler.NextWindow | poll-activity-data/poll_activities.js:121-124 | A window is produced iff the chosen start differs from the end, and it is [start, endDate] |
| Scheduler.Scheduled | poll-activity-data/poll_activities.js:99-124 | initRequest writes exactly when a window is due; what it writes is the new status, which queues that window; otherwise the status is the saved one, or empty |
| Scheduler.InitRequest | poll-activity-data/poll_activities.js:99-125 | The step-by-step start choice agrees with StartDate; with a window the status gets it enqueued and balanced and is written, without one it is left as loaded and nothing is written |
| Scheduler.ContinuesFromFinished | poll-activity-data/poll_activities.js:107-110 | With nothing queued, the next window runs from the last finished end to now |
| Scheduler.NoOpWhenCurrent | poll-activity-data/poll_activities.js:111-124 | When the last queued window ends now, no window is enqueued and nothing is written |
| Scheduler.ScheduledKeepsChain | poll-activity-data/poll_activities.js:111-124 | Queued windows that abut keep abutting after initRequest |
| Scheduler.ScheduledValid | poll-activity-data/poll_activities.js:122-131 | When initRequest writes and the saved requests were distinct, the status written is valid and holds the new window |
| Scheduler.ReversedWindowAccepted | poll-activity-data/poll_activities.js:122-123 | A window whose start string comes after its end is still enqueued |
| Ingestion.Key | poll-activity-data/poll_activities.js:192 | The key of a window is as long as its start and end together |
| Ingestion.InMap | poll-activity-data/poll_activities.js:187 | Every stored key, and every name inherited from Object.prototype, passes the `in` test |
| Ingestion.Done | poll-activity-data/poll_activities.js:189-193 | The key of every window whose fetch completed so far is recorded |
| Ingestion.Route | poll-activity-data/poll_activities.js:196-200 | One reduce step places the window in exactly one of the two lists, and in finished exactly when its key passes the `in` test |
| Ingestion.Partition | poll-activity-data/poll_activities.js:195-202 | The partition keeps the total number of ranges: requested windows plus the old finished list |
| Ingestion.PartitionSelects | poll-activity-data/poll_activities.js:195-202 | New requested = the windows whose key is not completed, in order; new finished = old finished followed by the completed windows, in order |
| Ingestion.SelectSplits | poll-activity-data/poll_activities.js:196-200 | Completed and not-completed windows together are exactly the requested multiset |
| Ingestion.PartitionRoutes | poll-activity-data/poll_activities.js:195-202 | Old finished is kept as a prefix; each window lands in exactly one list, according to whether c[0] + c[1] is a completed key |
| Ingestion.DoneSnoc | poll-activity-data/poll_activities.js:190-193 | Recording a window adds its key to the completed map exactly when its fetch completed |
| Ingestion.KeyInjective | poll-activity-data/poll_activities.js:192 | Keys of ranges whose starts have equal length identify the range |
| Ingestion.DoneExact | poll-activity-data/poll_activities.js:189-196 | With fixed-width timestamps a window's key is recorded after n iterations iff some iteration before n fetched a copy of that very window and it completed |
| Ingestion.KeyCollision | poll-activity-data/poll_activities.js:192-196 | Keys are concatenations: completing ["a","bc"] also promotes ["ab","c"] |
| Ingestion.InheritedKeyPromoted | poll-activity-data/poll_activities.js:196-197 | A window whose key is an inherited name ("toStr" + "ing") is moved to finished whatever its fetch did |
| Ingestion.WriteAfter | poll-activity-data/poll_activities.js:195-204 | The document written after window i has a fully merged finished list and no more requested windows than before |
| Ingestion.SelectDistinct | poll-activity-data/poll_activities.js:195-202 | Filtering a duplicate-free requested list keeps it duplicate-free |
| Ingestion.LoopWritesValid | poll-activity-data/poll_activities.js:195-204 | Every document the loop writes is valid: requests distinct, finished merged |
| Ingestion.SelectNoneDone | poll-activity-data/poll_activities.js:195-202 | When no requested window's key passes the test, every window stays requested, in order, and none is finished |
| Ingestion.NoFetchKeepsRequested | poll-activity-data/poll_activities.js:189-204 | If no fetch up to window i completed (the case of the code as written) and no key is an inherited name, the write after window i keeps the requested list unchanged and only merges finished |
| Ingestion.CrashResume | poll-activity-data/poll_activities.js:189-205 | For distinct fixed-width windows whose keys are not inherited names, the document written after window i keeps requested exactly the windows not fetched successfully so far, and appends to finished exactly those that were |
| Ingestion.RunRequested | poll-activity-data/poll_activities.js:189-205 | One write per requested window; write i is the balanced partition by the keys completed in the first i + 1 iterations, plus the inherited names |
| Ingestion.Reloaded | poll-activity-data/poll_activities.js:185-186 | The reload fails exactly when no status was saved and the default window is empty; with no saved status and a non-empty window it is the status holding only that window |
| Ingestion.Program | poll-activity-data/poll_activities.js:184-206 | The run writes the scheduled status if any, then one document per reloaded requested window; without a status to reload it fails having written nothing |

## Left out

- `getAllActivities` (the paginated HTTP fetch loop with token refresh) is not part of this model; its outcome is the `fetched` parameter. As written it reads an undeclared `options`, reassigns a `const` and has no retry bound, so there is no bounded-retry or cursor behaviour to verify. The `ReferenceError` on `options` (poll-activity-data/poll_activities.js:59 and :69) is caught and ends the loop, so as written the function always resolves to `undefined` and no fetch ever completes. The `fetched` parameter is a generalisation; the as-written case, `fetched` false everywhere, is `Ingestion.NoFetchKeepsRequested`: each write keeps every window requested and only merges the finished list.
- The HTTP request builders `tokenAuthRequestOptions` and `activitiesRequestOptions` are left out: they only template URLs and headers.
- Timestamp production with `moment` is left out; its results are the `defaultStart` and `endDate` parameters.
- As written, `fsRead` and `fsWrite` pass Node-style callbacks to functions of `require('fs').promises`, which never call them. Neither wrapper promise settles, so a run stops at its first status read in `initRequest` and never writes or fetches. The model assumes every read and write completes: a load yields the saved status or `None`, and a write yields the document written.
- File reading, JSON parsing and writing (`fsRead`, `fsWrite`, `getStatus`) are left out; a load is an `Option<StatusValue>`, and a write is the document written. A status file that parses to a different shape is not modelled.
- JavaScript aliasing in `program` is not modelled. Each partition starts from the loaded finished list, although the source shares one array across iterations and so re-appends completed windows. The in-place update of shared range arrays in `balanceStatus` is not modelled either.
- The un-awaited `updateStatus` calls in `program` overlap their writes; the model records the writes in issue order.
- Console logging and the top-level `program().catch` are left out: they hold no logic.
- The covered time of the finished list is not compared across runs, because timestamps are opaque strings here.
- Ingestion.InMap: stands for the `in` test only while the completed-window object keeps `Object.prototype` as its prototype; its inherited names are the twelve listed in `Ingestion.InheritedKeys`. Storing a completed window whose key is `"__proto__"` (for example `["__pro", "to__"]`) calls the prototype setter instead of storing a key and makes that window array the object's prototype, after which `length`, `"0"`, `"1"`, `push` and the other array names also pass the test. The model does not capture that change of prototype, so `Ingestion.WriteAfter`, `Ingestion.RunRequested` and `Ingestion.Program` keep requested a window whose key is such an array name, where the source moves it to finished. `Ingestion.CrashResume` is unaffected, since it excludes keys in `InheritedKeys`, and `"__proto__"` is one of them.
- Ingestion.CrashResume: states the per-window outcome only for distinct windows with fixed-width timestamps whose keys are not inherited names, because otherwise keys collide (`Ingestion.KeyCollision`, `Ingestion.InheritedKeyPromoted`) and the outcome depends on other windows.
