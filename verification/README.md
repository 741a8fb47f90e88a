# A verified model of jetstream-router

jetstream-router reads the Jetstream firehose over one websocket, classifies each frame, and hands it to one of
several isolated routes. Stateful routes count subjects over sliding windows of event time, suppress duplicates and
throttle alerts, all in bounded memory. This project models that pipeline in Dafny 4.11 and proves that the bounded,
sharded, replay-tolerant machine answers like a simple unbounded log, and says exactly where it does not.

`dafny verify dfyconfig.toml` checks everything. No proof depends on automatic lemma induction
(`--manual-lemma-induction`).

## How the model is built

State that the program updates in place is a class with the same fields (`Window`, `Dedup`, `Throttle`, `Shard`,
`ShardSet`, `Default`, `Cursor`, `Ingestor`, `Channel`, `Router`), with the program's loops. Each method is proved
against a specification function on values, and the theorems are about that function over whole runs. Concurrency is a
state machine over atomic steps, quantified over all schedules: `AdvanceRace` (each load and compare-and-swap),
`CommitCrash` (each file-system step, with errors and crashes), `Readiness` (read loop against maintenance goroutine),
`Routes`, `Isolation` and `Shutdown` (reader, workers, drains). A mutex-protected call is one atomic step.

| files | subject |
|---|---|
| Int64, Durations, Sets, Wrappers, LinkedMap, Recency, History | 64-bit times; a map beside a list; bounded recency lists and what they stand for |
| Window, WindowTheorems, Dedup, DedupTheorems, Throttle, DefaultRoute | the three bounded structures and the fallback handler |
| Shard, LogSpec, Refinement, Sharding, Partition, Sweeping, Interleaving, Replay, Retention | one lock per shard; refinement to the unbounded log |
| Events, Cursor, AdvanceRace, CommitCrash, Stream, Reconnect, EarlyReconnect, Lifecycle, Readiness | decoding, position, reconnects, connection states |
| Retry, Route, Fates, Draining, Isolation, Shutdown, Router, Dispatch | worker pool, retries, what each event earned, drains, the shared reader, shutdown order, rules |

## The main results

1. **Refinement.** With event times in order within each shard and caps that fit each shard's own trailing windows, a
   set of any number of bounded, swept, evicting shards returns for every event exactly the verdict recomputed from the
   complete log (`Sharding.ShardsRefineLog`). When one shard's caps would do, neither the shard count nor the hash
   ever shows (`Sharding.ShardCountIsInvisible`); and when no two subjects share a residue, shards with room for a single
   key count any number of subjects exactly (`Partition.OneSlotPerShardSuffices`).
2. **Sweeping is invisible**, even while LRU eviction fires, in the counts of a window and in the verdicts of a set of
   shards (`WindowTheorems.SweepingIsInvisible`, `Sweeping.SweepPaceIsInvisible`), and out of order the count is
   sandwiched between two windows (`WindowTheorems.BoundedSkew`).
3. **Reconnects are idempotent**, end to end from server log to alerts, as long as no replayed key was evicted, no lapse
   occurred and no rewind reached back before the first dispatched frame (`Reconnect.ReconnectsAreIdempotent`). The
   process can check the last of these beforehand, and for every past and every observer the check is exact
   (`EarlyReconnect.GuardedReconnectsAreIdempotent`, `EarlyReconnect.ReconnectIsSafeExactly`). There is **no silent gap**
   over any connections, lapses, restarts that load the position and restarts that do not, but for one hole per lapse or
   unloaded start (`Stream.NoSilentGap`), and what is lost is exactly what lies in the holes (`Stream.LostExactly`). The
   reconnect loop of the program follows that model (`Lifecycle.RunFollowsStream`).
4. **Routes conserve events** in every interleaving, first in first out, count each in the class its handler calls
   earned (`Routes.RouteConserves`, `Fates.FateIsEarned`, `Fates.ProcessIsRun`); **shutdown is orderly**
   (`Shutdown.ShutdownIsOrderly`), nothing is cut, refused or closed before the signal
   (`Fates.CancelledOnlyAtShutdown`, `Shutdown.NothingEndsBeforeSignal`), every closed route runs dry in a bounded number
   of steps (`Draining.ClosedRouteDrains`), and the final commit stays reachable (`Shutdown.CommitStaysReachable`).
5. **Routes are isolated**, with the one reader they share in the state. An offer to a route with the drop policy is one
   step that takes no time, so routes that drop are independent (`Isolation.DropOfferIsOneStep`,
   `Isolation.RoutesAreIndependent`, `Isolation.OthersDoNotInterfere`). Block-policy offers hold the reader, and with it
   every route, for at most BlockTimeout each (`Isolation.OfferEndsInTime`, `Isolation.ReaderStallIsBounded`).
6. **The cursor** linearizes to a maximum (`AdvanceRace.AdvancesLinearizeToMaximum`), and its file is sound at every
   crash point while commits do not overlap (`CommitCrash.FileIsAlwaysSound`).
7. **Routing** follows the documented precedence, and field by field: the answer is the route of the one rule that
   contradicts the key in no field while every rule before it does, operation rules coming first
   (`Routing.SplitMeetsPrecedence`, `Routing.AnswerByFields`).
8. **Readiness** is, in every interleaving, what was reported last; while the connection is being read the service is
   ready unless the last refresh found it lagging (`Readiness.ReadyIsLastReport`, `Readiness.ReadyWhileReadingExactly`).

## Where the code and its documentation differ

The model follows the code in each case.

- Malformed frames do not move the cursor (internal/jetstream/ingest.go:278-284), although internal/jetstream/cursor.go:65
  says they do.
- `run` never calls `Load` (cmd/router/main.go:64), so a restarted process resumes from the tip with no gap counted:
  `Stream.RestartWithoutLoadIsASilentGap`. Over any number of such restarts and other connections, nothing is lost if and
  only if the server sent nothing wanted during a hole (`Stream.LostExactly`); for a single one, nothing wanted in
  between (`Stream.RestartLosesExactly`).
- Stamps are documented as ascending (internal/handler/state.go:38); nothing enforces it. Results that need order say so;
  `BoundedSkew`, `ReacceptedOnlyUnderPressure` and the throttle bounds do not.
- Two exits count nothing: a block-policy offer given up at shutdown (internal/route/route.go:228-229) and an event cut in
  a backoff (internal/route/route.go:303-304). Conservation holds with a class for each (`Refused`, `Ended(Cancelled)`).
- A shift by a large attempt number overflows: the delays grow exactly when RetryBase * 2^(MaxAttempts-2) fits in 64 bits
  (`Retry.BackoffsGrowExactly`); with the default base the 38th delay is negative.
- `maintenanceLoop` is not joined before the final commit (cmd/router/main.go:82-86). Commits share one temporary
  path. The file is sound however many committers there are if no commit begins while another is at work
  (`CommitCrash.FileIsAlwaysSound`); without that care it is safe from tearing if and only if there is at most one
  committer (`CommitCrash.SafeUnattendedExactly`).
- `refreshLag` checks the connection and then sets readiness; between the two the reader can disconnect. The service is
  ready while down exactly when the disconnect notice caught a refresh between the two and it has since said "ready":
  `Readiness.ReadyWhileDownExactly`.
- A reconnect soon after the first start rewinds to before the first frame this process dispatched and brings in frames
  that an uninterrupted connection would not have (`EarlyReconnect.EarlyReconnectReachesBack`), so an alert can fire
  that otherwise would not (`EarlyReconnect.EarlyReconnectAlerts`). The reconnect is safe, whatever came before the
  process and whoever observes the stream, if and only if the resume cursor is later than the first dispatched frame, or
  that frame was the first there ever was: `EarlyReconnect.ReconnectIsSafeExactly`.
- The throttle drops its whole table when it is full. It keeps firings of each key an interval apart in every run over a
  set of keys if and only if its cap exceeds their number or there is but one: `Throttles.SpacingExactly`.
- A negative BackoffMax makes the jitter draw panic (internal/jetstream/ingest.go:213): `Lifecycle.Ingestor.Run`.

## Model

| member | source | states |
|---|---|---|
| Int64.Sub | internal/handler/state.go:78 | Go's int64 subtraction: the true difference wrapped to 64 bits. |
| Windows.Window.constructor | internal/handler/state.go:43-57 | An empty window; a non-positive cap becomes 10000. |
| Windows.Window.EvictIfFull | internal/handler/state.go:104-114 | Leaves room for one key by dropping only from the least recently touched end; map and list stay in bijection. |
| Windows.Window.Add | internal/handler/state.go:61-87 | The new list and the count are those of the list specification `WindowAdd`, for any int64 time; bijection and cap kept. |
| Windows.Window.Sweep | internal/handler/state.go:92-102 | In whatever order the map is walked, exactly the keys whose last stamp is out of the window go. |
| Windows.VisitNext | internal/handler/state.go:94-101 | Step of the sweep loop: the keys deleted so far are the stale ones among those visited. |
| Recency.BackIsStale | internal/handler/state.go:104-114 | In a list tracking a history, if the live keys fit the cap and the list is full, the entry about to be evicted is out of the window. |
| Recency.TouchTracks | internal/handler/state.go:61-71 | Push-to-front with eviction keeps a bounded list standing for the unbounded map, up to stale entries, while the live keys fit the cap. |
| History.StampsAreTimes | internal/handler/state.go:72-86 | Trimming what was kept per key gives every hit of the key since the cutoff, so trimming early loses nothing. |
| WindowTheorems.AddIsExact | internal/handler/state.go:59-87 | While the keys of the trailing window fit the cap, Add returns the number of hits of the key in the closed window, and the list still tracks the history. |
| WindowTheorems.RunIsExact | internal/handler/state.go:59-102 | Over any run of adds and sweeps, if at every add the live keys fit the cap, every count is the number of hits of the key in the closed window ending then. |
| WindowTheorems.SweepTracks | internal/handler/state.go:89-102 | A sweep keeps the list standing for the same history. |
| WindowTheorems.SweepingIsInvisible | internal/handler/state.go:89-114 | Adds at non-decreasing times with sweeps anywhere return the same counts as without, under LRU eviction; the swept list is a prefix and the missing suffix is stale. |
| WindowTheorems.AnySweepSchedule | internal/handler/shard.go:95-102 | Two runs with the same adds and any two sweep schedules return the same counts. |
| WindowTheorems.CountIsRetained | internal/handler/state.go:72-86 | For times in any order the count is what front-only trimming retains of the stamps since the key was last inserted. |
| WindowTheorems.RetainedSandwich | internal/handler/state.go:75-85 | Front-only trimming of stamps with skew at most J keeps at least those of the window narrowed by J and at most those of the window widened by J. |
| WindowTheorems.BoundedSkew | internal/handler/state.go:61-87 | The same sandwich for what Add returns at the end of any run of adds and sweeps. |
| WindowTheorems.NeverOverCounts | internal/handler/state.go:61-87 | In order, the count misses exactly the in-window hits from before the key's last insertion: never too high, and right if and only if there are none. |
| WindowTheorems.OneKeyTooMany | internal/handler/state.go:104-114 | For every cap, as many other live keys as it allows evict a key whose hit is still in the window, and its next count is too low. |
| Dedups.Dedup.constructor | internal/handler/state.go:135-150 | An empty filter; a non-positive cap becomes 50000. |
| Dedups.Dedup.Remove | internal/handler/state.go:177-183 | The key leaves all three structures and nothing else does. |
| Dedups.Dedup.Seen | internal/handler/state.go:154-175 | `seen`, `elems` and `order` always hold the same duplicate-free keys, at most the cap; a duplicate changes nothing, a stale key is refreshed, otherwise the oldest recorded key goes. |
| DedupTheorems.DuplicateIsSince | internal/handler/state.go:152-158 | While the list tracks the history, a key is reported a duplicate if and only if it was recorded within the window. |
| DedupTheorems.ReacceptedOnlyUnderPressure | internal/handler/state.go:154-175 | For times in any order, a key recorded again inside its window had at least maxKeys distinct other keys recorded in between. |
| Throttles.Throttle.constructor | internal/handler/state.go:201-209 | An empty table; a non-positive cap becomes 10000. |
| Throttles.Throttle.Allow | internal/handler/state.go:212-225 | Denies inside the interval; otherwise drops a full table whole and records the firing; never above the cap. |
| Throttles.ResetsArePaid | internal/handler/state.go:216-222 | resets * maxKeys + table size never exceeds the number of firings. |
| Throttles.FiringsAreSpaced | internal/handler/state.go:212-215 | Between resets two firings of a key are at least the interval apart, for times in any order. |
| Throttles.FiresExactly | internal/handler/state.go:212-225 | In any run, times in any order and the table dropped at any time, a request fires if and only if the last firing of its key that no reset has dropped is at least an interval ago; denied requests never count. |
| Throttles.FiringsPerInterval | internal/handler/state.go:212-225 | With fewer possible keys than the cap, each fires at most once in any half-open interval of event time. |
| Throttles.SmallAlphabetNeverResets | internal/handler/state.go:216-222 | With fewer possible keys than the cap the table is never dropped. |
| Throttles.FullTableForgets | internal/handler/state.go:212-225 | For every cap of at least two, exactly that many keys suffice for one to fire twice at the same time. |
| Throttles.SpacingExactly | internal/handler/state.go:188-225 | Every run over a set of keys, in any time order, keeps the firings of each key an interval apart if and only if the set is smaller than the cap or has at most one key. |
| DefaultRoute.NineBuckets | internal/handler/default.go:57-67 | Any collection whatever lands in one of at most nine buckets. |
| DefaultRoute.BucketMeaning | internal/handler/default.go:56-67 | A known collection is its own bucket, any other goes to the one namespace it lies in, and to "other" if and only if it lies in none. |
| DefaultRoute.Default.Handle | internal/handler/default.go:33-58 | A commit is unmapped and any other kind is not; only commits reach the throttle, and a line is logged exactly on a firing. |
| DefaultRoute.NineLinesPerMinute | internal/handler/default.go:28-54 | Over any events in any order, at most nine log lines in any half-open 60 s of event time, and the table is never reset. |
| DefaultRoute.OnlyCommitsAreThrottled | internal/handler/default.go:33-58 | The throttle sees each commit once, in order, under its bucket, and nothing of any other kind. |
| Shards.ConfigOf | internal/handler/shard.go:52-66 | One positive limit caps all three structures; otherwise each has its own default, 10000, 10000 and 50000. |
| Shards.Shard.Observe | internal/handler/shard.go:83-115 | Dedup, count, sweep every 2048 accepted events, threshold and throttle compose to `ObserveStep`; a duplicate changes nothing. |
| Shards.ShardSet.constructor | internal/handler/shard.go:52-66 | At least one shard, all empty, no structure shared. |
| Shards.ShardSet.Observe | internal/handler/shard.go:68-115 | Exactly the shard of the key changes, and as one `ObserveStep`. |
| Partition.ShardIsRemainder | internal/handler/shard.go:68-75 | The shard of a key is the remainder of its hash, so each shard is used. |
| Partition.SameShardExactly | internal/handler/shard.go:68-75 | Two keys share a shard if and only if their hashes differ by a multiple of the number of shards. |
| Partition.OneSlotPerShardSuffices | internal/handler/shard.go:28-75 | If no two subjects share a residue, any number of them in order gets the verdicts of the complete log from shards whose windows have room for one key. |
| Refinement.AllowIsQuiet | internal/handler/shard.go:105-114 | Below its cap the throttle answers from the last alert of the subject in the log. |
| Refinement.ObserveRefinesLog | internal/handler/shard.go:83-115 | One observation returns the log's verdict and the shard still stands for the longer log. |
| Sharding.VerdictIsLocal | internal/handler/shard.go:68-75 | The verdict from the part of the log of one shard is the verdict from the whole log. |
| Sharding.ShardsRefineLog | internal/handler/shard.go:52-115 | Every verdict of n bounded shards equals the one recomputed from the complete log, when each shard's events are in order, each shard's caps fit its own part, and equal dedup keys share a shard. |
| Sharding.ShardCountIsInvisible | internal/handler/shard.go:52-115 | If each dedup key has one subject and the working set fits one shard, any two hashes and shard counts give the same answer to every event. |
| Sharding.OneShardRefinesLog | internal/handler/shard.go:68-71 | For a single shard the assumption on dedup keys is not needed. |
| Sweeping.SweepPaceIsInvisible | internal/handler/shard.go:95-102 | A set of shards gives the same verdicts under its own sweep counter and under any other pace, never sweeping included, also while the caps force evictions. Order is asked per shard only. |
| Sweeping.PaceIsInvisible | internal/handler/shard.go:95-102 | The same for any two paces, and at the end the window of a swept shard is a prefix of that of the shard never swept, the rest being out of the window; filters and tables are equal. |
| Interleaving.BurstInAnyOrder | internal/handler/shard.go:83-115 | A subject's events spanning less than a window, in any lock order and with any other subjects' events in between: its counts run 1 to N with none lost, and exactly the one reaching the threshold alerts. |
| Interleaving.InterleavingsAgree | internal/handler/shard.go:77-86 | In any two permutations of all events the subject has the same total and raises one alert if N reaches the threshold, none otherwise. |
| Replay.ReplayIsNoOp | internal/handler/shard.go:88-91 | Observing again an event still remembered leaves the shard unchanged and raises no alert. |
| Replay.RecentIsRemembered | internal/handler/state.go:152-175 | While the caps of its shard suffice, an accepted event is remembered for a dedup window, however often its key occurs. |
| Replay.ReplaysAreAbsorbed | internal/handler/shard.go:83-115 | An in-order stream with any number of replays in between ends in the same shards and the same alert sequence as the stream alone. |
| Retention.RetentionIsBounded | internal/handler/shard.go:95-102 | After any in-order run a shard holds at most its cap, at most the keys left by the last sweep plus the events accepted since, and no key already out of the window at that sweep. |
| Retention.SweepsOnSchedule | internal/handler/shard.go:95-102 | In any run the sweep counter is the number of accepted events modulo 2048. |
| Events.Decode | internal/event/event.go:86-117 | A decoded event has a kind, and a collection and an operation exactly when it is a commit. |
| Events.DecodeRoundTrip | internal/event/event.go:68-117 | Every proper event decodes from its frame; only proper events are decoded, and they keep all the frame says of them. |
| Events.DedupKeyRoundTrip | internal/event/event.go:64-66 | DID, collection, record key and operation read back from the key when the first three contain no bar. |
| Events.DedupKeyIdentifiesRecord | internal/event/event.go:59-66 | Two bar-free events share a key if and only if they are the same operation on the same record. |
| Events.SameKeySameRecordExactly | internal/event/event.go:64-66 | In general, events with equal keys are the same operation on the same record if and only if DID, collection and record key have equal numbers of bars. |
| Events.BarsCollide | internal/event/event.go:64-66 | With a bar inside a field, two records can share a key. |
| Cursors.Cursor.Load | internal/jetstream/cursor.go:48-61 | A parsing file sets both positions; a missing or unreadable one leaves them and yields 0. |
| Cursors.Cursor.Advance | internal/jetstream/cursor.go:67-80 | Whatever other goroutines install between load and swap, the position ends as the maximum; a non-positive time does nothing. |
| Cursors.Cursor.Commit | internal/jetstream/cursor.go:90-114 | Nothing to do, an error that changes no committed state, or the file and the committed position become the latest one. |
| Cursors.CommitThenLoad | internal/jetstream/cursor.go:48-114 | A restart after a successful commit loads the committed position. |
| AdvanceRace.AdvancesLinearizeToMaximum | internal/jetstream/cursor.go:67-80 | Under any interleaving the position never goes back, covers every finished call and belongs to one; when all are done it is the maximum of the start and the positive arguments. |
| AdvanceRace.RetriesAreBounded | internal/jetstream/cursor.go:71-79 | Among n concurrent calls each retries fewer than n times and takes at most 2n steps, under any schedule. |
| CommitCrash.FileIsAlwaysSound | internal/jetstream/cursor.go:87-114 | With any number of committers whose commits do not overlap, errors at any step and crashes at any moment, the file is absent or holds a complete position the cursor had, not beyond the current one. |
| CommitCrash.FileNeverGoesBack | internal/jetstream/cursor.go:87-114 | In such runs the position in the file never decreases, not even across crashes. |
| CommitCrash.CommittedIsOnFile | internal/jetstream/cursor.go:90-114 | In such runs, while nobody commits, the committed position is what a restart would load; a committer at work always writes a position beyond it. |
| CommitCrash.RetryAfterError | internal/jetstream/cursor.go:90-114 | In such runs, after an error at any step the same committer can begin again, and undisturbed it leaves the current position in the file and recorded. |
| CommitCrash.TwoCommittersCanTear | cmd/router/main.go:82-88 | Whenever there are at least two committers, overlapping commits can leave a torn file, and the restart then starts from live. |
| CommitCrash.SafeUnattendedExactly | internal/jetstream/cursor.go:99-110 | No run tears the file if and only if there is at most one committer. |
| Stream.ResumeIsFloor | internal/jetstream/ingest.go:151-166 | The resume cursor is the rewound instant floored to microseconds. |
| Stream.LapsedExactly | internal/jetstream/ingest.go:150-165 | A lapse is found exactly when the rewound position is older than the window, unless the window is the largest duration. |
| Stream.SubscribesExactly | internal/jetstream/ingest.go:150-166 | Without a position the tip is asked for; otherwise, unless lapsed, the last microsecond not after the rewound instant. |
| Stream.RewindCoversDisorder | internal/jetstream/ingest.go:70-74 | With disorder at most the rewind, nothing beyond the covered part is older than the resume cursor. |
| Stream.NoSilentGap | internal/jetstream/ingest.go:150-166 | Over any connections, lapses and restarts, with or without loading the position, every wanted frame from the first dispatched to beyond the cursor is dispatched, except in holes, which are no more than the counted lapses and the starts without a position. |
| Stream.LostExactly | internal/jetstream/ingest.go:150-166 | Over any such run whose rewinds do not reach back before the stretch they prolong, a wanted frame after the first dispatched one is missing if and only if it lies in a hole. |
| Stream.RestartLosesExactly | cmd/router/main.go:64-73 | After a run without lapses, a process that does not load misses nothing up to where it gets if and only if nothing wanted was sent between the two processes; no gap is counted either way. |
| Stream.RestartWithoutLoadIsASilentGap | cmd/router/main.go:64-73 | Such a loss does happen, with zero disorder. |
| Reconnect.ReconnectsAreIdempotent | internal/jetstream/ingest.go:150-166 | An in-order log read over any cut and rewound connections leaves the same shards and the same alert sequence as if read once, when nothing lapses, no rewind reaches back before the first dispatched frame and no redelivered key had been evicted. Keys may repeat, the rewind may be of any length. |
| Reconnect.EnoughRoomIsIdempotent | internal/jetstream/ingest.go:150-166 | No redelivered key has been evicted if the rewind is no longer than the dedup window, no key recurs within one, and each shard's caps fit its part of the stream; so the outcome is the same. |
| EarlyReconnect.GuardedReconnectsAreIdempotent | internal/jetstream/ingest.go:150-167 | The same outcome for every run whose process checks, before each connection, that the resume cursor is later than its first dispatched frame, or that this frame was the first ever. |
| EarlyReconnect.StaysInsideExactly | internal/jetstream/ingest.go:150-167 | In all pasts that look the same to the process, no rewind reaches back, if and only if that check succeeds. |
| EarlyReconnect.ReconnectIsSafeExactly | internal/jetstream/ingest.go:150-167 | For a process that has dispatched something in order, the next resumed connection leaves shards and alerts as the uninterrupted stream would, for every past and every observer that had evicted no redelivered key, if and only if that check succeeds. |
| EarlyReconnect.UnguardedChangesOutcome | internal/jetstream/ingest.go:150-167 | When the check fails, there are a past and an observer whose shards or alerts come out different. |
| EarlyReconnect.EarlyReconnectReachesBack | internal/jetstream/ingest.go:150-167 | An early reconnect dispatches a frame the uninterrupted connection never would. |
| EarlyReconnect.EarlyReconnectAlerts | internal/jetstream/ingest.go:150-167 | With threshold 2 and one subject, that run raises an alert that the uninterrupted stream does not, whatever the windows, caps and shards. |
| Lifecycle.Ingestor.SetState | internal/jetstream/ingest.go:123-136 | The states entered form a walk of the documented state machine; setting the same state adds nothing. |
| Lifecycle.Ingestor.SubscribeURL | internal/jetstream/ingest.go:140-171 | The cursor parameter of `Subscribe`, and the gap counter moves exactly on a lapse. |
| Lifecycle.Ingestor.ReadFrames | internal/jetstream/ingest.go:259-298 | Dispatches exactly the well-formed frames in order; each frame is dispatched or counted malformed; the cursor is the maximum; Live once reached is kept, and reached exactly on a small lag after a good frame. |
| Lifecycle.Ingestor.ConnectAndRead | internal/jetstream/ingest.go:226-299 | A failed dial moves nothing. Without a position exactly Live is entered; with one Replaying, then Live if and only if some well-formed frame is read with lag at most LiveThreshold. `connected` is down again at the end. |
| Lifecycle.Ingestor.BackOff | internal/jetstream/ingest.go:191-215 | The delay is what the jitter chooses, any value in [0, min(2^min(attempt,6) s, BackoffMax)], or the draw panics exactly when BackoffMax is negative; readiness is withdrawn. |
| Lifecycle.Ingestor.Run | internal/jetstream/ingest.go:174-224 | Over whole runs: one backoff per iteration until the context is cancelled; each attempt is the number of failures since and including the last connection held longer than a minute, or all; a panic exactly when BackoffMax is negative and the first read is not cancelled; position, dispatches, malformed frames, lapses and states entered are those of the iterations begun, one after the other. |
| Lifecycle.IterationStates | internal/jetstream/ingest.go:177-257 | In every iteration of a run the states entered are: Connecting the first time and Reconnecting after; after a successful dial Live at once without a position, Replaying with one and then Live exactly on a good frame with small lag; then Disconnected. |
| Lifecycle.CapDoubles | internal/jetstream/ingest.go:209-212 | The longest delay is two seconds at first and doubles up to the sixth failure, within BackoffMax. |
| Lifecycle.RunFollowsStream | internal/jetstream/ingest.go:140-299 | When each successful dial reads what the server sends for its subscription, with malformed frames anywhere in between, the position, the dispatches and the lapses the run ends with are those of the stream model. |
| Lifecycle.StreakStep | internal/jetstream/ingest.go:197-201 | The loop's reset-and-increment computes that number. |
| Lifecycle.ReadIsConsume | internal/jetstream/ingest.go:277-289 | The read loop dispatches and advances as the stream model assumes. |
| Lifecycle.MalformedAreInvisible | internal/jetstream/ingest.go:278-284 | Malformed frames in between change neither the dispatches nor the position. |
| Readiness.ReadyWhileDownExactly | internal/jetstream/ingest.go:203-204 | In every interleaving, connected implies Replaying or Live. While down at most one write of readiness has come since the disconnect notice, and ready holds if and only if the notice caught a refresh between check and write and it has since written "ready". |
| Readiness.ReadyIsLastReport | internal/jetstream/ingest.go:313-328 | In every interleaving and at every moment, ready is what the last report said: connected, disconnected, or the finding of a refresh that had found the connection up; the announced state is the last one entered. |
| Readiness.ReadyWhileReadingExactly | internal/jetstream/ingest.go:313-328 | While the connection is being read: ready, unless the last refresh since "connected" found the lag above MaxLag. |
| Readiness.NobodyWaits | internal/jetstream/ingest.go:302-328 | In every reachable state the read loop can take a step, and a refresh can be finished, which during a connection makes readiness what it finds. |
| Readiness.AttemptsAreReported | internal/jetstream/ingest.go:174-258 | Each attempt but the one going on is followed by exactly one "disconnected", each connection by one "connected" and one end. |
| Readiness.NeverReadyWhileDown | internal/jetstream/ingest.go:313-328 | If each refresh checks and sets in one step, never ready from the disconnect notice to the next successful dial; with `ReadyIsLastReport`, readiness is then known at every moment. |
| Readiness.RefreshRacesWithDisconnect | internal/jetstream/ingest.go:320-327 | As two steps, it can be ready while waiting to redial. |
| Retry.Process | internal/route/route.go:266-330 | At most MaxAttempts calls, all but the last transient and uncut; no call after a success, a permanent error or a panic; the fate, delays and panic count follow from the last call; at most 5 s * (MaxAttempts - 1) asleep. |
| Retry.BackoffsGrowExactly | internal/route/route.go:297-300 | The delays are non-negative and non-decreasing if and only if there are at most two attempts or the largest product fits int64. |
| Retry.BackoffInRange | internal/route/route.go:297-300 | Within range each delay is the doubled base, capped at five seconds. |
| Retry.DelaysDouble | internal/route/route.go:297-300 | The first delay slept is the base and each further one doubles it, up to five seconds, as long as the product fits. |
| Retry.DefaultBaseCollapses | internal/route/route.go:297-300 | With the default base the 38th delay is negative. |
| Retry.TotalSleep | internal/route/route.go:297-305 | The time asleep over k failed calls, where a negative delay counts as none, is at most 5 s * k, even with overflow. |
| Routes.WithDefaults | internal/route/route.go:128-148 | Set fields are kept; every route runs with at least one slot, one worker and one attempt, and with a timeout. |
| Routes.Channel.Offer | internal/route/route.go:209-242 | One offer is one step of the route: accepted exactly when it entered the queue, shed only when full (or timed out), refused only at shutdown. |
| Routes.Channel.Receive | internal/route/route.go:256-262 | A worker takes the oldest event and starts its first attempt. |
| Routes.StepInv | internal/route/route.go:209-308 | Every step keeps: each event offered is in exactly one place, queue and pool within bounds, order kept. |
| Routes.RouteConserves | internal/route/route.go:209-308 | In every reachable state offers = queued + in flight + ok + permanent + exhausted + cancelled + dropped + refused, as collections with each event once; queued <= Buffer and in flight <= Workers. |
| Fates.FateIsEarned | internal/route/route.go:266-308 | In every run of the pool each event gets at most MaxAttempts calls and none after a success, permanent error or panic; it is ok, permanent or exhausted if and only if its calls ended so; cancelled, dropped and refused events had fewer calls or none. |
| Fates.CancelledOnlyAtShutdown | internal/route/route.go:222-305 | Cancelled and refused events are exactly the cuts and refusals of the run, and the shutdown came before each of them. |
| Fates.LossesExactly | internal/route/route.go:222-305 | Some run refuses an event if and only if the policy is block; some run cuts one if and only if there are at least two attempts. |
| Fates.ProcessIsRun | internal/route/route.go:256-308 | Whatever calls lead `Process` to a fate, a worker of the pool that has taken an event can be driven by exactly these calls and then has recorded that fate and nothing else. |
| Routes.RouteIsFifo | internal/route/route.go:256-262 | What workers took is, in order, a prefix of what was accepted; the queue is the rest. |
| Routes.DrainLeavesNothing | internal/route/route.go:337-349 | A completed drain leaves no queue and nothing in flight, and every accepted event in a final class. |
| Routes.ClosedForGood | internal/route/route.go:337-338 | A channel is closed at most once, and nothing is offered to it afterwards. |
| Draining.ClosedRouteDrains | internal/route/route.go:256-349 | Whatever its handlers return, the workers of a closed route take at most 2 * MaxAttempts * Buffer + (2 * MaxAttempts + 1) * Workers steps, and one of them can go on, shutdown or not, exactly until all have returned. |
| Isolation.DropOfferIsOneStep | internal/route/route.go:198-241 | In every reachable state an offer in progress to an open drop-policy route has taken no time, lets none pass, and has exactly one way to end, which frees the reader and touches no other route. |
| Isolation.OfferEndsInTime | internal/route/route.go:212-231 | In every reachable state an offer is within its deadline, time passes only while no answer is possible and never beyond the deadline, and at the deadline an answer is possible. |
| Isolation.AnswersExactly | internal/route/route.go:212-241 | An offer in progress may have each answer whose case is ready, whether or not another is: accepted with room, shed at the deadline or, with the drop policy, without room, refused at shutdown with the block policy. |
| Isolation.TimePassesExactly | internal/route/route.go:212-241 | In every reachable state the clock may advance freely between offers, and in an offer up to its deadline while a block-policy route is full and not stopping. |
| Isolation.WorkerLetsOfferIn | internal/route/route.go:219-262 | Workers go on while the reader is held: one that takes an event from the full queue lets the offer in. |
| Isolation.ReaderStallIsBounded | internal/route/route.go:212-231 | Over any run the reader's time inside offers is at most BlockTimeout times the number of block-policy offers, and 0 when every route drops. |
| Isolation.FullBlockRouteStalls | internal/route/route.go:38-47 | An offer to a full block-policy route can hold the reader for its whole BlockTimeout. |
| Isolation.HeldReaderOffersNothing | internal/route/route.go:43-47 | Until the offer in progress ends, no route is offered anything. |
| Isolation.RouteFollowsOwnSteps | internal/route/route.go:198-204 | In any run of reader, clock and all routes, a route ends where its own offers and worker steps alone take it. |
| Isolation.RoutesAreIndependent | internal/route/route.go:198-204 | When every route drops, the one reader can serve a stream of events, in no time, exactly when each route can serve its own part alone. |
| Isolation.OthersDoNotInterfere | internal/route/route.go:198-242 | Two runs that agree on one route's offers and worker steps leave it with the same queue, counters and answers, whatever the others do; under the block policy they have to agree on the answers too. |
| Isolation.CutsFollowSignal | internal/route/route.go:222-305 | A route is stopping exactly when the signal has come; no backoff is cut and no offer given up before, and without it no route has a cancelled or refused event. |
| Shutdown.NothingEndsBeforeSignal | cmd/router/main.go:64-86 | Before the signal no event is refused or cut, no worker leaves, the reader does not return, and nothing is drained or committed. |
| Shutdown.LossesFollowSignal | cmd/router/main.go:64-86 | A run with a refused or cancelled event, a closed channel or the final commit has had the signal. |
| Shutdown.OffersUntilReturn | cmd/router/main.go:69-76 | In every reachable state an offer to a route is possible if and only if the reader runs, signal or not. |
| Shutdown.EachOnceInOrder | cmd/router/main.go:69-82 | The reader returns at most once, each route is drained at most once and only after that, and the one commit comes after every drain. |
| Shutdown.SignalReachesAll | cmd/router/main.go:55-71 | The process and each of its routes are stopping exactly when the signal has come. |
| Shutdown.OneDrainAtATime | cmd/router/main.go:77-79 | Every drain but the one going on has ended before the next begins. |
| Shutdown.DrainCanComplete | internal/route/route.go:337-349 | From every state in which a route is being drained, steps of its workers alone can complete the drain. |
| Shutdown.CommitStaysReachable | cmd/router/main.go:72-88 | From every state before the commit, however badly the routes behave, the commit can be reached in two steps per route and at most four more. |
| Shutdown.ShutdownIsOrderly | cmd/router/main.go:72-88 | In every interleaving nothing is sent on or closes a closed queue; a drain that completed left its route complete; at the commit the reader is gone and every queue closed. |
| Routing.Router.New | internal/routing/routing.go:58-80 | Succeeds exactly on a table with a fallback whose rules all have a route and a good glob; otherwise names the first bad rule. |
| Routing.Router.Route | internal/routing/routing.go:99-132 | The answer satisfies the documented precedence on the table as configured. |
| Routing.SplitMeetsPrecedence | internal/routing/routing.go:82-111 | The first match among rules that pin an operation, else among the others, else the fallback, however the two classes were mixed in the table. |
| Routing.AnswerIsUnique | internal/routing/routing.go:82-98 | The precedence leaves no choice. |
| Routing.AnswerByFields | internal/routing/routing.go:82-132 | In terms of the fields of rules and key: the answer is the route of the one rule that contradicts the key nowhere while every rule before it, operation rules first, does somewhere, and the fallback if and only if all do. |
| Routing.RouteByFields | internal/routing/routing.go:99-132 | The split router gives that answer for every table and key; so some rule decides whenever one contradicts the key nowhere. |
| Routing.OperationsAreKept | internal/routing/routing.go:113-118 | A route that only rules for other operations lead to is never the answer but as the fallback, so a create never goes where only deletes do. |
| Routing.OperationComesFirst | internal/routing/routing.go:84-98 | A rule for one operation alone decides for every key of that operation, wherever it is listed, unless another rule for that operation comes before it. |
| Routing.Router.Routes | internal/routing/routing.go:136-153 | Each non-empty route name of the table exactly once. |
| Routing.AnswersAreListed | internal/routing/routing.go:99-153 | Every answer is one of the listed names. |
| Dispatch.Validate | internal/config/config.go:191-202 | Passes if and only if every listed route has a configuration block; otherwise names one that has not. |
| Dispatch.BuildRoutes | cmd/router/main.go:99-131 | Exactly the listed routes, each new, open, separate and configured as its block says, or an error exactly when one has no handler. |
| Dispatch.DispatchEvent | cmd/router/main.go:167-185 | Changes only the channel of the answered route, by one offer; the unknown-route branch is taken exactly when it is missing. |
| Dispatch.DispatchIsTotal | cmd/router/main.go:170-175 | With the routes built for the table, every key has a route. |

## Left out

- Websocket, TLS, HTTP health endpoints, Prometheus and slog: external libraries. Counters are kept where a law needs them.
- JSON: frames and cursor files start parsed; a broken one is a value of its own.
- `path.Match` and the FNV hash: arbitrary functions. Conversion of the hash to `int` assumes 64 bits.
- `url.Parse` failure in `subscribeURL`, `WantedCollections`, `Collections`, `MaxFrameBytes`: no state involved. The idle
  timeout is one of the ways a connection can end.
- The content, retraction, engagement and social-graph handlers: thin wrappers around `observe`; their subject is a function
  of the event. `Thresholds` and `MaxKeysPerShard` validation and configuration loading: plumbing.
- `onEvict` callbacks and gauges: no effect on the state.
- Clocks and scheduling: times, jitter, lag and holding time are inputs, and nothing is said about fairness. In `Isolation` a
  select with a ready case goes on at once and a timer fires when due; the scheduler's own delays are not modelled.
- `time.Duration` overflow in `subscribeURL` is modelled only as the saturation of `time.Since`.
- CommitCrash: a crash is the end of the process on a file system that keeps what was written and renamed. The program
  never syncs, so a power loss soon after the rename may leave a shorter file; that is not modelled.
- Server retention: a server given a cursor is assumed to send every frame it holds from that time on.
- Theorems over runs assume event times and window lengths that are not negative; the classes take any int64.
- Reconnect.ReconnectsAreIdempotent: takes a single consumer in stream order with nothing shed, because reordering between workers is the subject of `BoundedSkew` and shedding of `RouteConserves`.
- Refinement.ObserveRefinesLog: needs fewer alerting subjects than the throttle cap over the whole run, because the table is never swept; `Throttles.SpacingExactly` says what else would do.
- Memory per key: the number of stamps of one key is bounded by no cap of the program, so no such bound is stated.
