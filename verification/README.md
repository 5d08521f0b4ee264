# Verification of the log-ingestion service

This project models the parts of the service that keep state or do real arithmetic, and proves
what they keep over whole runs. `dafny verify dfyconfig.toml` checks all of it.

| files | what they model |
|---|---|
| `Basics.dfy` | what the others share |
| `IngestLimiter.dfy`, `AdmissionLaw.dfy` | the token bucket of the anonymous error endpoint, its sweep, `Retry-After`; what it admits, told from the calls alone |
| `Utf8Cut.dfy` | UTF-8 (sections 3 and 4 of RFC 3629), Go's decoder, and the byte cut of long texts |
| `RejectCap.dfy`, `RejectLaws.dfy` | the hourly cap on stored rejects, with its two clock readings; how much of each batch and record is kept |
| `OneTimeStore.dfy` | the single-use token maps, their sweep, and stream tickets |
| `SsoFlow.dfy`, `SsoLaws.dfy` | login, callback and code exchange over two such maps; when a login succeeds |
| `Paging.dfy` | keyset pages, the export loop, and the per-project fan-out |
| `Timeseries.dfy`, `TimeseriesLaws.dfy` | the bucket grid, the fold into it, and the logs a window counts, scanned or from the hourly rollup; which requests are served |
| `Hub.dfy`, `HubOrder.dfy`, `HubLoss.dfy`, `HubRooms.dfy` | the live-tail hub: its parts as objects, its interleavings as a step machine, the order of frames, their loss, and who is in a room |
| `Suppression.dfy`, `AlertBus.dfy`, `AlertRuns.dfy`, `AlertBatches.dfy`, `AlertOverlap.dfy`, `AlertLaws.dfy` | alert rules, raising, suppression, every run of them, raises that overlap, and who is paged when |
| `Text.dfy`, `FrameLine.dfy`, `StackFrames.dfy` | the frame expression as a matcher, parsing and writing frames |
| `Resolution.dfy`, `SourceMapCache.dfy`, `SharedMapCache.dfy`, `ArtifactLaws.dfy`, `Fingerprint.dfy`, `FingerprintLaws.dfy` | resolving stacks, the cache of maps alone and shared, which map is found, what a fingerprint depends on |
| `Grouping.dfy`, `GroupingRuns.dfy`, `GroupingFailures.dfy`, `GroupingLaws.dfy` | the grouping worker, every run of it, what failures cost, where an event ends up and when it is queued again |

Objects that the source updates in place are classes here, and each method's `ensures` ties the new
state to a function of the old one. The theorems over runs are lemmas about that function. SQL
statements are functions on sequences of rows, taken from the store packages; a row's position is its
id. A call that may fail has its outcome as an argument, so every theorem over runs covers every
pattern of failures.

The modules whose names end in `Law` or `Laws`, and `HubRooms`, say what the operations mean without
the functions that compute them: in terms of the rule and the rows, the positions of frames in a stack,
the requests of a run or the calls of an address. Invariants and bounds say what an operation may do;
the laws say what it must.

Reading order for a first visit: `AlertLaws.PagesIff`, `SsoLaws.LoginSucceedsIff`, `AdmissionLaw.AdmittedIff`,
`HubRooms.InTheRoomIff`, `FingerprintLaws.FirstFiveDecideIff`, `GroupingLaws.WhereAnEventEndsUp`, `AlertRuns.DeliveryRate`, `AlertOverlap.PaceIff`, `FrameLine.FindIsLeftmostFirst`,
`StackFrames.RoundTrip`, `Resolution.ParsingCommutes`, `Fingerprint.StableAcrossReleases`,
`SourceMapCache.ExactIffNeverMixed`, `GroupingRuns.EveryRunKeepsInv`, `GroupingRuns.QueueDrains`,
`GroupingFailures.OpenedIff`, `Hub.EveryInterleavingIsSafe`, `HubOrder.OrderIff`, `IngestLimiter.RateBound`, `SsoFlow.ExchangeTracesBack`,
`Paging.WriteExport`, `Timeseries.CountsEveryLogIff`.

## Where the code and its comments disagree

The model follows the code. Each point is a lemma that says exactly when the promise holds.

- A row whose bucket is off the grid is said to lie only on the exclusive upper bound. A window that
  ends a fraction of a second into a bucket's first second loses real logs, and for intervals of an hour
  or more every window that does not start and end on whole hours miscounts: `Timeseries.CountsEveryLogIff`,
  `Timeseries.PartialHoursAreMiscounted`.
- Cutting a text twice can append a second marker: `Utf8Cut.TruncateTwice`.
- A subscriber of the hub can get broadcasts out of order as soon as two of them are pending for it and
  it can take both: `HubOrder.OrderIff`, `HubOrder.OverlapIsReachable`.
- Raises that overlap can deliver within one dedup window, and a raise that read its event before an
  acknowledgement delivers after it: `AlertOverlap.PaceIff`, `AlertOverlap.OverlapBreaksPace`,
  `AlertOverlap.AcknowledgedIsQuietIff`.
- An alert whose connection is disabled is marked as notified although nobody was told, so the next
  firing is called a duplicate: `AlertBatches.MarksAreTruthfulIff`, `AlertBatches.DisabledConnectionSilences`.
- A threshold pass below the count closes only the alert of its own key; an event of the same rule from
  before it became a threshold rule stays open: `AlertBatches.BelowThresholdCloses`,
  `AlertBatches.EditedRuleStaysOpen`.
- A resolved frame is read back only when its source holds no position of its own: `StackFrames.RoundTrip`.
- A failed fetch is remembered as a miss, and keys can be ambiguous: `SourceMapCache.CacheAnswersIff`,
  `SourceMapCache.ExactIffNeverMixed`. An upload that overtakes a fetch of the same map leaves a stale
  miss: `SharedMapCache.StaysTruthfulIff`, `SharedMapCache.StaleMiss`.
- `TouchIssue` is said to report that an event revived a resolved issue; it also reports true for every
  later event of an issue that is still flagged: `GroupingFailures.ReopenedIff`,
  `GroupingFailures.RegressionRepeats`.
- An issue is announced as opened at most once, and never if the attempt that created it did not attach
  its event: `GroupingFailures.OpenedIff`, `GroupingFailures.NeverOpenedLater`.
- A failed detach is not made up for by the retry; the empty issue stays until retention:
  `GroupingFailures.FailedDetachIsForGood`.
- A claim is said to hide its rows from other workers; it does so only while the statement is running:
  `GroupingFailures.ClaimedAgainIff`.

## Model

| member | source | states |
|---|---|---|
| IngestLimiter.Limiter.Allow | app/domain/clienterrorapp/ingest.go:61-93 | sweeping, refilling and charging in place give the new map and the answer of `Allowed` on the old state |
| IngestLimiter.Limiter.SweepIdle | app/domain/clienterrorapp/ingest.go:65-72 | exactly the buckets idle for more than ten minutes are deleted |
| IngestLimiter.TokensStayInRange | app/domain/clienterrorapp/ingest.go:74-93 | after every run at non-decreasing times each bucket holds between 0 and 240 tokens |
| IngestLimiter.SweepIsInvisible | app/domain/clienterrorapp/ingest.go:31-36 | for every run, answers and waits are those of a limiter that never deletes a bucket |
| IngestLimiter.ChargePays | app/domain/clienterrorapp/ingest.go:74-93 | what a call admits plus what it leaves is at most the burst, and at most what was there plus two per second; other buckets are untouched |
| IngestLimiter.PlainBudget | app/domain/clienterrorapp/ingest.go:74-93 | over a run, a bucket pays for everything it admits out of what it held and what flowed in |
| IngestLimiter.RateBound | app/domain/clienterrorapp/ingest.go:28-37 | in any interval of any run, one address gets at most 240 events plus 2 per second |
| IngestLimiter.WaitCoversShortfall | app/domain/clienterrorapp/ingest.go:85-87 | the advertised whole seconds refill the shortfall despite truncation to a nanosecond and flooring to a second |
| IngestLimiter.RetryAfterIsHonoured | app/domain/clienterrorapp/ingest.go:128-135 | a refused batch retried after `Retry-After`, whatever other addresses do meanwhile, is admitted if and only if it is no larger than the burst |
| AdmissionLaw.AdmittedIff | app/domain/clienterrorapp/ingest.go:61-93 | after any run of a new limiter a call of n events is admitted if and only if n is at most 240 and, for each earlier call of its address, the events admitted for it from that call on, plus n, are at most 240 and two for each second since |
| AdmissionLaw.WaitIff | app/domain/clienterrorapp/ingest.go:85-87 | the seconds a refused caller is told are enough to refill what it asked for, and no wait that is shorter by more than a second would be |
| Words.BoundaryBelow | business/domain/clienterrorbus/scrub.go:67-88 | a position in a spelled sequence is a boundary or lies inside one of its words |
| Utf8.DecodeReadsOneChar | business/domain/clienterrorbus/scrub.go:73-80 | the decoder returns the size of the one well-formed character at the front, or an error exactly when there is none |
| Utf8.DecodeLastFindsTheEnd | business/domain/clienterrorbus/scrub.go:73-80 | decoding the last character fails exactly when the text does not stop after a complete character |
| Utf8.BrokenInside | business/domain/clienterrorbus/scrub.go:73-80 | no proper prefix that ends inside a character ends after a complete one |
| Utf8Cut.Truncate | business/domain/clienterrorbus/scrub.go:67-88 | the loop that shortens the cut returns the text itself, or the part up to the last complete character followed by the marker |
| Utf8Cut.CutFindsBoundary | business/domain/clienterrorbus/scrub.go:73-86 | in valid UTF-8 the cut stops at the start of the character that contains byte n |
| Utf8Cut.TruncateKeepsValidUtf8 | business/domain/clienterrorbus/scrub.go:67-88 | valid UTF-8 stays valid, is bounded by n + 14 bytes, loses at most three bytes below n, and keeps the longest valid prefix |
| Utf8Cut.TruncateRepairsOnlyTheTail | business/domain/rejectbus/rejectbus.go:214-231 | on arbitrary bytes the result is valid if and only if everything before the last complete character within n bytes was valid |
| Utf8Cut.TruncateTwice | business/domain/clienterrorbus/scrub.go:82-88 | cutting again changes nothing if and only if the limit does not fall after three bytes of a four-byte character |
| RejectCap.RejectBus.Store | business/domain/rejectbus/rejectbus.go:117-178 | a batch appends exactly the prefix that the hour of the first clock reading has room for, or nothing on either error |
| RejectCap.RejectBus.ToRows | business/domain/rejectbus/rejectbus.go:145-170 | one row per refusal, in order, with unknown kinds replaced and texts redacted before they are cut |
| RejectCap.StoreKeepsCap | business/domain/rejectbus/rejectbus.go:117-178 | a batch of one source keeps every source within the cap in every hour, also when the hour changes between the two readings |
| RejectCap.HourlyCapHolds | business/domain/rejectbus/rejectbus.go:107-115 | over every sequential run of single-source batches no source exceeds the cap in any hour |
| RejectCap.CapNeedsOneSource | business/domain/rejectbus/rejectbus.go:129-143 | a batch keeps the cap on every store within it if and only if the records that could be kept share one source |
| RejectLaws.BatchFillsTheHour | business/domain/rejectbus/rejectbus.go:122-178 | a batch adds one row for each record of a beginning of it, as long as what the hour of its source has left or the whole batch when that is shorter; each row has the source, index, instant and kind of its record, and its texts whole up to 500 and 4096 bytes |
| RejectLaws.HourHoldsWhatWasOffered | business/domain/rejectbus/rejectbus.go:122-178 | over every sequential run of single-source batches that work and stay within an hour, an hour holds of a source what it held and what was refused in it, or the cap when that is less |
| OneTimeStore.Store.Add | app/domain/ssoapp/state.go:51-86 | adding sweeps what has expired and stores the value until its deadline, and leaves the map alone without a token |
| OneTimeStore.Store.Consume | app/domain/ssoapp/state.go:88-104 | an entry is removed whether or not it has expired, and returned only if it has not |
| OneTimeStore.StoreEqualsHistory | app/domain/ssoapp/state.go:123-158 | after any run, a consume answers what the last operation on its token says, sweep or no sweep |
| OneTimeStore.TokenIsSingleUse | app/domain/ssoapp/state.go:88-104 | a token is redeemed for a value if and only if it was issued for it, is not older than its lifetime, and nothing mentioned it since |
| StreamTickets.TicketStore.Issue | app/domain/logapp/streamticket.go:55-77 | issuing sweeps what has expired and stores user and project for thirty seconds |
| StreamTickets.TicketStore.Consume | app/domain/logapp/streamticket.go:79-100 | consuming removes the ticket, then checks age and project |
| StreamTickets.TicketEqualsHistory | app/domain/logapp/streamticket.go:55-100 | a ticket yields its user if and only if it was issued for that project, never consumed before, matching or not, and is at most thirty seconds old |
| StreamTickets.RefusalNamesTheReason | app/domain/logapp/streamticket.go:79-100 | a ticket is refused as one for another project if and only if it would open that one, and as invalid if and only if it would open none |
| SsoFlow.SsoApp.StartLogin | app/domain/ssoapp/ssoapp.go:149-178 | a start stores a state with its organization for ten minutes, or nothing when there is no provider or the random source fails |
| SsoFlow.SsoApp.CompleteLogin | app/domain/ssoapp/ssoapp.go:180-241 | a callback consumes its state whatever follows, and hands out a code and stores its session exactly when all of it succeeds |
| SsoFlow.SsoApp.BeginCallback | app/domain/ssoapp/ssoapp.go:184-193 | the first locked section: the state is gone, and its login goes on to the provider only in time |
| SsoFlow.SsoApp.EndCallback | app/domain/ssoapp/ssoapp.go:222-241 | the second: a session is stored and its code returned exactly when the provider established a user and a code was minted |
| SsoFlow.SsoApp.ExchangeCode | app/domain/ssoapp/ssoapp.go:243-257 | an exchange consumes its code and returns the stored token |
| SsoFlow.ExchangeTracesBack | app/domain/ssoapp/ssoapp.go:180-257 | over every run, however callbacks overlap, each exchange has exactly one callback at most 60 seconds earlier, which has exactly one start at most ten minutes before it began, and the token names that start's organization |
| SsoFlow.TracingIsInjective | app/domain/ssoapp/state.go:88-158 | different exchanges come from different callbacks, and different callbacks from different starts |
| SsoLaws.CallbackGoesOnIff | app/domain/ssoapp/ssoapp.go:184-193 | in every fresh run a callback goes on to the provider with the organization, nonce and verifier of a start if and only if it is the first callback without an error on the state that start drew, within ten minutes of it |
| SsoLaws.UnderWayIff | app/domain/ssoapp/ssoapp.go:180-241 | a callback is under way with a login if and only if its beginning redeemed the start of that login and it has not ended since |
| SsoLaws.LoginSucceedsIff | app/domain/ssoapp/ssoapp.go:149-257 | in every fresh run at non-decreasing times an exchange answers the session token of a user in an organization if and only if an available start of it drew a state, the first callback without an error on that state began within ten minutes, its end established the user and minted the code, and this is the first exchange of the code since, within a minute |
| Paging.NextPage | business/domain/logbus/logbus.go:116-163 | a page at a cursor holds the next rows of the listing, and its own cursor stands right after them |
| Paging.RestAfterCursor | business/domain/logbus/stores/logdb/logdb.go:379-384 | the cursor of a row selects exactly the rows below it |
| Paging.WriteRows | app/domain/logapp/export.go:228-238 | rows are written until the cap or the first failing write |
| Paging.ExportPage | app/domain/logapp/export.go:220-260 | one turn writes the next rows and hands on a cursor only after a full page that fits under the cap |
| Paging.WriteExport | app/domain/logapp/export.go:206-260 | what is written is always a prefix of the listing, and without errors exactly its first maxRows rows; the number of fetches is known, exact multiples of the page size included |
| Paging.StreamExport | app/domain/logapp/export.go:109-203 | a bad cap and a failing first page are answered as errors; else at most as many rows are streamed as were asked for and may be, and all of those unless something fails |
| Paging.FanOutIsExact | business/domain/logbus/stores/logdb/logdb.go:186-212 | merging the newest rows of each project gives the page of one query over all of them |
| Paging.FanOutPagesTheListing | app/domain/logapp/orglogs.go:92-132 | so every page of an organization-wide read is a page of the listing of its projects |
| Timeseries.EmptyBuckets | business/domain/logbus/logbus.go:213-230 | the buckets are the grid, each with all four levels at zero, and the index finds each by its time |
| Timeseries.Fold | business/domain/logbus/logbus.go:232-242 | each bucket holds, for each level, the sum of the rows at its time |
| Timeseries.Timeseries | business/domain/logbus/logbus.go:200-243 | a request is refused as its validation says, fails when the store does, or is answered with the folded grid of the validated window |
| Timeseries.GridElements | business/domain/logbus/logbus.go:213-230 | the grid is consecutive multiples of the step, up to the first one that is not before the end |
| Timeseries.GridIsBounded | business/domain/logbus/analytics.go:114-132 | a validated request never gets more than MaxBuckets + 2 buckets |
| Timeseries.FoldConserves | business/domain/logbus/logbus.go:232-242 | for each level, the buckets add up to the rows on the grid |
| Timeseries.GridCoversWindow | business/domain/logbus/logbus.go:215-230 | every instant of the window has its bucket on the grid if and only if the window starts neither inside a bucket before the epoch nor ends in the first second of a bucket |
| Timeseries.NoLogIsLost | business/domain/logbus/stores/logdb/analytics.go:29-86 | in a window that is exact for its interval the buckets of a level add up to the logs of that level, whether they are scanned or summed from whole hours |
| Timeseries.OffGridIsLost | business/domain/logbus/logbus.go:232-238 | a log of the window whose bucket is off the grid is in no bucket |
| Timeseries.CountsEveryLogIff | business/domain/logbus/stores/logdb/analytics.go:29-86 | a series counts exactly the logs of its window, for all logs, if and only if its grid starts at the data's first bucket and, for a scan, it does not end in the first second of a bucket, or, for the rollup, both ends are whole hours |
| Timeseries.CountedIsWindowIff | business/domain/logbus/stores/logdb/analytics.go:43-60 | the instants that end up in a bucket are those of the window if and only if the window is exact for its interval |
| Timeseries.SeriesCounts | business/domain/logbus/logbus.go:232-242 | the buckets of a level add up to the logs of that level that the statement selects and the grid holds |
| Timeseries.PartialHoursAreMiscounted | business/domain/logbus/stores/logdb/analytics.go:46-53 | 10:30 to 12:30 by the hour loses a log from 10:45 and counts one from 12:45 |
| Timeseries.RollupIsExactOnWholeHours | business/domain/logbus/stores/logdb/analytics.go:46-53 | selecting hourly rows by their start is selecting the window if and only if both ends are whole hours |
| TimeseriesLaws.NameIsWidth | business/domain/logbus/analytics.go:59-79 | a bucket is as wide as the name of its interval says: so many minutes, hours or days; six names are known |
| TimeseriesLaws.ServedIff | business/domain/logbus/analytics.go:114-132 | a request is served if and only if its window is not empty, holds fewer than 1501 whole buckets and, for buckets under an hour, is no wider than two hours; otherwise the first of these that fails is named |
| Hub.ConnState.Enqueue | app/domain/logapp/hub.go:81-89 | a frame is queued, or dropped when the queue of 32 is full or the connection is done; it never waits |
| Hub.ConnState.WriterTurn | app/domain/logapp/hub.go:59-75 | a turn of the writer moves the oldest queued frame out, and loses it when the write fails |
| Hub.ConnState.Stop | app/domain/logapp/hub.go:77-79 | done is closed once however often stop is called |
| Hub.RoomTable.Subscribe | app/domain/logapp/hub.go:105-113 | a connection joins its project's room and no other room changes |
| Hub.RoomTable.Unsubscribe | app/domain/logapp/hub.go:115-130 | a connection leaves, an empty room is deleted, and no other room changes |
| Hub.RoomTable.Snapshot | app/domain/logapp/hub.go:138-148 | a broadcast reads exactly the subscribers of its project's room |
| Hub.GroupByProject | app/domain/logapp/hub.go:24-35 | each project gets exactly its own logs, in order |
| Hub.EveryInterleavingIsSafe | app/domain/logapp/hub.go:37-159 | in every interleaving: queues hold at most 32, done closes at most once, no empty room is kept, frames come only from broadcasts to the own project, and none is given twice |
| Hub.BroadcastFinishes | app/domain/logapp/hub.go:132-159 | from every reachable state a broadcast can finish without any other party moving |
| HubOrder.SerialBroadcastsArriveInOrder | app/domain/logapp/hub.go:132-159 | when no broadcast that reaches a subscriber begins while another is pending for it, what it has is a subsequence of the broadcasts in order |
| HubOrder.OverlapCanReorder | app/domain/logapp/hub.go:132-159 | when two broadcasts are pending for a subscriber with room for both, or with a writer that can make it, the later one can arrive first |
| HubOrder.OrderIff | app/domain/logapp/hub.go:59-159 | from any state in which a subscriber has its frames in order they stay so, short of a new broadcast, if and only if none is late for a subscriber that can take a frame and no two are pending for one that can take two |
| HubOrder.OverlapIsReachable | app/domain/logapp/hub.go:132-159 | one subscriber and two broadcasts are enough: the second arrives first |
| Hub.NothingAfterLeaving | app/domain/logapp/hub.go:115-130 | a subscriber that left gets only frames of broadcasts that had already taken their snapshot |
| HubLoss.NothingLostIff | app/domain/logapp/hub.go:59-159 | in every run a subscriber has every finished broadcast whose snapshot found it, exactly once, if and only if no offer to it was dropped and no write to it failed |
| HubLoss.KeepingUpLosesNothing | app/domain/logapp/hub.go:59-89 | so does one whose queue is never full, that is never stopped and whose writes succeed |
| HubRooms.OnlyOnePairMoves | app/domain/logapp/hub.go:105-130 | a subscribe puts its connection into its room with a new connState and an unsubscribe takes it out; every other pair of project and connection is present after if and only if it was before, with the same connState |
| HubRooms.InTheRoomIff | app/domain/logapp/hub.go:105-130 | after every run a connection is in a room with a connState if and only if the last thing it did there was the subscribe that made it |
| HubRooms.SnapshotFindsIff | app/domain/logapp/hub.go:138-148 | a snapshot of a project finds exactly the subscribers whose own subscribe was the last thing their connection did there |
| HubRooms.WhoeverStaysMissesNothing | app/domain/logapp/hub.go:132-159 | a subscriber that neither leaves nor subscribes again before a snapshot of its project is among those the broadcast is for, and has it, or is still to be offered it, in every run in which nothing offered to it is dropped and no write to it fails |
| HubRooms.FrameCarriesItsLogs | app/domain/logapp/hub.go:24-35 | a frame carries exactly the logs of its project, each once, in the order of the batch |
| Suppression.WindowIsPositive | business/domain/integrationbus/model.go:111-118 | the window in force is always positive, is what the rule says when that fits a duration, and five minutes when it says nothing |
| Suppression.DeliveredAfterWindow | business/domain/integrationbus/suppress.go:133-154 | a delivery for an event that was notified before is of a firing event and at least a whole window later |
| Suppression.PreselectionIsInvisible | business/domain/integrationbus/stores/integrationdb/alertevents.go:383-406 | loading only the maintenance windows that cover the instant decides as loading all of them would |
| AlertBus.Alerting.RaiseAlert | business/domain/integrationbus/integrationbus.go:459-519 | record, decide on the state before the recording, send, mark: the new tables and the result are those of `Raise`, for every failure |
| AlertBus.Alerting.Match | business/domain/integrationbus/integrationbus.go:523-541 | the loop over payloads finds the count and the representative of `MatchPayloads` |
| AlertBus.Alerting.FireAlerts | business/domain/integrationbus/integrationbus.go:414-452 | nothing happens when the rules cannot be loaded; else every active rule is raised at most once per batch, and a failure of one does not stop the others |
| AlertBus.Alerting.EvaluateThresholds | business/domain/integrationbus/threshold.go:28-89 | nothing happens when the rules cannot be loaded; else a pass raises the rules that are satisfied, closes the open event of those that are not, and loads windows once per organization |
| AlertBus.Alerting.CloseOpen | business/domain/integrationbus/threshold.go:92-100 | the open event of the rule's threshold key is resolved, if there is one and both calls work |
| AlertBus.FindOpen | business/domain/integrationbus/stores/integrationdb/alertevents.go:115-138 | an unresolved event of the rule and key is found if and only if there is one |
| AlertRuns.RaiseIsRecorded | business/domain/integrationbus/integrationbus.go:456-519 | a raise records the firing once unless a store call fails, and passes only a firing that may pass |
| AlertRuns.EveryRunKeepsHistory | business/sdk/migrate/sql/migrate.sql:695-696 | in every run there is at most one open event per rule and key, and its last notification is the last marked delivery in the log |
| AlertRuns.RunIsPaced | business/domain/integrationbus/suppress.go:144-154 | over every run, each delivery comes at least a window after the mark in force |
| AlertRuns.DeliveryRate | business/domain/integrationbus/suppress.go:106-154 | in any interval of length L with r resolutions, at most r + 1 + floor(L / W) deliveries pass, plus those whose mark failed |
| AlertRuns.MarksAreAWindowApart | business/domain/integrationbus/suppress.go:144-154 | two deliveries with no resolution between them, the first of them marked, are at least a window apart |
| AlertRuns.AcknowledgedIsQuiet | business/domain/integrationbus/suppress.go:133-143 | in every run of whole raises, after an acknowledgement nothing is delivered for the rule and key until the event is resolved |
| AlertRuns.AcknowledgeOwns | business/domain/integrationbus/stores/integrationdb/alertevents.go:204-222 | acknowledging makes a firing event owned and changes no other event |
| AlertBatches.FireAllIsARun | business/domain/integrationbus/integrationbus.go:414-452 | a batch is a sequence of raises, so everything proved of runs holds of it |
| AlertBatches.EvaluateAllIsARun | business/domain/integrationbus/threshold.go:28-89 | a threshold pass is a sequence of raises and resolutions |
| AlertBatches.RepresentativeIsFirstMostSevere | business/domain/integrationbus/integrationbus.go:521-541 | the count is the number of matching payloads, and the representative is the first among the most severe of them |
| AlertBatches.EveryMatchIsRecordedOnce | business/domain/integrationbus/integrationbus.go:456-490 | over a batch, a rule's recorded matches grow by exactly the payloads that match it, delivered or suppressed, where its store calls work |
| AlertBatches.BelowThresholdCloses | business/domain/integrationbus/threshold.go:53-60 | a pass below the count leaves no open event of the threshold key, and leaves the rule with nothing open if and only if it had no open event under another key |
| AlertBatches.EditedRuleStaysOpen | business/domain/integrationbus/threshold.go:53-60 | a rule that fired by level and was then edited into a threshold rule: the pass below its count leaves the old alert open |
| AlertBatches.MarksAreTruthfulIff | business/domain/integrationbus/integrationbus.go:387-407 | a raise keeps every mark backed by a delivery a provider accepted if and only if it does not deliver on a disabled connection and mark that |
| AlertBatches.DedupFollowsADelivery | business/domain/integrationbus/suppress.go:144-154 | where marks are truthful, a duplicate is one whose event a provider was told about less than a window ago |
| AlertBatches.DisabledConnectionSilences | business/domain/integrationbus/integrationbus.go:387-407 | a firing on a disabled connection makes the next one a duplicate although nobody was told |
| AlertOverlap.UndisturbedIsARaise | business/domain/integrationbus/integrationbus.go:459-519 | reading, recording and sending with nothing in between is one raise of `AlertRuns` |
| AlertOverlap.EveryInterleavingKeepsHistory | business/domain/integrationbus/stores/integrationdb/alertevents.go:140-202 | with any number of raises between their steps there is at most one open event per rule and key, and its last notification is its last marked delivery |
| AlertOverlap.PaceIff | business/domain/integrationbus/integrationbus.go:459-519 | in any state whose log keeps the window, with any number of raises under way, every continuation without a new read keeps it if and only if each raise that will deliver is a window after the mark in force and a window after every other one that will deliver and mark |
| AlertOverlap.SerialRunIsPaced | business/domain/integrationbus/integrationbus.go:459-519 | in every interleaved run in which the raises that deliver an alert overlap neither each other nor its resolution, its deliveries keep the window |
| AlertOverlap.AcknowledgedIsQuietIff | business/domain/integrationbus/suppress.go:133-143 | in any state of any run, after an acknowledgement nothing is delivered until the event is resolved, new raises included, if and only if no raise that will deliver was under way |
| AlertOverlap.SequenceIsPaced | business/domain/integrationbus/suppress.go:144-154 | in sequence the second delivery is at least a window later |
| AlertOverlap.OverlapBreaksPace | business/domain/integrationbus/integrationbus.go:459-519 | from empty tables the window is lost to a second raise that reads before the first has recorded, and to one that reads while the first is talking to the provider |
| AlertLaws.PagesIff | business/domain/integrationbus/suppress.go:113-154 | a raise appends one delivery if and only if the stores work, the rule is active and not snoozed, no window for its project or for all projects holds the instant, no unresolved event of the rule and key is owned or was marked within a window, and the connection takes it or is disabled; otherwise the log stays as it is |
| AlertLaws.RaiseWritesOneRow | business/domain/integrationbus/stores/integrationdb/alertevents.go:140-202 | a raise writes one row and no other: the unresolved event of the rule and key keeps its state, owner and first instant and takes the new text, level, instant and the matches on top, or a new firing row does; it is marked exactly when the raise went out and the mark succeeded |
| AlertLaws.EveryPageWasDue | business/domain/integrationbus/suppress.go:113-154 | over every run each delivery in the log was appended by a raise of its rule and key at its instant that was active, not snoozed, under no window and due |
| AlertLaws.EveryDuePageIsLogged | business/domain/integrationbus/integrationbus.go:459-519 | over every run each raise that is due has its delivery in the log, where the log stood before it |
| AlertLaws.ClosedOnceAndForAll | business/domain/integrationbus/stores/integrationdb/alertevents.go:223-241 | in every run an event is resolved if and only if the log holds its resolution, at the instant the row shows, and nothing about the event follows it |
| AlertLaws.OwnerIff | business/domain/integrationbus/stores/integrationdb/alertevents.go:204-222 | in every run a row names a person and an instant if and only if that person acknowledged the event then while it was firing |
| AlertLaws.LevelRuleMatchesIff | business/domain/integrationbus/condition.go:178-186 | a level rule matches exactly the logs of its level and of the levels after it in the order DEBUG, INFO, WARN, ERROR |
| AlertLaws.FieldsNarrow | business/domain/integrationbus/condition.go:55-93 | a query matches if and only if one of its fields is populated and each populated field, alone, matches |
| AlertLaws.TextQueryMatchesIff | business/domain/integrationbus/condition.go:82-86 | a text query matches exactly the logs whose message holds the trimmed text at some position, in whatever case |
| AlertLaws.OpenAfterPassIff | business/domain/integrationbus/threshold.go:28-118 | a pass raises a rule at its count, at the most severe level its query names, and delivers nothing below it; when the stores work the rule has an open alert afterwards if and only if its count was reached |
| AlertLaws.BatchRaisesExactly | business/domain/integrationbus/integrationbus.go:414-452 | a batch raises, in their order, exactly the rules that are no threshold rules and match a log of it, each once, with the number of its matches and the first most severe of them, under the windows of the batch |
| AlertLaws.PassGoesOverEach | business/domain/integrationbus/threshold.go:28-89 | a pass goes over the threshold rules in their order, each under the windows of its own organization, and counts those it raised without an error |
| FrameLine.FindIsLeftmostFirst | business/domain/clienterrorbus/fingerprint.go:75-78 | the matcher returns the match a leftmost-first engine returns: none starts further left, and none at its start comes earlier in the order of alternatives, greedy and lazy parts; and it finds one whenever there is one |
| FrameLine.LocationIsPreferred | business/domain/clienterrorbus/fingerprint.go:78 | the location found is the shortest, with the longest line and column, among all that start there |
| StackFrames.ParseStack | business/domain/clienterrorbus/fingerprint.go:98-147 | the loop over lines returns the frames of `StackSpec`, in order |
| StackFrames.NotVendor | business/domain/clienterrorbus/fingerprint.go:135-141 | the search finds a marker if and only if the lowered file and name contain one |
| StackFrames.FramesAreWellFormed | business/domain/clienterrorbus/fingerprint.go:98-147 | every frame read has a file without spaces or parentheses, a line and a column of digits, and a name without spaces |
| StackFrames.TrimRendered | business/domain/clienterrorbus/resolve.go:107-115 | reading a written frame drops its indentation and nothing else, whatever the names are |
| StackFrames.CleanIsReadUpTo | business/domain/clienterrorbus/resolve.go:107-115 | with clean names, the file read back ends at the first place where a position fits |
| StackFrames.RoundTrip | business/domain/clienterrorbus/resolve.go:107-115 | a written frame is read back exactly if and only if its name has no spaces and no opening parenthesis, its file is not empty, has no spaces or parentheses and holds no position, and its numbers are not negative |
| StackFrames.PositionInsideIsLost | business/domain/clienterrorbus/fingerprint.go:78 | the file "a:1" is read back as "a" |
| Text.AtoiOfDecimal | business/domain/clienterrorbus/resolve.go:75-82 | a written number is read back as itself, and refused only beyond 64 bits |
| Resolution.MappedFrameIsRewritten | business/domain/clienterrorbus/resolve.go:57-105 | a browser's frame is rewritten to the place its file's map gives for exactly that line and column, with the browser's name where the map has none |
| Resolution.UnmappedFrameStays | business/domain/clienterrorbus/resolve.go:57-105 | a frame whose file has no map, or whose position the map does not know, is left as it was |
| Resolution.LinesStayInPlace | business/domain/clienterrorbus/resolve.go:57-105 | the number of lines and the unmapped lines are unchanged if and only if no rewritten line has a line break of its own |
| Resolution.ParsingCommutes | business/domain/clienterrorbus/resolve.go:45-105 | parsing a resolved stack gives the parsed frames with the mapped ones replaced in place, if and only if every mapped frame comes from a place that can be written down |
| Fingerprint.InAppFrames | business/domain/clienterrorbus/fingerprint.go:149-165 | our own frames in order, or all frames when none is ours |
| Fingerprint.FingerprintText | business/domain/clienterrorbus/fingerprint.go:173-199 | the loop over frames builds the text that `FingerprintLaws` tells from the event: `KeyOf` |
| Fingerprint.ColumnsDoNotMatter | business/domain/clienterrorbus/fingerprint.go:91-96 | stacks whose frames agree in all but columns give one fingerprint |
| Fingerprint.VendorFramesDoNotMatter | business/domain/clienterrorbus/fingerprint.go:149-165 | inserted frames of dependencies leave the frames that take part alone if and only if some frame is ours |
| Fingerprint.VendorLinesDoNotMatter | business/domain/clienterrorbus/fingerprint.go:167-196 | so inserting lines of dependencies next to a frame of ours does not change the fingerprint |
| Fingerprint.StableAcrossReleases | business/domain/clienterrorbus/clienterrorbus.go:194-206 | two releases whose frames resolve, each in its own maps, to the same places give one fingerprint |
| Fingerprint.PartsAreToldApart | business/domain/clienterrorbus/fingerprint.go:181-199 | lists of parts without a bar are joined to one text if and only if they are equal |
| Fingerprint.TextsAreEqualIff | business/domain/clienterrorbus/fingerprint.go:173-199 | events that are no API failures are hashed from one text if and only if kind, name, normalized message and the sites of the top frames that take part agree, where no part holds a bar and no name a colon |
| Fingerprint.ToldApartIff | business/domain/clienterrorbus/fingerprint.go:198 | for every event that is no API failure, whatever its frames, no other name and message are hashed from the same text if and only if neither its name nor its message holds a bar |
| FingerprintLaws.FirstFiveIdentify | business/domain/clienterrorbus/fingerprint.go:173-199 | for an event that is no API failure the text is kind, name and normalized message, then file, line and name of the first five frames of the stack that are ours, or of its first five frames when none is; nothing else |
| FingerprintLaws.BehindTheFifthNothingMatters | business/domain/clienterrorbus/fingerprint.go:176-179 | stacks whose first five such frames are at the same sites give one text, whatever follows and whatever the columns |
| FingerprintLaws.FirstFiveDecideIff | business/domain/clienterrorbus/fingerprint.go:173-199 | texts are the same if and only if kind, name, normalized message and the sites of the first five such frames are, where no part holds a bar and no name a colon |
| FingerprintLaws.ApiFailuresDecideIff | business/domain/clienterrorbus/fingerprint.go:184-190 | texts of two API failures without bars are the same if and only if name, method, path, status and code are; message and stack decide nothing |
| FingerprintLaws.OursIff | business/domain/clienterrorbus/fingerprint.go:135-141 | a frame that was read is ours if and only if no marker of a dependency stands anywhere in its lowered file and name |
| FingerprintLaws.CaseDoesNotMatter | business/domain/clienterrorbus/fingerprint.go:135 | the case of file and name does not decide whose frame it is |
| SourceMapCache.Cache.MapFor | business/domain/clienterrorbus/resolve.go:159-198 | the cache and the answer afterwards are those of `AfterLookup` and `Answer`, failing fetches included |
| SourceMapCache.Cache.RememberMap | business/domain/clienterrorbus/resolve.go:200-218 | a hit or a miss is kept, after everything is dropped when eight maps are held |
| SourceMapCache.Cache.UploadArtifact | business/domain/clienterrorbus/artifact.go:37-99 | an upload is refused in the order of the checks, or replaces the stored map and empties the cache, also when queueing the release's events again then fails |
| SourceMapCache.Cache.ResolveLines | business/domain/clienterrorbus/resolve.go:57-99 | the lines are rewritten in place as `ResolveFirst` says, reading through the cache |
| SourceMapCache.Cache.ResolveStack | business/domain/clienterrorbus/resolve.go:45-105 | an empty stack or release, and a stack nothing of which is mapped, come back as they were |
| SourceMapCache.RunKeepsFaith | business/domain/clienterrorbus/resolve.go:133-228 | every run of lookups and uploads keeps what the cache holds true of the store, but for remembered failures, and holds at most eight maps |
| SourceMapCache.CacheAnswersIff | business/domain/clienterrorbus/resolve.go:159-198 | the cache answers as fetching and parsing would, if and only if it is not the case that there is a map and its failed fetch is remembered or is happening now |
| SourceMapCache.CacheIsInvisible | business/domain/clienterrorbus/resolve.go:159-228 | without failed fetches the cache answers as the uncached lookup after every run |
| SourceMapCache.ExactIffNeverMixed | business/domain/clienterrorbus/resolve.go:161 | the cache is exact over all runs without failed fetches if and only if no two of the lookups made share a key of which one can have a map |
| SourceMapCache.PlainReleasesAreUnambiguous | business/domain/clienterrorbus/resolve.go:161 | releases without a bar never share a key, so the cache is exact for them |
| SourceMapCache.UploadedNameIsLookedUp | business/domain/clienterrorbus/artifact.go:112-120 | the name a map is stored under, uploaded from any directory or none and with or without ".map", is the name its bundle's frames are looked up by, wherever they were served from |
| SourceMapCache.ResolvingIsExact | business/domain/clienterrorbus/resolve.go:57-105 | resolving through the cache is resolving through the maps in the store now, and keeps the cache truthful |
| SharedMapCache.RememberIsTrueIff | business/domain/clienterrorbus/resolve.go:200-218 | remembering a fetched result keeps what the cache holds true if and only if it is what the store holds now, or a miss that a remembered map outweighs |
| SharedMapCache.QuietRunKeeps | business/domain/clienterrorbus/resolve.go:159-198 | from a truthful cache and workers without outdated results, whatever workers do short of an upload's write and a failing fetch keeps the cache truthful |
| SharedMapCache.StaysTruthfulIff | business/domain/clienterrorbus/resolve.go:159-198 | a truthful cache stays so in every such continuation if and only if no worker holds a result that the store has left behind |
| SharedMapCache.UploadSettlesIff | business/domain/clienterrorbus/artifact.go:78-84 | when an upload empties the cache, whenever its write was and whatever happened since, the cache is truthful, and stays so if and only if no worker holds an outdated result |
| SharedMapCache.OutdatedLies | business/domain/clienterrorbus/resolve.go:175-198 | a worker that finishes with an outdated result makes an emptied cache answer wrongly |
| SharedMapCache.StaleMiss | business/domain/clienterrorbus/resolve.go:175-198 | it happens from an empty cache: a miss is found, the map is uploaded, and the miss is remembered |
| SharedMapCache.UndisturbedIsAStep | business/domain/clienterrorbus/resolve.go:159-198 | with nothing in between, looking up, fetching and remembering is one lookup of `SourceMapCache`, and writing and emptying its upload |
| ArtifactLaws.StoredIff | business/domain/clienterrorbus/artifact.go:45-82 | after every run the table holds these bytes for a release and file if and only if the last upload accepted for them prepared them |
| ArtifactLaws.LookupFindsTheUpload | business/domain/clienterrorbus/resolve.go:159-198 | in every run without failed fetches the cache answers a map if and only if the last upload accepted for the release and file stored bytes that parse to it |
| ArtifactLaws.FramesFindTheirMap | business/domain/clienterrorbus/artifact.go:112-120 | the map last uploaded for a release under its bundle's name, in any directory and with or without ".map", is the one the bundle's frames are looked up in, wherever it was served from |
| ArtifactLaws.FirstProblemIsNamed | business/domain/clienterrorbus/artifact.go:46-76 | an upload is refused if and only if something is wrong with it, and is told the first thing that is |
| Grouping.Worker.GroupEvent | business/domain/clienterrorbus/clienterrorbus.go:183-287 | the tables, the announcements and the outcome of one event are those of `Group`, for a failure at any store call |
| Grouping.Worker.TouchIssue | business/domain/clienterrorbus/stores/clienterrordb/clienterrordb.go:238-270 | a resolved issue is reopened and flagged, and the answer is read from the row as written |
| Grouping.Worker.DetachFromIssue | business/domain/clienterrorbus/stores/clienterrordb/clienterrordb.go:705-739 | an issue is deleted exactly when no event is on it |
| Grouping.Worker.ProcessBatch | business/domain/clienterrorbus/clienterrorbus.go:159-181 | the claimed events are grouped in whatever order the statement returns them; each failure is recorded and the loop goes on, and it stops with an error only when recording fails |
| Grouping.ClaimTakes | business/domain/clienterrorbus/stores/clienterrordb/clienterrordb.go:76-109 | a claim takes only claimable rows, each once, at most as many as asked |
| Grouping.ClaimTakesOldest | business/domain/clienterrorbus/stores/clienterrordb/clienterrordb.go:83-101 | a claimable row is left behind only when the claim takes as many as it may, and then every row taken is older |
| Grouping.ClaimCounts | business/domain/clienterrorbus/stores/clienterrordb/clienterrordb.go:76-109 | it counts an attempt of each row it takes and changes nothing else |
| Grouping.ClaimTakesAll | business/domain/clienterrorbus/stores/clienterrordb/clienterrordb.go:76-109 | when it takes fewer than asked, it takes every claimable row |
| GroupingRuns.EveryRunKeepsInv | business/domain/clienterrorbus/clienterrorbus.go:159-287 | in every run of arrivals, batches with any failures, triage, requeueing and retention: one issue per fingerprint and scope, each event on the issue its fingerprint names, done only when attached or out of attempts, no event announced twice, no issue opened twice |
| GroupingRuns.BatchSpends | business/domain/clienterrorbus/clienterrorbus.go:154-181 | a batch lowers the attempts left in the queue by at least the number of events it takes, whatever fails, and takes none only from an empty queue |
| GroupingRuns.QueueDrains | api/services/ingestor/main.go:822-835 | with nothing new arriving, as many batches as attempts are left empty the queue: every event is on its issue or out of attempts |
| GroupingFailures.FailuresStayLocal | business/domain/clienterrorbus/clienterrorbus.go:168-178 | whatever fails, the events a batch reaches are attached, set aside or taken again, attached if their calls work; it stops where recording a failure fails, and the events behind that one have lost an attempt and nothing else |
| GroupingFailures.RegroupIsSilent | business/domain/clienterrorbus/clienterrorbus.go:183-192 | an event that is grouped again announces nothing and stays on an issue |
| GroupingFailures.OpenedIff | business/domain/clienterrorbus/clienterrorbus.go:183-287 | in every run an issue is announced as opened, at whatever time, if and only if the attempt that created it attached an event that was on no issue before |
| GroupingFailures.NeverOpenedLater | business/domain/clienterrorbus/clienterrorbus.go:274-284 | an issue that is not announced by then is announced by no later run |
| GroupingFailures.LateFailurePassesOver | business/domain/clienterrorbus/clienterrorbus.go:255-263 | an attempt that fails between the insert and the attach creates the issue and does not announce it |
| GroupingFailures.ReopenedIff | business/domain/clienterrorbus/stores/clienterrordb/clienterrordb.go:238-270 | the answer tells the transition from resolved if and only if the issue was not flagged already |
| GroupingFailures.RegressionRepeats | business/domain/clienterrorbus/clienterrorbus.go:274-284 | while an issue is flagged, every new event of it is announced as a regression |
| GroupingFailures.EmptyIssuesIff | business/domain/clienterrorbus/clienterrorbus.go:255-272 | an attempt leaves no issue without events if and only if it neither fails to attach to an issue it created nor fails to detach the last event of another |
| GroupingFailures.EmptyIssueStays | business/domain/clienterrorbus/stores/clienterrordb/clienterrordb.go:705-739 | an empty issue stays through every run that gives its fingerprint to no event and in which retention does not find it old |
| GroupingFailures.RetentionRemovesEmpty | business/sdk/retention/retention.go:349-366 | retention removes exactly the issues it finds old that have no event |
| GroupingFailures.FailedDetachIsForGood | business/domain/clienterrorbus/clienterrorbus.go:265-272 | so an issue whose last event moved away while the detach failed stays, empty, through the retry and after, until retention |
| GroupingFailures.ClaimedAgainIff | business/domain/clienterrorbus/stores/clienterrordb/clienterrordb.go:76-109 | a second claim of as many rows or more, before the first has grouped an event, takes it too, if and only if it has attempts left |
| GroupingLaws.BatchTakesIff | business/domain/clienterrorbus/stores/clienterrordb/clienterrordb.go:76-109 | a batch with room for every row takes exactly those that are not processed and have been tried fewer than three times |
| GroupingLaws.UploadQueuesIff | business/domain/clienterrorbus/stores/clienterrordb/clienterrordb.go:680-703 | the batch after an upload takes an event if and only if it was waiting already, or was processed under the release of the upload with a fingerprint of a version below 2; nothing else of any row changes |
| GroupingLaws.SecondUploadQueuesNothing | business/domain/clienterrorbus/artifact.go:86-93 | when that batch groups what it takes from resolved stacks, a second upload of the release finds nothing to queue |
| GroupingLaws.WhereAnEventEndsUp | business/domain/clienterrorbus/clienterrorbus.go:183-287 | an event whose calls work is filed under the issue of its fingerprint and scope, which a resolved one makes open again and flags, or under a new unresolved one; the issue it leaves goes exactly when it was its only event; no other event or issue changes; it is announced exactly when it was on no issue, as opened or as regressed |

## Left out

- Floating point: tokens of the limiter are reals.
- Concurrency: the hub, callbacks, the shared map cache and raises are modelled as interleaved steps. Reject batches that overlap are not. A raise's sending and marking are one step of `AlertOverlap`: nothing can read a difference between them, but a resolution that falls between them is taken to come before both or after both.
- The hub's goroutines, channels and locks: `Hub.Step` lists what they can do next; sockets, deadlines and pings are not part of this model.
- SsoFlow.SsoApp.CompleteLogin: the provider, the signature checks and the user lookup are one outcome; tokens are taken to be fresh.
- StreamTickets.TicketStore.Issue: hashing is left out; a ticket is its own key.
- Paging.WriteExport: one fixed filter over a listing that does not change; the window that a tag filter recomputes on each page is not modelled, and neither are CSV and JSON texts. The cursor codec is taken to be injective.
- Timeseries.Timeseries: the store's rows are a function of the window; filters are not modelled.
- Text: strings are sequences of Unicode characters, so byte sequences that are not UTF-8 are not modelled in stacks. Case mappings of characters outside ASCII are modelled only where they meet an ASCII letter.
- Fingerprint.FingerprintText: the SHA-256 hash, `NormalizeMessage` (an argument), the title and the culprit are left out.
- SourceMapCache.Cache.MapFor: the source-map parser and gzip are arguments; here a fetch and what it remembers are one step, in `SharedMapCache` they are not.
- SourceMapCache.Cache.UploadArtifact: the cut of long names is an argument, and the requeueing after an upload is the step `Regroup` of `GroupingRuns`.
- Grouping.Worker.GroupEvent: event counts, sample events, levels, times and the contents of facets are left out, and so are the race of two inserts of one issue and the ageing out of events.
- Scrubbing: the redacting expressions are an argument of `RejectCap`.
- AlertBus.Alerting.FireAlerts: messages to providers are left out.
- Rule editing, validation of conditions and connections, user management, billing, e-mail and HTTP handlers would add only easy members.
