# ClickMan, modelled and proved in Dafny

ClickMan tracks events on devices, delivers them to an ingest server and turns them into analytics. This project models
the parts of it that are hardest to get right and proves what they promise, for every input and every run.

- **The store** (`Columns`, `Calendar`, `BitStrings`, `Chunks`, `Tables`, `RawLog`, `Ledger`, `Operations`, `Runs`,
  `Relational`, `Deliveries`, `Actives`). Raw events are rotated page by page into column chunks of 4,096 rows; daily
  counts, activity bits and first-seen days are derived from them; retention, erasure and pruning delete. `Tables` and
  `Operations` give each transaction as a function on the tables, `Relational.Store` and `Deliveries.Delivery` are the
  objects with the source's loops, proved equal to those functions, and `Runs` proves the properties of whole runs in which
  inserts, rotations, deliveries, prunes and erasures come in any order. `Ledger` keeps the history against which
  "exactly once" and "nothing is lost" are stated.
- **The device protocol** (`Digits`, `Backoff`, `DeviceQueue`, `Sender`, `Draining`, `DeviceDelivery`, `Protocol`). A bounded queue with growing
  sequence numbers, batches cut by count and bytes, one flight at a time, backoff, cancellation, restart, lost requests and
  lost answers, and a server that keeps one row per message id. `DeviceDelivery` is the Kotlin client's single worker,
  `Sender` the Rust client's state, `Draining` when its drain ends, `Protocol` the steps of concurrent Rust drains with the
  network and the server.
- **Algorithms** (`Funnel`, `Limiter`, `Mixpanel`, `Flattening`, `Sanitizing`, `TimeText`): the greedy funnel walk, the token
  bucket, the greedy request split, merging and flattening contexts, finding cards and phone numbers, and times as text.

Time, random numbers, answers of the network, which destination raises, which characters are alphanumeric, lower-casing,
email matching and JSON text are parameters. A transaction is one atomic step.

## Where the code differs from what it promises

- **Settling a batch in the Rust client.** `rust/crates/clickman/src/batch.rs:79` deletes `seq < last_seq`, while its comment
  (line 77), the test at `rust/crates/clickman/src/tests/batch_tests.rs:135-147`, and the Swift and Kotlin clients
  (`seq <= ?`) mean "through `last_seq`". Both forms are modelled, `DeletedBelow` as written and `DeletedThrough` as meant.
  `DeviceQueue.BelowExample` is an input on which they differ; `DeviceQueue.BelowIsThroughIff` says exactly when the line as
  written does what is meant: when no queued event has the number `last_seq`. As written, the newest event of every settled
  batch stays queued and is sent again, and a batch of one event never shrinks the queue (`DeviceQueue.SettlingShrinks`).
- **Whether a drain ends.** Deleting through, it always ends (`Draining.DrainThroughEnds`). As written, when the server takes
  every batch, nothing is tracked and the newest event does not expire, the drain of `flush`
  (`rust/crates/clickman/src/client.rs:105-107`) never ends exactly when an event waits and batches may hold events
  (`Draining.ForcedDrainNeverEndsIff`). The drain of `send_due` (`rust/crates/clickman/src/client.rs:99-101`) comes to rest at the
  first event that does not fit into a batch with the next one, or else at the newest. While the clock stands still it never
  ends exactly when the events from there on are due: `flush_at` of them, or one that has waited for `flush_interval`
  (`Draining.DueDrainNeverEndsIff`, `Draining.DueDrainStandsAtStop`); with batches of one event it rests at the oldest. The same
  condition decides whether it never ends whatever the clock does meanwhile (`Draining.NeverEndsUnderEveryClockIff`).
  Conservation and one row per message id hold in both forms.
- **The rate limit.** Pruning an idle bucket gives its client a second burst when 600 s do not refill the burst.
  `Limiter.PruningIsInvisibleIff` and `Limiter.BurstPlusRateIff` give the exact condition over all runs of an empty limiter,
  600 · `per_second` ≥ `burst`; `Limiter.TwoBursts` is a run that breaks the bound.
- **Late commits.** An event committed `rotation_lag` or more after its `received_at` can fall at or before a cursor and is then
  never taken: `Runs.ExactlyLagIsTooLate` is a run in which an event that is late by exactly the lag is lost, so
  the bound of less than the lag is tight; `Ledger.InsertKeepsBalanceIff` and `Ledger.LateEventIsNeverTaken` are the general form.

## Model

| member | source | states |
|---|---|---|
| Columns.RoundTrip | ruby/lib/click_man/stores/relational.rb:204-222 | rows to columns to rows gives the same times, actors and field maps in the same order, each value as it is packed, for all rows |
| Columns.RoundTripIsIdentity | ruby/lib/click_man/columns.rb:10-24 | the round trip is the identity exactly on rows without nil fields whose integers are in the packable range |
| Columns.LastColumnWins | ruby/lib/click_man/columns.rb:16-23 | decoding any payload gives the keys of its columns, a repeated key with the values of its last column |
| Columns.PackedTwice | ruby/lib/click_man/columns.rb:46-48 | packing what was packed changes nothing, so a chunk may be read and written again |
| Columns.DeltasRoundTrip | ruby/lib/click_man/columns.rb:11-21 | running totals over the deltas of any times are the times |
| Columns.DecodeTimes | ruby/lib/click_man/columns.rb:20-21 | the running total over the deltas, element by element |
| Columns.ReadActors | ruby/lib/click_man/columns.rb:26-42 | the reader stops at the actors, checks a version it passes, and fails when there are none |
| Columns.ActorsAgreeWithDecode | ruby/lib/click_man/columns.rb:16-42 | the actors-only reader agrees with the full decode on every payload, errors included; both refuse exactly the payloads of another version than 1 |
| BitStrings.MergeIsUnion | ruby/lib/click_man/stores/sqlite.rb:25 | merging two years through binary numbers sets exactly the days set in either, 366 characters wide again |
| BitStrings.MaskIsSuffix | ruby/lib/click_man/stores/sqlite.rb:62-73 | masking through binary numbers keeps exactly the days from the mask's start on, and is zero exactly when none is left |
| BitStrings.SetBits | ruby/lib/click_man/stores/relational.rb:316-326 | the search loop finds the indexes of all ones, ascending |
| BitStrings.OnesAreTheSetBits | ruby/lib/click_man/stores/relational.rb:316-326 | those indexes are increasing and are exactly the places that hold a one |
| Chunks.TimeOrderSorts | ruby/lib/click_man/stores/relational.rb:200-202 | the sort is a stable permutation into time order |
| Chunks.ChunkDescribesRows | ruby/lib/click_man/stores/relational.rb:204-213 | a stored chunk names exactly the keys of its rows, ascending, and how many rows it has, at most 4,096, in time order |
| Chunks.AppendConserves | ruby/lib/click_man/stores/relational.rb:184-198 | an append keeps every full chunk, conserves the multiset of rows and leaves chunks in time order, none empty, none over 4,096 rows, numbered in sequence |
| Chunks.AppendKeepsDense | ruby/lib/click_man/stores/relational.rb:184-198 | chunks numbered from 1 and full but the last stay so |
| Chunks.DenseLayout | ruby/lib/click_man/store.rb:3 | a dense group of n rows has ceil(n / 4096) chunks, each with 4,096 events but the last, which holds the rest |
| Chunks.LayoutIsScheduleIndependent | ruby/lib/click_man/stores/relational.rb:184-202 | however the same rows were split over rotations, the chunks have the same numbers and sizes and hold the same rows |
| Chunks.ForgottenKeepsOthers | ruby/lib/click_man/stores/relational.rb:274-285 | erasing an actor from a group leaves exactly the other actors' rows in their order |
| Chunks.NothingToForget | ruby/lib/click_man/stores/relational.rb:275-277 | a group without rows of the actor is not touched |
| Tables.EnrolledKnowsAll | ruby/lib/click_man/stores/relational.rb:157-170 | after a page every event's actor is known, with a first day no later than the event's |
| Tables.FirstDaysComeFromEvents | ruby/lib/click_man/stores/relational.rb:157-170 | a first day is the old one or some event's day, whichever is earlier |
| Tables.AppendedConserves | ruby/lib/click_man/stores/relational.rb:139-142 | a page adds exactly its own rows to every day and event |
| Tables.MergedAddsThePage | ruby/lib/click_man/stores/sqlite.rb:18-30 | merging a page's days adds exactly the days its identified actors were active |
| Tables.RotatedIsConsistent | ruby/lib/click_man/stores/relational.rb:131-148 | a rotated page keeps counts, bits and actors in agreement with the chunks: a count exists exactly for chunks, with their rows and their distinct identified actors, and a day's bit is set exactly for the identified actors with a row on it |
| Tables.ForgetRejectsEverywhere | ruby/lib/click_man/stores/relational.rb:271-297 | visiting only the active days is enough: every group loses exactly the actor's rows, the others keep their order |
| Tables.ErasedIsExact | ruby/lib/click_man/stores/relational.rb:46-55 | erasure leaves no row and no bit of the actor, every other row and bit, and counts that agree |
| Tables.DroppedIsExact | ruby/lib/click_man/stores/sqlite.rb:57-74 | retention drops the rows, counts and bits of the days before the month together and nothing else |
| Tables.KeptBitRows | ruby/lib/click_man/stores/sqlite.rb:57-74 | the bit rows that stay are those of later years and those with a day from the month on, and keep exactly those days; when the month begins the year none of its rows is looked at |
| RawLog.InsertedKeepsOrder | rust/crates/clickman-ingest/src/database.rs:134-141 | an insert adds exactly the events whose message id is new, one row per id, whatever it repeats |
| RawLog.InsertedAllIsExact | rust/crates/clickman-ingest/src/database.rs:134-141 | an event is added exactly when no row has its message id and no event before it in the insert |
| RawLog.PendingIsPrefix | ruby/lib/click_man/stores/relational.rb:57-62 | a page is the oldest part of what is past the cursor and was received in time, and a short page leaves nothing received in time |
| RawLog.AfterIsAwaited | ruby/lib/click_man/stores/relational.rb:57-62 | what is past a cursor is every row later than it by reception time and then message id, or every row before the first advance |
| RawLog.AdvanceSplits | ruby/lib/click_man/stores/relational.rb:64-66 | advancing to a page's last event leaves exactly the rest |
| RawLog.OlderCutoffIsSmallerLimit | ruby/lib/click_man/stores/relational.rb:57-62 | a page read with an older cutoff is the first part of the page read now |
| RawLog.PrunedAfter | ruby/lib/click_man/stores/relational.rb:262-269 | pruning through a key takes nothing from a consumer whose cursor is no earlier |
| RawLog.PrunedIsExact | ruby/lib/click_man/stores/relational.rb:262-269 | deleting removes exactly the rows received before the bound and at or before the key |
| RawLog.RawWithoutAfter | ruby/lib/click_man/stores/relational.rb:51 | erasing raw rows takes from each consumer exactly the erased actor's rows it still waited for |
| Ledger.InsertKeepsBalanceIff | ruby/lib/click_man/stores/relational.rb:18-20 | an event keeps a consumer balanced exactly when it is committed past the consumer's cursor |
| Ledger.LateEventIsNeverTaken | ruby/lib/click_man/stores/relational.rb:57-62 | an event committed at or before a cursor is in no page of that consumer, now or later |
| Operations.SlowestIsSlowest | ruby/lib/click_man/stores/relational.rb:257-260 | the slowest cursor is no later than any of the named ones, and there is none unless all have started |
| Operations.PrunedRawIsExact | ruby/lib/click_man/stores/relational.rb:35-38 | a raw row goes exactly when it is older than the window and none of the named consumers has yet to take it |
| Runs.NextIsSound | ruby/lib/click_man/stores/relational.rb:18-55 | every allowed insert, rotation, delivery, prune or erasure keeps the whole invariant |
| Runs.RunIsSound | ruby/lib/click_man/stores/relational.rb:18-55 | after every run of allowed steps from an empty store the invariant holds |
| Runs.RotationIsExactlyOnce | ruby/lib/click_man/stores/relational.rb:18-33 | on every run each committed event was rotated once, or was erased by an erasure of the run while it waited, or waits past the cursor; the chunks hold exactly the rows of the rotated events that no later step of the run erased or dropped |
| Runs.LiveUntilEnded | ruby/lib/click_man/stores/relational.rb:35-55 | a rotated event's row counts as taken exactly when a step after its rotation erased its actor or dropped its day |
| Runs.StoredRowsAreEvents | ruby/lib/click_man/stores/relational.rb:172-182 | every stored row of every run stands for a rotated event: of its day, name and actor, with its time to the millisecond, and with a field for exactly the keys of the event whose value is not nil, of that value or, for an integer beyond 64 bits, the same number as a float |
| Runs.OneRowStandsFor | ruby/lib/click_man/stores/relational.rb:172-182 | no other row stands for it: the row of a rotated event is the one that does |
| Runs.DerivedTablesAgree | ruby/lib/click_man/stores/relational.rb:131-148 | on every run a count exists exactly for chunks and is their rows and distinct identified actors, a day's bit is set exactly for identified actors with a row on it, and first-seen days are the earliest rotated ones |
| Runs.DestinationsLoseNothing | ruby/lib/click_man/stores/relational.rb:35-38 | on every run what a destination has not taken, and no erasure of the run took while it waited for it, still waits for it, and what it took was in cursor order without repeats |
| Runs.PruneIsExact | ruby/lib/click_man/stores/relational.rb:35-38 | after every run pruning deletes exactly the raw rows received before the deduplication window that rotation and every destination have taken |
| Runs.ExactlyLagIsTooLate | ruby/lib/click_man/stores/relational.rb:18-20 | an event committed exactly the lag after it was received, behind a page rotated as soon as it may be, is never rotated |
| Runs.RotateIsARun | ruby/lib/click_man/stores/relational.rb:18-33 | the pages of one rotation are a run of page steps |
| Runs.OlderPageIsAStep | ruby/lib/click_man/stores/relational.rb:19-26 | a page read with the cutoff of an earlier time is an allowed page step with a smaller limit |
| Runs.RefusedPageIsOfferedAgain | ruby/lib/click_man/delivery.rb:18-21 | a page a destination raised on is not lost on it: at any later time its next page begins with the same events |
| Runs.ErasureIsComplete | ruby/lib/click_man/stores/relational.rb:46-55 | on every run erasing an id leaves no raw row of it, no chunk row and no bit of its actor, and exactly the other rows in their order and the other bits |
| Runs.LayoutOfEveryRun | ruby/lib/click_man/stores/relational.rb:184-198 | on every run without erasures n rows of a day and event are in ceil(n / 4096) chunks, all full but the last |
| Runs.SameFirstDays | ruby/lib/click_man/stores/relational.rb:35-55 | erasures and retention leave first-seen days the earliest rotated days they were |
| Relational.CountChunks | ruby/lib/click_man/stores/relational.rb:243-250 | the recount from the actor columns: the total of rows and the number of distinct identified actors |
| Relational.ForgetActor | ruby/lib/click_man/stores/relational.rb:274-285 | the loop over the chunks: without the actor's rows, emptied chunks gone, untouched chunks as they were |
| Relational.DropBits | ruby/lib/click_man/stores/sqlite.rb:60-73 | the loop over the bit rows keeps exactly the bits from the month on and drops emptied rows |
| Relational.Store.Insert | ruby/lib/click_man/stores/relational.rb:14-16 | the new raw rows are the insert of the events one by one, nothing else changes |
| Relational.Store.EnrollActors | ruby/lib/click_man/stores/relational.rb:157-170 | the actors after a page |
| Relational.Store.AppendRows | ruby/lib/click_man/stores/relational.rb:139-142 | every touched day and event gets its rows appended, the others stay |
| Relational.Store.YearsOfPage | ruby/lib/click_man/stores/relational.rb:224-234 | the page's days by actor and year, the anonymous actor left out |
| Relational.Store.MarkActiveDays | ruby/lib/click_man/stores/sqlite.rb:18-30 | the stored bits with the page's days merged in |
| Relational.Store.Recount | ruby/lib/click_man/stores/relational.rb:239-255 | the counts of the given days and events are counted anew, those without chunks go, the others stay |
| Relational.Store.RotatePage | ruby/lib/click_man/stores/relational.rb:131-148 | one page goes into the tables and the cursor, as `Tables.RotatedIsConsistent` and `Runs.StoredRowsAreEvents` describe; its size is returned |
| Relational.Store.Rotate | ruby/lib/click_man/stores/relational.rb:18-33 | pages until one is short: nothing received by the cutoff waits, and the count is of the events rotated |
| Relational.Store.DeleteRaw | ruby/lib/click_man/stores/relational.rb:262-269 | deleting in batches deletes exactly the rows that are both expired and passed |
| Relational.Store.DropMonthsBefore | ruby/lib/click_man/stores/sqlite.rb:57-74 | rows, counts and bits before the month go together |
| Relational.Store.Prune | ruby/lib/click_man/stores/relational.rb:35-44 | raw rows go only through the slowest cursor, and only when every cursor has started |
| Relational.Store.ForgetRows | ruby/lib/click_man/stores/relational.rb:271-287 | the chunks of the active days lose the actor's rows; the changed days and events are returned |
| Relational.Store.Erase | ruby/lib/click_man/stores/relational.rb:46-55 | the anonymous actor is refused; any other is erased from the raw rows and the tables |
| Relational.Store.Advance | ruby/lib/click_man/stores/relational.rb:64-66 | the cursor moves to the event, the other cursors stay |
| Deliveries.DeliveredTakesOldest | ruby/lib/click_man/delivery.rb:33-48 | a destination takes the oldest of what waits in cursor order and its cursor moves past exactly that, up to the page it raises on or else all received in time |
| Deliveries.DestinationsAreIndependent | ruby/lib/click_man/delivery.rb:13-29 | in one round every destination gets as far as it would alone, and exactly those that raise are listed |
| Deliveries.RoundAddsUp | ruby/lib/click_man/delivery.rb:13-29 | a round delivers the sum of what the destinations that do not raise would receive alone, and lists those that raise in order |
| Deliveries.DeliverIsARun | ruby/lib/click_man/delivery.rb:13-29 | a round over the destinations is a run of page steps, a refused one where a destination raises |
| Deliveries.Delivery.DeliverTo | ruby/lib/click_man/delivery.rb:33-48 | the loop over pages, with the cursor it stores and the count it returns |
| Deliveries.Delivery.Deliver | ruby/lib/click_man/delivery.rb:13-29 | the loop over destinations: the total, or the list of those that raised |
| Actives.Report | ruby/lib/click_man/stores/relational.rb:68-87 | for the day i after the first: that day, and the numbers of the identified actors active on one of the 1, 7 and 30 days that end on it; raises exactly for a range that ends more than 30 days before it starts |
| Actives.WhoIsActive | ruby/lib/click_man/stores/relational.rb:299-314 | whom the report counts: who has an external id, is not the anonymous actor and was active on a day of the window |
| Actives.ActiveActorsHaveRows | ruby/lib/click_man/stores/relational.rb:68-87 | with tables that agree those are the identified actors with a stored row in the window |
| Actives.ActiveOffsets | ruby/lib/click_man/stores/relational.rb:299-314 | the year windows, put together, are the active days of the whole range for each identified actor |
| Actives.WindowOffsets | ruby/lib/click_man/stores/relational.rb:302-310 | within one year the set bits of the window are the active days of its part of the range |
| Actives.Spread | ruby/lib/click_man/stores/relational.rb:328-340 | one actor's windows add exactly one to every running sum they cover, overlaps counted once |
| Actives.BumpedSums | ruby/lib/click_man/stores/relational.rb:336-345 | adding one and taking it back adds one to the running sums in between |
| Actives.Tally | ruby/lib/click_man/stores/relational.rb:75-82 | the running sums count the actors whose windows cover each day |
| Actives.TallyDays | ruby/lib/click_man/stores/relational.rb:75-76 | the daily counts count the actors active on each day |
| Actives.CoveredIsActive | ruby/lib/click_man/stores/relational.rb:328-340 | being covered by a window is being active in the days that end there |
| Backoff.DoubledIsCappedDoubling | rust/crates/clickman/src/backoff.rs:10-12 | for every count of failures the saturating form is 5 s doubled per failure up to 600 s |
| Backoff.DelayIsBounded | rust/crates/clickman/src/backoff.rs:9-16 | the wait lies within 0.8 and 1.2 of that, or is the longer Retry-After |
| Backoff.DelayIsExact | rust/crates/clickman/src/backoff.rs:9-16 | without advice the wait is the doubled delay times 0.8 to 1.2, as the random number says, rounded down; with advice the longer of the two |
| Backoff.RetryAfterIsDecimal | rust/crates/clickman/src/backoff.rs:19-30 | a header is advice exactly when it is digits but for Unicode white space around them, and then of their decimal value, capped at the largest u64 |
| DeviceQueue.TakenIsMost | rust/crates/clickman/src/batch.rs:60-75 | the count is the most that fits, and one at least when a batch may hold an event |
| DeviceQueue.TakenIsLargest | rust/crates/clickman/src/batch.rs:60-75 | a batch of two or more weighs, with a comma between any two, at most the limit; and more of the oldest events would be too many or weigh too much |
| DeviceQueue.CountTaken | rust/crates/clickman/src/batch.rs:60-75 | the running total of the loop gives that count |
| DeviceQueue.ThroughSettlesExactly | kotlin/libraries/clickman/src/main/kotlin/com/lockvoid/clickman/QueueTransaction.kt:62-64 | deleting through the batch removes exactly the taken events still queued and nothing tracked since, whatever was trimmed or purged meanwhile |
| DeviceQueue.BelowKeepsTheNewest | rust/crates/clickman/src/batch.rs:78-81 | the line as written leaves the newest taken event, if it is still queued, besides what was not taken |
| DeviceQueue.BelowIsThroughIff | rust/crates/clickman/src/batch.rs:77-81 | the line as written does what its comment says exactly when no queued event has the batch's last number |
| DeviceQueue.BelowExample | rust/crates/clickman/src/tests/batch_tests.rs:135-147 | on the test's input the two forms differ |
| DeviceQueue.SettlingShrinks | rust/crates/clickman/src/batch.rs:78-81 | deleting through always shrinks the queue; as written exactly when the batch held two events or more |
| Draining.SendIsARound | rust/crates/clickman/src/sender.rs:104-125 | a send that is answered and settles is one round of the drain, and the loop goes on exactly when it found a batch |
| Draining.DrainThroughEnds | kotlin/libraries/clickman/src/main/kotlin/com/lockvoid/clickman/Delivery.kt:30-34 | deleting through, a drain finds at most as many batches as there were events, whatever the urgency |
| Draining.ForcedDrainNeverEndsIff | rust/crates/clickman/src/sender.rs:104-111 | as written, a forced drain finds a batch after every number of rounds exactly when an event waits and batches may hold events; the newest event stays |
| Draining.DueDrainNeverEndsIff | rust/crates/clickman/src/sender.rs:104-111 | as written and while the clock stands still, a drain never ends exactly when batches may hold events and the unexpired events from the first one that does not fit into a batch with the next, or else the newest, on are due; all of them where a batch holds one event |
| Draining.DueDrainStandsAtStop | rust/crates/clickman/src/batch.rs:96-109 | with batches of two events or more, for every queue: that is when `flush_at` events wait from there on or one of them has waited for `flush_interval`; where any two neighbours fit into a batch, when `flush_at` is at most one or the newest event is that old |
| Draining.DrainUnderAnyClock | rust/crates/clickman/src/sender.rs:104-111 | with a clock that runs on and no event expiring, due from there on at the first take means the drain never ends, and never ending means due from there on at every take after as many as there are events |
| Draining.NeverEndsUnderEveryClockIff | rust/crates/clickman/src/sender.rs:104-111 | the drain never ends under every clock that no event expires at exactly when the events from there on are due at the first take |
| DeviceQueue.Table.Insert | rust/crates/clickman/src/event.rs:53-67 | the event goes last under the next number and the oldest beyond the limit go |
| DeviceQueue.Table.Purge | rust/crates/clickman/src/batch.rs:87-94 | the events created before the bound go, the others keep their order |
| DeviceQueue.Table.Take | rust/crates/clickman/src/batch.rs:43-55 | after the purge the next batch when one is due, the oldest events of the queue |
| DeviceQueue.Table.Remove | rust/crates/clickman/src/batch.rs:78-81 | the statement as written |
| DeviceQueue.Table.DeleteThrough | kotlin/libraries/clickman/src/main/kotlin/com/lockvoid/clickman/QueueTransaction.kt:62-64 | the statement as meant |
| Sender.Sender.Reserve | rust/crates/clickman/src/sender.rs:127-137 | the one flight is taken unless it is taken already or a retry waits |
| Sender.Sender.Drop | rust/crates/clickman/src/sender.rs:57-61 | the flight is free again, the backoff stays |
| Sender.Sender.LeaveQueue | rust/crates/clickman/src/sender.rs:174-178 | a batch that left ends the run of failures |
| Sender.Sender.BackOff | rust/crates/clickman/src/sender.rs:180-193 | one more failure, saturating, and the time before which nothing is sent, saturating |
| Sender.Sender.Settle | rust/crates/clickman/src/sender.rs:159-178 | a delivered or refused batch leaves as written and clears the backoff; any other answer backs off and leaves the queue |
| Sender.Sender.SendNext | rust/crates/clickman/src/sender.rs:114-125 | one send: nothing while one is in flight, a retry waits or nothing is due, otherwise take and settle |
| DeviceDelivery.AttemptFacts | kotlin/libraries/clickman/src/main/kotlin/com/lockvoid/clickman/Delivery.kt:37-81 | an attempt that goes on took a batch off the front of what had not expired; nothing new is ever queued and numbers stay in order |
| DeviceDelivery.AttemptIsExact | kotlin/libraries/clickman/src/main/kotlin/com/lockvoid/clickman/Delivery.kt:37-81 | an event leaves exactly when it had expired or was in the batch answered with a 2xx, 400, 413 or 415; any other answer leaves all that is not expired, counts one more failure and waits from the clock then for the delay |
| DeviceDelivery.ForcedDrainEmpties | kotlin/libraries/clickman/src/main/kotlin/com/lockvoid/clickman/Delivery.kt:30-34 | when every batch is delivered or refused a forced drain leaves an empty queue |
| DeviceDelivery.DrainIsExact | kotlin/libraries/clickman/src/main/kotlin/com/lockvoid/clickman/Delivery.kt:30-34 | over a whole drain an event is gone exactly when an attempt of it found it expired or delivered it or had it refused |
| DeviceDelivery.Delivery.SendNextBatch | kotlin/libraries/clickman/src/main/kotlin/com/lockvoid/clickman/Delivery.kt:37-81 | one attempt on the queue and the failures, and whether a batch left |
| DeviceDelivery.Delivery.Drain | kotlin/libraries/clickman/src/main/kotlin/com/lockvoid/clickman/Delivery.kt:30-34 | the drain is attempt after attempt until one does not take a batch off, and it ends |
| Protocol.NextIsSound | rust/crates/clickman/src/sender.rs:104-178 | every step of tracking, draining, posting, answering, cancelling, restarting and the server keeps the invariant, for both forms of removal |
| Protocol.RunIsSound | rust/crates/clickman/src/sender.rs:104-178 | after every run of allowed steps from a new device and an empty server the invariant holds |
| Protocol.DeliveryConserves | rust/crates/clickman/src/sender.rs:104-178 | on every run each tracked event is queued unchanged or left with one fate, and has that fate exactly when a step of the run took it off the queue for that reason: tracking while `max_queue` newer events waited, a take when it was older than `max_age`, or a 2xx answer or a 400, 413 or 415 to a batch that held it; a trimmed event is older than the `max_queue` newest tracked; one that left as received is stored, or a request of the run that held it reached the server and it was rejected by itself, or its stored row was dropped by a step of the run; at most one row per message id |
| Protocol.ReceivedIsStoredOnce | rust/crates/clickman-ingest/src/database.rs:134-141 | while no raw row is dropped, an event that left as received is stored exactly once, however often it was sent, or was rejected by itself |
| Protocol.ServerIsExact | rust/crates/clickman-ingest/src/database.rs:134-141 | a request stores exactly its events that are not rejected and not stored yet, whatever was rejected before; dropping leaves exactly the kept rows; no other step reaches the server |
| Protocol.OneFlightAtATime | rust/crates/clickman/src/sender.rs:54-61 | on every run at most one drain holds the flight, and none that does started before its wait was over |
| Protocol.RetryWaits | rust/crates/clickman/src/sender.rs:180-193 | a retry counts the retries since a batch last left, saturating, leaves the queue alone, and waits from the time of the answer for a delay within a fifth of 5 s doubled per failure up to 600 s, or for the longer advice; times end at 2^63 - 1 |
| Protocol.ReservesAfterTheWait | rust/crates/clickman/src/sender.rs:127-137 | while a drain holds the flight or the wait lasts, trying to send changes nothing; otherwise the next drain gets the flight |
| Protocol.NothingIsSentDuringAWait | rust/crates/clickman/src/sender.rs:127-137 | on every run of steps before a wait ends, without a restart, no request is made |
| Protocol.WhatEndsAWait | rust/crates/clickman/src/sender.rs:159-193 | failures are forgotten by a restart and when a batch leaves, and kept by everything else, a cancelled send included |
| Protocol.SettlingIsExact | rust/crates/clickman/src/sender.rs:159-178 | on every run settling takes exactly the batch's events still queued, but the newest when removed as written, and nothing tracked since |
| Protocol.SendNextIsARun | rust/crates/clickman/src/sender.rs:114-125 | the client's own send is a run of these steps |
| Protocol.TrackIsARun | rust/crates/clickman/src/event.rs:53-67 | a step that tracks leaves the queue that `DeviceQueue.Table.Insert` leaves, and the sender, the flight and the server as they were |
| Funnel.Walk | ruby/lib/click_man/funnel.rb:157-174 | the loop over the steps finds the greedy path |
| Funnel.WalkIsOptimal | ruby/lib/click_man/funnel.rb:157-174 | a way goes through events of the steps in order whose fields pass, the first in the range and all in the window, ends included; on time-ordered occurrences the greedy path is such a way, no other enters earlier, and from the same entry none goes further or has its k-th event earlier |
| Funnel.NoEntryNoPath | ruby/lib/click_man/funnel.rb:160-161 | there is no path exactly when there is no way, not even of one step |
| Funnel.Tally.Bump | ruby/lib/click_man/funnel.rb:37-42 | one more per reached step in every table, and one gap per step but the first |
| Funnel.Tally.Add | ruby/lib/click_man/funnel.rb:33-43 | every table counts the paths added so far, by step, entry day and breakdown value |
| Funnel.ReachingIsCount | ruby/lib/click_man/funnel.rb:33-43 | a count is the number of paths that reach the step and whose entry is on the day, or has the value |
| Funnel.GapsAreListed | ruby/lib/click_man/funnel.rb:41 | one gap for every path that reaches the step, in the order they came: the time since the event of the step before |
| Funnel.FunnelNarrows | ruby/lib/click_man/funnel.rb:37-42 | no step is reached by more actors than the step before, in any slice |
| Funnel.DaysAddUp | ruby/lib/click_man/funnel.rb:38-39 | over the entry days the counts of a step add up to the funnel's |
| Limiter.RateLimiter.Check | rust/crates/clickman-ingest/src/limiter.rs:29-56 | prune, refill, decide: the new buckets and the decision |
| Limiter.CheckIsExact | rust/crates/clickman-ingest/src/limiter.rs:29-56 | above 100,000 buckets those idle for 600 s go; tokens come in at the rate since the client was seen, never for a clock that went back, up to the burst; a whole token is taken and allows the request; other buckets stay as they are |
| Limiter.BurstPlusRate | rust/crates/clickman-ingest/src/limiter.rs:29-56 | over any interval from any sound state a client is admitted at most burst + per_second · length times when 600 s refill the burst |
| Limiter.BurstPlusRateIff | rust/crates/clickman-ingest/src/limiter.rs:35-37 | that bound holds over every interval of every run from an empty limiter exactly when 600 s refill the burst, for every burst of at least one |
| Limiter.TwoBursts | rust/crates/clickman-ingest/src/limiter.rs:35-37 | otherwise a run from an empty limiter admits two bursts, rounded up, in the idle time and the time it takes to use them up |
| Limiter.PruningIsInvisibleIff | rust/crates/clickman-ingest/src/limiter.rs:35-37 | pruning never changes the tokens a client finds, in any run from an empty limiter, exactly when 600 s refill the burst |
| Limiter.RetryAfterIsEnough | rust/crates/clickman-ingest/src/limiter.rs:51-54 | a limited client that stays silent for `retry_after` is allowed next, whatever others do |
| Limiter.RetryAfterIsLeast | rust/crates/clickman-ingest/src/limiter.rs:47-54 | a check is allowed exactly with a whole token; otherwise `retry_after` is the least number of whole seconds, at least one, in which it comes in |
| Mixpanel.Bodies | ruby/lib/click_man/destinations/mixpanel.rb:47-61 | the loop over the records gives the bodies of the greedy split |
| Mixpanel.BodyHoldsRecords | ruby/lib/click_man/destinations/mixpanel.rb:60 | a body is the records byte for byte, the first behind a bracket, each other one behind a comma, a bracket behind the last |
| Mixpanel.GroupedIsSplit | ruby/lib/click_man/destinations/mixpanel.rb:47-61 | the bodies concatenate to the records in order, each one record or within the counted limit |
| Mixpanel.CountedIsOneOver | ruby/lib/click_man/destinations/mixpanel.rb:49-57 | the counted bytes are one more than a body has |
| Mixpanel.BodiesAreBounded | ruby/lib/click_man/destinations/mixpanel.rb:9 | a body of two records or more is below 10 MiB |
| Mixpanel.GreedyIsOptimal | ruby/lib/click_man/destinations/mixpanel.rb:51-58 | no split into consecutive bodies that fit sends fewer requests |
| Flattening.DeepMerge | rust/crates/clickman-protocol/src/batch.rs:247-256 | the loop over the entries merges as the recursive definition says |
| Flattening.MergeThenGet | rust/crates/clickman-protocol/src/batch.rs:246-256 | a key holds the event's value, objects on both sides merged, and other keys stay |
| Flattening.MergeIsIdempotent | rust/crates/clickman-protocol/src/batch.rs:193-199 | merging the same event context twice changes nothing, order included |
| Flattening.Walk | rust/crates/clickman-protocol/src/flatten.rs:15-40 | the loop inserts as the recursive definition says |
| Flattening.LastLeafWins | rust/crates/clickman-protocol/src/flatten.rs:6-8 | for any object a flat key is some leaf's path and holds the last leaf in document order with that path |
| Flattening.FlatHoldsPaths | rust/crates/clickman-protocol/src/flatten.rs:15-40 | without dots in keys a flat key is a path of keys and holds what it leads to |
| Flattening.FlatHoldsValues | rust/crates/clickman-protocol/src/flatten.rs:15-40 | those are the paths of at most five keys to anything but an object, and of five to an object; objects and arrays are held as their JSON text, texts cut to 1,024 characters, other values as they are |
| Flattening.MergeThenFlattenIsOverlayIff | rust/crates/clickman-protocol/src/batch.rs:193-199 | without dots and over-deep objects, flattening the merged context is the flattened batch context overridden by the flattened event context exactly when no key is a leaf of the batch under an object of the event, or an object of the batch with a leaf under a leaf of the event, through objects on both sides |
| Flattening.OneSidedObjectIsNotOverlay | rust/crates/clickman-protocol/src/batch.rs:246-256 | a leaf of the batch under an object of the event is gone from the merged context, though not from the overlay |
| Sanitizing.CardDigits | rust/crates/clickman-protocol/src/sanitize.rs:98-116 | the scan gives the digits of the run and the index just past it |
| Sanitizing.RunIsTheLongestGrouped | rust/crates/clickman-protocol/src/sanitize.rs:96-97 | from a digit the run is the longest text of digits joined by single spaces or dashes |
| Sanitizing.FindsCard | rust/crates/clickman-protocol/src/sanitize.rs:81-94 | a card is found exactly when somewhere the longest text of digits joined by single spaces or dashes, detached on both sides, has 13 to 19 digits, begins with 2 to 6 and has a checksum that ten divides |
| Sanitizing.OneWrongDigitIsCaught | rust/crates/clickman-protocol/src/sanitize.rs:118-135 | replacing a digit of a valid number keeps it valid only if the digit is the same |
| Sanitizing.SwapIsCaughtUnlessNineZero | rust/crates/clickman-protocol/src/sanitize.rs:118-135 | swapping two adjacent digits keeps it valid only if they are equal, or 0 and 9 |
| Sanitizing.CheckDigitIsUnique | rust/crates/clickman-protocol/src/sanitize.rs:118-135 | every number has exactly one check digit |
| Sanitizing.SeparatorKeepsCards | rust/crates/clickman-protocol/src/sanitize.rs:81-116 | a space or dash between two adjacent digits never hides a card, and can only add one that starts right behind it |
| Sanitizing.PhoneEnd | rust/crates/clickman-protocol/src/sanitize.rs:152-166 | the scan counts the digits of the longest run of phone characters that ends in a digit |
| Sanitizing.FindsPhone | rust/crates/clickman-protocol/src/sanitize.rs:137-148 | a phone number is found exactly when behind a detached plus sign and a digit the longest text of digits, spaces, dashes, dots and parentheses that ends in a digit has 10 to 15 digits and is detached |
| Sanitizing.SeparatorKeepsPhones | rust/crates/clickman-protocol/src/sanitize.rs:137-166 | a separator between two adjacent digits changes nothing about phone numbers |
| Sanitizing.Sanitize | rust/crates/clickman-protocol/src/sanitize.rs:54-64 | the loop overwrites exactly the sensitive values |
| Sanitizing.CleanedIsClean | rust/crates/clickman-protocol/src/sanitize.rs:54-75 | afterwards no text holds an email, card or phone number, no filtered key keeps its value, and filtering again changes nothing |
| Sanitizing.CleanedIsExact | rust/crates/clickman-protocol/src/sanitize.rs:54-75 | a value is overwritten exactly when the lower-cased last part of its key contains a fragment or it is a text with an email, card or phone number |
| TimeText.TextOrderIsTimeOrder | rust/crates/clickman-ingest/src/database.rs:184-202 | for years 0 to 9999 the texts compare as the times at microseconds, also when only one carries the fraction, and are equal only for equal times |
| TimeText.PrintedReads | rust/crates/clickman-ingest/src/database.rs:184-202 | the text is `YYYY-MM-DD hh:mm:ss` with `.ffffff` behind it for microseconds, each number read back from its place |
| TimeText.PartsAreTheTime | rust/crates/clickman-ingest/src/database.rs:184-202 | the numbers are a day of the Gregorian calendar and a time of that day, and add up to the time |
| TimeText.PaddedIsOrdered | rust/crates/clickman-ingest/src/database.rs:188-189 | numbers padded to one width compare as text like numbers |

## Left out

- HTTP, gzip, SQL engines, PostgreSQL partitions, locks and its bit strings: a transaction is one step; a lock that is not free only means fewer pages.
- MessagePack and Zstandard bytes: the payload term stands for them.
- The dictionaries of event names and keys: events carry the ids; `fields` is the merged map of properties and `context.` keys.
- `Relational.Store.EnrollActors` goes event by event where the source groups the page first; the actors and first days are the same, the ids may be handed out in another order.
- `Relational.Store.Prune` gets the first day retention keeps as a parameter; computing the first of a month is not modelled.
- `Actives.Report` takes ranges from day 29 of year 0 on: days have no negative numbers.
- Integers turned to floats are kept as exact reals, and so are token counts and random factors: rounding is not modelled.
- `Funnel.Walk` compares field values by kind and value, where Ruby's `==` also takes 1 for 1.0.
- `Funnel.Tally.Add` keeps gaps in whole milliseconds; medians, the ten top breakdown values, grouping and sorting of journeys, and the loading and checking of definitions are left out.
- Cohorts, event totals and `each_event`: sums and reads over the same tables.
- `Sender.Sender.Settle`: a storage or compression error of a send acts like a cancellation, and log lines are left out.
- `Protocol.DeliveryConserves`: a body is its message id and its length; validation at tracking, identities, traits and launch events are left out.
- `Draining.DrainUnderAnyClock`: with a clock that runs on during a drain the two directions are bounds at the first and at late takes; what is due between them depends on the readings. An event that expires while the drain goes on is left out here.
- `DeviceQueue.Table.Take`: `now - max_age` and `now - oldest` are exact where the client saturates at 64 bits.
- `DeviceDelivery.Delivery.SendNextBatch`: the failure count does not wrap at 32 bits, and the clock is read again at a retry.
- The Swift client and the Ruby flattener and sanitizer: the same rules as the modelled files.
- `Flattening.Walk` gives a map: the order of flat keys is left out, and the limits on their number and length too.
- The email pattern, Unicode classes and lower-casing: parameters.
- Times before year 0 or after 9999, RFC 3339 parsing, and parts of a microsecond.
