# Verified models of Torq's caches, importers and state machines

Torq watches Lightning nodes. Its back end keeps in-memory caches, runs a service state machine, fans events out to
subscribers and imports forwards, payments and routing policies page by page. Whether these parts are right shows only over
whole runs. This project models them in Dafny, one module per component, and proves what they keep over every run.

| module | component |
|---|---|
| `Corridors` | the corridor matcher: rules filed in buckets by a 7-bit specificity mask, looked up bucket by bucket in map order |
| `ChannelGroups` | the `channel_group` table, a materialised view of the matcher for every channel end, category and tag |
| `Forwards` | the paged import of the forwarding history, restarting from the second of the newest stored forward |
| `Payments` | the one-by-one import of payments and the pass over payments in flight |
| `Broadcast` | the fan-out server: subscribe, cancel, publish, stop |
| `Services` | the service state machine: status, subscriptions, boot lock, one-time overrides, stream statuses, event log |
| `ChannelStates` | the channel state cache: balances, pending HTLCs, readiness, and the forward events that drive it |
| `ChannelIndexes` | the channel cache: six maps by short channel id, channel point and id |
| `RoutingPolicies` | the change log of routing policies |
| `PingFlags` | the ping system flags, as bit operations and as SQL arithmetic |
| `ShortChannelIds`, `Decimals` | the short channel id and channel point codecs on Go's decimal formatting and parsing |
| `Bits`, `Collections`, `Options`, `Statuses` | bits of natural numbers, and shared datatypes |

Objects that the Go code changes in place are classes whose methods are proved against functions of the run or of the
previous state; the theorems are about those functions. What a function that both a method and its theorem use does to
the data is also said field by field, with the constants written out (`BestByFields`, `CommittedByFields`,
`PassByPayments`, `LastTouchDecides`, `WrittenMoves`, `WriteIsByFields` and others). Go's map iteration is an arbitrary
choice of the next key, so a result that a method promises does not depend on it. The database is a table (a sequence or a
map) with the effect of the statements; the node behind a request is an ordered sequence. Clocks, failures of statements and requests, and
cancellation are parameters, and every property holds for all their values unless it says otherwise.

## Where the code is not what it seems

Each point names its theorem, which gives the exact condition, and what in the program or from its nodes produces it.

- The unique key of `channel_group` is channel, category and tag, without the node (`database/migrations/000049_categories.up.psql:72-81`).
  A run for the tags inserts such a row for each end of a channel, so it fails and rolls back exactly when a tag with a
  category is on from both ends (`ChannelGroups.RowsInsertedOnce`, `ChannelGroups.CommitsIff`). With the rules that requests
  add, that is exactly when the tag was requested for both ends of a channel (`ChannelGroups.RequestsCommitIff`), so two
  requests do it, one for each end (`ChannelGroups.TwoRequestsNeverCommit`). This is about what the insert of a rule is meant
  to do: the statement lists 14 columns for 12 placeholders (`internal/corridors/database.go:132-138`). A run for the
  categories always commits.
- The forward import truncates nanoseconds to seconds, so it never ends when one second ahead of it holds a whole page
  (`Forwards.ImportEndsIff`), and the table is keyed by timestamp alone, so it is complete exactly when no other node took
  one of the timestamps (`Forwards.CoveredIsCompleteIff`).
- The in-flight pass updates by payment index without the node. It keeps finished rows exactly when none shares an index
  with an in-flight row of the node (`Payments.FinalRowsKeptIff`), and it keeps the import gap-free exactly when no row of
  another node has a refreshed index (`Payments.PassKeepsStoredIff`). So over any run the import stays gap-free all along
  exactly when no pass does that (`Payments.GapFreeAllAlongIff`): it takes two nodes in one table, both of which number
  their payments from 1. Without incomplete payments the import has gaps exactly from payments that succeed after a later one
  was stored (`Payments.LateCompletionIsTheGap`).
- HTLCs are matched by index alone, while each side of a channel counts its own (BOLT #2). An incoming HTLC and an outgoing
  one with the same index cancel each other's entry and leave both amounts in the unsettled balance
  (`ChannelStates.SharedIndexLosesTrack`); the balance tracks the pending HTLCs exactly when every leg agrees with what is
  booked for its index (`ChannelStates.UnsettledTracksPending`). An outgoing leg moves the balance by the incoming amount,
  so against the stored amounts a fee of a satoshi is enough (`ChannelStates.StoredDifferenceKeptIff`).
- Settles and failed forwards are sent without amounts (`pkg/lnd/htlcevents.go:74-90`), so they have no leg, and an HTLC that
  was forwarded and has been settled stays pending (`ChannelStates.SettledStaysPending`). An entry leaves exactly on another
  forward or link failure with its index (`ChannelStates.PendingAfterStreamIff`, `ChannelStates.EntryLeavesIff`). The producer
  keeps the event it stored last and sends it again for an event of a kind that its switch does not name
  (`pkg/lnd/htlcevents.go:196-246`), so such an event right after a forward takes the forward's entry away again
  (`ChannelStates.UnhandledTakesBack`).
- A balance update derives the remote balance from the local balance it has just changed, so any forward changes the
  channel's total unless the remote balance already was the new local one (`ChannelStates.TotalKeptIff`).
- The unlock that a boot defers to its end frees the lock of whichever boot holds it then. During a later boot of the node
  a Cancel then goes through, and that boot's own unlock is a fatal error (`Services.StaleUnlockOpensTheBoot`). A boot that
  ends by itself asks for the next one before its deferred unlock runs (`cmd/torq/torq.go:350-391`), and
  `Services.StaleUnlockIsReached` is that run.
- A close by channel status evicts one key, so it is complete exactly when the channel had at most one
  (`ChannelIndexes.EvictionIsCompleteIff`); a closed status written with the whole channel evicts nothing
  (`ChannelIndexes.OnlyStatusWritesEvict`), and an open status written alone files nothing. So the active index is the open
  channels of the status cache exactly when no such write is a channel's last, and the active index by short channel id
  exactly when, besides, no channel without such an id is written as open last (`ChannelIndexes.ActiveIsOpenIff`). The closed
  event writes the whole channel first, and the graph import writes the open status alone (`pkg/lnd/channelinfo.go:140-142`).
- A stored minimum HTLC below zero cannot be read back as unsigned: every later update of that direction fails, and rows
  are lost exactly when one of them differs (`RoutingPolicies.LogIsChanges`). The message field is signed, so it takes a
  node that sends a negative minimum.
- The flag argument is doubled in byte arithmetic and taken as a modulus, so the SQL updates are the bit operations exactly
  for the flags 1 to 64 (`PingFlags.UpdateIsBitwiseIff`). The guard of the request has no lower bound
  (`internal/settings/routes.go:474`), so it lets every byte through (`PingFlags.EveryByteIsAccepted`), 0 and 3 as they are.
- The comment on `GetStatus` (`pkg/commons/services.go:120-121`) says Pending when a stream is not active; the code returns
  the common status when the streams that are not active agree (`Services.StreamsStatus`).

Five results are about inputs that the program itself does not produce:

- A rule without a reference is filed as if its reference were 0 and then never matches, so it hides an earlier rule for
  reference 0, and the lookup is the linear scan exactly when no rule is hidden (`Corridors.LookupIsLinearScanIff`). The one
  caller that adds rules always sets a reference that is not zero (`internal/channel_groups/routes.go:70-94`), so it takes
  rows written by hand; for rules with references the lookup is always the scan (`Corridors.AllReferencesPresent`).
- The outgoing leg of an HTLC event dereferences the incoming amount. The one producer sets both amounts or neither
  (`pkg/lnd/htlcevents.go:74-90`), so no event it sends makes the cache panic (`ChannelStates.ProducedNeverPanics`).
- One rule for a tag without further restriction makes every run for the tags roll back
  (`ChannelGroups.UnrestrictedTagRuleNeverCommits`). The one caller that adds rules always restricts the node
  (`internal/channel_groups/routes.go:88-93`).
- The page size option of the forward import is taken only when it is outside the bounds that the comment above the guard
  gives (`pkg/lnd/forwards.go:129-133`; `Forwards.OptionIsIgnoredWithinBounds`). The program passes no options
  (`cmd/torq/internal/subscribe/server.go:227,230`).
- The parser of short channel ids panics exactly on a number without a separator and on two numbers with one
  (`ShortChannelIds.ParserPanicsIff`). Its one caller gets the ids of stored channels (`pkg/commons/managedChannel.go:207`).

## Model

| member | source | states |
|---|---|---|
| Corridors.PriorityAsNumber | internal/corridors/corridor.go:13-23 | the weight of each of the seven fields in the mask: from category 1, from tag 2, from node 4, to category 8, to tag 16, to node 32, channel 64 |
| Corridors.PriorityBitIsFieldPresence | internal/corridors/corridor.go:214-247 | a bit of the sum tests true exactly when the corridor's field is present and non-zero |
| Corridors.EqualPriorityIsEqualFields | internal/corridors/corridor.go:214-238 | two priorities are equal exactly when the same fields are populated |
| Corridors.TypesAreOffByDefault | internal/corridors/corridor.go:25-30 | the two types of rule have the ids 0 and 1, and where no rule decides both are off |
| Corridors.PriorityIsLexicographic | internal/corridors/corridor.go:214-242 | one priority is greater exactly when the highest-ranked field on which the corridors differ is populated in it, whatever the lower ones are |
| Corridors.MaskComparisonIsMatch | internal/corridors/corridor.go:249-272 | comparing the reconstructed key under the mask says exactly that every restriction of the rule holds for the key looked up |
| Corridors.KeyDeterminesPriority | internal/corridors/corridor.go:179-238 | rules filed under one reconstructed key have one priority, so a later rule replaces an earlier one in the same bucket |
| Corridors.SameBucketSameKey | internal/corridors/corridor.go:90-93 | two matching rules of one type in one bucket have one reconstructed key, so at most one entry of a bucket can hit |
| Corridors.BestIsUnique | internal/corridors/corridor.go:85-97 | the most specific matching rule in force is unique, so the answer does not depend on map order |
| Corridors.BestByFields | internal/corridors/corridor.go:179-272 | field by field: the best rule is, of the rules that no later rule with the same reference and restrictions replaces, the one that fits the key and weighs most, with the weights 1, 2, 4 for from-category, from-tag, from-node, 8, 16, 32 for the to-fields and 64 for the channel |
| Corridors.AnswerByFields | internal/corridors/corridor.go:85-97 | the answer to a lookup is the rule that decides in this sense, and an answer without reference that is off when no rule does |
| Corridors.ScanKeepsLastMostSpecific | internal/corridors/corridor.go:85-97 | the reference scan over the rule list keeps the matching rule of greatest priority, the last among equals |
| Corridors.BestIsLinearScan | internal/corridors/corridor.go:85-97 | with no hidden rule the best rule in force is the one the scan of the rule list finds, for every key |
| Corridors.HiddenRuleIsMissed | internal/corridors/corridor.go:186-188 | a rule for reference 0 that a later rule without a reference replaced is missed when looked up by its own key |
| Corridors.LookupIsLinearScanIff | internal/corridors/corridor.go:85-97 | lookups agree with the linear scan for all keys if and only if no rule of the list is hidden |
| Corridors.AllReferencesPresent | internal/corridors/corridor.go:85-119 | in particular they agree for every list whose rules all have a reference |
| Corridors.StagingCache.AddToCorridorCache | internal/corridors/corridor.go:148-165 | after adding a rule the buckets hold exactly the rules in force of the longer list, each under its own priority and key |
| Corridors.FilingKeepsRules | internal/corridors/corridor.go:148-165 | filing one rule keeps the buckets equal to the rules in force: it replaces the rule of the same key and no other |
| Corridors.SortDescending | internal/corridors/corridor.go:117 | the sorted keys are a descending permutation of the keys |
| Corridors.CorridorCacheByType.Refresh | internal/corridors/corridor.go:135-146 | the cache is replaced by the rules in force of the list read from the database |
| Corridors.CorridorCacheByType.Finalize | internal/corridors/corridor.go:112-119 | the new cache has the staged buckets and exactly their priorities, descending |
| Corridors.CorridorCacheByType.GetBestCorridor | internal/corridors/corridor.go:85-97 | whatever the order within a bucket, the answer is the best rule of the list the cache was refreshed from, or the default of the type |
| Corridors.CorridorCacheByType.GetBestCorridorStatus | internal/corridors/corridor.go:283-286 | true exactly when some rule decides for the key, field by field, and has flag 1 |
| Corridors.FirstHit | internal/corridors/corridor.go:89-95 | the loops stop at the first bucket of the descending order that has a hit, and report none only when no bucket has one |
| Corridors.FirstHitIsBest | internal/corridors/corridor.go:89-95 | the first hit of the descending scan is the best rule of the list |
| Corridors.NoHitNoMatch | internal/corridors/corridor.go:96 | when no bucket has a hit no rule of the list matches, so the default is right |
| ChannelGroups.ChannelGroupTable.GenerateChannelGroupsByOrigin | internal/channel_groups/database.go:57-166 | the run commits exactly when the unique key allows every row and no statement up to the commit fails; then the origin's rows are those of the ends switched on and the rows of other origins are kept, and otherwise the table is as before. With distinct channels and tags and no failing statement it commits exactly when, for the tags, none with a category is on from both ends of a channel. After a commit, column by column: a row of the category origin is in the table exactly when some listed channel and category have its channel, its category, no tag and its node at one end, and the rules for that end decide with flag 1; a row of the tag origin likewise, with the tag and the tag's category |
| ChannelGroups.InsertRows | internal/channel_groups/database.go:73-112 | the loops over channels and subjects insert the rows of every pair in order, one a statement; they stop at the first statement that fails or whose key is taken, with the rows before it inserted |
| ChannelGroups.InsertedIff | internal/channel_groups/database.go:84-93 | all rows go through exactly when none of their statements fails and the keys stay distinct |
| ChannelGroups.InsertSubjectRows | internal/channel_groups/database.go:118-158 | a channel is looked up from its first node to its second and then the other way round, and each end that is on gets its row unless its insert fails or finds the key taken |
| ChannelGroups.InsertedRowsAreWanted | internal/channel_groups/database.go:78-160 | a row is inserted if and only if it belongs to an end of a listed channel whose best corridor for a listed subject has flag 1 |
| ChannelGroups.OtherOriginsKept | internal/channel_groups/database.go:66 | the delete removes every row of the origin and keeps every other row with its multiplicity |
| ChannelGroups.ViewIsExact | internal/channel_groups/database.go:57-166 | membership in the table after a run: for this origin the wanted rows when the unique key allows them, and the rows before otherwise; for other origins always the rows before |
| ChannelGroups.CommittedByFields | internal/channel_groups/database.go:73-158 | the rows attempted, column by column: node, channel, origin, tag and category of each row, and the fields of the rule that switches it on |
| ChannelGroups.SecondRunChangesNothing | internal/channel_groups/database.go:57-166 | a second run on the same rules, channels and subjects gives the same table, whether the first one committed or rolled back |
| ChannelGroups.RowsInsertedOnce | database/migrations/000049_categories.up.psql:72-81 | with distinct channels and subjects the rows to insert have distinct channel, category and tag if and only if no tag with a category is on from both ends of a channel |
| ChannelGroups.CommitsIff | internal/channel_groups/database.go:113-165 | on a table in which only the tag origin has tags, a run without other failures commits if and only if no tag with a category is on from both ends; a run for the categories always commits |
| ChannelGroups.OnIffRequested | internal/channel_groups/routes.go:70-96 | with the rules that requests add, in any number and order, a tag is on for an end of a channel if and only if that end was requested, for the channel or for all of the node's |
| ChannelGroups.RequestsCommitIff | internal/channel_groups/routes.go:70-109 | with those rules a run for the tags commits if and only if no tag with a category was requested for both ends of a channel, and otherwise leaves the table as it was |
| ChannelGroups.TwoRequestsNeverCommit | internal/channel_groups/routes.go:70-96 | one request for each end of a channel, with a tag that has a category, makes every run for the tags leave the table as it was, whatever else is requested |
| ChannelGroups.UnrestrictedTagRuleNeverCommits | internal/channel_groups/database.go:120-157 | one rule for a tag with a category and no restriction makes every run for the tags leave the table as it was |
| Forwards.OptionIsIgnoredWithinBounds | pkg/lnd/forwards.go:123-133 | the page size is within the documented bounds if and only if the option is absent or was within them, and then it is the default and not the option |
| Forwards.CoveredIsCompleteIff | pkg/lnd/forwards.go:26-29 | a table that covers the whole log holds every forward exactly once, and nothing else for the node, if and only if no other node took one of its timestamps |
| Forwards.CoveredUnderGrowth | pkg/lnd/forwards.go:145-203 | forwards that the node adds between ticks leave what is stored a gapless prefix |
| Forwards.PageCovers | pkg/lnd/forwards.go:33-67 | inserting a page that starts at or before the end of the stored prefix leaves no gap, whatever of it was stored already |
| Forwards.InsertAllEffect | pkg/lnd/forwards.go:26-54 | a page changes no stored row, and every row it adds is the node's and has a timestamp of the page |
| Forwards.CrowdedStays | pkg/lnd/forwards.go:156-193 | when a second ahead holds a whole page no page is short and the position after it is crowded too |
| Forwards.FullPageProgresses | pkg/lnd/forwards.go:156-193 | otherwise each full page stores at least one new forward |
| Forwards.EveryPageCounts | pkg/lnd/forwards.go:152-201 | n full pages store at least n forwards |
| Forwards.ImportEndsIff | pkg/lnd/forwards.go:152-201 | the loop reaches a short page if and only if the log is not crowded ahead of what is stored, and then within as many pages as forwards are missing plus one |
| Forwards.ForwardImporter.FetchLastForwardTime | pkg/lnd/forwards.go:88-104 | the newest timestamp of the node's rows, or 0 without rows |
| Forwards.ForwardImporter.StoreForwardingHistory | pkg/lnd/forwards.go:20-84 | one transaction inserts the page without touching taken timestamps; once bootstrapped, events are sent for the whole page, repeated rows included |
| Forwards.ForwardImporter.ImportPage | pkg/lnd/forwards.go:155-193 | one page extends the gapless prefix as computed from the log alone; a short stored page means that all is stored; every added row is announced unless bootstrapping |
| Forwards.ForwardImporter.TakeOutcome | pkg/lnd/forwards.go:153-199 | one turn of the page loop: nothing is written and the status is Pending when a request or its start time fails, nothing changes when it is cancelled, and a served page ends the loop exactly when it is short |
| Forwards.ForwardImporter.ImportPages | pkg/lnd/forwards.go:152-201 | over the pages of one tick, with any failures, the stored rows stay a gapless prefix; the loop ends at the first turn that fails, is cancelled or serves a short page, and bootstrapping ends with such a page |
| Forwards.ForwardImporter.Tick | pkg/lnd/forwards.go:145-203 | without failures and clashes the tick ends with the whole log stored exactly once when it is not crowded, and never ends when it is |
| Forwards.NothingCovered | pkg/lnd/forwards.go:95-97 | a table without rows of the node is a start for the import |
| Forwards.ForwardImporter.Run | pkg/lnd/forwards.go:145-203 | over any run of ticks on a growing log, whatever fails, the stored forwards stay a gapless prefix; after a last tick that ends caught up with its pages stored, the whole log is stored exactly once if and only if no other node took a timestamp |
| Payments.NothingSkipped | pkg/lnd/payments.go:125-142 | no listed payment lies between the requested index and the one payment answered |
| Payments.RestartKeepsStored | pkg/lnd/payments.go:60 | restarting from the largest stored index skips nothing, wherever the previous tick stopped |
| Payments.StoredIsGapFree | pkg/lnd/payments.go:111-122 | without clashes the node has a row for a listed payment if and only if its index is at most the largest stored one |
| Payments.GapFreeUnderChange | pkg/lnd/payments.go:52-107 | with incomplete payments included, later payments and later outcomes of earlier ones open no gap |
| Payments.LateCompletionIsTheGap | pkg/lnd/payments.go:125-134 | without them, and without clashes, a gap opens if and only if some payment with an index up to the bound had not succeeded when the range was imported and succeeds afterwards |
| Payments.InsertStores | pkg/lnd/payments.go:145-163 | storing the next listed payment moves the gapless bound to its index |
| Payments.PaymentImporter.FetchLastPaymentIndex | pkg/lnd/payments.go:111-122 | the largest index of the node's rows, or 0 without rows |
| Payments.PaymentImporter.Tick | pkg/lnd/payments.go:52-107 | whatever fails the stored payments stay gap-free, no stored row changes and every added row is a copy of a listed payment; the loop ends at the first request that fails, or caught up with everything listed when nothing fails, and the status is Pending exactly when something could not be read; events announce each added row in index order once bootstrapped |
| Payments.PaymentImporter.StoreListed | pkg/lnd/payments.go:83-99 | one page of the loop keeps the bound, the frame and the announcements, and leaves fewer payments to fetch |
| Payments.PaymentImporter.TakeRequest | pkg/lnd/payments.go:66-105 | one request of a tick: it ends the tick when it fails, is cancelled, cannot be stored or lists nothing, with the status that this leaves, and otherwise stores the payment listed next |
| Payments.PaymentImporter.StorePayment | pkg/lnd/payments.go:144-243 | the payment is inserted as it is, under its creation time rounded to the microsecond and its index, unless they are taken, and announced once bootstrapped |
| Payments.PaymentImporter.FetchInFlightPaymentIndexes | pkg/lnd/payments.go:331-358 | exactly the indexes of the node's rows in flight |
| Payments.PaymentImporter.UpdateInFlightPayments | pkg/lnd/payments.go:268-312 | every row of an in-flight index whose request succeeds is overwritten once: by the node's payment of that index, all but its index and creation time, and failed with its details unavailable when the node has none; all other rows stay |
| Payments.PassStep | pkg/lnd/payments.go:279-311 | refreshing one more index extends the pass by exactly the rows of that index, so the order of the pass does not matter |
| Payments.PassByPayments | pkg/lnd/payments.go:360-452 | by the payments of the node: a refreshed row gets hash, preimage, request, value and fee of the payment with its index, and its status and reason, or failed for an in-flight payment that has expired, with a timeout for want of a reason; without such a payment it is failed with details unavailable and otherwise as before |
| Payments.FinalRowsKeptIff | pkg/lnd/payments.go:360-395 | the pass keeps every finished row of every node, for all answers, if and only if none shares an index with an in-flight row of the node |
| Payments.OwnFinalRowsKept | pkg/lnd/payments.go:279-311 | with one row an index no finished row changes |
| Payments.PassSettles | pkg/lnd/payments.go:407-440 | after a pass without failures a row is still in flight if and only if the node says so and the invoice has not expired |
| Payments.PassKeepsStoredIff | pkg/lnd/payments.go:279-311 | the pass keeps the node's rows gap-free if and only if no row of another node has a refreshed index; otherwise they are gap-free up to no bound at all |
| Payments.PassKeepsStoredAlone | pkg/lnd/payments.go:279-311 | with the table to itself a node stays gap-free through every pass |
| Payments.PaymentsMoveOn | pkg/lnd/payments.go:60 | between two turns, payments that are added and completed leave the largest stored index a bound without gaps |
| Payments.NothingStored | pkg/lnd/payments.go:114 | a table without rows of the node is a start for the import |
| Payments.OthersImportSo | pkg/lnd/payments.go:145-163 | every insert and every pass of another node is a write of the kind that a run takes account of |
| Payments.TurnKeepsGapFreeIff | pkg/lnd/payments.go:52-315 | one tick, pass or write of another node keeps gap-free rows so if and only if it is no pass that refreshes an index under which another node has a row |
| Payments.GapFreeAllAlongIff | pkg/lnd/payments.go:52-315 | over any run the rows are gap-free after each turn if and only if none of the turns is such a pass |
| Payments.PaymentImporter.ImportAfter | pkg/lnd/payments.go:66-105 | the requests of a tick from an index on keep gap-free rows so, and end with everything listed stored when nothing fails |
| Payments.PaymentImporter.Run | pkg/lnd/payments.go:52-315 | over any run of ticks, passes and other nodes' writes on evolving payments, whatever fails, the node's rows stay gap-free all along if and only if no pass refreshes an index under which another node has a row; then a last tick in which nothing fails has stored everything |
| Broadcast.DueIsContiguous | pkg/broadcast/broadcast.go:49-78 | over every history, what a channel is due is the run of published values from its registration to its removal |
| Broadcast.DueIsValuesSince | pkg/broadcast/broadcast.go:49-78 | a channel that has not been removed is due exactly the values taken since it was added, in order |
| Broadcast.ReceivedIsContiguous | pkg/broadcast/broadcast.go:64-76 | what a channel received is that segment in order, or all but the value in flight when the context ended, and the latter only for a channel still listening |
| Broadcast.DueIsSettled | pkg/broadcast/broadcast.go:49-78 | once a channel has left or the server has stopped, nothing that happens later is due to it |
| Broadcast.SwapRemoveDropsOne | pkg/broadcast/broadcast.go:58-59 | overwriting a position with the last listener and cutting the slice drops exactly that listener and keeps the slice free of repeats |
| Broadcast.BroadcastServer.Send | pkg/broadcast/broadcast.go:71 | the value is appended to the channel's inbox; the channel must be open |
| Broadcast.BroadcastServer.Close | pkg/broadcast/broadcast.go:60 | the channel joins the closed ones; it must not have been closed before |
| Broadcast.BroadcastServer.Add | pkg/broadcast/broadcast.go:53-54 | the listeners stay added minus removed without repeats, and inboxes and closed channels stay as the history promises |
| Broadcast.BroadcastServer.Remove | pkg/broadcast/broadcast.go:55-63 | the same for a removal: a listening channel is closed once, an unknown one changes nothing |
| Broadcast.BroadcastServer.SwapRemoveAndClose | pkg/broadcast/broadcast.go:56-63 | the listener is dropped and closed when it is in the slice, and nothing happens otherwise |
| Broadcast.BroadcastServer.Publish | pkg/broadcast/broadcast.go:64-76 | every listener gets the value, or those before the one at which the context ended, and then the server stops |
| Broadcast.BroadcastServer.Deliver | pkg/broadcast/broadcast.go:68-76 | exactly the listeners in front of the cut get the value |
| Broadcast.BroadcastServer.Exit | pkg/broadcast/broadcast.go:41-47 | on exit every channel ever added has been closed exactly once |
| Broadcast.BroadcastServer.Serve | pkg/broadcast/broadcast.go:40-79 | over any sequence of events the invariant holds and the history is the events taken; only a stopped server leaves events |
| Services.LogReconstructsStatus | pkg/commons/services.go:407-423 | over every run with an event channel a node's service events form a chain from Inactive, each a change that starts where the previous ended, to the stored status |
| Services.RunningIsNotInactive | pkg/commons/services.go:32-90 | a node with a running subscription is never Inactive |
| Services.ActiveNodeHasEveryStream | pkg/commons/services.go:425-431 | an active LND node has an entry for every stream |
| Services.EnforcedStatusOnce | pkg/commons/services.go:67-104 | enforced statuses are handed out at most as often as cancels went through, and the one waiting is the last cancel's |
| Services.NoDelayOnce | pkg/commons/services.go:67-118 | the same for the no-delay flag |
| Services.StepSets | pkg/commons/services.go:32-375 | one call leaves what it sets, as in the row below, and everything else of the node as it was |
| Services.LastTouchDecides | pkg/commons/services.go:32-375 | over any run what a node shows is what the last call that sets it left: the status is Pending after a subscription, Initializing after Initialising, Active after Booted, and Inactive after a removal or a Cancel that went through; a stream's status is the one set last since an LND Booted reset all to Pending or a subscription, removal or Cancel reset them to Inactive; and so for the subscription, the boot lock and the one-time settings |
| Services.CallIsLogged | pkg/commons/services.go:360-423 | each call with an event channel adds one event exactly when it changed the status, or the stream's status that it sets, from the old to the new one; a Cancel that goes through calls the function of the subscription it ends |
| Services.BootMakesActive | cmd/torq/torq.go:350-375 | there is an allowed run that makes a node active: a boot, and for an LND node all its streams |
| Services.ActiveImpliesCacheActive | pkg/commons/services.go:250-280 | an LND node that counts as active has an active balance-cache status |
| Services.SeenIsAggregate | pkg/commons/services.go:135-150 | the running fold over statuses gives a value that depends on the set of statuses alone |
| Services.MixedIsPending | pkg/commons/services.go:142-144 | two different statuses other than Active mean Pending, so the early return is right |
| Services.AggregateIsCommon | pkg/commons/services.go:122-156 | Active when all are, another status when it is the only one beside Active, Pending when two others differ |
| Services.CacheStatusesAre | pkg/commons/constants.go:154-165 | the balance cache depends on the forward, invoice, payment, peer, channel, graph and HTLC streams |
| Services.Services.AddSubscription | pkg/commons/services.go:32-46 | the call does to its node, the log and the cancel calls what the per-node machine says, and nothing to other nodes |
| Services.Services.RemoveSubscription | pkg/commons/services.go:48-65 | the same for a removal |
| Services.Services.Cancel | pkg/commons/services.go:67-90 | the same for a cancel, and its answer: Inactive when nothing runs, Pending while booting, Active when cancelled |
| Services.Services.GetEnforcedServiceStatusCheck | pkg/commons/services.go:92-104 | hands out the enforced status waiting for the node and forgets it |
| Services.Services.IsNoDelay | pkg/commons/services.go:106-118 | hands out the no-delay flag waiting for the node and forgets it |
| Services.Services.Initialising | pkg/commons/services.go:332-340 | the node becomes Initializing, with an event when that is a change |
| Services.Services.Booted | pkg/commons/services.go:342-358 | the node becomes Active, its boot lock is released and its streams start Pending |
| Services.Services.SetStreamStatus | pkg/commons/services.go:360-377 | a change of a stream's status is stored and announced, a repeat does nothing |
| Services.Services.GetBootLock | pkg/commons/services.go:299-310 | a missing lock is created free, an existing one is left as it is |
| Services.Services.TryBootLock | cmd/torq/torq.go:343-344 | taking the lock succeeds exactly when it was free, and it is held afterwards |
| Services.Services.UnlockBootLock | cmd/torq/torq.go:350-354 | a lock that is held is free afterwards, whichever boot held it, and nothing else changes |
| Services.StaleUnlockIsReached | cmd/torq/torq.go:350-391 | there is an allowed run, a boot that ends by itself and then the next one up to its subscription, after which the first boot's deferred unlock is allowed, lets a Cancel through and makes the second boot's own unlock a fatal error |
| Services.StaleUnlockOpensTheBoot | cmd/torq/torq.go:350-375 | an unlock during another boot lets a Cancel through exactly when something runs, and makes that boot's own unlock a fatal error |
| Services.Services.SendServiceEvent | pkg/commons/services.go:407-423 | an event is sent exactly when the status changed and there is a channel |
| Services.Services.Run | pkg/commons/services.go:32-431 | over any run of calls, deferred unlocks included, the maps, the event log and the cancel calls are what the per-node machine makes of the run |
| Services.Services.GetStatus | pkg/commons/services.go:122-152 | the stored status, or for an active LND node the aggregate of its streams, in any map order |
| Services.StreamsStatus | pkg/commons/services.go:134-151 | Active when all streams are, the common status when the others agree, Pending when they do not, in any order of reading |
| Services.Services.GetActiveNodeIds | pkg/commons/services.go:168-191 | exactly the nodes whose status, as GetStatus reports it, is Active, each once |
| Services.Services.GetChannelBalanceCacheStreamStatus | pkg/commons/services.go:250-280 | the stored status, or for an active node the aggregate of the streams that feed the balance cache, a missing one read as Inactive |
| ChannelStates.TotalKeptIff | pkg/commons/managedChannelState.go:397-399 | the new remote balance is the old local one, and the channel's total is kept if and only if the remote balance already was the new local one |
| ChannelStates.RoundingDrift | pkg/lnd/channelBalanceCache.go:214-223 | after n forwards between cached channels the node's total local balance, in millisatoshi, is off the fees earned by exactly the sum of the truncations, at most 999 n |
| ChannelStates.DriftBoundIsTight | pkg/commons/managedChannelState.go:587-591 | for every n there are n forwards that drift by 999 n |
| ChannelStates.ForwardsMoveChannels | pkg/lnd/channelBalanceCache.go:214-223 | over any run of forwards a cached channel's local balance gains the whole satoshi of each forward that names it as incoming, less those of each that names it as outgoing; its updates count the times it is named, and nothing else of it changes but the remote balance |
| ChannelStates.ToggleKeepsDistinct | pkg/commons/managedChannelState.go:420-439 | an HTLC leg keeps distinct pending indexes distinct |
| ChannelStates.TwiceRestoresIff | pkg/commons/managedChannelState.go:420-470 | on any channel the same leg twice restores it if and only if its index was absent, or its entry was the last one and the only one of its index |
| ChannelStates.LegKeepsDifferenceIff | pkg/commons/managedChannelState.go:429-467 | one leg keeps the unsettled balance less what is booked for the pending indexes if and only if its index is not pending, or it moves the balance back by what is booked for it |
| ChannelStates.UnsettledAlikeIff | pkg/commons/managedChannelState.go:429-467 | two legs move the balance alike if and only if their amounts agree in satoshi, and their directions unless the amount is below one |
| ChannelStates.UnsettledTracksPending | pkg/commons/managedChannelState.go:429-467 | over every run of legs on any channel that difference is kept all along if and only if every leg agrees with the book as the legs before left it |
| ChannelStates.SharedIndexLosesTrack | pkg/commons/managedChannelState.go:447-470 | an incoming leg and an outgoing one with the same index leave the pending list as it was and both amounts in the unsettled balance |
| ChannelStates.StoredDifferenceKeptIff | pkg/commons/managedChannelState.go:420-470 | one leg keeps the unsettled balance less the signed stored amounts if and only if it moves the balance by the amount it adds, or back by those it takes |
| ChannelStates.IncomingOnlyUnsettled | pkg/commons/managedChannelState.go:429-437 | with only incoming HTLCs the unsettled balance minus the sum of the pending amounts is constant |
| ChannelStates.ChannelStateCache.WriteInitialChannelStates | pkg/commons/managedChannelState.go:292-305 | the node's channels are replaced by the given ones, the later of two entries for a channel |
| ChannelStates.ByChannelHoldsLast | pkg/commons/managedChannelState.go:292-305 | the node's channels are exactly those of the entries, each as in its last entry |
| ChannelStates.ChannelStateCache.WriteNodeStatus | pkg/commons/managedChannelState.go:306-322 | the status is stored; an active node is always ready, and one that stops being active is ready for less than the tolerated downtime |
| ChannelStates.ChannelStateCache.WriteChannelStatus | pkg/commons/managedChannelState.go:323-351 | for a ready node a cached channel is gone exactly after Deleted, is locally disabled after Inactive and enabled after Active, and is otherwise as before; every other channel, and every write that does not reach a cached channel of a ready node, changes nothing |
| ChannelStates.ChannelStateCache.WriteRoutingPolicy | pkg/commons/managedChannelState.go:352-387 | for a ready node the named side of a cached channel has the new policy, the other side keeps its own, and nothing else of the channel or of any other changes |
| ChannelStates.ChannelStateCache.UpdateBalance | pkg/commons/managedChannelState.go:388-406 | a cached channel gains the amount and counts an update, its remote balance is the local one from before, and everything else stays |
| ChannelStates.ChannelStateCache.SetChannelStateBalanceUpdateMsat | pkg/commons/managedChannelState.go:581-593 | the amount is truncated to satoshi before its sign is set |
| ChannelStates.ChannelStateCache.ProcessForwardEvent | pkg/lnd/channelBalanceCache.go:214-223 | both legs update their channels, the incoming one first |
| ChannelStates.ChannelStateCache.ProcessForwardEvents | pkg/lnd/channelBalanceCache.go:214-223 | after any run of forwards every cached channel has gained what they bring in on it less what they send out on it, and no other has changed; when all are between cached channels of a node its total is within 999 n of the fees earned |
| ChannelStates.ChannelStateCache.UpdateHtlcEvent | pkg/commons/managedChannelState.go:407-480 | an acceptable event toggles its incoming leg and then its outgoing leg, or panics before writing exactly when an applicable outgoing leg finds no incoming amount; distinct pending indexes stay distinct in every channel. Every channel moves as the event's own fields say (`WrittenMoves`) |
| ChannelStates.SendHtlcEvents | pkg/lnd/htlcevents.go:196-246 | for every streamed event the one stored last is sent: the event itself when its kind is handled, empty when storing failed, and otherwise the previous one once more |
| ChannelStates.SentIsTold | pkg/lnd/htlcevents.go:54-90 | an event that is sent has the channels and indexes of the streamed one, and its amounts for a forward and a link failure alone |
| ChannelStates.SentIsProduced | pkg/lnd/htlcevents.go:74-90 | every event sent has both amounts or neither |
| ChannelStates.ProducedNeverPanics | pkg/lnd/htlcevents.go:74-90 | an event with both amounts or neither never makes the outgoing leg panic |
| ChannelStates.PendingIsParity | pkg/commons/managedChannelState.go:420-440 | after any run of legs an index is pending if and only if an odd number of legs with it flips what it was before |
| ChannelStates.PendingAfterStreamIff | pkg/lnd/htlcevents.go:50-90 | over every stream an index is pending if and only if an odd number of turns flips what it was at the start: one for each stored forward or link failure with a leg for it, and one more for each repeat of such an event |
| ChannelStates.EntryLeavesIff | pkg/lnd/htlcevents.go:196-246 | the last event of a stream takes a pending entry away if and only if exactly one leg of what is sent for it has the index |
| ChannelStates.SettledStaysPending | pkg/lnd/htlcevents.go:74-90 | settles and failed forwards, any number of them, have no legs, so they leave every entry in place |
| ChannelStates.UnhandledTakesBack | pkg/lnd/htlcevents.go:196-246 | an event of an unhandled kind right after a forward leaves the incoming channel as it was before the forward |
| ChannelStates.EventTogglesLegs | pkg/commons/managedChannelState.go:417-476 | an event toggles exactly its own legs, in order, in every cached channel of every node |
| ChannelStates.WrittenMoves | pkg/commons/managedChannelState.go:417-476 | by the fields of the event: on the incoming channel the entries of its index go and the incoming amount is taken back, or an entry with that amount is added with it; on the outgoing channel the same with the outgoing index and amount in the entry, and the incoming amount with a minus in the unsettled balance |
| ChannelStates.ChannelStateCache.ProcessHtlcEvents | pkg/commons/managedChannelState.go:407-480 | over any run of events every cached channel has had exactly its legs toggled; a channel whose legs all agree with the book keeps its difference. When the events are what the producer sent for a stream, all are handled, and an index is pending exactly by the parity of its turns |
| ChannelStates.ChannelStateCache.ToggleHtlc | pkg/commons/managedChannelState.go:420-440 | the channel's pending list loses the leg's index or gains its entry, and the unsettled balance moves with it |
| ChannelStates.RebuildPending | pkg/commons/managedChannelState.go:420-428 | the list without the index, and whether the index was there |
| ChannelIndexes.EvictionIsCompleteIff | pkg/commons/managedChannel.go:172-191 | removing one of a channel's keys leaves none if and only if it had at most one |
| ChannelIndexes.PointsAreOneToOne | pkg/commons/managedChannel.go:214-216 | channels with different funding outputs have different channel points |
| ChannelIndexes.ExactAfterWrite | pkg/commons/managedChannel.go:136-197 | when ids map one-to-one to channel points and short ids, one write keeps the four indexes exact: active ones hold the channels opened and not closed by status since, the others all channels ever written, each under its own key alone |
| ChannelIndexes.WriteIsByFields | pkg/commons/managedChannel.go:136-191 | by the fields of a write: a channel with an id and a funding transaction is filed under its point and its short id, in the active indexes below status 100; a status of at least 100 alone evicts one key of each active index; every other write changes no index |
| ChannelIndexes.OnlyStatusWritesEvict | pkg/commons/managedChannel.go:142-191 | after a close by status no active entry for the channel is left; a channel written with a closed status leaves every active entry in place |
| ChannelIndexes.ChannelCache.WriteChannel | pkg/commons/managedChannel.go:136-166 | an accepted channel is filed in the indexes it belongs to, statuses and settings agree on one domain, and active keys are keys of the index of all channels |
| ChannelIndexes.ChannelCache.WriteStatus | pkg/commons/managedChannel.go:167-197 | a close removes one key of the channel from each active index if it has one; the status cache and the settings follow and everything else stays |
| ChannelIndexes.ActiveIsOpenIff | pkg/commons/managedChannel.go:136-197 | the active index by channel point holds the channels with an open cached status if and only if no channel's last write is a closed status with the whole channel while it was active, or an open status alone while it was not; the one by short channel id if and only if, besides, no channel that was not active is written last as open without a short channel id |
| ChannelIndexes.ChannelCache.Run | pkg/commons/managedChannel.go:136-197 | over any run of writes all four indexes stay exact, the caches agree and the cached statuses are those last written |
| ChannelIndexes.FindKey | pkg/commons/managedChannel.go:172-178 | a key of the channel, whichever comes first in map order, or the empty string when it has none |
| RoutingPolicies.NewestIsLast | pkg/lnd/channelgraph.go:247-252 | with increasing timestamps the newest row of a direction is the one stored last |
| RoutingPolicies.LogIsChanges | pkg/lnd/channelgraph.go:247-315 | per direction offered updates with increasing timestamps, the stored rows are the effective updates with adjacent repeats dropped, starting from no policy, and are those of all updates offered if and only if no negative minimum is followed by a different policy; each event carries the row before its own as previous data |
| RoutingPolicies.AllChangesIff | pkg/lnd/channelgraph.go:247-258 | nothing is lost, and the changes are those of all updates, if and only if no negative minimum is followed by a different policy |
| RoutingPolicies.NewestIsInForce | pkg/lnd/channelgraph.go:247-282 | the newest row, or no policy without rows, is the policy of the last effective update, and so of the last update offered when nothing was lost |
| RoutingPolicies.UpdateTakesEffectIff | pkg/lnd/channelgraph.go:247-282 | with an arbitrary timestamp an update is sure to be the newest afterwards if and only if it repeats the newest, is the first of its direction or is later |
| RoutingPolicies.RecordedIsAppended | pkg/lnd/channelgraph.go:260-315 | the row appended has the update's time, direction, policy and node, its event has each field of the policy in its place, and the previous data are those of the newest row before it |
| RoutingPolicies.EndsAreTheChannelsIff | pkg/lnd/channelgraph.go:232-245 | one known end is completed to the channel's two ends if and only if it is one of them |
| RoutingPolicies.PolicyStore.NodeIdOf | pkg/lnd/channelgraph.go:197-212 | a public key gets an id once, different keys get different ids, and the empty key gets none |
| RoutingPolicies.PolicyStore.SelectNewest | pkg/lnd/channelgraph.go:247-258 | a row of the direction with the greatest timestamp, or none when there is no row |
| RoutingPolicies.PolicyStore.RecordPolicy | pkg/lnd/channelgraph.go:247-315 | a row and its event are appended exactly when the policy differs from the newest row's; nothing changes when a statement fails or the newest row cannot be read |
| RoutingPolicies.PolicyStore.Offer | pkg/lnd/channelgraph.go:247-315 | the log stays what the updates offered leave of an empty one, an update lost to an unreadable row included |
| RoutingPolicies.PolicyStore.FindEnds | pkg/lnd/channelgraph.go:196-245 | the advertising node is the announcing end and the connecting node the connecting end, added when new; a missing end is the other node of the channel, and two missing ends are an error |
| RoutingPolicies.PolicyStore.InsertRoutingPolicy | pkg/lnd/channelgraph.go:181-317 | an update without a policy is skipped; any other one that gets as far as the newest row is offered for its direction, and is recorded exactly when that row can be read, between the ends that the update names |
| PingFlags.ArithmeticIsBitwise | internal/settings/database.go:202-224 | for a single flag up to 64 the modulo test is the bit test, and guarded addition and subtraction are or and and-not |
| PingFlags.UpdateIsBitwiseIff | internal/settings/database.go:202-224 | the guarded update agrees with the bit operation on all stored numbers if and only if the argument is one of 1, 2, 4, ..., 64 |
| PingFlags.EveryByteIsAccepted | internal/settings/routes.go:469-477 | for every byte, a single flag or not, there is an integer that the guard accepts and the conversion turns into it |
| PingFlags.LastChangeDecides | internal/settings/database.go:202-224 | after any run of activations and deactivations a flag is set exactly when its last change was an activation, or it was set before and never changed |
| PingFlags.NodeConnectionTable.SetPingSystemStatus | internal/settings/database.go:202-224 | the update changes the named row alone, as the bit operation for a single flag; it divides by zero for 0 and 128 |
| PingFlags.NodeConnectionTable.GetPingSystemNodeIds | internal/settings/database.go:83-97 | for a single flag exactly the active nodes whose record has the flag |
| PingFlags.NodeConnectionDetails.AddNotificationType | internal/settings/nodeConnectionDetails.go:33-35 | exactly the argument's bits are added, as the SQL update does for a single flag |
| PingFlags.NodeConnectionDetails.HasNotificationType | internal/settings/nodeConnectionDetails.go:36-38 | for a single flag the record says what the query's modulo test says of the stored number |
| PingFlags.NodeConnectionDetails.RemoveNotificationType | internal/settings/nodeConnectionDetails.go:39-41 | exactly the argument's bits are cleared within the byte, as the SQL update does for a single flag |
| ShortChannelIds.PrintPacked | pkg/commons/functions.go:55-62 | an id packed from in-range parts (BOLT #7) prints as exactly those parts |
| ShortChannelIds.ParseCanonical | pkg/commons/functions.go:64-82 | parsing the printed parts gives the id they pack to |
| ShortChannelIds.PrintThenParse | pkg/commons/functions.go:55-82 | every 64-bit id is recovered from its printed form |
| ShortChannelIds.PrintIsInjective | pkg/commons/functions.go:55-62 | no two ids print alike |
| ShortChannelIds.ParseThenPrintIff | pkg/commons/functions.go:55-82 | a string survives parsing and printing if and only if it is the canonical form of in-range parts |
| ShortChannelIds.ParserPanicsIff | pkg/commons/functions.go:64-74 | the parser indexes past the split string if and only if the string is a number without a separator, or two numbers with one between them |
| ShortChannelIds.ChannelPointRoundTripIff | pkg/commons/functions.go:84-98 | a created channel point parses back if and only if the hash has no colon |
| ShortChannelIds.ChannelPointIsInjective | pkg/commons/functions.go:96-98 | channel points never collide, whatever the hashes |
| Decimals.FormatIsDecimal | pkg/commons/functions.go:59-61 | numbers are printed in the numerals 0 to 9, the last digit last, and negative ones with a minus in front |
| Decimals.ParseIsDecimal | pkg/commons/functions.go:66-76 | each further digit makes ten times the number plus the digit |
| Decimals.AtoiIff | pkg/commons/functions.go:66-76 | parsing accepts exactly an optional sign and then digits that stand for a 64-bit int |
| Decimals.AtoiOfFormat | pkg/commons/functions.go:66-76 | parsing a printed 64-bit int gives it back |

## Left out

- Corridors.CorridorCacheByType.Refresh: the stored priority and the log line when it differs from the calculated one are left out, and so are timestamps, failures of the query and the locks; the rules of one refresh are of one known type, as the query's filter says.
- ChannelGroups.ChannelGroupTable.GenerateChannelGroupsByOrigin: row ids and creation times are left out, and no other transaction changes the table during a run.
- Forwards.ForwardImporter.Tick: the page size is positive (a zero or negative option is taken by the code and never gives a short page); the conversion of the page size to 32 bits and the panic on an option without a page size are left out.
- Forwards.ForwardImporter.StoreForwardingHistory: channel ids arrive resolved, and event times are left out.
- Payments.PaymentImporter.UpdateInFlightPayments: the indexes are refreshed in an arbitrary order instead of ascending, which `PassStep` shows to be the same; HTLC details are left out, and the expiry of an invoice is a parameter.
- Payments.PaymentImporter.Run: each of its turns is atomic; incomplete payments are included (`Payments.LateCompletionIsTheGap` has the other setting).
- Payments.PaymentImporter.Tick: the node lists payments in increasing index and one at a time, as the request asks.
- Broadcast.BroadcastServer.Serve: goroutines and unbuffered channels are one sequence of events; delivery is stated for sends that complete. A subscriber that cancels without reading on blocks the server in its send until the context ends (`pkg/broadcast/broadcast.go:68-76`); the model ends the sequence there.
- Services.Services.Run: boot, start and ping times and the include-incomplete setting are left out; each method is atomic, as it is under the mutex. A run ends before a boot unlocks a lock that is not held, which is a fatal error; exclusion between boots is not claimed (`Services.StaleUnlockOpensTheBoot`).
- ChannelStates.ChannelStateCache.UpdateHtlcEvent: HTLC hash lock, expiry and forwarding fields, and the counters and sums that are only read, are left out; balances are unbounded integers.
- ChannelStates.ChannelStateCache.ProcessForwardEvents: the other broadcast events (invoices, payments, peers, channel and graph events) and the initialisation from the node are left out; they call the same writes.
- ChannelIndexes.ChannelCache.Run: the read cases are left out; they look up one map. The conversion of a missing short channel id is left out too: it works on a copy of the message (`pkg/commons/managedChannel.go:141`).
- RoutingPolicies.PolicyStore.InsertRoutingPolicy: one chain and network; node events and the reading of the update stream are left out; timestamps are integers, without the precision of the database's type.
- PingFlags.NodeConnectionTable.GetPingSystemNodeIds: the order of the result is left out; a query with modulus zero fails when there is an active row, and an update when its node has one; the 32-bit column is unbounded.
- The node cache `pkg/commons/managedNode.go`, settings and other caches: flat map lookups with nothing to relate; an inactivated Torq node staying in the active index is not modelled.
- The two balances of a channel do not add up over updates, so no conservation is claimed beyond `ChannelStates.TotalKeptIff`.
- SQL text, migrations, gRPC, HTTP handlers, sessions, websockets, tickers and rate limits, the ping services, the query parser and the aggregations inside Postgres.
- The user interface, the virtual network scripts and test utilities.
