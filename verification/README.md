# A verified model of the gateway's stateful core

The gateway relays requests to language-model providers, bills them against user quota
and synchronizes channels and prices with its upstreams. This project models the parts
of it whose correctness depends on more than one function, and proves what they promise
for every input, every run or every interleaving.

- `OrderLocks` and `OrderPayments`: the registry of reference-counted order mutexes, one
  atomic action per step, and on top of it every payment handler that changes a top-up
  order, with and without the lock. Any number of goroutines, any interleaving.
- `RateLimiter`: the in-memory sliding-window limiter and its sweep, against the law it
  should obey on the full history.
- `MultiKey` and `MultiKeyLaws`: the keys of a channel with their status maps, and every
  management action on them, including how the result is stored. `TextLists` holds the
  lists kept in one string. `MultiKeyRaces` interleaves the loads and stores of several
  requests.
- `Tolerance`, `SortedNames` and `ModelsDev` (in `ModelsDev.dfy`): the merge of models.dev
  prices under a comparison that is not transitive, and the ratios made of it.
- `RatioDiff`: the differences between the local ratios and those of the upstreams.
- `ModelNames`, `UpstreamSync`, `UpstreamLaws` and `CursorScan`: detecting, applying and
  ignoring upstream model changes, and the batched scan over all channels.
- `DiskCache`, `BodyStorage`, `BodySource`, `BodyCreation`, `BodyLedger` and `RequestBody`:
  request bodies that can be read again, in memory or on disk, the limited streams they come
  from, their accounting, and what the handlers of one request see. `CacheRaces` takes the
  accounting apart into its atomic additions and interleaves them.
- `RedisHash`: records stored field by field in a Redis hash and read back.
- `OpusDuration`: the Ogg page walker that finds the duration of an Opus file.
- `Basics`: what several modules share.

Code that computes is modelled by functions. Code that updates state is modelled by classes
and loops, and each such method is proved against a function of the old state; the laws are
lemmas about these functions. Clocks, database answers, upstream answers and I/O failures
are parameters.

Eight promises turn out not to hold as stated. Each has a lemma that shows it and a lemma
with the exact condition:

- The limiter obeys its law if and only if no limit is zero, no window is longer than the
  expiration plus one second, and the limit of a key never changes
  (`LawfulExactlyWhenSound`). What it obeys otherwise is `AnswersByLimitInForce`.
- Deleting all automatically disabled keys does nothing but enable them again when they are
  all the keys there are (`BulkDeletionRevivesAll`, `BulkDeletionIsSingles`).
- The documentation of the models.dev conversion promises the cheapest non-zero price. The
  first cheapest provider wins if and only if the merge does not already hold a nearly equal
  price when it gets there (`NotAlwaysCheapest`, `CheapestExactlyWhenNotShadowed`).
- After all proposed changes are applied, the same upstream list proposes exactly the models
  that lost their ignore pattern to a model of the same name (`Reconciled`,
  `PatternNameBreaksIt`).
- A successful order can lose its status again: if and only if a Stripe expiry has read it,
  or a Waffo rejection or payment request still holds its pending copy
  (`SuccessLostExactlyWhen`, `CreditedSuccessLost`). Its credit is never repeated.
- The disk cache can use more than its maximum. One request at a time, exactly a
  decompressed body longer than the room left does it (`BoundLeftExactly`). Concurrent
  requests can if and only if there are at least two and the maximum is not zero; n of them
  use at most n times the maximum, and this is reached (`OvershootExactlyWhen`,
  `UsageBounded`, `UsageReached`).
- A deleted key can come back if and only if a request that loaded the channel before has
  not stored yet, and a store leaves an inconsistent channel exactly when it is an automatic
  disabling that meets another number of keys than it loaded (`KeyReturnsExactlyWhen`,
  `StoreValidExactly`). The last store wins, so a disabling can be undone unasked
  (`LastStoreWins`, `DisablingLost`).
- A record survives the Redis hash if and only if it stores something and none of its values
  is of the kinds that do not come back (`RoundTrip`).

Two limits for one body: the relay middleware caps every body at the configured size, or at
32 MB when that is not positive, while `GetRequestBody` falls back to 128 MB. `EffectiveLimits`
says which one holds where, `FirstAccess` and `LaterAccess` what the callers see.

## Model

| member | source | states |
|---|---|---|
| OrderLocks.StepKeepsInv | controller/topup.go:252-281 | every atomic step of locking and unlocking keeps the registry invariant: reference counts exact, mutex states exact, entries current and distinct |
| OrderLocks.CallKeepsInv | controller/topup.go:252 | a new goroutine entering `LockOrder` for any trade number keeps it |
| OrderLocks.RunInv | controller/topup.go:242-281 | the invariant holds in every state of every run |
| OrderLocks.MutualExclusion | controller/topup.go:252-281 | at most one goroutine is between `LockOrder` and `UnlockOrder` of a trade number |
| OrderLocks.RegistryExact | controller/topup.go:252-281 | while nobody is inside `createLock`, a trade number is in the map exactly when somebody uses its lock, and its count is how many do |
| OrderLocks.UnlockFindsOwnMutex | controller/topup.go:267-281 | `UnlockOrder` finds the entry whose mutex its goroutine locked, although it looks it up outside `createLock`; one trade number never has two live mutexes |
| OrderLocks.NothingLeaks | controller/topup.go:267-281 | when every goroutine has returned the map is empty and no mutex is locked |
| OrderLocks.OnlyLocksBlock | controller/topup.go:252-281 | a goroutine that cannot step waits for a lock that somebody holds |
| OrderLocks.NoDeadlock | controller/topup.go:252-281 | while some goroutine is running, some goroutine can step |
| OrderPayments.NextKeepsInv | controller/topup.go:334-366 | every step of every handler, of the writers without the lock and of the option change keeps the payment invariant: no order has two credits, credited orders are not pending, and handlers in the critical section know their order |
| OrderPayments.RunInv | controller/topup.go:334-366 | the payment invariant holds in every state of every run |
| OrderPayments.CreditedAtMostOnce | model/topup.go:60-112 | no order is credited twice, whatever mixture of Epay, Stripe, Creem, Waffo and manual completions runs, interleaved in any way |
| OrderPayments.CreditOnlyWhilePending | model/topup.go:271-340 | quota changes only when a handler that read the order as pending under its lock credits exactly that order's quota to its user, and nobody had credited it |
| OrderPayments.QuotaConserved | model/topup.go:418-479 | every user's quota is the initial one plus the credits of that user |
| OrderPayments.CreditsMatchOrders | model/topup.go:343-415 | every credit ever given is the price of its order, by the handler that gave it, at the quota per unit of that moment: amount times unit truncated for Epay and Waffo, money times unit for Stripe, the amount itself for a Creem webhook, and by the payment method, truncated, for a manual completion; each handler only credits orders of its own payment method |
| OrderPayments.UnitsAreExact | controller/topup.go:356-358 | for every whole quota per unit the decimal multiplication and truncation lose nothing |
| OrderPayments.TruncationExact | model/topup.go:450-451 | truncation loses less than one, and nothing exactly when the product is whole |
| OrderPayments.NeverPendingAgain | controller/topup_stripe.go:220-253 | an order never returns to pending, and its user, amount, money and payment method never change |
| OrderPayments.StatusWriters | controller/topup.go:334-366 | over every run and for every order: only Epay, which credits later, and the four handlers that credit in the same step turn it into a success; only a failed Stripe payment and the Waffo writers without the lock into a failure; only a Stripe expiry into an expiry; none of the latter changes quota |
| OrderPayments.HandlersCanWrite | controller/topup_stripe.go:220-253 | each handler does write its status: one that has read an order of its payment method as pending, with a quota to give where it asks for one, has a next step after which the order is a success, failed or expired, as its name says |
| OrderPayments.EpayCanCredit | controller/topup.go:352-362 | Epay, once it has saved the success, can give exactly the truncated product of amount and unit, unless that is negative |
| OrderPayments.SuccessLostExactlyWhen | controller/topup_stripe.go:289-330 | in every state of the invariant, and so of every run, some next step undoes a success if and only if an expiry of that order has read it or a writer without the lock holds a copy of it |
| OrderPayments.SuccessFinal | controller/topup_waffo.go:340-352 | a success of which no such copy is left stays a success for as long as no expiry of the order reads it |
| OrderPayments.CreditedSuccessLost | controller/topup_waffo.go:180-253 | from every initial state a complete run in which an order is credited as a success and then saved as failed by the payment request that made it |
| RateLimiter.InMemoryRateLimiter.Request | common/rate-limit.go:45-70 | the answer and the new queue as functions of the old store, every branch |
| RateLimiter.InMemoryRateLimiter.ClearExpiredItems | common/rate-limit.go:28-42 | exactly the keys whose last request is older than the expiration are deleted, in any order of the keys |
| RateLimiter.QueueAnswers | common/rate-limit.go:45-70 | the short queue answers as counting the full history would, for the limit in force |
| RateLimiter.RequestKeepsQueue | common/rate-limit.go:45-70 | after a request the queue is still the recent end of the history |
| RateLimiter.SweepKeepsQueue | common/rate-limit.go:28-42 | a sweep loses only requests that are out of the window, if that is not longer than the expiration plus one |
| RateLimiter.RunKeepsQueues | common/rate-limit.go:28-70 | queue and history agree after every run of requests and sweeps |
| RateLimiter.AnswersByLimitInForce | middleware/model-rate-limit.go:177-197 | over every run, with any limits: a request is accepted exactly when fewer accepted ones than the limit in force, the greatest of its limit, the queue length and one, lie within the window |
| RateLimiter.QueueWithinPeak | common/rate-limit.go:52-61 | no queue outgrows the greatest limit its key has been used with |
| RateLimiter.SoundAnswersByHistory | common/rate-limit.go:28-70 | under a sound configuration every answer in every run is the answer of the full history |
| RateLimiter.ZeroLimitBreaksLaw | common/rate-limit.go:64-69 | with a limit of zero the first request passes |
| RateLimiter.LateSweepBreaksLaw | common/rate-limit.go:33-39 | a window longer than the expiration plus one loses requests to the sweep, for every such configuration |
| RateLimiter.LoweredLimitBreaksLaw | middleware/model-rate-limit.go:177-197 | a lowered limit is not enforced, for every pair of limits and every window |
| RateLimiter.LawfulExactlyWhenSound | common/rate-limit.go:14-70 | the law holds on every run if and only if no limit is zero, no window exceeds the expiration plus one, and the limit of a key with a window never changes |
| RateLimiter.AcceptanceSpaced | common/rate-limit.go:52-61 | an accepted request is a whole window after the one that many before it, for any number from the limit in force on |
| RateLimiter.NoWindowOverfull | common/rate-limit.go:45-70 | no window ever holds more acceptances than the greatest limit of its key so far |
| TextLists.SplitJoin | model/channel.go:81-103 | splitting a joined list gives the list back |
| TextLists.ItemsRoundTrip | model/channel.go:81-103 | so does trimming and splitting |
| TextLists.ItemsIgnoreEnds | model/channel.go:81-103 | separators at either end make no difference |
| TextLists.ItemsWithoutSeparator | model/channel.go:196-201 | items read from a string never contain the separator |
| MultiKey.DisableEnabled | controller/channel.go:1495-1541 | exactly the enabled indices become manually disabled and are counted |
| MultiKey.DropKey | controller/channel.go:1542-1621 | the rebuild without one index |
| MultiKey.DropAutoDisabled | controller/channel.go:1622-1689 | the rebuild without every automatically disabled index, and how many there were |
| MultiKey.ListKeys | controller/channel.go:1272-1385 | the entries of all keys in order and the three status counts |
| MultiKey.FilterByStatus | controller/channel.go:1272-1385 | the entries with a status, in order |
| MultiKey.Paginate | controller/channel.go:1272-1385 | number of pages, clamped page and its slice |
| MultiKey.DropBeyond | model/channel.go:458-505 | status entries at or beyond the number of keys are deleted |
| MultiKey.MultiKeyChannel.Update | model/channel.go:458-505 | what is stored: an empty key text is not, everything else is, and the size is recounted |
| MultiKey.MultiKeyChannel.DisableKey | controller/channel.go:1386-1428 | accepted exactly for an index of a key that is stored; what it changes is `DisableChangesOne` |
| MultiKey.MultiKeyChannel.EnableKey | controller/channel.go:1429-1470 | accepted exactly for an index of a key that is stored; what it changes is `EnableChangesOne` |
| MultiKey.MultiKeyChannel.EnableAllKeys | controller/channel.go:1471-1494 | stored or failed as a whole; what it changes is `EnableAllChanges` |
| MultiKey.MultiKeyChannel.DisableAllKeys | controller/channel.go:1495-1541 | an error that changes nothing when no key is enabled; what it changes is `DisableAllChanges` |
| MultiKey.MultiKeyChannel.DeleteKey | controller/channel.go:1542-1621 | new state; invalid indices and the last key are refused |
| MultiKey.MultiKeyChannel.DeleteDisabledKeys | controller/channel.go:1622-1689 | new state; refused when nothing is automatically disabled |
| MultiKey.MultiKeyChannel.AutoDisable | model/channel.go:573-606 | the first position of the failing key, index 0 when it is not there; what it changes is `FailureChangesOne` |
| MultiKey.MultiKeyChannel.GetKeyStatus | controller/channel.go:1272-1385 | the whole response in terms of the entries |
| MultiKeyLaws.DisableChangesOne | controller/channel.go:1386-1428 | the key gets status 2 and keeps its text; no other entry changes, and an earlier disabling time and reason show again |
| MultiKeyLaws.EnableChangesOne | controller/channel.go:1429-1470 | the key gets status 1, no time and no reason; no other entry changes |
| MultiKeyLaws.EnableAllChanges | controller/channel.go:1471-1494 | every key has status 1, no time and no reason |
| MultiKeyLaws.EnablingForgets | controller/channel.go:1429-1494 | a key that is enabled and then disabled by hand shows no earlier time or reason |
| MultiKeyLaws.DisableAllChanges | controller/channel.go:1495-1541 | exactly the keys with status 1 get status 2; the others stay as they are |
| MultiKeyLaws.FailureChangesOne | model/channel.go:573-606 | the first position of the failing key, or the first of all, gets status 3 with that time and reason; no other entry changes |
| MultiKeyLaws.RebuildKeepsEntries | controller/channel.go:1542-1621 | a rebuild keeps status, time and reason with their keys while the indices shift |
| MultiKeyLaws.DeleteKeyRemovesEntry | controller/channel.go:1542-1621 | deleting a key removes exactly its entry |
| MultiKeyLaws.DeleteLastKeyRefused | controller/channel.go:1542-1621 | the last key stays |
| MultiKeyLaws.BulkDeletionKeepsLive | controller/channel.go:1622-1689 | with a live key, exactly the entries that are not automatically disabled remain, in order |
| MultiKeyLaws.BulkDeletionRevivesAll | controller/channel.go:1622-1689 | without one, no key is deleted and all become enabled |
| MultiKeyLaws.SinglesKeepLive | controller/channel.go:1542-1621 | deleting the automatically disabled keys one by one, highest first, leaves the live ones |
| MultiKeyLaws.SinglesLeaveOne | controller/channel.go:1542-1621 | without a live key, one automatically disabled key is left |
| MultiKeyLaws.BulkDeletionIsSingles | controller/channel.go:1622-1689 | bulk deletion equals the single deletions if and only if some key is live |
| MultiKeyLaws.ActionKeepsValid | controller/channel.go:1386-1689 | every action keeps the maps within the keys, the recorded size equal to the number of keys, and the statuses valid |
| MultiKeyLaws.RunKeepsValid | controller/channel.go:1386-1689 | so does every sequence of actions |
| MultiKeyRaces.AloneIsPerform | controller/channel.go:1250-1269 | without an interleaving a request does what its action does |
| MultiKeyRaces.LastStoreWins | controller/channel.go:1250-1269 | an accepted management action stores what it makes of the channel its request loaded, whatever was stored meanwhile, unless it is a bulk deletion of every key |
| MultiKeyRaces.DisablingLost | controller/channel.go:1386-1428 | for any two keys, the first enabled, a complete run in which the first is disabled and then enabled again by a request that disables the second |
| MultiKeyRaces.StoreValidExactly | model/channel.go:647-673 | a store leaves a consistent channel if and only if it is not an automatic disabling that meets another number of keys than it loaded |
| MultiKeyRaces.RacesKeepValid | controller/channel.go:1250-1269 | over every interleaving of loads and stores without such a store, every stored channel and every copy is consistent |
| MultiKeyRaces.FailureAfterDeletion | model/channel.go:647-673 | for every channel with two keys or more a complete run that stores a wrong size |
| MultiKeyRaces.KeyReturnsExactlyWhen | controller/channel.go:1250-1269 | a deleted key can be stored again by the next step if and only if some outstanding request loaded it |
| MultiKeyRaces.GoneForGood | controller/channel.go:1250-1269 | otherwise it never comes back, in any run |
| MultiKeyRaces.DeletedKeyReturns | controller/channel.go:1542-1621 | for every key of every channel with two or more a complete run in which it is deleted and comes back |
| MultiKeyLaws.CountsAddUp | controller/channel.go:1272-1385 | after every sequence of actions the three counts add up to the number of keys |
| MultiKeyLaws.PagesAreTheList | controller/channel.go:1272-1385 | the pages are the filtered list, once and in order, for every page size |
| MultiKeyLaws.PagesAreFull | controller/channel.go:1272-1385 | every page but the last is full, and none is empty but the one page of an empty list |
| MultiKeyLaws.FilterExact | controller/channel.go:1272-1385 | a filtered report holds exactly the keys of that status |
| MultiKeyLaws.ReportShows | controller/channel.go:1272-1385 | how a report shows a key: its index, its text cut to ten characters and three dots when longer, status 1 unless another one is recorded, and a time and a reason only then |
| MultiKeyLaws.ReportInOrder | controller/channel.go:1272-1385 | a report lists its keys by strictly ascending index, filtered or not |
| Tolerance.NearlyEqualIsDistance | controller/ratio_sync.go:46-51 | the test is a distance below the tolerance, and symmetric |
| Tolerance.NearlyEqualNotTransitive | controller/ratio_sync.go:46-51 | it is not transitive |
| SortedNames.LessExact | controller/ratio_sync.go:800-804 | the order of strings compares the first character that differs, and a beginning comes first |
| SortedNames.SortStrings | controller/ratio_sync.go:800-804 | the keys of a map in ascending order, none lost and none repeated |
| SortedNames.AscendingUnique | controller/ratio_sync.go:800-804 | an ascending list is determined by its members |
| ModelsDev.BuildCandidate | controller/ratio_sync.go:730-764 | a candidate exactly for a cost whose input price is there and not negative, whose output price is not negative, and is zero when the input price is; its prices are those of the cost, a negative cache price left out |
| ModelsDev.MergedIsChoice | controller/ratio_sync.go:820-827 | one candidate merged into the choice over some providers is the choice over those and its own provider |
| ModelsDev.MergeProvider | controller/ratio_sync.go:808-828 | after a provider the selection is the choice over the providers so far, for every model |
| ModelsDev.Select | controller/ratio_sync.go:800-829 | the loops compute the choice over all providers in name order |
| ModelsDev.SelectionDetermined | controller/ratio_sync.go:800-829 | the selection does not depend on the iteration order of the maps |
| ModelsDev.ChoiceIsOffered | controller/ratio_sync.go:807-829 | the choice is some provider's offer |
| ModelsDev.ChoiceIsCheapest | controller/ratio_sync.go:766-778 | the choice is non-zero when any offer is, and within the tolerance of the cheapest |
| ModelsDev.NotAlwaysCheapest | controller/ratio_sync.go:788-790 | a catalogue for which the choice is not the cheapest non-zero price |
| ModelsDev.CheapestExactlyWhenNotShadowed | controller/ratio_sync.go:766-829 | the first cheapest provider is chosen if and only if the earlier providers' choice is not nearly equal to it; otherwise that choice stays |
| ModelsDev.RatiosMeanCosts | controller/ratio_sync.go:780-790 | the ratios invert to the documented costs |
| ModelsDev.ToRatios | controller/ratio_sync.go:835-857 | the three maps for every selected model, none divided by zero |
| ModelsDev.SelectionPrices | controller/ratio_sync.go:800-857 | in terms of the catalogue alone: exactly the models with a usable cost are selected, and twice the model ratio is the input price of some provider that offers the model, no more than the tolerance above any non-zero one, with the completion and cache ratios of that same offer |
| ModelsDev.Convert | controller/ratio_sync.go:791-870 | an error exactly when no cost in the catalogue is usable, otherwise ratios for exactly the models with one, priced as `SelectionPrices` says |
| RatioDiff.CompareOne | controller/ratio_sync.go:489-509 | the cell of one channel and whether it has a value and differs; what the entries show in terms of the tables is `ItemsShow` |
| RatioDiff.Compare | controller/ratio_sync.go:483-514 | the cells of all channels, and whether any has a value or differs |
| RatioDiff.CollectModels | controller/ratio_sync.go:413-433 | every model with a ratio of some type anywhere is compared |
| RatioDiff.BuildConfidence | controller/ratio_sync.go:435-470 | the confidence of every channel and model |
| RatioDiff.CompareAll | controller/ratio_sync.go:472-539 | the unpruned differences for every model and ratio type |
| RatioDiff.FlagChannels | controller/ratio_sync.go:541-550 | the channels that show an actual value somewhere |
| RatioDiff.FlaggedExact | controller/ratio_sync.go:541-550 | they are exactly the channels that differ somewhere |
| RatioDiff.PruneModel | controller/ratio_sync.go:553-573 | pruning the items of a model while iterating over them |
| RatioDiff.Prune | controller/ratio_sync.go:552-578 | pruning all models while iterating over them |
| RatioDiff.PrunedItemExact | controller/ratio_sync.go:553-573 | a pruned item lists exactly the channels that differ somewhere, and stays exactly when one of them disagrees |
| RatioDiff.PruneIsExact | controller/ratio_sync.go:541-580 | the pruned differences meet the declarative specification |
| RatioDiff.BuildDifferences | controller/ratio_sync.go:407-581 | for all data: an item for exactly the pairs where a channel that differs anywhere disagrees, listing exactly the channels that differ anywhere, with current value, cell and confidence |
| RatioDiff.ItemsShow | controller/ratio_sync.go:488-514 | in terms of the local and upstream tables alone: the current value, and every listed channel's entry, which is nothing, "same" or its own value, with its confidence |
| RatioDiff.ItemsList | controller/ratio_sync.go:541-560 | an item lists exactly the channels that show a value of their own for some model and type |
| RatioDiff.ItemsExist | controller/ratio_sync.go:516-578 | a model and type has an item exactly when some channel has a value there that is missing locally or at least the tolerance away, and the entry of some channel that is listed disagrees with the local table |
| RatioDiff.NumericNeverDropped | controller/ratio_sync.go:552-578 | for numeric data pruning drops channels but never an item |
| RatioDiff.NumericDifferences | controller/ratio_sync.go:407-581 | for numeric data: an item exactly when some channel's value is the tolerance or more away from the local one or the local one is missing |
| RatioDiff.NullItemDropped | controller/ratio_sync.go:552-578 | a JSON null makes an item that pruning does drop |
| ModelNames.NormalizeIsClean | controller/channel_upstream_update.go:77-82 | the result is trimmed, non-empty and free of duplicates |
| ModelNames.NormalizeTwice | controller/channel_upstream_update.go:77-82 | normalizing twice is normalizing once |
| ModelNames.NormalizeMembers | controller/channel_upstream_update.go:77-82 | it keeps every non-blank name, trimmed, and invents none |
| ModelNames.MergeModelNames | controller/channel_upstream_update.go:84-98 | the loop computes the merge |
| ModelNames.MergeClean | controller/channel_upstream_update.go:84-98 | the merge as a union of clean lists |
| ModelNames.SubtractClean | controller/channel_upstream_update.go:100-109 | the difference of clean lists |
| ModelNames.IntersectClean | controller/channel_upstream_update.go:111-120 | the intersection of clean lists |
| ModelNames.ApplySelectedExact | controller/channel_upstream_update.go:122-127 | what is added, and what was there unless removed; adding wins |
| UpstreamSync.PendingExact | controller/channel_upstream_update.go:156-215 | the proposals by membership: redirect targets are never added, redirect sources never removed, ignored names never proposed |
| UpstreamSync.StoredModels | model/channel.go:196-201 | a clean list without commas is read back as it was stored |
| UpstreamSync.UpstreamChannel.Check | controller/channel_upstream_update.go:340-387 | the channel after a check, for every branch: too early, failed, detected, synchronized; in terms of what the upstream answered these are `CheckRecords` and `CheckLeaves` |
| UpstreamSync.UpstreamChannel.Apply | controller/channel_upstream_update.go:760-808 | the channel after an application and what was taken |
| UpstreamLaws.AutoSyncAppends | controller/channel_upstream_update.go:364-372 | automatic synchronization appends exactly the proposed models |
| UpstreamLaws.CheckRecords | controller/channel_upstream_update.go:340-387 | a check that is due and answered records as removals exactly the local models that the upstream does not have and that are no redirect source, and proposes, or appends when it may synchronize, exactly the upstream models that are not local, no redirect target and not ignored by name or pattern; the ignored list stays |
| UpstreamLaws.CheckLeaves | controller/channel_upstream_update.go:346-362 | a check that is too early changes nothing, and one that fails only its time |
| UpstreamLaws.CheckKeepsPending | controller/channel_upstream_update.go:340-387 | a check keeps the pending lists consistent, and one that is due adds exactly as many models as are pending when it may synchronize |
| UpstreamLaws.AutoAddedCount | controller/channel_upstream_update.go:364-372 | so does every check in every run |
| UpstreamLaws.TakenExact | controller/channel_upstream_update.go:774-779 | only pending models can be taken |
| UpstreamLaws.AppliedModels | controller/channel_upstream_update.go:781-786 | the models after an application |
| UpstreamLaws.AppliedPending | controller/channel_upstream_update.go:792-795 | the pending lists after an application |
| UpstreamLaws.AppliedIgnored | controller/channel_upstream_update.go:788-791 | the ignored list after an application |
| UpstreamLaws.ApplyKeepsPending | controller/channel_upstream_update.go:760-808 | an application keeps the pending lists consistent |
| UpstreamLaws.AddWins | controller/channel_upstream_update.go:760-808 | a model both added and ignored ends added and not ignored |
| UpstreamLaws.RunKeepsPending | controller/channel_upstream_update.go:340-387 | over every run of checks and partial applications pending additions are not local and not pending removals, pending removals are local, and all lists are clean |
| UpstreamLaws.ChecksSpaced | controller/channel_upstream_update.go:346-356 | over every run an unforced check asks the upstream only when the minimum interval has passed since every earlier question and application |
| UpstreamLaws.AfterApplyingAll | controller/channel_upstream_update.go:760-808 | the state after applying everything that was detected |
| UpstreamLaws.Reconciled | controller/channel_upstream_update.go:156-215 | then the same upstream list proposes no removal, and exactly the additions that lost their ignore entry |
| UpstreamLaws.ReconciledWithoutPatterns | controller/channel_upstream_update.go:156-215 | nothing at all when no upstream name looks like a pattern |
| UpstreamLaws.PatternNameBreaksIt | controller/channel_upstream_update.go:788-791 | for every pattern that matches another name but not itself, that name is proposed although nothing has changed upstream |
| CursorScan.FindAfter | controller/channel_upstream_update.go:814-825 | the first ids after the cursor, in order and without gaps |
| CursorScan.BatchCovers | controller/channel_upstream_update.go:522-539 | after a batch, everything up to the new cursor that stayed enabled has been visited |
| CursorScan.ShortBatchCompletes | controller/channel_upstream_update.go:585-587 | a batch shorter than the limit is the last one |
| CursorScan.Scan | controller/channel_upstream_update.go:520-588 | while channels come and go between queries the loop ends, visits ids in ascending order and none twice, and unless a query failed it visits every channel enabled throughout |
| CursorScan.FixedTableVisitedOnce | controller/channel_upstream_update.go:520-588 | an unchanging table is visited exactly, each id once |
| BodyStorage.MemoryStorage.Close | common/body_storage.go:65-72 | the counters are released once, however often it is closed |
| BodyStorage.DiskStorage.Bytes | common/body_storage.go:198-230 | the sequence of seeks and the full read |
| BodyStorage.DiskStorage.Close | common/body_storage.go:187-196 | the counters are released once, however often it is closed |
| BodyStorage.SeeksAgree | common/body_storage.go:178-185 | seeking goes to the offset from the start, the position or the end, in memory as on disk, and refuses without moving what is negative or overflows |
| BodyStorage.ReadsAgree | common/body_storage.go:169-176 | reading returns the next bytes, as many as asked for or as there are, and agrees except for an empty read at the end |
| BodyStorage.BytesKeepPosition | common/body_storage.go:198-230 | the file's content is returned and its offset is left where it was |
| BodyStorage.StepAlike | common/body_storage.go:47-81 | every operation leaves the two storages alike, and answers alike if and only if it is not an empty read at the end |
| BodyStorage.RunsAgree | common/body_storage.go:169-230 | memory and disk give the same answers on every sequence of operations without empty reads |
| BodyCreation.ClosedForGood | common/body_storage.go:187-205 | after a close everything but another close fails, in memory and on disk |
| BodyCreation.DrainReturnsRest | common/body_storage.go:47-54 | reads with any buffer sizes return the bytes from the position on, in order and without gaps |
| BodyCreation.CreateBodyStorage | common/body_storage.go:241-259 | disk or memory, and memory when the disk fails |
| BodyCreation.CreateBodyStorageFromReader | common/body_storage.go:262-303 | the storage, the error and the counters on every path |
| BodyCreation.CreationHoldsBody | common/body_storage.go:262-303 | while the disk works, creation from an unread stream succeeds if and only if the body arrives in full and fits every limit, holds precisely that body on either path, and fails as too large exactly when it does not fit |
| BodyCreation.PlacementExact | common/body_storage.go:241-303 | a stored body is on disk exactly when the disk works, the cache is enabled, and the announced or actual length reaches the threshold and fits the maximum with the bytes already there; one hit of that kind is counted |
| BodyLedger.ClampsUnreachable | common/disk_cache_config.go:115-122 | closing an open disk storage never meets the clamps |
| BodyLedger.StepKeepsExact | common/disk_cache_config.go:109-135 | every creation, operation and close keeps the counters exact |
| BodyLedger.CountersExact | common/disk_cache_config.go:109-135 | in every run the counters are the number and total size of the open storages of each kind |
| BodyLedger.BoundLeftExactly | common/disk_cache_config.go:170-177 | the maximum disk usage is exceeded exactly by a streamed body longer than the room left |
| BodyLedger.DiskUsageBounded | common/disk_cache_config.go:170-177 | it is never exceeded while no body is longer than announced |
| BodyLedger.UnannouncedBodyExceeds | common/body_storage.go:262-284 | every compressed body announced within the maximum that unpacks to more exceeds it |
| CacheRaces.StepKeepsInv | common/disk_cache_config.go:109-122 | every room check and every single atomic addition keeps the counters equal to what the goroutines have counted |
| CacheRaces.ClampsNeverReached | common/disk_cache_config.go:115-122 | over every interleaving no counter is clamped and none is negative |
| CacheRaces.OvershootBounded | common/disk_cache_config.go:170-177 | over every interleaving the usage exceeds the maximum by no more than others were writing when a room check passed |
| CacheRaces.UsageBounded | common/disk_cache_config.go:170-177 | in every run n goroutines use at most n times the maximum |
| CacheRaces.UsageReached | common/disk_cache_config.go:170-177 | for every n and every maximum a run that reaches it |
| CacheRaces.OvershootExactlyWhen | common/disk_cache_config.go:170-177 | some run of n goroutines exceeds the maximum if and only if n is at least two and the maximum is not zero |
| BodySource.FreshDelivery | middleware/gzip.go:35-62 | an unread stream is delivered to the byte exactly when it is whole and fits both limits |
| BodySource.PartInOrder | middleware/gzip.go:35-62 | a part of a stream is its first bytes, and what is left is the rest of it, with the rest of the limit |
| BodySource.FateAfterReading | common/gin.go:66-77 | what a stream that was read and closed says when it is read again: too large, at its end, or broken |
| BodySource.EffectiveLimits | middleware/gzip.go:31-40 | the limit that holds on relay routes and on the others, for every setting |
| RequestBody.FirstAccess | common/gin.go:66-83 | while the disk works the first access succeeds if and only if the body arrives in full and fits the limits of the route, stores all of it, and fails as too large exactly when it does not fit |
| RequestBody.LegacyAccess | common/gin.go:47-58 | bytes under the older cache key are stored and presented without touching the stream |
| RequestBody.StoredIsPresented | common/gin.go:36-45 | with a stored body every access succeeds and presents all of it from the start, whatever fails outside |
| RequestBody.UnmarshalledOk | common/gin.go:108-137 | the parser gets exactly the stored body, and the request's body becomes the rewound storage exactly when parsing succeeds |
| RequestBody.RunKeepsBody | common/gin.go:36-137 | the stored body survives every sequence of accesses, parses, partial reads, seeks and failures |
| RequestBody.BodyPresentedWhole | controller/relay.go:199-209 | after any such sequence the next parser and the next relay attempt read exactly the original body, whatever their buffer sizes |
| RequestBody.LaterAccess | common/gin.go:25-34 | after a failed first access, or after the cleanup, and any further steps: a relayed body that was too large is too large again, one that was read to its end reads as empty, and any other fails, never as too large |
| RequestBody.SpoiledAccess | common/body_storage.go:262-284 | a first access that a failing disk spoils, after any number of bytes, and what the next access answers: as after a working disk, a failure, or the buffered rest |
| RequestBody.OverflowRefuses | common/gin.go:60-69 | a limit that overflows to a negative one refuses every body as too large |
| RequestBody.RequestBalanced | common/gin.go:98-106 | over every sequence of steps the counters account for exactly the request's stored body, and a cleanup gives everything back |
| RequestBody.RequestContext.GetBodyStorage | common/gin.go:36-96 | the context, counters and answer on every path |
| RequestBody.RequestContext.UnmarshalBodyReusable | common/gin.go:108-137 | the context, counters and answer on every path |
| RequestBody.RequestContext.CleanupBodyStorage | common/gin.go:98-106 | the storage is closed and forgotten |
| RedisHash.HSetObj | common/redis.go:107-159 | the loop encodes every field that is stored |
| RedisHash.HGetObj | common/redis.go:161-239 | the loop decodes field by field and stops at the first error |
| RedisHash.StopsAtFirstError | common/redis.go:161-239 | an error in a prefix of the fields is the error of the whole |
| RedisHash.IntRoundTrip | common/redis.go:209-214 | every int64 survives decimal text, and no other integer does |
| RedisHash.ValueRoundTrip | common/redis.go:107-239 | which values survive the trip, both directions |
| RedisHash.StructsLostSilently | common/redis.go:221-231 | a struct other than the soft-delete mark comes back as zero, without an error |
| RedisHash.EmptyHash | common/redis.go:172-174 | the hash is empty exactly when the record stores nothing |
| RedisHash.RoundTrip | common/redis.go:107-239 | a record comes back unchanged if and only if it stores something and all its values survive |
| RedisHash.StoredTexts | common/redis.go:107-159 | what is stored of each field: "true" or "false", decimal notation, the string itself, the empty string for a nil pointer, and no soft-delete mark |
| RedisHash.LoadExact | common/redis.go:161-239 | loading any hash into any record: when it succeeds, which fields it leaves alone, and the error of the first text that does not fit its field's type |
| OpusDuration.LittleEndianRoundTrip | common/audio.go:229 | little-endian encoding and decoding, any width |
| OpusDuration.GranuleRoundTrip | common/audio.go:229 | every int64 granule position survives the unsigned encoding |
| OpusDuration.GranuleExact | common/audio.go:229 | byte k counts 256 to the power of k, and the upper half of the range is negative |
| OpusDuration.VisitPages | common/audio.go:204-249 | the loop visits the headers of the walk and keeps their greatest granule position |
| OpusDuration.GetOpusDuration | common/audio.go:196-254 | the duration is the greatest visited granule position over 48000 |
| OpusDuration.SumOf | common/audio.go:242-245 | the size of a page's data |
| OpusDuration.WalkMovesForward | common/audio.go:207-249 | on every byte string each visited header lies at least a header further on and starts with the bytes of "OggS" |
| OpusDuration.WalkMissesNone | common/audio.go:207-249 | on every byte string no page begins before the first stop, between the end of a page and the next stop, or after the last one |
| OpusDuration.MaxGranuleIsGreatest | common/audio.go:230-232 | no visited position exceeds the result, and some attains it unless it is zero |
| OpusDuration.WalkVisitsPages | common/audio.go:207-249 | from a page boundary the walker visits exactly the page boundaries, whatever the payloads contain |
| OpusDuration.WalkSkipsJunk | common/audio.go:219-226 | bytes before the first page mark are skipped |
| OpusDuration.PagesFound | common/audio.go:207-249 | junk, any sequence of well-formed pages and a short tail: exactly the pages are visited |
| OpusDuration.DurationOfPages | common/audio.go:196-254 | for well-formed pages the duration times 48000 is their greatest granule position, or zero |

## Left out

- OrderPayments: subscription orders and the top-up rows they add under trade numbers of their own, signatures of the webhooks and the creation of payment links; a database transaction is one step.
- OrderPayments.QuotaConserved: quota counts top-ups only, not consumption.
- OrderPayments.CreditsMatchOrders: the price of a Creem order differs between its webhook and a manual completion, as in the code.
- OrderLocks and OrderPayments model shared state as values with one atomic step per action, because the point is the interleaving, not the update in place.
- RateLimiter.RunKeepsQueues: each key is used with one duration throughout, limits are not negative (allocating the queue would panic), and the clock does not go back.
- MultiKey: keys stored as a JSON array, the polling mode and choosing the next key, disabling the whole channel once all its keys are disabled, and enabling a key outside the management actions.
- ModelsDev.ToRatios: the final rounding to six decimals; prices are reals.
- RatioDiff.BuildDifferences: channel names are distinct, as the caller makes them by appending the id.
- RatioDiff: fetching, and decoding of the upstream formats; values are numbers, null or something else.
- UpstreamSync: fetching upstream models, notifications and the runtime cache; regular expressions are an arbitrary matcher; the model mapping is a parameter.
- UpstreamLaws.RunKeepsPending: upstream names contain no comma, since the list of models is stored separated by commas.
- CursorScan.Scan: what is done with each visited channel is in UpstreamSync.
- DiskCache: the counter methods restate themselves and have no row; resetting and synchronizing statistics, cleaning up old files and 64-bit overflow of the counters are not modelled.
- BodyStorage.DiskStorage.Bytes: I/O errors of an open file, limits of a file system on offsets, and the aliasing of the slice that a memory storage returns.
- BodyLedger.CountersExact: creations and closes one after the other; CacheRaces interleaves those on disk.
- BodySource: a stream is its bytes and how it ends; decompression itself, and what a decompressor gives after it was closed half read, are not modelled.
- RequestBody.LaterAccess: for a disk that works on both accesses; SpoiledAccess states the first one that a failing disk spoils.
- RequestBody: decoding of JSON and forms is an arbitrary success or failure.
- RedisHash: pipelines, expiration and the text format of times, which is a parameter; a pointer to a soft-delete mark.
- OpusDuration.VisitPages: a read returns as many bytes as there are, as it does for files in memory; real duration without floating-point rounding.
- Relaying, billing of requests, model and channel selection, OAuth, Midjourney tasks, the other audio formats and the web interface.
