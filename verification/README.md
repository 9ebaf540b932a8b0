# Verified model of the AI gateway's core

This project models, in Dafny, the parts of the gateway where a mistake costs money, loses keys or
hangs a request, and proves what those parts promise for every input and every run.

| file | what it models |
|---|---|
| `OrderLock.dfy` | the per-order mutexes of the top-up controller, as an interleaving of atomic steps of any number of goroutines |
| `RateLimit.dfy` | the in-memory rate limiter and its eviction task, against a limiter that keeps the whole log |
| `ChannelPick.dfy`, `AutoGroups.dfy`, `Relay.dfy` | choosing a channel, walking through the groups of an "auto" token, and the retry loop of a relayed request |
| `Billing.dfy`, `BilledRelay.dfy` | the advance, settlement and refund of one request paid from the wallet, alone and around the retry loop |
| `ModelLists.dfy`, `ModelSync.dfy` | keeping a channel's model list in step with its upstream |
| `MultiKey.dfy`, `KeyPolling.dfy` | channels with several keys: managing them and taking turns |
| `RatioSync.dfy`, `ModelsDev.dfy` | comparing prices with upstreams, and choosing among models.dev providers |
| `MidjourneyPolling.dfy`, `VideoTask.dfy` | polling asynchronous tasks and refunding them |
| `BodyStorage.dfy` | request bodies in memory or on disk, and the counters of what is open |
| `OggOpus.dfy` | the duration of an Opus file |
| `PayMoney.dfy` | the price of a top-up with its service fee |
| `Strings.dfy`, `OrderedLists.dfy`, `Wrappers.dfy` | Go's string functions, ordered lists, and what every module uses |

Code that changes things step by step is written as methods and classes and proved against functions
on values; the protocols with several processes are state machines; whatever lies outside the process
(database writes, the network, clocks, random draws) is a parameter or an arbitrary choice. For the relay
loop it is one arbitrary `World` that answers by the number of the selection or call; every run has such a
world, so what is stated for all worlds is stated for all runs.

Several promises hold only under a condition. Each is proved as an if-and-only-if with the failing
family shown: eviction is invisible to rate limiting exactly when no limit looks back further than a
key is remembered; detection and application of model updates commute exactly when every upstream name is
stored and ignored as chosen and no added name is stored as a stranger, which for plainly named models means
exactly when no added name contains a comma; deleting or appending keys keeps the others exactly when the list survives its text
form, and deleting a set of auto-disabled keys that is all of them brings them all back enabled; a
Midjourney task is refunded at most once exactly when the upstream reports failure by status alone; a
video poll conserves quota except for three kinds of failing call; a settlement charges the actual cost
exactly when the advance is still taken; a body can take disk usage past its maximum exactly when it
is longer than it declares; the body size limit works for every limit but the largest
64-bit number; the cheapest models.dev price is chosen exactly when no near-equal price is already kept; a
price is reported exactly when some channel states another value and a channel that differs somewhere does
not agree on it, so a price that an upstream sets to null is a difference that is not reported.

A relayed request may restart its retry count when its walk through the groups of an "auto" token moves on.
Restarts are counted by the walk and not by the group that serves: a channel that affinity chose is
recorded with its group but without a position (middleware/distributor.go:106-119), so if the groups are A
and B, A has nothing to offer and affinity chose a channel of B, then the walk moves to B after B has
already served, and B may serve RetryTimes + 2 attempts in a row.

## Model

| member | source | states |
|---|---|---|
| `OrderLock.StepKeepsInvariant` | controller/topup.go:397-436 | every atomic step of any goroutine keeps: exact reference counts, one mutex per entry, mutex and createLock owners exactly those in the protocol |
| `OrderLock.RunKeepsInvariant` | controller/topup.go:397-436 | the invariant holds in every state of every run |
| `OrderLock.MutualExclusion` | controller/topup.go:407-436 | no two goroutines are inside the critical section of one trade number, in any run |
| `OrderLock.CallKeepsTrade` | controller/topup.go:407-436 | in every run a goroutine that calls with a trade number is about that number in every state until it is idle again |
| `OrderLock.LockAlone` | controller/topup.go:407-420 | from every state of every run with createLock free and nobody else about a trade number, the own steps of a caller take it inside that order; the entry is its own mutex, locked by it and counted once, and the other entries stay |
| `OrderLock.EntryExactlyWhenEngaged` | controller/topup.go:407-436 | in every state of every run the table has an entry for a trade number exactly when some goroutine is between its increment and its decrement, or inside createLock about to count or delete the entry; and the count is the number of the former |
| `OrderLock.NobodyPassing` | controller/topup.go:407-436 | while createLock is free nobody is about to count or delete, so an entry means an engaged goroutine |
| `OrderLock.LoadFindsOwnMutex` | controller/topup.go:422-436 | the unguarded Load in UnlockOrder returns the very mutex the goroutine holds |
| `OrderLock.UnlockNeverFails` | controller/topup.go:422-436 | no step unlocks a mutex that its goroutine does not hold |
| `OrderLock.QuiescentTableIsEmpty` | controller/topup.go:397-436 | when no goroutine is in the protocol the table is empty: nothing leaks |
| `OrderLock.SomeCallCanProceed` | controller/topup.go:407-436 | unless every call waits for a holder that has not called unlock, some goroutine inside a call has a step to take |
| `OrderLock.EnabledCanStep` | controller/topup.go:397-436 | every goroutine that does not wait for a lock really has a successor state: its mutex is allocated and nothing has crashed |
| `OrderLock.EveryScheduleDrains` | controller/topup.go:397-436 | with no new calls every schedule is finite, and where nobody in the protocol has a step left everybody is out of it and the table is empty |
| `OrderLock.NoDeadlockNoLeak` | controller/topup.go:397-436 | the same after any past run |
| `RateLimit.InMemoryRateLimiter.Request` | common/rate-limit.go:45-70 | the new queues and the answer, for present, missing, full and expired queues |
| `RateLimit.InMemoryRateLimiter.ClearExpiredItems` | common/rate-limit.go:28-43 | a key stays, with its queue, exactly if its last time is at most the expiration ago |
| `RateLimit.KeyRemembered` | common/rate-limit.go:28-70 | along every run the bounded queue of each key holds what the full log needs for its next answers |
| `RateLimit.NextAnswerAgrees` | common/rate-limit.go:45-70 | after every run the next answer is that of the limiter with the full log |
| `RateLimit.RunAgrees` | common/rate-limit.go:28-70 | all answers of every run of requests and evictions equal those of the limiter with the full log |
| `RateLimit.AcceptedTimesAreTheLog` | common/rate-limit.go:45-70 | the times accepted by the limiter are the reference log |
| `RateLimit.LogRespectsRate` | common/rate-limit.go:45-70 | the reference log has at most the allowance in any half-open interval of the duration |
| `RateLimit.CountInExactly` | common/rate-limit.go:45-70 | the count of an interval is the number of its times, the start included and the end not |
| `RateLimit.EveryWindowIsBounded` | common/rate-limit.go:28-70 | any half-open interval of the duration contains at most the allowed number of accepted requests per key, over every run |
| `RateLimit.EvictionShows` | common/rate-limit.go:28-70 | for every limit looking back further than a key is remembered, a run whose answers differ from the full log |
| `RateLimit.AgreesExactlyWhenDurationsFit` | common/rate-limit.go:28-70 | all runs agree with the full log if and only if every duration is at most the expiration plus one second |
| `ChannelPick.NthHighest` | model/channel_cache.go:148-174 | the priority with exactly n larger ones |
| `ChannelPick.EffectiveTotal` | model/channel_cache.go:194-212 | the running weights add up to the total the draw is made from |
| `ChannelPick.Draw` | model/channel_cache.go:194-222 | the weighted draw lands on the target whose share of the range holds the random number, so it always lands; a target without weight is drawn only if none has any |
| `ChannelPick.GetRandomSatisfiedChannel` | model/channel_cache.go:119-236 | nothing exactly when no channel is in the running, an error exactly when one in the running is missing from the table, and otherwise a channel in the running, of the tier that the retry count selects and of the best while anything is excluded, on which the weighted draw lands |
| `AutoGroups.GetAutoGroups` | service/group.go:52-79 | exactly the usable groups that either list mentions up to white space, once each, never empty or "auto"; every mention of a later group in the preferences followed by the configured groups has one of an earlier group before it |
| `Relay.AutoGroupsAreValid` | service/group.go:52-79 | the groups so computed are distinct and not empty, as the walk through them needs |
| `Relay.RetryParam.IncreaseRetry` | service/channel_select.go:40-49 | one more retry, unless a reset was asked for |
| `Relay.RetryParam.ExcludeChannel` | service/channel_select.go:57-68 | the channel is excluded, unless its id is not positive |
| `Relay.CachedIsReal` | model/channel_cache.go:119-236 | choices made from caches without stray channels are channels that exist and are not excluded, as the relay loop needs |
| `Relay.PickIsRight` | service/channel_select.go:211-310 | a channel selected from the caches was in the running, of the right tier and drawn by weight in its group, and no channel was in the running in the groups passed over |
| `Relay.SelectFromAutoGroups` | service/channel_select.go:228-301 | the first group from the current one on with anything to choose is chosen; the walk then stands at it with its retry count, or past it with a fresh count exactly when its retries are used up; nothing only if no group has anything |
| `Relay.SelectChannel` | service/channel_select.go:211-310 | the choice avoids failed, looping and broken channels; no choice means that no group had any or that the cache is inconsistent, and the relay loop is blamed exactly when nothing else is excluded |
| `Relay.GetChannel` | controller/relay.go:314-374 | the set-up loop ends on every run; a channel is one that was selected and set up after others whose set-up failed and may be retried; an error is that of a set-up that may not be retried or of a pinned request, or nothing was left to select |
| `Relay.FallbackForError` | controller/relay.go:490-516 | a pinned request may leave its channel if and only if the error and the status allow it, retries are left and no channel was asked for by id |
| `Relay.ShouldRetry` | controller/relay.go:407-436 | a retry if and only if no byte was written, a pinned request may leave its channel, and the error is forced or retryable with retries left and no channel asked for by id |
| `Relay.ShouldRetryAutoGroup` | controller/relay.go:456-488 | another group if and only if nothing was written, no channel was asked for by id, the error may be retried or is a gateway status, and a pin may be left |
| `Relay.NextGroupIsNext` | service/channel_select.go:98-136 | the next group of a channel that came from group k is group k + 1 |
| `Relay.PrepareAutoGroupRetry` | controller/relay.go:438-454 | succeeds exactly when there is a next group and the error is worth it; it then moves the walk there and restarts the count |
| `Relay.Classify` | service/retry_class.go:30-69 | an error is retryable exactly if it is a channel error, or carries no skip mark or skip code, is not 504 or 524, is not a 2xx unless it disables channels, and its status is outside 100 to 599 or one the operator retries; only a channel error forces a retry |
| `Relay.Decide` | controller/relay.go:240-257 | after a failed call its channel is excluded, and the loop goes on exactly when the error is retryable with retries left or a channel error, or worth a next group, with nothing written and no pin in the way; and where it goes on from |
| `Relay.GoesOnExactly` | controller/relay.go:407-516 | the retry decision as an if-and-only-if on the fields of the error, the pin, the retries left, the groups and the written flag |
| `Relay.TryOnce` | controller/relay.go:199-258 | one pass is one call with the channel it got, and the loop goes on exactly by the retry decision; or there was no channel, or the call was stopped before it was made |
| `Relay.RunIsBudgeted` | controller/relay.go:199-258 | in every run each restart of the count but the first moved the walk on, and each stretch between restarts fits the retry limit |
| `Relay.AttemptsAreBounded` | controller/relay.go:199-258 | a run has at most (restarts + 1) times (RetryTimes + 1) attempts, and at most one restart more than there are groups |
| `Relay.ChannelsDiffer` | controller/relay.go:199-258 | no channel is called twice in a run |
| `Relay.OnlyTheLastWrites` | controller/relay.go:407-418 | every attempt but the last failed without a byte written |
| `Relay.NeverGivesUpEarly` | controller/relay.go:254-257 | a run whose last call failed unwritten with a retryable error, unpinned, with a retry left and no channel asked for by id, ended because there was no channel or the next call was stopped |
| `Relay.RanOutIsForced` | controller/relay.go:199-257 | the retry limit ends a run that would go on only at a channel error with no retry left |
| `Relay.TryChannels` | controller/relay.go:189-258 | the loop ends on every run; each attempt is made because the one before it goes on, from exactly where that left walk, retry count, exclusions and pin; and the run ends for the stated reason: delivered, given up by the retry decision, retry limit, no channel, or stopped |
| `Relay.Relay` | controller/relay.go:177-258 | the same; no channel is attempted twice; an attempt that wrote is the last; attempts are at most (restarts + 1) times (RetryTimes + 1), where a restart sets the retry count back and shows in the recorded attempts; a billed run that ends in error refunds exactly once and a successful one never |
| `Billing.PreConsume` | service/billing_session.go:186-232 | no session exactly when a needed call fails; then nothing stays taken unless the token's rollback fails |
| `Billing.Session.Reserve` | service/billing_session.go:152-178 | the new books for every outcome of the wallet, token and rollback calls, and exactly when an error is returned |
| `Billing.Session.Settle` | service/billing_session.go:41-79 | the new books for every outcome of the calls, and exactly when an error is returned; the second settlement does nothing |
| `Billing.Session.Refund` | service/billing_session.go:82-123 | what is returned, and when nothing is |
| `Billing.RunKeepsInvariant` | service/billing_session.go:41-178 | after every sequence of calls, failing or not, what was taken is what the session remembers |
| `Billing.OpeningTakes` | service/billing_session.go:186-232 | a session starts with the advance taken from wallet and token, nothing for a trusted user |
| `Billing.ReservationHolds` | service/billing_session.go:152-178 | in every reachable open state a reservation whose calls succeed leaves at least its target taken from wallet and token, and exactly the target after a raise without lost rollbacks |
| `Billing.FailedReservationTakesNothing` | service/billing_session.go:152-178 | a reservation that fails takes nothing, unless the rollback was lost |
| `Billing.SettlementIsExact` | service/billing_session.go:41-79 | in every reachable state, settling leaves exactly the actual cost taken if and only if the advance was not refunded and no rollback was lost |
| `Billing.TokenSettlementIsExact` | service/billing_session.go:59-73 | the token is charged the actual cost exactly when its call succeeds |
| `Billing.RefundIsComplete` | service/billing_session.go:82-123 | from every reachable state a refund whose calls succeed leaves nothing taken, lost rollbacks included |
| `Billing.NothingToRefund` | service/billing_session.go:132-145 | an open session without anything to refund has taken nothing, unless a rollback was lost |
| `Billing.FinalIsFinal` | service/billing_session.go:41-123 | once settled, or refunded and not settled again, no call moves anything |
| `Billing.SettlementAfterRefund` | service/billing_session.go:41-55 | settling after a refund charges the difference only |
| `Billing.LostRollbackIsCharged` | service/billing_session.go:165-171 | a reservation whose rollback failed is charged on top of the actual cost |
| `BilledRelay.RelayAndRefund` | controller/relay.go:169-258 | with any reservations, on every run of a billed request that ends in error with its refund calls succeeding, nothing stays taken from the token, and nothing from the wallet unless a lost rollback is all there was; a successful run leaves the session to be settled |
| `ModelLists.MergeModelNames` | controller/channel_upstream_update.go:104-118 | the loop computes the normalised base followed by the new names |
| `ModelLists.NormalizeIsNormal` | controller/channel_upstream_update.go:97-102 | trimmed, non-empty, distinct names |
| `ModelLists.MergeIsNormal` | controller/channel_upstream_update.go:104-118 | the union, normal |
| `ModelLists.SubtractIsNormal` | controller/channel_upstream_update.go:120-129 | the difference, normal |
| `ModelLists.IntersectIsNormal` | controller/channel_upstream_update.go:131-140 | the intersection, normal |
| `ModelLists.ApplySelectedIsExact` | controller/channel_upstream_update.go:142-147 | origin with the additions and without the removals; a name selected both ways is added |
| `ModelLists.ApplySelectedInOrder` | controller/channel_upstream_update.go:142-147 | as sequences, for new additions: the origin without the removals, then the additions |
| `ModelSync.AddCommutes` | controller/channel_upstream_update.go:176-235 | after any selection, detecting again finds exactly the additions recorded as remaining, in order, if and only if every uncovered upstream name is stored and ignored as the administrator chose |
| `ModelSync.RemoveCommutes` | controller/channel_upstream_update.go:176-235 | and exactly the recorded removals, in order, if and only if everything the added names are stored as is upstream, a redirect source or a local model that stays |
| `ModelSync.CommaReappears` | controller/channel_upstream_update.go:176-235 | an added name with a comma is detected again if and only if the new ignore list does not cover it, and is never among the recorded |
| `ModelSync.DetectAfterApply` | controller/channel_upstream_update.go:783-831 | detection after any selection yields exactly the recorded remaining lists if and only if both hold |
| `ModelSync.ModelsAgain` | controller/channel_upstream_update.go:804-809 | the local list read back after any selection: the models that stay, in order, then what the added names become in the comma-joined string |
| `ModelSync.DetectAfterCommaFreeApply` | controller/channel_upstream_update.go:783-831 | without commas in added names they agree if and only if the new ignore list says what was chosen about every uncovered name that is not added |
| `ModelSync.DetectAfterPlainApply` | controller/channel_upstream_update.go:783-831 | when no selected name is written as an expression, whatever else the upstream lists, they agree if and only if no added name contains a comma |
| `ModelSync.RegexNameIgnoredExactly` | controller/channel_upstream_update.go:210-224 | a detected name written as an expression can be ignored alone if and only if that expression matches it and no other detected name |
| `ModelSync.RegexNameCannotBeIgnored` | controller/channel_upstream_update.go:210-224 | in particular one that its own expression does not match is detected again after it was ignored |
| `ModelSync.IgnoreListGrowsByChoice` | controller/channel_upstream_update.go:783-831 | a plain name is ignored afterwards exactly when it was before and not added, or is chosen |
| `ModelSync.ApplyEverything` | controller/channel_upstream_update.go:783-831 | applying everything leaves nothing recorded as pending |
| `ModelSync.NothingFoundAfterEverything` | controller/channel_upstream_update.go:783-831 | and detecting again finds nothing under exactly the condition of DetectAfterApply; with plain names, if and only if no added name contains a comma |
| `ModelSync.AutoSyncAddsAll` | controller/channel_upstream_update.go:384-391 | the automatic merge appends exactly the pending names |
| `ModelSync.AutoSyncSettles` | controller/channel_upstream_update.go:360-407 | after automatic synchronisation detection agrees with what was recorded if and only if no pending name contains a comma |
| `ModelSync.CompareRecord` | controller/channel_upstream_update.go:375-396 | the comparison step computes the checked record and the number of names added |
| `ModelSync.Channel.Select` | controller/channel_upstream_update.go:783-831 | the in-place update equals the selection applied to the old record |
| `ModelSync.Channel.ApplyUpdates` | controller/channel_upstream_update.go:783-831 | the new record, the check time, the reply and the error for every outcome of the two writes |
| `ModelSync.Channel.CheckAndPersist` | controller/channel_upstream_update.go:360-407 | the periodic check: skipped when too soon, nothing but the time changes when fetching fails, otherwise the checked record; every error case |
| `Strings.StoredListRoundTrips` | model/channel.go:287-292 | a joined list reads back unchanged if and only if no part has the separator and neither end is empty |
| `ModelLists.NormalizeStored` | model/channel.go:287-292 | any list, joined, read back and normalised, is the normal list of all parts of its entries |
| `MultiKey.KeysReadBack` | model/channel.go:174-196 | the keys written with line breaks read back unchanged if and only if the list is storable and its text is not an array |
| `MultiKey.Channel.Update` | model/channel.go:582-625 | an empty key column keeps the stored one; the size is counted and no state lies beyond it, nor below zero if none did |
| `MultiKey.KeysFit` | model/channel.go:582-612 | the recorded size is the number of keys if and only if the text is not an empty array |
| `MultiKey.EmptyArrayCountsOne` | model/channel.go:594-607 | an empty array on one line has no key and is counted as one |
| `MultiKey.Channel.DisableKey` | controller/channel.go:1603-1644 | refused exactly out of range; one key is disabled and every other state stays |
| `MultiKey.Channel.EnableKey` | controller/channel.go:1646-1686 | one key is enabled with its record cleared and every other state stays |
| `MultiKey.Channel.EnableAllKeys` | controller/channel.go:1688-1710 | every key is enabled |
| `MultiKey.Channel.DisableAllKeys` | controller/channel.go:1712-1757 | refused exactly when none is enabled; the enabled keys are disabled and the states of the others stay |
| `MultiKey.Channel.DeleteKey` | controller/channel.go:1759-1837 | refused exactly out of range or for the last key; the other keys keep order, status, time and reason if and only if the remaining list survives its text form |
| `MultiKey.Channel.DeleteDisabledKeys` | controller/channel.go:1839-1906 | refused exactly when no key is auto-disabled; the same for the keys that are not; when all are, every key is back and enabled |
| `MultiKey.Channel.AppendKeys` | controller/channel.go:1033-1105 | the old keys keep places and states and the new ones follow enabled, if and only if the stored text was readable, the longer list survives and no stale state waits |
| `MultiKey.Channel.Manage` | controller/channel.go:1487-1912 | one action takes the channel from row to row as that action promises, or is refused and changes nothing |
| `MultiKey.Channel.ManageAll` | controller/channel.go:1487-1912 | every sequence of administrative actions goes through rows that each action takes to the next as promised, with all status indices in range and the size the number of keys unless the text is an empty array |
| `MultiKey.AddedAreKeys` | controller/channel.go:1073-1102 | a key is added exactly if it is not empty, some text between line breaks of the request trims to it and no existing key does; each once, and every line of a later key has one of an earlier key before it |
| `MultiKey.LinesExist` | controller/channel.go:1073-1074 | every request is the join of exactly one list of lines without line breaks |
| `MultiKey.ExistingKeys` | controller/channel.go:1041-1054 | append mode takes the stored keys, or none if the text looks like an array and does not parse |
| `MultiKey.KeysAreLines` | model/channel.go:174-196 | text that is not an array holds the lines left when line breaks are cut off at its ends |
| `MultiKey.OldKeysLost` | controller/channel.go:1041-1054 | appending to text that looks like an array and is not loses the old keys |
| `MultiKey.BlankKeyVanishes` | controller/channel.go:1819-1820 | after deleting the key before a blank line, the blank key is gone and only the last key comes back |
| `MultiKey.MultiLineKeyFalls` | controller/channel.go:1819-1820 | a key that spans several lines comes back as that many keys |
| `KeyPolling.Poller.GetNextEnabledKey` | model/channel.go:198-281 | fails exactly when no key is enabled or polling cannot read the saved position, with which error; never returns a disabled key; polling takes the key in turn and moves to the next turn |
| `KeyPolling.Poll` | model/channel.go:256-271 | the circular search finds the enabled key in turn |
| `KeyPolling.Poller.Round` | model/channel.go:245-274 | as many polls as enabled keys visit each once, in cyclic order, from every saved position |
| `RatioSync.CompareChannel` | controller/ratio_sync.go:605-629 | one pair against one channel: same, missing or a value of its own |
| `RatioSync.Confidences` | controller/ratio_sync.go:557-591 | per channel and model: unreliable exactly for ratio 37.5 with completion 1 |
| `RatioSync.ChannelsWithDiff` | controller/ratio_sync.go:656-665 | exactly the channels with a value of their own in some item |
| `RatioSync.Prune` | controller/ratio_sync.go:667-693 | the other channels are deleted from every item, and items left without a difference go |
| `RatioSync.Compare` | controller/ratio_sync.go:593-641 | one pair against every channel: what is shown and whether the first pass keeps it |
| `RatioSync.BuildDifferences` | controller/ratio_sync.go:536-696 | items for exactly the reported pairs; upstreams and confidence share one domain, exactly the channels with a value of their own somewhere |
| `RatioSync.ReportedExactly` | controller/ratio_sync.go:591-696 | a pair is reported if and only if some channel states another value and a channel that differs somewhere does not agree on it |
| `RatioSync.ValuesEqual` | controller/ratio_sync.go:48-62 | two numbers are equal if they are less than a billionth apart, other values if they are the same |
| `RatioSync.Trusted` | controller/ratio_sync.go:560-585 | a model is distrusted exactly if its model ratio is less than a billionth away from 37.5 and its completion ratio from 1 |
| `RatioSync.CleanReport` | controller/ratio_sync.go:48-62 | without nulls and marker texts, a pair is reported if and only if some channel states a number at least a billionth away from the local one, or another text, or a value where there is no local one |
| `RatioSync.NullIsNotReported` | controller/ratio_sync.go:656-693 | a price set to null upstream differs and is not reported |
| `RatioSync.TakingOverSettles` | controller/ratio_sync.go:536-696 | with a single upstream, taking over what is reported makes the next report empty, for all data |
| `ModelsDev.BuildCandidate` | controller/ratio_sync.go:845-879 | a candidate if and only if the input price is stated and not negative, and the output price, if stated, is not negative and not positive with free input; it then states the input and output prices as they are, and the cache price unless that is negative |
| `ModelsDev.LessIsLexicographic` | controller/ratio_sync.go:881-904 | the order on provider names: the first difference decides, and a prefix comes first |
| `ModelsDev.ChosenStep` | controller/ratio_sync.go:881-893 | one comparison keeps the bounds of the choice although near-equality is not transitive |
| `ModelsDev.CandidatesAreOrdered` | controller/ratio_sync.go:915-919 | sorted providers give candidates in provider order, so ties never replace |
| `ModelsDev.PickIsChosen` | controller/ratio_sync.go:881-893 | the kept price is free only if all are, otherwise undercut by no price beyond the tolerance and by no earlier one at all |
| `ModelsDev.Select` | controller/ratio_sync.go:906-948 | a model is selected if and only if some provider lists a usable price for it; the selected candidate has that provider's input, output and cache prices, and is the one that the comparison, folded over the providers in order, keeps |
| `ModelsDev.FreeOnlyIfAllFree` | controller/ratio_sync.go:903-905 | a free price is chosen if and only if all usable prices are free |
| `ModelsDev.WithinToleranceOfCheapest` | controller/ratio_sync.go:881-893 | otherwise the chosen price is positive and below every positive price plus the tolerance |
| `ModelsDev.CheapestExactly` | controller/ratio_sync.go:903-948 | the cheapest positive price is chosen if and only if the price kept when it arrives is not near it |
| `ModelsDev.CheapestWhenSeparated` | controller/ratio_sync.go:881-893 | the cheapest is chosen whenever near-equal prices are equal |
| `ModelsDev.NearlyCheapest` | controller/ratio_sync.go:881-893 | of two near-equal prices the selection keeps the first provider's although the second is lower |
| `ModelsDev.RatiosKeepPrices` | controller/ratio_sync.go:954-972 | multiplied back, the ratios give the provider's prices up to rounding |
| `MidjourneyPolling.StepKeepsInvariant` | controller/midjourney.go:121-197 | every step of every process keeps: a failed row is finished, unseen as failed by any process that may still write, and refunded once if paid |
| `MidjourneyPolling.RunKeepsInvariant` | controller/midjourney.go:121-197 | over every run, and a failed task stays failed with its refunds unchanged |
| `MidjourneyPolling.ProcessedExactly` | controller/midjourney.go:115-197 | what one response item does to row, refunds and snapshot: the row is written if the item says more than the snapshot, the status is still the one seen and the write succeeds, and refunded if besides it was paid and the item says it failed; a late item for an unfinished task is a failure |
| `MidjourneyPolling.SafeExactly` | controller/midjourney.go:121-197 | no run of any number of processes refunds twice if and only if every upstream item triggers a refund exactly when its status is FAILURE |
| `MidjourneyPolling.TriggerWithoutFailure` | controller/midjourney.go:168-180 | a refunding item with another status: a run that refunds twice |
| `MidjourneyPolling.FailureWithoutTrigger` | controller/midjourney.go:121-129 | a failure without a refund: a run that refunds twice after the timeout |
| `MidjourneyPolling.FailedMeansRefunded` | controller/midjourney.go:168-197 | a paid task is failed if and only if it was refunded once, unless it was failed in bulk |
| `MidjourneyPolling.BulkFailureIsNotRefunded` | controller/midjourney.go:47-79 | a task failed in bulk is never refunded |
| `MidjourneyPolling.DuplicateItemRefundsTwice` | controller/midjourney.go:121-197 | a run from a fresh task in which one response lists an unfinished item twice and the task is refunded twice |
| `MidjourneyPolling.SafeWithoutTheRule` | controller/midjourney.go:121-197 | if responses may list a task more than once, no run refunds twice if and only if the upstream can send at most one item, a finished failure with the timeout reason |
| `VideoTask.Account.UpdateTask` | controller/task_video.go:121-278 | the new row and balance for every answer and every failing call |
| `VideoTask.SuccessIsRebilled` | controller/task_video.go:143-240 | a success costs the whole part of tokens times rate if there are tokens, a rate and a working call, and what it cost before otherwise; the balance moves by the difference |
| `VideoTask.FailureIsRefunded` | controller/task_video.go:241-277 | the first failure, or missing status, gives the charge back if the call works; later ones give nothing |
| `VideoTask.OthersChargeNothing` | controller/task_video.go:134-142 | any other answer leaves charge and balance alone; an unknown status or a failing write leaves the row |
| `VideoTask.Account.Rebill` | controller/task_video.go:184-235 | the difference is charged or returned; a failing call changes nothing |
| `VideoTask.ConservedExactly` | controller/task_video.go:127-276 | a poll keeps balance plus outstanding charge if and only if it does not leave failure with a charge, lose the row after re-billing, or lose the refund |
| `VideoTask.RunConserves` | controller/task_video.go:127-276 | over every sequence of polls with failure absorbing and writes and refunds succeeding the sum is constant, failing re-billing calls included |
| `VideoTask.FailureRefundsAll` | controller/task_video.go:241-276 | a run that reports a failure gives back exactly what the task cost |
| `VideoTask.NoSecondRefund` | controller/task_video.go:251-257 | a failed task is not refunded again |
| `VideoTask.SuccessIsStable` | controller/task_video.go:143-240 | polling a success again changes nothing |
| `BodyStorage.TellsApart` | common/body_storage.go:47-89 | the only call that distinguishes memory from disk is an empty read at the end |
| `BodyStorage.RunsAgree` | common/body_storage.go:47-238 | every sequence of non-empty reads, seeks, Bytes, Size and Close answers the same from memory and from disk |
| `BodyStorage.MemoryStorage.Read` | common/body_storage.go:47-54 | refines the common read step: the next bytes, as many as asked for unless the data ends first |
| `BodyStorage.MemoryStorage.Seek` | common/body_storage.go:56-63 | refines the common seek step: from the start, the position or the end, and never to before the start |
| `BodyStorage.MemoryStorage.Bytes` | common/body_storage.go:74-81 | the whole content, or closed |
| `BodyStorage.MemoryStorage.Size` | common/body_storage.go:83-85 | the length of the content, closed or not |
| `BodyStorage.MemoryStorage.Close` | common/body_storage.go:65-72 | only the first Close takes the buffer off the counters |
| `BodyStorage.ReadFull` | common/body_storage.go:217-222 | reads exactly the first n bytes of the file, or fails if there are fewer |
| `BodyStorage.DiskStorage.Read` | common/body_storage.go:169-176 | the same on a file |
| `BodyStorage.DiskStorage.Seek` | common/body_storage.go:178-185 | the same on a file |
| `BodyStorage.DiskStorage.Bytes` | common/body_storage.go:198-230 | the whole content, and the cursor where it was |
| `BodyStorage.DiskStorage.Size` | common/body_storage.go:232-234 | the length of the content, closed or not |
| `BodyStorage.DiskStorage.Close` | common/body_storage.go:187-196 | only the first Close takes the file off the counters |
| `BodyStorage.Stats.IncrementDiskFiles` | common/disk_cache_config.go:109-112 | the counters stay the number and total size of the open files |
| `BodyStorage.Stats.DecrementDiskFiles` | common/disk_cache_config.go:115-122 | the same; the floor at zero never takes effect |
| `BodyStorage.Stats.IncrementMemoryBuffers` | common/disk_cache_config.go:125-128 | the same for buffers |
| `BodyStorage.Stats.DecrementMemoryBuffers` | common/disk_cache_config.go:131-134 | the same for buffers |
| `BodyStorage.LimitWorks` | common/body_storage.go:133-148 | a body is accepted exactly when it fits and is then kept whole, if and only if the limit is not the largest 64-bit number or the body is empty |
| `BodyStorage.CreateBodyStorage` | common/body_storage.go:241-259 | memory or disk exactly by configuration, size, quota and disk failure; the content is the body; the counters change by exactly that storage |
| `BodyStorage.CreateBodyStorageFromReader` | common/body_storage.go:262-303 | memory, disk or which refusal exactly by declared length, kept length, limit, quota and disk failure; the content is the limited body; the counters change by exactly that storage |
| `BodyStorage.PlacedExactly` | common/body_storage.go:262-303 | refused when the disk fails that the declared length calls for or more was kept than allowed; on disk when either length reaches the threshold and fits the quota |
| `BodyStorage.UndeclaredBytesExceed` | common/body_storage.go:266-270 | an accepted body can take some disk past its quota if and only if it has a declared length and is longer |
| `BodyStorage.UndeclaredRunExceeds` | common/body_storage.go:262-303 | such a body as the only event exceeds the quota |
| `BodyStorage.QuotaKept` | common/body_storage.go:241-303 | after any sequence of creations and closes disk usage is within the maximum if no streamed body with a declared length was longer |
| `BodyStorage.Pool.CreateStorage` | common/body_storage.go:241-259 | among any number of storages, the new one is open, holds the data, and is entered where size, quota and disk failure put it |
| `BodyStorage.Pool.StreamStorage` | common/body_storage.go:262-303 | the same for a body read from a request, which may be refused and then changes nothing |
| `BodyStorage.Pool.CloseFile` | common/body_storage.go:187-196 | among any number of storages, closing one, for the first time or again, closes that one only and keeps the counters exact |
| `BodyStorage.Pool.CloseBuffer` | common/body_storage.go:65-72 | the same for a buffer |
| `BodyStorage.Handle` | common/body_storage.go:37-303 | one event takes all the storages and counters to the next state, and what was created before stays in place |
| `BodyStorage.Process` | common/body_storage.go:37-303 | after any sequence of creations and possibly repeated closes the files and buffers are those the events say, with their sizes and closed or not; the counters are the number and total size of the open ones; disk usage is within the maximum if no streamed body with a declared length was longer |
| `OggOpus.GetOpusDuration` | common/audio.go:196-254 | the scan ends on every byte string and computes the largest granule it finds |
| `OggOpus.ReadPage` | common/audio.go:207-249 | every pass moves forward and keeps the answer |
| `OggOpus.PageSize` | common/audio.go:241-245 | the payload size is the sum of the segment table |
| `OggOpus.GranuleRoundTrip` | common/audio.go:228-232 | a granule position written little-endian reads back, negative ones included |
| `OggOpus.IsPage` | common/audio.go:219-226 | a page starts with the characters O, g, g, S |
| `OggOpus.PageIsRead` | common/audio.go:207-249 | a page is consumed exactly and counted once |
| `OggOpus.TruncatedPageIsRead` | common/audio.go:228-239 | a page cut inside its segment table still counts |
| `OggOpus.JunkIsSkipped` | common/audio.go:219-226 | bytes in which no page starts are skipped |
| `OggOpus.StreamIsScanned` | common/audio.go:207-249 | any list of pages with junk between them is scanned to its largest granule |
| `OggOpus.DurationIsLargestGranule` | common/audio.go:196-254 | the answer for every such stream is the maximum of zero and the signed granule positions |
| `PayMoney.RoundCeil2IsLeast` | controller/topup_money.go:18-32 | rounding gives the least whole number of cents not below the amount |
| `PayMoney.BreakdownIsExact` | controller/topup_money.go:17-44 | effective plus fee is the total, all whole non-negative cents; the effective amount is the least that covers the price, and the total the least that covers the effective amount times one plus a hundredth of the percentage, a negative percentage counting as zero |
| `PayMoney.BreakdownIsMonotone` | controller/topup_money.go:17-44 | both grow with price and percentage |
| `PayMoney.FenAddsUp` | controller/topup_money.go:77-79 | converting the total to fen equals converting the parts and adding, without loss |

## Left out

- RelayAndRefund: makes the reservations of all attempts before the first one, not in between; neither reads what the other changes.
- TriggerWithoutFailure: its second refund needs RowsAffected to count the rows an update matches, as PostgreSQL and SQLite do; MySQL without clientFoundRows counts changed rows, and there a second write of the same values does not win. The same holds for the second refunds in FailureWithoutTrigger and DuplicateItemRefundsTwice, and so for the only-if halves of SafeExactly and SafeWithoutTheRule.
- Subscription funding, the trust decision and the preference fallback of NewBillingSession: `Billing` covers the wallet.
- The asynchrony of Billing's Refund: the refund's two calls are one step of the session.
- Violation fees, `processChannelError` and perf metrics of the relay loop; `RelayTask`, which may reuse a channel.
- The circuit breaker: which channels it holds open is an arbitrary set at each selection.
- A change of the configured groups or of the channel table in the middle of a request: `Relay` takes both as fixed for its length.
- OrderLock: a step machine on values, since its point is the interleaving of goroutines; Go's sync.Map and mutexes are single steps.
- MidjourneyPolling: columns other than code, progress, status, reason and quota are one value; a response item for an unknown task, which would crash the poller, does not occur.
- MultiKey: the channel object stands for its row, so a failing database write is not modelled; the Vertex form of an appended request; the pages and counts of the status report.
- JSON parsing: an array of keys is read by an arbitrary parser whose arrays are longer than their elements; prices are decoded values.
- Regular expressions, URL parsing and the fetching of upstream lists: parameters.
- RatioSync: the nested result maps are one map keyed by model and field; the field list is arbitrary; values are null, number or text, since comparing nested values crashes in Go.
- The OpenRouter converter and the pricing-endpoint decoder of ratio_sync.go: field-by-field copies.
- IEEE rounding, NaN and infinities, `InexactFloat64` and the 16-digit decimal division: amounts and prices are exact.
- Cleaning the disk cache directory and resetting its counters, which both count a live file twice.
- TellsApart: does not model the whence values 3 and 4 (SEEK_DATA, SEEK_HOLE), which a file on Linux accepts and a buffer rejects; they would be a second way to tell the two apart.
- DiskStorage.Seek: treats those two whence values as invalid, since what they find depends on the file system.
- Wrap-around of seek offsets beyond 64 bits; short reads of a regular file.
- Taking prices over: `RatioSync.TakeOver` sets every offered value, while the administrator's page also drops the other price categories of the model.
- HTTP handlers, sessions, logging, audit records, payment providers and their webhooks.
