# Verified core of the LLM gateway

A Dafny model of the parts of the gateway where a mistake costs money or data, with proofs about
every input, every run or every interleaving. `dafny verify dfyconfig.toml` checks the whole project.

| file | what it models |
|---|---|
| `OrderLocks.dfy` | the reference-counted lock per payment order, statement by statement and thread by thread |
| `TopUpOrders.dfy` | the life of a top-up order under the webhook and admin handlers that take that lock |
| `MultiKeyChannel.dfy` | channels with many API keys: status maps indexed by key position, deleted and appended keys |
| `MultiKeyRuns.dfy` | whole runs of such a channel, against a plain list of cells, and what the key page shows of it |
| `RatioDiff.dfy` | the comparison of local prices with upstream prices |
| `PriceImport.dfy` | choosing the cheapest models.dev provider, and converting prices to ratios |
| `UpstreamModels.dfy` | detecting, applying and ignoring changes of an upstream's model list |
| `RateLimiter.dfy` | the in-memory sliding-window limiter and its background sweep |
| `OggScan.dfy` | the Ogg page scan that yields the duration of an Opus file |
| `EnrichModels.dfy` | the batched join that fills in model metadata |
| `BodyStorage.dfy` | request bodies kept in memory or on disk, and the usage counters |
| `DiskQuota.dfy` | the disk usage counters under concurrent requests, one atomic operation at a time |
| `SecureSession.dfy` | step-up verification by one-time code or passkey, with a session that the client holds and presents |
| `SessionRuns.dfy` | what that promises in every run, whichever of its sessions the client presents |
| `SessionReplay.dfy` | which promises an older session breaks, and exactly when presenting one makes no difference |
| `Spans.dfy` | requests that load a record and save it back without one lock over both |
| `Text.dfy`, `Sorting.dfy`, `Picks.dfy`, `Basics.dfy` | string operations, sorted and filtered lists and types the above rely on |

The lock protocol, the disk counters and the session are state machines over every interleaving or every sequence of
requests. Code that works by updating objects or in loops is a class or a method with loop invariants,
proved against a specification function or a direct statement. Randomness, clocks, the database, the
network, JSON decoding and regular expressions are parameters; floats are exact reals.

## What does not hold as one would expect

The model follows the code. Where an expected property fails, the exact condition under which it holds
is proved instead.

- Deleting the automatically disabled keys of a channel whose keys are all automatically disabled
  deletes nothing and enables all of them again (`MultiKeyChannel.Channel.DeleteDisabledKeys`).
- Keys are stored as lines of one text whose ends are trimmed, so deleting or appending next to an empty
  first or last key shifts the list (`MultiKeyChannel.KeysOfLines`). Appending to a text that starts like a
  JSON array but is not one does not see the keys stored in it (`MultiKeyChannel.AppendSeesStoredKeys`).
- Time and reason of a disabling belong to a position, not to a key, and outlive it: replacing the keys and
  re-enabling a key automatically leave them behind. Disabling by hand the key that stands there later shows
  them; the page is as expected exactly otherwise (`MultiKeyRuns.ShownFollows`, `MultiKeyRuns.NoteOutlivesItsKey`).
- Key management reads the channel before it takes the lock, so a request that writes between another's read and
  write is undone: a deleted key comes back (`MultiKeyRuns.DeletedKeyReturns`). Undisturbed requests are as good
  as one after the other (`MultiKeyRuns.InterleavedIsSerial`).
- The price comparison also lists an item without a visible difference when some channel quotes an explicit null
  or the text "same" against a local value and some channel, perhaps another, shows null there and differs in
  another item (`RatioDiff.PhantomExample`).
- Applying all pending models and detecting again leaves something pending when a name contains a comma,
  or when applying a name removes the `regex:` ignore entry that hid another (`UpstreamModels.DetectApplyDetect`,
  `UpstreamModels.HiddenNameReturns`). An applied name with a comma is in no stored list afterwards
  (`UpstreamModels.NothingPendingIsLost`).
- The rate limiter admits one request under a limit of zero, and forgets admissions that still count when
  the window is more than one second longer than the expiration (`RateLimiter.ExactIffSensible`).
- A memory store and a disk store differ on an empty read at the end (`BodyStorage.SameReplies`), and the
  disk maximum is exceeded by a client that sends more than it declared (`BodyStorage.Overrun`).
- Overlapping requests are each tested against what is counted so far, so `n` of them can bring the disk
  usage to `n` times the maximum, and no further (`DiskQuota.UsageBound`, `DiskQuota.BoundIsReached`).
- A model with a prompt price but no completion price gets a completion ratio of 0 from OpenRouter and none
  from models.dev (`PriceImport.UnitsAgree`).
- A payment failure handler without the lock could turn a credited order into a failed one
  (`TopUpOrders.LostUpdateWithoutLock`). For the Waffo gateways this happens: their payment request saves its
  copy of the new order as failed without the lock, also when the order was completed meanwhile
  (`TopUpOrders.OtherGatewayLosesUpdate`); the ledger is exact otherwise (`TopUpOrders.ExactIffNeverClobbered`).
- The session is a signed cookie, so removing a key from it only sends a new cookie; the client can present an
  older one. A passkey marker that was consumed is accepted again (`SessionReplay.ConsumedMarkerReplayed`), and a
  verification that a later passkey finish withdrew still allows an action (`SessionReplay.WithdrawnVerificationReplayed`).
  The time limits hold whatever is presented (`SessionRuns.AllowedExactly`, `SessionRuns.AllowedByPasskey`).
  Counting what the client holds after each request as a cookie of its own, markers are one-shot for all requests
  exactly when no cookie is presented twice (`SessionReplay.OneShotExactly`), and withdrawal is final exactly when
  only the newest cookie, or none, is presented (`SessionReplay.HonouredExactly`).
- Also a client that only keeps its newest cookie can use one marker in two overlapping passkey verifications
  (`SessionReplay.OverlapUsesMarkerTwice`), but not in undisturbed ones (`SessionReplay.InterleavedIsSerial`).

## Model

| member | source | states |
|---|---|---|
| `OrderLocks.MutualExclusion` | controller/topup.go:296-325 | in no state of any interleaving are two threads inside the locked region of one trade number, although entries are deleted and recreated |
| `OrderLocks.ExactBookkeeping` | controller/topup.go:285-325 | in every reachable state a counter is the number of threads between their increment and decrement, those threads share the one mutex in the map, and every entry belongs to a running call |
| `OrderLocks.UnlockFindsOwnMutex` | controller/topup.go:311-325 | the Load outside createLock finds the very mutex the caller locked, still held, and no unlock of a free mutex ever happens |
| `OrderLocks.NothingLeaks` | controller/topup.go:311-325 | when every call has returned the map is empty and no lock is held |
| `OrderLocks.NoDeadlock` | controller/topup.go:296-325 | while a call has not returned, some thread can execute its next statement |
| `OrderLocks.InvExec` | controller/topup.go:296-325 | every statement of every thread keeps the invariant behind these results |
| `OrderLocks.RefCountEffect` | controller/topup.go:296-325 | which statements change which counter, and by how much |
| `OrderLocks.CountExec` | controller/topup.go:302-323 | each statement keeps counter and number of users equal |
| `TopUpOrders.CreditedExactlyOnce` | controller/topup_stripe.go:222-316 | in every state of every interleaving of success, failure, expiry, admin and Epay handlers, a Stripe or Epay order has been credited once if it is successful and never otherwise, to its own user and for an amount it is worth |
| `TopUpOrders.SettledForever` | model/topup.go:82-160 | a Stripe or Epay order leaves pending at most once; its later status, and always its user, gateway and quotas, never change; no row and no credit is withdrawn |
| `TopUpOrders.ExactIffNeverClobbered` | controller/topup_waffo.go:209-283 | for orders of every gateway, the ledger is exact throughout a run if and only if no payment request saves its stale copy over an order completed after it was inserted |
| `TopUpOrders.StepExact` | controller/topup_waffo_pancake.go:384-417 | one step of any kind keeps an order's ledger exact, if and only if it is not such a save |
| `TopUpOrders.DraftWasPending` | controller/topup_waffo.go:209-229 | the copy a payment request holds is the row it inserted, which was pending then |
| `TopUpOrders.OtherGatewayLosesUpdate` | controller/topup_waffo.go:268-283 | a run in which an administrator completes an order inside its lock and its payment request then saves it as failed: credited, failed, and no longer exact |
| `TopUpOrders.UnlockedEffect` | model/subscription.go:595-629 | what is written without the lock credits nothing and touches no Stripe or Epay row |
| `TopUpOrders.BalanceConserved` | model/topup.go:143-153 | in every state of every interleaving a user's balance has grown by exactly the credits logged for that user since the start |
| `TopUpOrders.PaysSum` | model/topup.go:369-383 | a committed credit moves its user's balance by its amount and no other balance |
| `TopUpOrders.SettledByOwner` | controller/topup_stripe.go:222-327 | in every reachable state, a row changes only if it is pending, by the handler inside its lock, for an order of that handler's gateway and to that handler's status, or by an unlocked writer of another gateway's own row |
| `TopUpOrders.WorkEffect` | controller/topup_stripe.go:231-256 | a database call does nothing or settles its pending order; the failure handler's later write of the whole row amounts to one status change (when it does which is `TopUpOrders.CallDecides`) |
| `TopUpOrders.CallDecides` | model/topup.go:421-465 | the last call of each of the six handlers changes its order if and only if it is pending and the handler's to settle (its gateway, a positive quota for Epay and administrators), to the handler's status; a success appends exactly one credit of the order's quota, the manual one for an administrator, and raises that balance alone by it |
| `TopUpOrders.CallPrepares` | controller/topup_stripe.go:231-311 | every other call writes nothing, and leads to the last call whenever the order is the handler's to settle |
| `TopUpOrders.FinishedHandlerSettles` | controller/topup.go:390-427 | a handler whose calls all commit leaves no order pending that is its to settle |
| `TopUpOrders.PhasesFit` | controller/topup_stripe.go:222-327 | in every run a handler is before its first call, before its last call, or done |
| `TopUpOrders.VerdictIsFinal` | model/topup.go:112-160 | in every run, what the last call decides about a Stripe or Epay order is its status ever after, with exactly one credit for a success and none otherwise |
| `TopUpOrders.UnlockedDecides` | model/topup.go:82-110 | what each write without the lock stores |
| `TopUpOrders.SystemInvHappens` | controller/topup.go:390-427 | every event keeps the ledger exact and keeps what a handler has read current while it holds the lock |
| `TopUpOrders.WorkKeepsLedger` | model/topup.go:320-399 | one database call of any handler leaves the ledger exact and touches only its own order |
| `TopUpOrders.ConfinedChange` | controller/topup_stripe.go:231-256 | a change made inside one order's lock leaves every other handler's copy of its row current |
| `TopUpOrders.LostUpdateWithoutLock` | controller/topup_stripe.go:231-256 | the failure handler's separate read and write would lose a credit if another handler came between |
| `TopUpOrders.NoDeadlock` | controller/topup.go:510-527 | while a handler is unfinished some thread can take a step |
| `MultiKeyChannel.CountsAgree` | model/channel.go:536-583 | the count Update stores is the number of keys GetKeys returns, except for an empty JSON array |
| `MultiKeyChannel.KeysRead` | model/channel.go:175-197 | an array JSON accepts gives its elements, any other text its lines, an empty text nothing |
| `MultiKeyChannel.RecordsMean` | controller/channel.go:1398-1423 | what the page shows of a key in terms of the three maps; time and reason of disabled keys only |
| `MultiKeyChannel.KeysOfLines` | model/channel.go:175-197 | a list written one key per line reads back as itself exactly when its outermost keys are not empty |
| `MultiKeyChannel.ShortenedReadsBack` | controller/channel.go:1707-1712 | a shortened list reads back exactly when its outermost keys are not empty |
| `MultiKeyChannel.CarryOver` | controller/channel.go:1678-1696 | carrying one key to its new position appends exactly its stored cell to the rebuilt list; delete_disabled_keys drops what is left of an earlier disabling |
| `MultiKeyChannel.RebuildWithout` | controller/channel.go:1665-1697 | the loop yields the list without key i and maps whose cells, and view, are the old ones without position i |
| `MultiKeyChannel.RebuildEnabled` | controller/channel.go:1735-1765 | the loop yields the cells and the view filtered of automatically disabled keys, and how many were dropped |
| `MultiKeyChannel.KeptExactly` | controller/channel.go:1735-1765 | the kept keys are those whose status is not 3, in order, with their status; enabled ones lose their time and reason |
| `MultiKeyChannel.DisableEnabled` | controller/channel.go:1612-1624 | every enabled position becomes manually disabled, others keep their status; the count is the number of enabled positions, as the size of their set |
| `MultiKeyChannel.NothingPruned` | model/channel.go:536-583 | Update drops no status entry of a rebuilt list |
| `MultiKeyChannel.Rewritten` | controller/channel.go:1707-1715 | what a shortened list and its rebuilt maps are once stored |
| `MultiKeyChannel.Channel.constructor` | model/channel.go:536-583 | a new channel has the counted size and no status entries |
| `MultiKeyChannel.Channel.Update` | model/channel.go:536-583 | afterwards the size is the stored key count and every status index is below it |
| `MultiKeyChannel.Channel.DisableKey` | controller/channel.go:1491-1532 | exactly the accepted index becomes manually disabled; a refused request changes nothing |
| `MultiKeyChannel.Channel.EnableKey` | controller/channel.go:1534-1574 | exactly the accepted record becomes a plain enabled one |
| `MultiKeyChannel.Channel.EnableAllKeys` | controller/channel.go:1576-1598 | every record becomes a plain enabled one; the reported count is the number of status entries there were |
| `MultiKeyChannel.Channel.DisableAllKeys` | controller/channel.go:1600-1645 | enabled keys become manually disabled, with their number; refused exactly when no key is enabled |
| `MultiKeyChannel.Channel.DeleteKey` | controller/channel.go:1647-1725 | refused exactly for a bad index or the last key; otherwise the view loses exactly record i, if and only if the remaining list reads back |
| `MultiKeyChannel.Channel.DeleteDisabledKeys` | controller/channel.go:1727-1794 | refused exactly when no key is automatically disabled; otherwise the view is filtered, if and only if the rest reads back; all disabled means all re-enabled |
| `MultiKeyChannel.Channel.AppendKeys` | controller/channel.go:927-1002 | what is stored after an append; the old view is a prefix followed by the added keys, enabled, with the exact condition for lists stored as lines and as arrays |
| `MultiKeyChannel.Channel.ReplaceKeys` | controller/channel.go:1003-1007 | the text is replaced and status entries beyond it are pruned; times and reasons stay |
| `MultiKeyChannel.Channel.RelayUpdate` | model/channel.go:651-700 | the first position of the key in use gets the reported status, time and reason; re-enabling removes the status only; an unknown key changes nothing |
| `MultiKeyChannel.AppendSeesStoredKeys` | controller/channel.go:936-949 | the append sees the stored keys exactly when the text is not an array it cannot decode |
| `MultiKeyChannel.AddedIsExact` | controller/channel.go:979-998 | the added keys are the trimmed, non-empty, previously unseen new keys, each once, in the order of their first occurrences |
| `MultiKeyChannel.DedupeNewKeys` | controller/channel.go:979-998 | the two loops over the seen map compute those keys |
| `MultiKeyChannel.LineKeys` | controller/channel.go:970-976 | the request text's lines, trimmed, without the empty ones |
| `MultiKeyChannel.UnseenOfNonEmpty` | controller/channel.go:970-998 | dropping empty lines first does not change which keys are added |
| `MultiKeyChannel.AppendedView` | controller/channel.go:1000-1001 | entries below the old count leave old records alone and make appended keys enabled |
| `MultiKeyChannel.ExtendedReadsBack` | controller/channel.go:1000-1001 | an extended list reads back as extended exactly when its first key is not empty or nothing is added |
| `MultiKeyChannel.AppendExact` | controller/channel.go:927-1002 | the view after an append, with the exact condition |
| `MultiKeyChannel.AppendToArray` | controller/channel.go:936-1001 | appending to keys stored as a JSON array, which become lines, is exact if and only if neither end of the new list is empty |
| `MultiKeyChannel.ScanKeys` | controller/channel.go:1390-1450 | the listed keys are the positions that pass the filter, each with its index and record, the one at place a after exactly a others that pass; the three counts are the sizes of the sets of positions with that status |
| `MultiKeyChannel.ListedExactly` | controller/channel.go:1425-1449 | every passing position is listed, in order, with its index |
| `MultiKeyChannel.TallyIsSize` | controller/channel.go:1403-1411 | each count is the number of positions with its status |
| `MultiKeyChannel.SliceOf` | controller/channel.go:1452-1473 | the slice of a page, its length and the ranks of its keys |
| `MultiKeyChannel.GetKeyStatus` | controller/channel.go:1377-1489 | default and clamped page numbers; the total is the number of passing positions, and the page holds those of rank (page - 1) * size and following, as many as fit, each with its own index and record |
| `MultiKeyChannel.PagesPartition` | controller/channel.go:1452-1473 | turning all pages shows every listed key once and in order |
| `MultiKeyRuns.Serve` | controller/channel.go:1491-1794 | over every run of requests, replacing keys and automatic status reports included, a channel of ordinary keys stores and answers exactly what a list of cells would, and shows its projection; status indices stay below the key count |
| `MultiKeyRuns.Handle` | controller/channel.go:1376-1794 | each request changes the channel as it changes the list, and is refused exactly when the list refuses it |
| `MultiKeyRuns.DeleteOne` | controller/channel.go:1647-1725 | delete_key removes one cell and all leftovers |
| `MultiKeyRuns.DeleteAutoDisabled` | controller/channel.go:1727-1794 | delete_disabled_keys filters and cleans the cells, or makes everything plain when nothing would be left |
| `MultiKeyRuns.AppendLines` | controller/channel.go:927-1002 | an append adds enabled cells for the keys not yet there, with the notes left at their positions |
| `MultiKeyRuns.ReplaceLines` | controller/channel.go:1003-1007 | replaced keys take over status and notes of their positions; a shorter list leaves its notes behind |
| `MultiKeyRuns.RekeyedListing` | model/channel.go:566-573 | other keys under the same maps, with pruned status, are the list with other keys |
| `MultiKeyRuns.DisableEvery` | controller/channel.go:1600-1645 | disable_all_keys disables every enabled cell |
| `MultiKeyRuns.Report` | model/channel.go:651-700 | an automatic status report changes the first cell of its key |
| `MultiKeyRuns.PlainKeysReadBack` | model/channel.go:175-197 | ordinary keys survive being written as lines, whatever the JSON decoder accepts |
| `MultiKeyRuns.RunKeepsNoRepeats` | controller/channel.go:979-1001 | no run of requests makes a channel hold the same key twice, unless a replacement does |
| `MultiKeyRuns.ShownFollows` | controller/channel.go:1398-1423 | on the key page every request does what one expects of the records shown, if and only if it does not disable by hand a key whose position carries a leftover time or reason |
| `MultiKeyRuns.TidyRunIsShown` | controller/channel.go:1491-1794 | every run without replacements and automatic re-enabling, from a channel without leftovers, shows what one expects |
| `MultiKeyRuns.NoteOutlivesItsKey` | model/channel.go:566-573 | after replacing three keys by two and adding one, disabling it shows the time and reason of a key long gone |
| `MultiKeyRuns.InterleavedIsSerial` | controller/channel.go:1345-1374 | interleaved requests of which none writes between another's read and write (refused ones do not write) store and answer what they would one after the other |
| `MultiKeyRuns.DeletedKeyReturns` | controller/channel.go:1345-1374 | two overlapping requests both succeed and the deleted key is back |
| `Spans.UndisturbedIsSerial` | controller/channel.go:1345-1374 | any service that loads and saves back a record is serial on undisturbed runs |
| `Spans.CopyIsCurrent` | controller/channel.go:1345-1374 | an undisturbed request saves what it computed on the current record |
| `RatioDiff.BuildDifferences` | controller/ratio_sync.go:537-697 | a (model, field) is listed iff some channel quotes a present, non-null, different value or the item is a phantom; each item lists exactly the channels with a visible difference somewhere, each with the value it quotes if that is not the local one, "same" if it is or if neither has one, null if only the local side has one, and trusted unless its ratios are the defaults 37.5 and 1 |
| `RatioDiff.SurvivesIsRealOrPhantom` | controller/ratio_sync.go:657-694 | pruning keeps exactly the real differences and the phantoms |
| `RatioDiff.FlaggedIsActive` | controller/ratio_sync.go:657-666 | the flagged channels are exactly those with a visible difference in some model and field |
| `RatioDiff.PhantomNeedsNullOrMarker` | controller/ratio_sync.go:606-642 | without explicit nulls and genuine "same" values there are no phantoms, so the list is exactly the real differences |
| `RatioDiff.PhantomExample` | controller/ratio_sync.go:606-694 | an explicit null for one model is listed because the channel differs on another |
| `RatioDiff.CompareChannel` | controller/ratio_sync.go:606-630 | one channel's entry: the quoted value where it differs, the marker where it is equal, null or the marker where nothing is quoted; and whether it differs |
| `RatioDiff.EntryIsShown` | controller/ratio_sync.go:559-630 | the same for value and confidence of every entry |
| `RatioDiff.ValuesEqualMeans` | controller/ratio_sync.go:606-615 | numbers are equal within epsilon, other values when identical |
| `RatioDiff.CompareOne` | controller/ratio_sync.go:596-642 | first-pass inclusion and entries over all channels |
| `RatioDiff.CompareModel` | controller/ratio_sync.go:595-654 | one model's row has an item for every field with something to compare |
| `RatioDiff.CollectModels` | controller/ratio_sync.go:543-557 | no model named locally or by a channel is missed |
| `RatioDiff.CompareModels` | controller/ratio_sync.go:594-655 | all rows |
| `RatioDiff.FirstPass` | controller/ratio_sync.go:543-655 | the complete first pass |
| `RatioDiff.FlagChannels` | controller/ratio_sync.go:657-666 | a name is flagged iff some item shows it a value that is neither null nor the marker |
| `RatioDiff.PruneRow` | controller/ratio_sync.go:669-689 | per row, the surviving fields restricted to the flagged channels |
| `RatioDiff.Prune` | controller/ratio_sync.go:668-694 | the surviving items, restricted, with no empty rows |
| `PriceImport.SelectCandidates` | controller/ratio_sync.go:916-945 | every model with a valid quote is selected; the selected price is non-zero if any valid one is, less than epsilon above every non-zero one and below those of earlier providers; if all are zero the first provider is selected |
| `PriceImport.SelectIsCheapest` | controller/ratio_sync.go:882-894 | in sorted provider order the tie-break cannot drift upward, although nearly-equal is not transitive |
| `PriceImport.ChooseBeats` | controller/ratio_sync.go:882-894 | a later provider takes over only if it beats everything beaten so far |
| `PriceImport.DriftWithoutSorting` | controller/ratio_sync.go:882-894 | out of order the selected price ends more than epsilon above the cheapest |
| `PriceImport.CandidatesInOrder` | controller/ratio_sync.go:916-945 | the candidates of a model are exactly the valid quotes, in provider order |
| `PriceImport.SelectedIsCheapest` | controller/ratio_sync.go:916-945 | the selected candidate is cheapest in the catalog |
| `PriceImport.SomethingIsSelected` | controller/ratio_sync.go:916-945 | a valid quote leads to a selection |
| `PriceImport.SortNames` | controller/ratio_sync.go:916-920 | the keys of a map, each once, ascending |
| `PriceImport.OfferProvider` | controller/ratio_sync.go:924-944 | one provider's models each take one selection step |
| `PriceImport.BuildCandidate` | controller/ratio_sync.go:846-880 | a candidate exists iff its input price is valid and a zero input price comes with no positive output price; its prices are the valid quoted ones |
| `PriceImport.RoundingBound` | controller/ratio_sync.go:699-701 | a rounded ratio is within half a millionth, non-negative if the ratio is, and stable under rounding |
| `PriceImport.HalvesRoundAway` | controller/ratio_sync.go:699-701 | halves are rounded away from zero |
| `PriceImport.UnitsAgree` | controller/ratio_sync.go:777-793 | for every valid quote, the same prices per token (OpenRouter) and per million tokens (models.dev) give the same three ratios, if and only if the model is free or has an output price |
| `PriceImport.PricesRecovered` | controller/ratio_sync.go:955-973 | prompt, completion and cache prices are recovered from the stored ratios alone within the rounding bound; a free model gets a ratio of 0 and nothing else |
| `PriceImport.FromStoredRatios` | controller/ratio_sync.go:955-973 | how the rounding errors of two stored ratios combine in a price |
| `PriceImport.StoreRatios` | controller/ratio_sync.go:951-973 | each selected model's ratios are stored and nothing else |
| `PriceImport.ConvertModelsDev` | controller/ratio_sync.go:907-986 | fails iff no quote is valid; otherwise each model with a valid quote gets the ratios of a cheapest one |
| `PriceImport.ConvertOpenRouter` | controller/ratio_sync.go:725-808 | per model and kind, the last quote that has a ratio wins |
| `PriceImport.OpenRouterExactly` | controller/ratio_sync.go:740-805 | which quotes get ratios (a number given, none negative, a prompt price unless both are zero), and that these recover the quoted prices |
| `PriceImport.LastOfIsLast` | controller/ratio_sync.go:740-805 | the ratio kept for a model is that of its last quote with such a ratio |
| `UpstreamModels.NormalizeLaws` | controller/channel_upstream_update.go:97-102 | trimmed, non-empty, distinct, same members; a normal list is unchanged |
| `UpstreamModels.NormalizeInOrder` | controller/channel_upstream_update.go:97-102 | names stay in the order in which they first occur |
| `UpstreamModels.FilterInOrder` | controller/channel_upstream_update.go:120-140 | subtracting and intersecting keep the order |
| `UpstreamModels.MergeModelNames` | controller/channel_upstream_update.go:104-118 | the loop computes the merge |
| `UpstreamModels.MergeLaws` | controller/channel_upstream_update.go:104-118 | merging is union and keeps lists normal |
| `UpstreamModels.SubtractLaws` | controller/channel_upstream_update.go:120-129 | subtracting is difference |
| `UpstreamModels.IntersectLaws` | controller/channel_upstream_update.go:131-140 | intersecting is intersection |
| `UpstreamModels.ApplySelectedLaws` | controller/channel_upstream_update.go:142-147 | add wins over remove |
| `UpstreamModels.CollectLaws` | controller/channel_upstream_update.go:176-235 | pending additions are the upstream names not served and not ignored, pending removals the local names that are neither redirected nor upstream |
| `UpstreamModels.CollectMeans` | controller/channel_upstream_update.go:176-235 | the same name by name: no redirect leads to a pending addition, no plain ignore entry equals it and no `regex:` entry matches it |
| `UpstreamModels.LocalNamesAreCommaFree` | model/channel.go:289-294 | names read from the column contain no comma |
| `UpstreamModels.StoredNames` | model/channel.go:289-294 | comma-free names survive being stored |
| `UpstreamModels.AppliedLaws` | controller/channel_upstream_update.go:783-831 | every list after applying a selection, as a set of the inputs |
| `UpstreamModels.ModelsInOrder` | controller/channel_upstream_update.go:142-147 | the new models are the local ones that stay, in their order, then the added ones in theirs |
| `UpstreamModels.NothingPendingIsLost` | controller/channel_upstream_update.go:796-818 | in the stored column and settings, every pending addition ends in the models, the ignore list or the rest, and every pending removal is gone or still pending, if and only if no added name has a comma; then add wins over remove and ignore and nothing else changes |
| `UpstreamModels.ListsLoseNothing` | controller/channel_upstream_update.go:796-818 | the same for the lists before they are stored, without condition |
| `UpstreamModels.DetectApplyDetect` | controller/channel_upstream_update.go:783-831 | detect, apply all, detect again yields nothing pending, if and only if no added name has a comma and no name was hidden only by entries that were applied |
| `UpstreamModels.SecondDetection` | controller/channel_upstream_update.go:176-235 | what a second detection finds, in terms of the names |
| `UpstreamModels.AppliedAll` | controller/channel_upstream_update.go:884-889 | applying all that was detected gives the expected models and ignore list |
| `UpstreamModels.CommaStaysPending` | controller/channel_upstream_update.go:176-235 | a pending name with a comma is pending for ever |
| `UpstreamModels.OnlyRegexNamesUnmask` | controller/channel_upstream_update.go:186-210 | without upstream names starting with `regex:` no name is hidden only by applied entries |
| `UpstreamModels.HiddenNameReturns` | controller/channel_upstream_update.go:186-210 | applying a pending name that is itself the ignore entry of another brings the other back |
| `UpstreamModels.HiddenNameExample` | controller/channel_upstream_update.go:199-206 | `regex:^foo$` is such an entry |
| `UpstreamModels.Channel.Apply` | controller/channel_upstream_update.go:783-831 | models, settings and reported lists after applying a selection; the column is rewritten, in order, only when the names change |
| `UpstreamModels.Channel.CheckAndPersist` | controller/channel_upstream_update.go:360-407 | skipped, failed and successful checks; auto-sync reports the number of pending additions and clears them |
| `UpstreamModels.AutoAddedCount` | controller/channel_upstream_update.go:384-397 | merging adds all pending additions, none of which was listed |
| `UpstreamModels.AutoSyncConverges` | controller/channel_upstream_update.go:384-397 | after auto-sync no addition is pending, if and only if no added name has a comma |
| `RateLimiter.InMemoryRateLimiter.Request` | common/rate-limit.go:45-70 | the queue decides and grows or slides; a refused request changes nothing |
| `RateLimiter.InMemoryRateLimiter.ClearExpired` | common/rate-limit.go:28-42 | exactly the keys whose last admission is longer ago than the expiration are dropped; the others keep their queues |
| `RateLimiter.InMemoryRateLimiter.constructor` | common/rate-limit.go:14-26 | a limiter starts empty |
| `RateLimiter.LimiterIsExact` | common/rate-limit.go:28-70 | in every run with time moving forward, each request is admitted iff fewer than the maximum of all admissions ever lie in the window |
| `RateLimiter.ReferenceStep` | common/rate-limit.go:45-70 | the reference admits a request iff the admissions less than the duration ago are fewer than the maximum |
| `RateLimiter.InWindowIsSize` | common/rate-limit.go:45-70 | its count is the size of the set of such admissions |
| `RateLimiter.Serve` | common/rate-limit.go:28-70 | a limiter driven through a whole run gives the full log's answers |
| `RateLimiter.ExactIffSensible` | common/constants.go:206-209 | the limiter is exact on every run of a key iff the limit is at least one and, with an expiration, the window is at most one second longer |
| `RateLimiter.SameDecision` | common/rate-limit.go:45-70 | the truncated queue decides as the whole log |
| `RateLimiter.AgreeAfterPush` | common/rate-limit.go:51-69 | truncation keeps queue and log in agreement |
| `RateLimiter.AgreeAfterSweep` | common/rate-limit.go:28-42 | sweeping keeps queue and log in agreement |
| `RateLimiter.SweepForgets` | common/rate-limit.go:28-42 | a run on which a longer window is not honoured |
| `RateLimiter.ZeroLimitAdmits` | common/rate-limit.go:64-69 | a limit of zero admits the first request |
| `OggScan.ScanIsExact` | common/audio.go:203-249 | on any sequence of well-formed pages, each after a gap without the capture pattern, and before a remainder of any length in which no page starts, exactly the page boundaries are visited and the largest granule position, at least 0, is returned |
| `OggScan.ScanTruncated` | common/audio.go:203-249 | in a file cut inside its last page, that page counts exactly when its header is complete |
| `OggScan.CutPage` | common/audio.go:228-240 | a page whose table or payload is cut off still gives its granule position and ends the scan |
| `OggScan.GetOpusDuration` | common/audio.go:196-254 | the read and seek loop ends on every byte string and computes the scan |
| `OggScan.MaxGranuleIsMaximum` | common/audio.go:228-232 | the returned position is the larger of 0 and the maximum signed granule position |
| `OggScan.GranuleRoundTrip` | common/audio.go:229-229 | every signed 64-bit position is read back from its eight little-endian bytes |
| `OggScan.HeaderFields` | common/audio.go:219-248 | the fields of a page are where the scan reads them |
| `OggScan.PageSize` | common/audio.go:241-245 | the loop sums the segment table |
| `OggScan.BufferFields` | common/audio.go:207-235 | the header buffer holds the bytes at the reading position |
| `OggScan.ScanSkips` | common/audio.go:219-226 | where no page starts the scan moves on and reads nothing |
| `OggScan.NoStraddle` | common/audio.go:219-226 | a page cannot complete a capture pattern that begins in the gap before it |
| `OggScan.ScanSegment` | common/audio.go:219-248 | a gap and its page are one step of the scan, which resynchronises at the page |
| `OggScan.NoPages` | common/audio.go:203-253 | without a capture pattern the duration is 0 |
| `EnrichModels.EnrichModels` | controller/model_meta.go:175-341 | the batch gives every model what a separate computation would: matched names in order, unions of endpoints, groups and channels without repetition, sorted distinct quota types |
| `EnrichModels.MatchedExactly` | controller/model_meta.go:220-271 | the matched names are those at the matching positions of the price list, in its order |
| `EnrichModels.ChannelsExactly` | model/model_meta.go:130-154 | the channels of a name are those of its rows, in their order |
| `EnrichModels.ChannelKeyInjective` | controller/model_meta.go:322-328 | no two channels share a Name_Type key |
| `EnrichModels.ItoaInjective` | controller/model_meta.go:325-325 | different types have different decimal texts |
| `EnrichModels.GetBoundChannelsByModelsMap` | model/model_meta.go:130-154 | one query for many names answers as many queries for one |
| `EnrichModels.RuleMeans` | controller/model_meta.go:232-240 | the prefix, suffix and contains rules mean what their names say, and no other rule matches |
| `EnrichModels.SplitModels` | controller/model_meta.go:180-194 | exact models indexed by name, rule models in order, nothing lost |
| `EnrichModels.FillExact` | controller/model_meta.go:199-214 | every exact model is filled and no other, also when the list repeats one |
| `EnrichModels.FillName` | controller/model_meta.go:201-213 | all exact models of one name |
| `EnrichModels.MatchPricing` | controller/model_meta.go:230-270 | one price against every rule model |
| `EnrichModels.CollectMatches` | controller/model_meta.go:220-271 | the nested loops collect for each rule model its matches and their unions |
| `EnrichModels.FoundSnoc` | controller/model_meta.go:241-269 | one more price adds its name and members exactly when it matches |
| `EnrichModels.AllMatched` | controller/model_meta.go:273-284 | the batched query asks for every matched name |
| `EnrichModels.UnionChannels` | controller/model_meta.go:320-335 | the channels of all matched names, each once |
| `EnrichModels.FillRule` | controller/model_meta.go:288-339 | one rule model, from its own matches alone |
| `EnrichModels.FillRules` | controller/model_meta.go:286-340 | every rule model and no other |
| `EnrichModels.SortIntsLaws` | controller/model_meta.go:310-318 | sorting keeps the members and makes them increasing |
| `BodyStorage.SameReplies` | common/body_storage.go:47-234 | a disk store and a memory store of the same data answer every sequence of calls alike, if and only if no open store is asked for no bytes at its end |
| `BodyStorage.NonEmptyReadsAgree` | common/body_storage.go:47-234 | without empty reads they always agree |
| `BodyStorage.Compare` | common/body_storage.go:37-234 | the two stores themselves, driven through any sequence, with that condition |
| `BodyStorage.ReadsDeliver` | common/body_storage.go:47-63 | however a body is cut into reads, what arrives is the body from the current position on |
| `BodyStorage.Replay` | common/body_storage.go:56-63 | after a rewind, enough reads replay the whole body |
| `BodyStorage.SeekMoves` | common/body_storage.go:56-63 | where each kind of seek goes, what it answers and what the reads after it deliver |
| `BodyStorage.EndIsReported` | common/body_storage.go:47-54 | a read for some bytes is answered with end of file exactly when the reads before it have asked for everything |
| `BodyStorage.BytesAreWhole` | common/body_storage.go:74-81 | in every run, every answer to Bytes before the first Close is the whole data |
| `BodyStorage.BytesChangeNothing` | common/body_storage.go:198-230 | in every run, leaving out a call of Bytes changes no other answer |
| `BodyStorage.ClosedForGood` | common/body_storage.go:65-72 | after the first Close nothing but another Close is answered |
| `BodyStorage.MemoryStorage.constructor` | common/body_storage.go:37-45 | a new store at position 0, counted |
| `BodyStorage.MemoryStorage.Read` | common/body_storage.go:47-54 | answers and moves as specified |
| `BodyStorage.MemoryStorage.Seek` | common/body_storage.go:56-63 | moves to the target counted from the start, the position or the end; a negative target changes nothing |
| `BodyStorage.MemoryStorage.Bytes` | common/body_storage.go:74-81 | the whole data of an open store, wherever the reader stands; position kept |
| `BodyStorage.MemoryStorage.Close` | common/body_storage.go:65-72 | counted out once, however often it is called |
| `BodyStorage.DiskStorage.constructor` | common/body_storage.go:100-130 | a new file at position 0, counted |
| `BodyStorage.DiskStorage.Read` | common/body_storage.go:169-176 | answers and moves as specified |
| `BodyStorage.DiskStorage.Seek` | common/body_storage.go:178-185 | moves to the target counted from the start, the position or the end |
| `BodyStorage.DiskStorage.Bytes` | common/body_storage.go:198-230 | the whole file of an open store through seek, read loop and seek back; position restored |
| `BodyStorage.DiskStorage.Close` | common/body_storage.go:187-196 | counted out once; the counters' floor of zero is never needed |
| `BodyStorage.Stats.IncrementDiskFiles` | common/disk_cache_config.go:109-112 | count and bytes grow |
| `BodyStorage.Stats.DecrementDiskFiles` | common/disk_cache_config.go:115-122 | count and bytes shrink, not below zero |
| `BodyStorage.Stats.IncrementMemoryBuffers` | common/disk_cache_config.go:125-128 | count and bytes grow |
| `BodyStorage.Stats.DecrementMemoryBuffers` | common/disk_cache_config.go:131-134 | count and bytes shrink |
| `BodyStorage.OpenTotalsClose` | common/disk_cache_config.go:115-134 | closing one store takes exactly its share from the totals |
| `BodyStorage.NewDiskStorageFromReader` | common/body_storage.go:132-167 | the whole body or nothing; failures leave the counters alone |
| `BodyStorage.CreateBodyStorage` | common/body_storage.go:241-259 | disk exactly when enabled, large enough, within the maximum and possible; otherwise memory |
| `BodyStorage.CreateBodyStorageFromReader` | common/body_storage.go:262-303 | when a body is stored, where, when it is too large or fails, and which hit is counted; a refused body changes no counter |
| `BodyStorage.Step` | common/body_storage.go:241-303 | one event keeps the counters exact and does not lift disk usage above the maximum unless a client sends more than it declared |
| `BodyStorage.Run` | common/disk_cache_config.go:109-177 | after every sequence of creations and calls the four counters are the count and size of the open stores, and usage is within the maximum if clients send what they declare |
| `BodyStorage.Overrun` | common/body_storage.go:262-282 | a body larger than declared lifts usage above the maximum |
| `DiskQuota.RunExact` | common/disk_cache_config.go:109-122 | in every state of every interleaving of atomic operations, each counter is what the stores between its increment and its decrement add up to |
| `DiskQuota.NeverNegative` | common/disk_cache_config.go:115-122 | in no interleaving is a counter found negative, so it is never set to zero |
| `DiskQuota.UsageBound` | common/disk_cache_config.go:170-177 | with at most n creations overlapping and no client sending more than declared, disk usage never exceeds n times the maximum |
| `DiskQuota.BoundIsReached` | common/body_storage.go:100-167 | for every n, n overlapping creations can bring the usage to n times the maximum |
| `DiskQuota.AdmitBound` | common/disk_cache_config.go:170-177 | admitting one more creation keeps what is counted and what is in flight below the bound |
| `SessionRuns.AllowedExactly` | controller/passkey.go:569-586 | whichever of the cookies issued so far the requests present, an action is allowed iff in the history of the presented one the last verification was by the required method, less than 300 s ago, with no passkey finish since |
| `SessionRuns.AllowedByPasskey` | controller/secure_verification.go:98-179 | in every such run a passkey action follows a finish, its use by a verification less than 60 s later, and less than 300 s since then |
| `SessionRuns.CodeExactly` | controller/secure_verification.go:85-123 | a verification by code succeeds iff the user has 2FA, the code is accepted and the session is saved; any method but 2fa and passkey is refused |
| `SessionRuns.AllowedByCode` | controller/secure_verification.go:85-155 | an action allowed for 2fa follows, in the history of the presented cookie, a request whose code was accepted less than 300 s before |
| `SessionRuns.OnlyTwoMethods` | controller/secure_verification.go:85-118 | whatever is allowed or passes the guard rests on one of the two methods |
| `SessionRuns.RequestLeaves` | controller/passkey.go:569-586 | what every request leaves of marker and verification, stale verifications being cleared |
| `SessionRuns.MarkerExactly` | controller/secure_verification.go:157-179 | a passkey verification uses a marker iff the history of the presented cookie has a saved finish less than 60 s before and since then no saved finish, no successful verification and no saved consumption; it succeeds iff it is also saved |
| `SessionRuns.MarkerUsedOnce` | controller/secure_verification.go:157-179 | a cookie that stems from an accepted use is accepted again only after another saved finish in its history |
| `SessionRuns.GuardedExactly` | middleware/secure_verification.go:22-78 | the guard passes iff a verification by either method stands in the history of the presented cookie and is less than 300 s old |
| `SessionRuns.VerifiedOrigin` | controller/secure_verification.go:145-155 | a recorded verification comes from a successful request in the cookie's history that nothing there has ended |
| `SessionRuns.ReadyOrigin` | controller/passkey.go:495-503 | a marker comes from a passkey finish in the cookie's history, not replaced or removed there since |
| `SecureSession.Session.PasskeyVerifyFinish` | controller/passkey.go:495-503 | sets the marker and withdraws the verification, if saved |
| `SecureSession.Session.ConsumePasskeyReady` | controller/secure_verification.go:157-179 | removes the marker before judging its age |
| `SecureSession.Session.SetSecureVerificationSession` | controller/secure_verification.go:145-155 | records time and method and clears the marker, if saved |
| `SecureSession.Session.UniversalVerify` | controller/secure_verification.go:75-130 | the method switch with every refusal |
| `SecureSession.Session.RequireSecureVerificationMethod` | controller/passkey.go:569-586 | allowed when fresh and by that method; an expired verification is cleared |
| `SecureSession.Session.SecureVerificationRequired` | middleware/secure_verification.go:22-78 | passes when fresh; an expired or malformed one is cleared |
| `SecureSession.Session.ClearSecureVerification` | middleware/secure_verification.go:80-84 | withdraws the verification, if saved |
| `SecureSession.Session.Handle` | controller/secure_verification.go:40-143 | every request does what the session specification says |
| `SessionRuns.Serve` | main.go:203-213 | a server working through requests that present any cookies it has issued issues and answers as specified |
| `SessionReplay.CurrentAllowedExactly` | controller/passkey.go:569-586 | if no request presents a cookie older than the last change of the verification, an action is allowed iff the last verification of the whole run was by its method, less than 300 s ago, and nothing withdrew it |
| `SessionReplay.CurrentGuardedExactly` | middleware/secure_verification.go:22-78 | the same for the guard and either method |
| `SessionReplay.CurrentMarkerExactly` | controller/secure_verification.go:157-179 | if no request presents a cookie older than the last change of the marker, a passkey verification uses a marker iff the whole run has a saved finish less than 60 s before, and no finish, success or consumption since |
| `SessionReplay.FinishBetweenUses` | controller/secure_verification.go:157-179 | then a saved passkey finish lies between any two accepted uses |
| `SessionReplay.NewestExactly` | controller/secure_verification.go:98-179 | both hold in particular when every request presents the newest cookie |
| `SessionReplay.PresentsNewest` | main.go:203-213 | a request that presents no cookie older than the last change of a key finds that key as the newest cookie has it |
| `SessionReplay.OneShotExactly` | controller/secure_verification.go:166-171 | presenting cookies in a given pattern keeps every marker one-shot, whatever the requests are, if and only if no cookie but the initial one is presented twice |
| `SessionReplay.OnceIsOneShot` | controller/secure_verification.go:166-171 | when no cookie is presented twice, no two verifications use the marker of one finish |
| `SessionReplay.OneBranch` | main.go:203-213 | when no cookie is presented twice, of two requests with a common origin the earlier led to what the later presents |
| `SessionReplay.HonouredExactly` | controller/passkey.go:495-503 | presenting cookies in a given pattern lets no withdrawn verification allow an action, whatever the requests are, if and only if each request presents the newest cookie or the initial one |
| `SessionReplay.NewestIsHonoured` | controller/passkey.go:495-503 | then every allowed action follows a verification since which no request of the run withdrew or replaced it |
| `SessionReplay.ConsumedMarkerReplayed` | controller/secure_verification.go:157-179 | two verifications that present the cookie of one passkey finish both succeed, one after the other |
| `SessionReplay.WithdrawnVerificationReplayed` | controller/passkey.go:497-503 | an action that presents the cookie of a verification is allowed after a passkey finish withdrew it |
| `SessionReplay.OverlapIsRun` | main.go:203-213 | however the requests of a client that keeps its newest cookie overlap, they are answered as in a run of presented cookies, so all of the above applies |
| `SessionReplay.InterleavedIsSerial` | controller/secure_verification.go:157-179 | requests of such a client, of which none sends a cookie between another's load and end, are answered as one after the other |
| `SessionReplay.OverlapUsesMarkerTwice` | controller/secure_verification.go:157-179 | two verifications of such a client that both load before either ends both use the marker |
| `Text.FieldsOfJoin` | model/channel.go:186-196 | joining with a separator and splitting again is the identity exactly when the outermost fields are not empty |
| `Text.TrimExactly` | model/channel.go:175-183 | trimming removes the cut characters at both ends and nothing else |
| `Text.JoinOfSplit` | model/channel.go:186-196 | the fields of a text, joined, are the text |
| `Text.UnseenInOrder` | controller/channel.go:979-998 | unseen names are listed in the order of their first occurrences |

## Left out

- OrderLocks and TopUpOrders are state machines on values, not heap objects with methods: an interleaving of statements has no sequential method. Locks are modelled within one process; several processes sharing a database are not.
- Quotas are integers, so the fraction of a Stripe quota is not modelled. Other changes of balances, database failures other than a rolled-back transaction, and subscription orders beyond their mirror rows are left out; trade numbers of subscriptions and of top-ups are different, as their prefixes make them.
- JSON decoding of key arrays is a parameter; key previews, audit logs and the channel cache are not modelled.
- MultiKeyRuns: covers keys that are single lines starting with neither a space nor a bracket; what single requests do to other keys is stated in MultiKeyChannel. Requests are atomic except in InterleavedIsSerial and DeletedKeyReturns; the channel's own status, which an automatic report may also change, is not modelled: a report whose status the channel itself already has is dropped before it reaches the keys (model/channel.go:760), so the reports of a run are those that are not dropped; re-enabling one key of an enabled channel is never among them.
- MultiKeyChannel.Channel.AppendKeys: the view is stated for keys without line breaks whose list, written as lines, does not itself decode as a JSON array; otherwise only the written text is stated.
- RatioDiff and PriceImport: reals instead of floats, so overflow, NaN and representation error are absent; values are JSON scalars and the Go number types are one; fetching and JSON decoding are not modelled.
- RatioDiff.BuildDifferences: assumes distinct channel names, as the caller builds them; with equal names later entries overwrite earlier ones.
- UpstreamModels: fetching the list, reading the redirect mapping and the notification task are not modelled; regular-expression matching is a parameter.
- RateLimiter: a negative maximum, on which the Go code panics while allocating, is treated like zero; the mutex makes each request and each sweep atomic, so a run is a sequence; Redis limiters are not modelled.
- OggScan: only the Opus scan; other formats delegate to decoders. Read errors other than the end of the file are not modelled.
- EnrichModels: the four parallel maps with equal keys are one map to records; the per-name caches and the JSON encoding are parameters.
- BodyStorage: calls are sequential; the mutex of each store orders the calls on it, and the counters shared by concurrent requests are modelled in DiskQuota. Whence values other than the three of the io package, 64-bit overflow and the sweep that deletes old cache files are not modelled.
- SecureSession, SessionRuns and SessionReplay: one user's sessions; checking codes, passkey signatures and the cookie's own signature is a parameter, and that a cookie older than 30 days is refused is not modelled. A verification's two saves send two cookies of which the client keeps the second; keeping the first amounts to a run with one more verification, which is refused. A request that sends no cookie leaves the client the one it presented, which then counts as a new value. Logging out and in again is presenting the initial value.
- HTTP handlers' request binding and responses, OAuth, relay and retry logic, quota arithmetic, and everything else around these cores.
