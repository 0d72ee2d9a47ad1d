# Nexus-API: verified models of the gateway's stateful core

Nexus-API is an AI gateway written in Go.  This project models, in Dafny 4.11, the parts of it
that keep state, run a protocol or transform lists, and proves what they promise over every
input, every run or every reachable state:

* **Order lock** (`OrderLock.dfy`): the reference-counted lock per trade number that payment
  callbacks take before crediting an order.  Any number of threads, one program counter value
  per atomic step, including the unguarded `Load` of `UnlockOrder`.
* **Upstream model reconciliation** (`UpstreamSync.dfy`, `UpstreamSyncTheorems.dfy`): detecting,
  applying, ignoring and automatically adding the models an upstream offers, over the stored
  comma-separated text and the settings lists.
* **Rate limiter** (`RateLimiter.dfy`): bounded queues with a background cleaner, against a
  limiter that remembers every admission for ever.
* **Ogg scanner** (`OggScanner.dfy`): the byte-level page walk that measures Opus files, against
  an encoder for the page layout of section 6 of RFC 3533.
* **Price comparison** (`RatioDifferences.dfy`, `RatioDifferencesTheorems.dfy`) and **models.dev
  selection** (`ModelsDev.dfy`): build-then-prune over nested maps, and a fold with an epsilon
  comparison that is not transitive.
* **Multi-key channels** (`MultiKey.dfy`, `MultiKeyTheorems.dfy`): newline-joined keys with status,
  time and reason maps keyed by position.
* **Request bodies** (`DiskCache.dfy`, `BodyStorage.dfy`, `BodyCreation.dfy`, `UsageAccounting.dfy`):
  the memory and the disk storage behind one interface, their creation, the global usage counters,
  and the disk limit under concurrency.
* **Verification codes** (`VerificationCodes.dfy`): a bounded store with lazy eviction, against the
  complete event history.
* **Top-up arithmetic** (`TopUp.dfy`): minimum, maximum and normalisation of paid amounts.

`Text.dfy` holds the string and list functions the others share.  Objects whose methods update
fields are classes, loops are loops with invariants; each such method is tied to a function, and
the theorems are about that function.  The lock and the counters are transition systems, because
their point is interleaving.  Clocks, the fetched model list, the answer of the database and of
the disk, the regular expression engine and the JSON reader are parameters.

Some promises do not hold without a condition; the exact condition is proved for each:

* the rate limiter agrees with the complete history if and only if each limit allows at least one
  request and its window is at most one second longer than the cleaner's expiration
  (`RefinesHistoryIff`; the comment at `common/constants.go:234` asks for slightly less);
* reconciliation settles after one apply if and only if no addable name contains a comma and no
  upstream name is ignored only by entries that are about to be added (`SyncConvergesIff`);
* keys that are joined by newlines and stored are read back as they were if and only if they are
  `Readable`: the text is no JSON array (or one of just these elements), no key spans lines, and
  neither the first nor the last is empty.  A single or bulk deletion leaves the other keys as they
  were if and only if those are readable (`DeleteOneRemovesOne`, `DeleteAutoWorksIff`).  It fails
  when none survives, where the empty text is not written and all keys come back enabled
  (`DeleteAutoOfAllReenables`), and when an empty key comes to the start, where keys move and lose
  their state (`BlankLineLosesState`);
* appending to an ordinary channel leaves existing keys their place and state if and only if old and
  new keys together are readable or there is nothing to store (`AppendKeepsStateIff`); a stored text
  that opens a bracket without being an array is overwritten (`BrokenArrayIsOverwritten`);
* no window of a key's limit holds more admissions than its quota if and only if the window is empty
  or the limit is one the limiter can honour (`SlidingWindowBoundIff`);
* pending additions stay new over a run if and only if no selection adds a name of which a comma
  separated part is still pending (`RunStaysFreshIff`);
* a body read from a stream is exact if and only if the limit is not the largest 64-bit integer or
  the stream is empty, because the limit plus one wraps around (`FromReaderIsExactIff`);
* the disk limit is kept in every interleaving if and only if lengths are not understated, checked
  sums do not overflow and no two storages are between check and count at once, or the threshold is
  above the limit, or the limit is zero and lengths are honest (`UsageAccounting.LimitKeptIff`; for one storage at a time `DiskCache.LimitKeptIff`);
* appending to a Codex channel leaves existing keys their place and state if and only if they are
  trimmed lines with distinct identities and no single disabled key remains
  (`CodexAppendKeepsStateIff`);
* the minimum top-up survives normalisation if and only if users pay in currency or the least
  admissible amount is, up to rounding, worth it (`MinimumHoldsIff`).

## Model

| member | source | states |
|---|---|---|
| OrderLock.OrderLockSafety | controller/topup.go:428-468 | in every reachable state of any number of threads: one thread per trade number between locking and unlocking the order mutex; every thread with a reference refers to the mutex the map holds; the counter of that mutex is the number of threads between increment and decrement; the unguarded load found the mutex the thread had locked; nothing unlocks an unlocked mutex or creation lock |
| OrderLock.FaultIff | controller/topup.go:454-468 | what counts as a fault there: unlocking an order mutex or the creation lock that is not locked |
| OrderLock.StepKeepsInv | controller/topup.go:439-468 | every atomic step of `LockOrder`, the critical section and `UnlockOrder` keeps the seven-part invariant |
| OrderLock.RunKeepsInv | controller/topup.go:439-468 | and so does every run |
| OrderLock.LastReference | controller/topup.go:462-466 | a thread that finds the counter at zero is the only one left with a reference, so deleting the entry strands nobody |
| OrderLock.RefCountsKept | controller/topup.go:448-464 | the counter moves together with the one thread that enters or leaves the counted region |
| OrderLock.CountedByTrade | controller/topup.go:433-448 | counting by mutex is counting by trade number, since entries are shared and distinct |
| OrderLock.EntryIffReferenced | controller/topup.go:439-468 | a trade number is in the map if and only if some thread still holds a reference to its mutex |
| OrderLock.Progress | controller/topup.go:439-468 | no deadlock: with an unfinished thread some thread can step |
| OrderLock.EveryRunDrains | controller/topup.go:439-468 | with no new calls a run has at most fourteen steps per thread, and where it cannot go on every thread is idle, the map is empty and every mutex is free with counter zero |
| OrderLock.QuiescentIsClean | controller/topup.go:454-468 | no leak: when all threads are idle nothing is left in the map |
| OrderLock.CreditedAtMostOnce | model/topup.go:456-493 | over every run, with webhooks that credit and webhooks that end an order under the same lock: an order is credited at most once, and is always exactly one of pending, credited or ended |
| OrderLock.RunMovesOrders | controller/topup_stripe.go:342-366 | conservation: no order is lost, and no status but pending is ever left |
| OrderLock.StatusIsDecided | model/topup.go:456-493 | over every run: an order is credited if and only if a webhook for it decided to credit it while it was pending, ended if and only if one decided to end it, and still pending if and only if neither happened |
| OrderLock.LoneWebhookDecides | controller/topup_stripe.go:342-366 | a webhook for a pending order that runs alone does what it decides and no more: one credit, or the end of the order, or nothing, and no other order changes |
| OrderLock.LoneWebhookEnds | controller/topup.go:439-468 | and it always comes to its end |
| UpstreamSync.NormalizeFacts | controller/channel_upstream_update.go:104-109 | the result is trimmed, non-empty and duplicate-free with the same names; normal lists are fixed points |
| UpstreamSync.MergeFacts | controller/channel_upstream_update.go:111-125 | the union of names, the base list as a prefix, and the exact length |
| UpstreamSync.MergeIsNormalize | controller/channel_upstream_update.go:104-125 | merging two lists is normalising one after the other, so names stand where they first occur |
| UpstreamSync.AppendNames | controller/channel_upstream_update.go:113-123 | the loop that grows `seen` and `merged` together appends each name once |
| UpstreamSync.GrownIs | controller/channel_upstream_update.go:111-125 | appending one by one equals appending the novel names in order |
| UpstreamSync.MergeModelNames | controller/channel_upstream_update.go:111-125 | the loop computes the merge that `MergeFacts` characterises |
| UpstreamSync.SubtractFacts | controller/channel_upstream_update.go:127-136 | set difference, normal, and the identity when nothing is shared |
| UpstreamSync.IntersectFacts | controller/channel_upstream_update.go:138-147 | set intersection, normal, and the identity when everything is allowed |
| UpstreamSync.ApplySelectedFacts | controller/channel_upstream_update.go:149-154 | additions win over removals of the same name |
| UpstreamSync.PendingFacts | controller/channel_upstream_update.go:183-242 | pending additions are exactly the upstream names that are neither local, nor a redirect target, nor ignored; pending removals exactly the local names that are neither upstream nor a redirect source |
| UpstreamSync.IgnoresIff | controller/channel_upstream_update.go:221-227 | an entry behind `regex:` ignores what its trimmed rest matches, any other entry only the name itself |
| UpstreamSync.Channel.Save | controller/channel_upstream_update.go:469-478 | the row after a write: models only when they changed, nothing when the database fails |
| UpstreamSync.Channel.CheckAndPersist | controller/channel_upstream_update.go:480-527 | the row and all three results after a check, for the early exit, the failed fetch, plain detection, automatic addition, a failed write and a failed refresh of abilities |
| UpstreamSync.Channel.ApplyUpdates | controller/channel_upstream_update.go:900-948 | the row and all results after an apply, that a failed write leaves the row alone, and when an error is returned |
| UpstreamSyncTheorems.StoredModels | model/channel.go:320-325 | a normal list without commas survives being joined, stored and read back, in order |
| UpstreamSyncTheorems.ApplySelections | controller/channel_upstream_update.go:913-919 | selections are confined to what is pending, and additions win over removals |
| UpstreamSyncTheorems.SelectionsInOrder | controller/channel_upstream_update.go:913-919 | additions and removals come in the order in which they were selected |
| UpstreamSyncTheorems.ApplySplitsPendingAdds | controller/channel_upstream_update.go:932-934 | old pending additions are the disjoint union of remaining and added-or-ignored |
| UpstreamSyncTheorems.ApplySplitsPendingRemoves | controller/channel_upstream_update.go:933-935 | old pending removals are the disjoint union of remaining and removed |
| UpstreamSyncTheorems.ApplyIgnored | controller/channel_upstream_update.go:928-931 | the exact ignore set after an apply |
| UpstreamSyncTheorems.IgnoredInOrder | controller/channel_upstream_update.go:928-931 | and its order: the old entries, then the newly ignored ones, without those that were added |
| UpstreamSyncTheorems.IgnoresKeptIff | controller/channel_upstream_update.go:928-931 | an apply keeps every ignore entry if and only if it adds none of them as a model |
| UpstreamSyncTheorems.AddedPatternIsForgotten | controller/channel_upstream_update.go:928-931 | a run in which the ignore list loses an entry: a pattern that upstream offers as a name |
| UpstreamSyncTheorems.ApplyModels | controller/channel_upstream_update.go:921-926 | what is read back after an apply is old minus removed plus added, in the selected order |
| UpstreamSyncTheorems.SyncConvergesIff | controller/channel_upstream_update.go:183-242 | for every row, upstream and mapping: detect, apply everything, detect again finds nothing if and only if no addable name has a comma and no upstream name is stranded |
| UpstreamSyncTheorems.SyncConverges | controller/channel_upstream_update.go:900-948 | with comma-free upstream names that are not patterns it always settles |
| UpstreamSyncTheorems.ModelsAfterSync | controller/channel_upstream_update.go:183-242 | for every row, upstream and mapping, the models after a detection and applying all of it: the old ones that upstream lists or that are aliases, and the comma separated parts of the upstream names that were new, not the target of an alias and not ignored |
| UpstreamSyncTheorems.CommaNeverSettles | model/channel.go:320-325 | an upstream name with a comma is pending again after it was added |
| UpstreamSyncTheorems.PatternNameNeverSettles | controller/channel_upstream_update.go:928-931 | adding a pattern drops it, and a name only it ignored turns up |
| UpstreamSyncTheorems.AutoSyncCommutes | controller/channel_upstream_update.go:504-516 | automatic addition equals detection followed by applying all additions: same models in the same order, same pending lists, count exactly the pending additions; the ignore sets agree if and only if no addable name is an ignore entry |
| UpstreamSyncTheorems.AutoSyncKeepsIgnored | controller/channel_upstream_update.go:504-516 | with upstream names that are not patterns the ignore sets agree too |
| UpstreamSyncTheorems.ReadBack | model/channel.go:320-325 | whatever list is stored, the names read back are exactly its comma separated parts |
| UpstreamSyncTheorems.ApplyParts | controller/channel_upstream_update.go:921-926 | the model names after any apply, commas or not |
| UpstreamSyncTheorems.CheckIsSkippedIff | controller/channel_upstream_update.go:480-501 | a check leaves the row alone if and only if it is not forced and the last one is known and more recent than the interval, or the write fails; otherwise its time is recorded, and a failed fetch changes nothing else |
| UpstreamSyncTheorems.CheckDetectsOrAdds | controller/channel_upstream_update.go:502-527 | a check that reads the upstream list: without automatic sync the models stay and the new names are pending; with it nothing is pending and the new names are models |
| UpstreamSyncTheorems.SelectKeeps | controller/channel_upstream_update.go:900-948 | an apply keeps lists distinct, pending removals present and exact-name ignore entries; it keeps pending additions new if and only if none that remains is a part of a name just added |
| UpstreamSyncTheorems.RunStaysOrderly | controller/channel_upstream_update.go:480-527 | over every run of detect, auto-sync and apply steps, whatever upstream offers: no list repeats a name, pending removals are local, pending additions are not ignored by exact name, and no exact-name ignore entry is ever lost |
| UpstreamSyncTheorems.RunStaysFreshIff | controller/channel_upstream_update.go:900-948 | along a run pending additions are never local if and only if every selection is harmless in the sense above |
| UpstreamSyncTheorems.CommaCollides | controller/channel_upstream_update.go:921-934 | a selection after which a pending addition is already a model |
| UpstreamSyncTheorems.RunStaysConsistent | controller/channel_upstream_update.go:480-527 | over every run whose fetched names have no comma all of this holds |
| UpstreamSyncTheorems.RunOnlyIgnoresMore | controller/channel_upstream_update.go:900-948 | over every run whose fetched names are not patterns the ignore set only grows |
| RateLimiter.InMemoryRateLimiter.Request | common/rate-limit.go:45-70 | new queues and answer, and that no stored queue is ever empty |
| RateLimiter.InMemoryRateLimiter.ClearExpiredItems | common/rate-limit.go:28-42 | one cleaner pass keeps exactly the queues whose newest entry is young enough |
| RateLimiter.QueueDecides | common/rate-limit.go:49-68 | a queue that tracks the complete history gives the answer of the complete history |
| RateLimiter.AdmitTracks | common/rate-limit.go:51-69 | a request keeps the relation between queue and history |
| RateLimiter.CleanTracks | common/rate-limit.go:33-38 | an eviction keeps the relation between queue and history |
| RateLimiter.RunAgrees | common/rate-limit.go:28-70 | under any interleaving with the cleaner and for all keys together, all answers are those of the complete history |
| RateLimiter.RefinesHistoryIff | common/rate-limit.go:28-70 | agreement on every run holds if and only if every limit allows at least one request and its window is at most one second longer than the expiration |
| RateLimiter.LongWindowLeaks | common/rate-limit.go:36-38 | a longer window has a run in which the cleaner lets one request too many through |
| RateLimiter.ZeroLimitLeaks | common/rate-limit.go:64-69 | a limit of zero lets the first request of a key through |
| RateLimiter.RunIsSpaced | common/rate-limit.go:45-70 | over every run, evictions included and whatever the limits of other keys, admissions of a key are sorted and any two that are a full quota apart are a full window apart |
| RateLimiter.WindowOfSpaced | common/rate-limit.go:45-70 | spaced times put at most the quota into any half-open window |
| RateLimiter.SlidingWindowBound | common/rate-limit.go:45-70 | over every run no half-open window of a key's limit holds more admissions than its quota, if that limit can be honoured |
| RateLimiter.SlidingWindowBoundIff | common/rate-limit.go:28-70 | that bound holds on every run if and only if the window is empty, or at least one request is allowed and the window is at most one second longer than the expiration |
| OggScanner.GetOpusDuration | common/audio.go:196-254 | the duration is the largest granule position over 48000 |
| OggScanner.DurationInSamples | common/audio.go:251-253 | the duration of an encoded stream times 48000 is its largest granule position |
| OggScanner.LargestGranule | common/audio.go:204-249 | the seeking loop computes the scan of the whole file and ends because every round leaves fewer bytes |
| OggScanner.ReadPage | common/audio.go:228-248 | one captured page: the scan of what was left equals the scan of what remains |
| OggScanner.SkipBody | common/audio.go:235-248 | reads the table, skips its sum, and fails exactly when the table is cut off |
| OggScanner.SumAppend | common/audio.go:240-244 | the sum of a segment table is that of its parts, however it is cut |
| OggScanner.Resync | common/audio.go:219-226 | after a miss the reader stands one byte past where it was |
| OggScanner.ScanPage | common/audio.go:219-248 | an encoded page is consumed whole, whatever its payload contains, even the capture pattern |
| OggScanner.ScanJunk | common/audio.go:219-226 | bytes in which no capture pattern starts are skipped one by one |
| OggScanner.ScanInvertsEncode | common/audio.go:196-254 | for every sequence of well-formed pages with quiet junk between them the result is the maximum of zero and all signed granule positions |
| OggScanner.ScanTruncated | common/audio.go:207-239 | a last page cut off anywhere counts exactly when its header is complete |
| OggScanner.ValueOfDigits | common/audio.go:228-229 | little-endian decoding inverts encoding |
| OggScanner.SignedOfUnsigned | common/audio.go:228-229 | the unsigned-to-signed conversion inverts two's complement |
| ModelsDev.CandidateIff | controller/ratio_sync.go:845-879 | a price is usable if and only if local ratios can express it, and then only a negative cache price is dropped |
| ModelsDev.SortedKeys | controller/ratio_sync.go:915-932 | the keys in strictly ascending order, none missing |
| ModelsDev.Consider | controller/ratio_sync.go:934-943 | one offer: skipped, first, or compared with the current choice; other models stay |
| ModelsDev.SelectCandidates | controller/ratio_sync.go:915-944 | the nested loops leave under every model the fold of its offers in provider order |
| ModelsDev.StepIsCheapest | controller/ratio_sync.go:881-893 | one comparison keeps the choice within epsilon of every non-zero offer, although near-equality is not transitive |
| ModelsDev.ReplacesIff | controller/ratio_sync.go:881-893 | an offer replaces another if and only if it is paid and the other free, or cheaper by at least epsilon, or equally priced up to epsilon and of an earlier provider |
| ModelsDev.SelectIsFirst | controller/ratio_sync.go:891-892 | among offers of exactly the chosen price the choice is the one of the first provider |
| ModelsDev.SelectIsCheapest | controller/ratio_sync.go:881-893 | so does the fold over offers in provider order |
| ModelsDev.SelectionIsCheapestNonZero | controller/ratio_sync.go:845-893 | for every table and valid offer: the choice is itself a valid offer, it is free only if all are, otherwise it costs less than every non-zero offer plus epsilon, and among offers of its own price it is the one of the first provider |
| ModelsDev.UnsortedFoldDrifts | controller/ratio_sync.go:48-53 | three offers for which the bound fails in another order, so sorting is what makes it hold |
| RatioDifferences.CellMeaning | controller/ratio_sync.go:605-625 | what a cell tells about the two prices: it shows the price of the channel exactly where a representable one differs, and null exactly where there is a local price and the channel lists none or null |
| RatioDifferencesTheorems.PricesDifferIff | controller/ratio_sync.go:48-132 | when two listed prices differ: as numbers by at least epsilon, in the numeric fields also where one of them is an integer, and otherwise unless they are the same |
| RatioDifferencesTheorems.OneSidedDiffersIff | controller/ratio_sync.go:594-625 | a price listed on one side only differs if and only if the channel lists it and not as null |
| RatioDifferencesTheorems.UntrustedIff | controller/ratio_sync.go:558-591 | a channel is not trusted about a model if and only if it lists it with the placeholder ratios 37.5 and 1 |
| RatioDifferences.CollectModels | controller/ratio_sync.go:540-556 | all models any sheet lists |
| RatioDifferences.TrustAll | controller/ratio_sync.go:558-591 | the confidence table: false exactly at the placeholder pair, a later channel of the same name replacing an earlier one |
| RatioDifferences.ShowCell | controller/ratio_sync.go:605-625 | the branches for one channel, and the difference flag |
| RatioDifferences.BuildEntry | controller/ratio_sync.go:594-641 | the channel loop: the entry, and whether it is wanted |
| RatioDifferences.Build | controller/ratio_sync.go:593-654 | the first pass, models visited in any order |
| RatioDifferences.ChannelsWithDiff | controller/ratio_sync.go:656-665 | the channels that show a difference somewhere, visited in any order |
| RatioDifferences.DropSilent | controller/ratio_sync.go:669-674 | deletion during iteration leaves exactly the channels to keep |
| RatioDifferences.PruneAll | controller/ratio_sync.go:667-693 | the second pass, in any order |
| RatioDifferences.BuildDifferences | controller/ratio_sync.go:536-696 | the whole engine computes a function of its inputs that the rows below characterise, for every iteration order of its maps |
| RatioDifferencesTheorems.BuiltHas | controller/ratio_sync.go:631-652 | an entry is built if and only if a local price differs somewhere or a missing one is listed somewhere |
| RatioDifferencesTheorems.HasDiffIs | controller/ratio_sync.go:656-665 | the channels kept are those that show a difference at some model and field |
| RatioDifferencesTheorems.SpecHas | controller/ratio_sync.go:667-693 | pruning entry by entry |
| RatioDifferencesTheorems.SurvivesIff | controller/ratio_sync.go:536-696 | for all inputs with distinct channel names, exactly when an entry is reported |
| RatioDifferencesTheorems.EntryContents | controller/ratio_sync.go:643-674 | what a reported entry holds: local price, and for exactly the channels that show a difference somewhere their cell and confidence |
| RatioDifferencesTheorems.ReportedIffDiffers | controller/ratio_sync.go:536-696 | without null and `same` values an entry is reported if and only if some channel's price differs, and names exactly the channels that differ somewhere |
| RatioDifferencesTheorems.SameTextIsHidden | controller/ratio_sync.go:612-625 | a channel listing the text `same` differs and is never reported |
| RatioDifferencesTheorems.ChannelOrderIsIrrelevant | controller/ratio_sync.go:536-696 | the order of distinctly named channels does not matter |
| MultiKey.ReadableIff | model/channel.go:191-213 | joined keys are read back as they were if and only if they are readable, a condition on the joined text and the ends and lines of the list |
| MultiKey.ReadableAsLines | model/channel.go:198-211 | under any JSON reader whose arrays are longer than their elements, only texts that are no arrays can be read back |
| MultiKey.PlainIsReadable | model/channel.go:191-213 | keys that are not blank, on one line and do not open a bracket are readable in any selection, trimmed or not |
| MultiKey.KeysRoundTrip | controller/channel.go:691-715 | joining lines of which the first does not open a bracket and reading them back, by either reader, returns the same list |
| MultiKey.ReadersAgree | model/channel.go:191-213 | on every text the Codex reader sees the same keys, trimmed and without blanks; the append branch sees the same keys if and only if the text does not open a bracket without being an array, and then none |
| MultiKey.TrimAllHas | controller/channel.go:708-713 | the keys read are exactly the trimmed lines that are not blank |
| MultiKey.CreateMultiKeyRow | controller/channel.go:830-839 | the row of a new channel: empty lines dropped, the others trimmed, so that a blank line leaves an empty key |
| MultiKeyTheorems.CreatedIsSizedIff | controller/channel.go:830-839 | the keys of a new channel are read back as they were counted if and only if they are readable |
| MultiKeyTheorems.CleanKeysAppend | controller/channel.go:830-839 | the keys of a submission are those of its lines one after the other; an empty line gives none, any other line its trimmed text |
| MultiKey.ReindexHas | controller/channel.go:2082-2098 | the re-indexed map holds exactly what the old one held at the surviving positions |
| MultiKey.ReindexedView | controller/channel.go:1782-1810 | what is shown after re-indexing is what was shown at the surviving positions |
| MultiKey.CompactWithout | controller/channel.go:2067-2099 | the loop with the running new index leaves everything but one position, re-indexed |
| MultiKey.CompactEnabled | controller/channel.go:2130-2167 | the same for all automatically disabled positions, and their number |
| MultiKey.Channel.DeleteKey | controller/channel.go:2049-2127 | rejected out of range and for the last key, otherwise the reduced row is saved |
| MultiKey.Channel.DeleteDisabledKeys | controller/channel.go:2129-2196 | rejected when no key is automatically disabled, otherwise the reduced row is saved and the count is exact |
| MultiKey.AppendCodexConfigKeys | controller/channel.go:717-737 | trimmed keys, the first of each identity |
| MultiKey.MergeUniqueChannelKeys | controller/channel.go:1170-1187 | trimmed keys of all groups in their order, each once |
| MultiKeyTheorems.FlattenOne | controller/channel.go:1170-1187 | the keys of a single group are that group |
| MultiKeyTheorems.FlattenAppend | controller/channel.go:1170-1187 | the keys of two lists of groups are those of the first followed by those of the second |
| MultiKeyTheorems.GroupsMergeInOrder | controller/channel.go:1170-1187 | distinct existing keys come first, as they are, followed by the first occurrences of what the further groups add, in their order |
| MultiKey.PackIs | controller/channel.go:2073-2099 | building lists and maps with a running new index picks and re-indexes exactly the surviving positions |
| MultiKey.NewOnes | controller/channel.go:1387-1399 | the loop keeps the first of each identity that is neither there already nor earlier |
| MultiKey.AppendKeys | controller/channel.go:1319-1402 | the text stored by an append to an ordinary channel |
| MultiKey.PatchChannel.ApplyCodexChannelKeyUpdate | controller/channel.go:739-772 | the edited row of a Codex channel: unchanged for a blank submission, an error for one that does not parse, merged when appending, and without per-key state when at most one key is left |
| MultiKeyTheorems.SavingKeeps | model/channel.go:579-648 | saving a row with readable keys, the right size and statuses in range changes nothing |
| MultiKeyTheorems.SavedIsSizedIff | model/channel.go:579-648 | an empty text leaves the stored keys, exactly the statuses past the end are dropped, and the recorded size is the number of keys read back if and only if the text is not an array without keys |
| MultiKeyTheorems.ReducedIff | controller/channel.go:2109-2114 | for every row and every selection of fewer keys: what is shown after saving is what was shown at the kept positions if and only if the kept keys are readable |
| MultiKeyTheorems.DeleteOneRemovesOne | controller/channel.go:2067-2114 | accepted if and only if two keys are there; then exactly one line of what is shown disappears if and only if the other keys are readable, and with that the size matches and no map index is out of range |
| MultiKeyTheorems.DeleteOneRefusedIff | controller/channel.go:2049-2107 | deleting one key is refused if and only if no key is shown at the index or it is the only one |
| MultiKeyTheorems.DeleteAutoKeepsSurvivors | controller/channel.go:2130-2182 | in a row of plain keys, whenever one survives, exactly the keys that are not automatically disabled remain, in order and in their state |
| MultiKeyTheorems.DeleteAutoOfAllReenables | controller/channel.go:2169-2184 | when every key is automatically disabled none is deleted and all come back enabled |
| MultiKeyTheorems.DeleteAutoWorksIff | controller/channel.go:2130-2182 | for every row, bulk deletion shows the survivors if and only if their keys are readable, and with that the size matches and no map index is out of range |
| MultiKeyTheorems.BlankLineLosesState | controller/channel.go:2130-2182 | a channel created with a blank line, in which bulk deletion drops the empty key, enables a key that was disabled by hand and leaves an index out of range |
| MultiKeyTheorems.EachWorksIff | controller/channel.go:2067-2114 | single deletions from the highest index down are all accepted and each removes exactly one line if and only if the keys are readable after each of them |
| MultiKeyTheorems.DeleteEachIs | controller/channel.go:2067-2114 | then they leave the survivors below and the rest above |
| MultiKeyTheorems.BulkIsRepeatedSingle | controller/channel.go:2130-2182 | wherever single deletion works all the way, bulk deletion stores the same keys, shows the same states, and leaves size and indices consistent |
| MultiKeyTheorems.PlainStepsReadable | controller/channel.go:2067-2114 | in a row of plain keys it does so whenever a key survives |
| MultiKeyTheorems.NovelIsFirstBearer | controller/channel.go:717-737 | merged keys are distinct by identity, none was seen before, and no identity is missing |
| MultiKeyTheorems.FirstBearerIsKept | controller/channel.go:717-737 | of several keys with one identity the first is kept |
| MultiKeyTheorems.MergeKeepsExisting | controller/channel.go:1170-1187 | distinct existing keys stay a prefix and only new identities follow |
| MultiKeyTheorems.AppendKeepsStateIff | controller/channel.go:1372-1402 | for every stored text but a broken array, after an append to an ordinary channel every existing key has its place and state and the new keys follow enabled, if and only if old and new keys together are readable or nothing is stored |
| MultiKeyTheorems.AddedFacts | controller/channel.go:1387-1399 | the keys an append adds are trimmed lines, each once and none there before |
| MultiKeyTheorems.AppendKeepsState | controller/channel.go:1372-1402 | in the newline format every append works unless the first key is blank |
| MultiKeyTheorems.BrokenArrayIsOverwritten | controller/channel.go:1327-1335 | a text that opens a bracket without being an array loses all its keys, and the new keys show up in their states |
| MultiKeyTheorems.FirstKeys | controller/channel.go:1323-1402 | a channel without keys has exactly the submitted keys after an append |
| MultiKeyTheorems.CodexStoredIs | controller/channel.go:749-770 | a Codex append stores the first key of each identity, old before new, trimmed and without blanks, and a single remaining key loses all state |
| MultiKeyTheorems.CodexReplaceIs | controller/channel.go:739-772 | a submission that replaces leaves exactly its keys, rightly counted; several show up in the states that stood at their positions, a single one is enabled |
| MultiKeyTheorems.CodexErrorIff | controller/channel.go:739-748 | a submission fails if and only if it is not blank and cannot be read; a blank one changes nothing |
| MultiKeyTheorems.NoKeysSubmitted | controller/channel.go:739-748 | submitting no text leaves the stored keys of either kind of channel |
| MultiKeyTheorems.CodexAppendKeepsStateIff | controller/channel.go:739-772 | every existing key keeps its place and state if and only if the existing keys are trimmed lines with distinct identities and several keys remain or the only key is enabled; then the new keys follow, enabled |
| MultiKeyTheorems.RepeatedIdentityShiftsState | controller/channel.go:720-735 | a run in which a key with a repeated identity disappears and the next key inherits its disabled state |
| BodyStorage.MemoryStorage.Read | common/body_storage.go:57-64 | answer and new position, as `ReadDelivers` characterises them |
| BodyStorage.MemoryStorage.Seek | common/body_storage.go:66-73 | answer and new position |
| BodyStorage.MemoryStorage.GetBytes | common/body_storage.go:84-91 | all data, position untouched, error when closed |
| BodyStorage.MemoryStorage.Close | common/body_storage.go:75-82 | closed for good, no error when repeated, and the counters lowered by the first close only |
| BodyStorage.DiskStorage.Read | common/body_storage.go:188-195 | answer and new offset, as `EitherDeliversItsBody` characterises them |
| BodyStorage.DiskStorage.Seek | common/body_storage.go:197-204 | answer and new offset |
| BodyStorage.DiskStorage.GetBytes | common/body_storage.go:217-249 | seek to the start, read fully, seek back: all data with the offset restored |
| BodyStorage.DiskStorage.Close | common/body_storage.go:206-215 | closed for good, no error when repeated, and the counters lowered by the first close only |
| BodyStorage.ReadDelivers | common/body_storage.go:57-64 | a non-empty read answers the bytes at the position, as many as were asked for or are left, and moves by their number; it answers end of file if and only if none are left |
| BodyStorage.ReadsDeliver | common/body_storage.go:57-64 | over every run of non-empty reads the chunks in a row are the data from the position on, as far as was asked |
| BodyStorage.EndIsExact | common/body_storage.go:57-64 | in every run of non-empty reads each answer is a non-empty chunk no longer than asked for, or the end of file, and the end exactly when everything has been delivered |
| BodyStorage.EitherDeliversItsBody | common/body_storage.go:188-195 | a fresh storage of either kind, read in non-empty chunks of any sizes that add up to its length, delivers exactly its body |
| BodyStorage.SeekLands | common/body_storage.go:66-73 | a seek lands at the offset from the start, the position or the end, and fails if and only if that is negative or does not fit |
| BodyStorage.RunServesBody | common/body_storage.go:57-104 | over every run: size and close always succeed, every other operation is refused if and only if a close came before, and until then the whole body can be had, whatever was read or sought |
| BodyStorage.SeeksAgree | common/body_storage.go:66-73 | a 64-bit overflow turns negative in memory exactly where a file refuses |
| BodyStorage.StepsAgreeIff | common/body_storage.go:57-91 | matching states give the same answer if and only if the operation is not an empty read at the end, and always match again |
| BodyStorage.StoragesAreIndistinguishable | common/body_storage.go:57-262 | any sequence of non-empty reads, seeks, `Bytes`, `Size`, `NewReader` and `Close` gets the same answers from both storages |
| BodyStorage.FromReaderIsExactIff | common/body_storage.go:151-186 | a stream becomes exactly its bytes when it fits and an error otherwise, if and only if the limit is not the largest 64-bit integer or the stream is empty |
| BodyCreation.CreateBodyStorage | common/body_storage.go:273-291 | which storage is chosen, that it holds the data, what is counted, and that the disk limit is kept exactly when the sum fits |
| BodyCreation.CreateBodyStorageFromReader | common/body_storage.go:294-335 | success or error on both paths exactly as the stream and the limit dictate, with contents, choice of storage and counters, and the disk limit kept when the declared length was not too small and the sum fits |
| DiskCache.Usage.IncrementDiskFiles | common/disk_cache_config.go:109-112 | both disk counters after a create |
| DiskCache.Usage.DecrementDiskFiles | common/disk_cache_config.go:115-122 | both disk counters after a close, reset where they would be negative |
| DiskCache.Usage.IncrementMemoryBuffers | common/disk_cache_config.go:125-128 | both memory counters after a create |
| DiskCache.Usage.DecrementMemoryBuffers | common/disk_cache_config.go:131-134 | both memory counters after a close |
| DiskCache.UncountingUndoesIff | common/disk_cache_config.go:109-134 | closing undoes what creating counted if and only if no reset can occur |
| DiskCache.UncountingNeverGoesNegative | common/disk_cache_config.go:115-122 | what closing does to counters that are too low: each ends at zero on its own, and nothing else changes |
| DiskCache.WantsDiskIff | common/disk_cache_config.go:44-62 | a body goes to disk if and only if the cache is enabled, the body reaches the threshold, and it fits under the limit, both in megabytes |
| DiskCache.LimitKeptIff | common/disk_cache_config.go:170-177 | in every state within the limit, an admitted body keeps it for every actual length up to the declared one if and only if the checked sum did not overflow |
| DiskCache.OverflowPassesCheck | common/disk_cache_config.go:175-176 | at the limit the largest declared length passes the check, and one more byte exceeds the limit |
| UsageAccounting.StepKeepsInv | common/disk_cache_config.go:109-134 | every check, atomic addition, failure and close of every concurrent storage keeps counters and storages in step |
| UsageAccounting.CreatingCounts | common/disk_cache_config.go:109-128 | without interruption the atomic actions of a creation amount to the counting of the sequential model |
| UsageAccounting.ClosingUncounts | common/disk_cache_config.go:115-134 | and those of a first close, from any state and with every reset, to its uncounting; a cached file that could not be removed stays counted |
| UsageAccounting.CountersAreExact | common/disk_cache_config.go:115-122 | over every run of body files, cached files and buffers, with repeated closes and files that could not be removed, the counters are never negative, no reset fires, and whenever no create or close is under way they are the number and size sum of the storages present |
| UsageAccounting.UsageIsBounded | common/disk_cache_config.go:170-177 | over every run with honest lengths and sums that fit, disk usage exceeds the limit by no more than what was between check and count at some admission |
| UsageAccounting.OverlapReaches | common/body_storage.go:273-291 | that bound is reached, by two bodies that are checked before either is counted |
| UsageAccounting.LimitKeptIff | common/disk_cache_config.go:170-177 | the limit is kept in every run if and only if lengths are honest, sums fit and admissions do not overlap, or the threshold is above the limit, or the limit is zero and lengths are honest |
| VerificationCodes.SlotsNeverCollide | common/verification.go:16-19 | purposes and keys share a slot only if both are equal |
| VerificationCodes.VerificationStore.RegisterVerificationCodeWithKey | common/verification.go:35-45 | the store after a registration, with the eviction that runs above the size limit |
| VerificationCodes.VerificationStore.VerifyCodeWithKey | common/verification.go:47-56 | the answer, from the stored code and its age |
| VerificationCodes.VerificationStore.DeleteKey | common/verification.go:58-62 | exactly one slot is removed |
| VerificationCodes.VerificationStore.RemoveExpiredPairs | common/verification.go:65-72 | exactly the unexpired codes remain |
| VerificationCodes.ExpiredIff | common/verification.go:51-53 | truncation to whole seconds does not shift the validity bound |
| VerificationCodes.SecondsAreCut | common/verification.go:51-53 | whole seconds are cut toward zero, before and after an instant |
| VerificationCodes.RegisterKeeps | common/verification.go:35-45 | a registration loses nothing up to ten codes and beyond that only expired ones, so more than ten are left only if all are valid |
| VerificationCodes.StepAgrees | common/verification.go:35-72 | every operation keeps store and history in agreement for every purpose and key |
| VerificationCodes.EvictionIsUnobservable | common/verification.go:35-72 | over every run with a clock that does not run backwards a code is accepted if and only if the latest event for its purpose and key registered it within the validity period |
| TopUp.CheckedInt64IsExact | controller/topup.go:206-212 | conversion succeeds exactly on the range whose whole part fits, and then yields it |
| TopUp.MaxTopUpIsExact | controller/topup.go:263-273 | the maximum is a 64-bit amount, and an amount is within it if and only if its quota fits the stored maximum, also where it saturates |
| TopUp.HintAgreesWithSettlement | model/payment_guard.go:212-236 | settlement accepts an amount if and only if it is within the maximum and worth a quota unit |
| TopUp.InvalidIff | controller/topup.go:214-238 | minimum, normalisation and settlement reject a request as invalid if and only if the quota per unit or the amount is not positive or the minimum is negative |
| TopUp.CreditsWorth | model/payment_guard.go:212-236 | a settled order credits the whole part of what its amount is worth |
| TopUp.PaidAmountCredits | controller/topup.go:229-238 | over normalisation and settlement: in currency mode a payment credits what it is worth but for a fraction of a quota unit; in token mode no more than was paid, but for the rounding, and less than one currency unit and one quota unit short of it |
| TopUp.MinimumIs | controller/topup.go:214-224 | the minimum is the whole part of what the configured one costs, in currency or in quota units, and an error if and only if that is invalid or does not fit |
| TopUp.DivideReaches | controller/topup.go:229-238 | when a division rounded to sixteen places reaches a whole number |
| TopUp.MinimumHoldsIff | controller/topup.go:214-238 | every admissible amount is stored as at least the minimum if and only if users pay in currency or the least admissible amount is, up to rounding, worth it |
| TopUp.IntegralUnitKeepsMinimum | controller/topup.go:214-238 | an integral quota per unit keeps the minimum in either mode |
| TopUp.ShortfallIsBounded | controller/topup.go:214-238 | any unit loses at most as many currency units as one quota unit is worth, so a fractional unit of at least one loses at most one |
| TopUp.NormalisationSucceeds | controller/topup.go:229-238 | in currency mode normalisation changes nothing; from one quota unit upwards it never overflows and never increases an amount in either mode |
| TopUp.FractionalUnitLosesOne | controller/topup.go:229-238 | the bound of one is reached |

## Left out

- The wallet ledger, rebates, task and Midjourney billing, subscriptions, channel selection and relaying: their rules sit behind database and service calls.
- HTTP handlers, sessions, sign-in, mail, Redis, GORM, payment SDKs, logging and audit text.
- Regular expressions, JSON and the identity of Codex or Vertex keys: abstract functions (appending to Vertex channels is not part of this model); the redirect mapping of a channel is a parameter, because `normalizeChannelModelMapping` only trims the entries of a JSON object.
- Floating point: prices and quotas are reals, so rounding, infinities and NaN are not modelled; `json.Number` and 32-bit floats count as numbers, and comparing values Go cannot compare is not modelled.
- What refreshing abilities does (its success is a parameter), caches, and notifications about changes.
- The conversion of a selected models.dev cost to ratios: a product, two quotients and a rounding of each, independent of how the cost was selected.
- The other audio decoders, and readers that return fewer bytes than asked.
- `CleanupOldDiskCacheFiles`, `SyncDiskCacheStats` and `ResetDiskCacheUsage`: they overwrite counters, so exact accounting is stated for runs without them.
- `normalizeWaffoTopUpAmount`: the same pattern as the modelled normalisation.
- The clean-up loop of a limiter initialised without expiration, which never runs; key limits that change between calls.
- OrderLock.OrderLockSafety: is stated on values for threads that make matched calls and hold one order at a time; a thread that locks two orders is not modelled.
- OrderLock.CreditedAtMostOnce: models reading and writing the status as two steps under the lock, not the row lock with which the transactions at `model/topup.go:456-493` repeat the check.
- BodyStorage.MemoryStorage.GetBytes: returns a value, so it does not capture that the caller shares the slice with the storage.
- BodyStorage.SeeksAgree: does not model that a file system refuses offsets past its largest file size.
- BodyStorage.StoragesAreIndistinguishable: leaves out empty reads, for which `StepsAgreeIff` states the exact difference, and input/output errors.
- BodyCreation.CreateBodyStorage: its limit clause is about one caller at a time, and so is that of BodyCreation.CreateBodyStorageFromReader; `UsageAccounting.LimitKeptIff` covers all interleavings.
- BodyCreation.CreateBodyStorageFromReader: does not model a read error of the stream, and bounds its length by the largest 64-bit integer.
- UsageAccounting.CountersAreExact: takes the counters as unbounded; only the checked sum is a 64-bit one.
- MultiKeyTheorems.BulkIsRepeatedSingle: is stated for rows whose size matches their keys and where every list on the way is readable; where one is not, single deletion goes wrong on the way (`EachWorksIff`), and what either way ends in is not compared.
- MultiKeyTheorems.CodexAppendKeepsStateIff: takes reading a Codex submission and the identity of a key as functions, submitted keys to be on one line, and the first stored key not to open a bracket; the polling index and mode are not modelled.
- RatioDifferencesTheorems.ReportedIffDiffers: is stated for values that are neither null nor the text `same`; `SurvivesIff` states the general case.
