# A verified model of the proxy's stateful cores

Most of this repository moves bytes between clients and providers. A few parts carry real
state, parsing or arithmetic, and these are modelled here and proved correct in Dafny 4.11:

- **the model registry** (`Registry*.dfy`): four cross-linked tables kept up to date by
  diffs, a cache of time-dependent lists, and the lookups over them;
- **the usage queue** (`Fifo.dfy`, `PubSub.dfy`,
  `UsageQueue.dfy`, `UsageFlow.dfy`, `UsageRuns.dfy`, `UsageRace.dfy`): an array with a moving
  head that stands for a FIFO, and subscriber channels that several parties may close;
- **the comment-preserving YAML merge** (`Yaml*.dfy`): the merge on trees, what it means,
  and the in-place version on heap nodes;
- **signatures** (`Base64.dfy`, `Proto*.dfy`, `Recognisers.dfy`, `ClaudeSignature.dfy`,
  `Compatibility.dfy`, `SignatureAcceptance.dfy`, `Utf8.dfy`, `Sanitizer*.dfy`, `Pairing.dfy`): base64 layers, a protobuf walk,
  four recognisers, the message sanitiser and the call/response pairing check;
- **the RESP codec** (`Bytes.dfy`, `RespSpec.dfy`, `Resp.dfy`, `RespReply.dfy`);
- **the customer credit ledger and API keys** (`LedgerSpec.dfy`, `LedgerRuns.dfy`, `CustomerState.dfy`,
  `ApiKeys.dfy`, `ApiKeyRuns.dfy`);
- **the home client** (`Home*.dfy`): failover, and the subscriber loop as a step machine;
- **thinking budgets** (`Thinking*.dfy`), **the signature cache** (`SignatureCache*.dfy`)
  and **the Postgres auth store** (`AuthStore*.dfy`).

Where the source updates objects in place there is a class (or heap nodes) whose methods
equate the new state with a pure function of the old one; the properties are lemmas about
those functions, mostly over every run. Time is a parameter, every mutex-held region is one
atomic step, and files, sockets and SQL are values with a flag for each call that may fail.

Main results, hardest first:

1. After any run of registry operations the incremental tables are a full recount of what
   the clients last registered (`EveryRunIsRecounted`, `RunListsLastRegistration`), and
   `RegisterClient`'s diff gives the counts of forgetting the client and registering it
   afresh. In every other field the two agree if and only if no cooldown or suspension mark
   is left over (`DiffIsScratchExactly`). Who appears in the list of available models is
   stated by clients, times of cooldowns and reasons of suspensions (`ShownExactly`,
   `ShownWhenServed`), every mark by the operations that set and clear it (`MarksFollow`).
2. After a YAML merge the destination reads as its source at every depth, up to defaults
   (`MergeReflects`), and what is left out is judged by what the program works with when a
   setting is absent (`MergeCarries`, `NewKeyExactly`). The heap version computes exactly that
   tree in place, shares no node between two positions or with the source, and grows by fresh
   nodes only.
3. Over every interleaving, each subscriber channel is closed at most once, never sent to
   afterwards, and has seen a gap-free piece of the publish log (`EveryInterleavingIsSafe`).
   Records leave the retained queue by age exactly as configured (`TakeGoesByAge`,
   `PutGoesByAge`).
4. No signature without `#` satisfies two recognisers, so the detected provider does not
   depend on the order of the tests (`AtMostOneAccepts`, `DetectionIsOrderIndependent`), and
   what each provider builds is accepted: Fernet tokens and nothing else for GPT, channel
   blocks for Claude, two envelopes for Gemini (`GPTExactly`, `ClaudeExactly`, `GeminiExactly`).
5. A balance is the credits a customer was created with, plus top-ups, minus deductions and
   usage, counted over the operations that survived failed saves and restarts
   (`BalanceIsWhatWasAsked`, `MemoryAsIn`); no request is debited twice, and a run of charges,
   however retried, ends where the run of those that reach the books ends
   (`RetriesChangeNothing`). After any run an API key resolves if and only if the history that
   survived restarts issued it and did not revoke it (`KeysResolveByHistory`).
6. A home heartbeat implies a complete handshake with the node now current; reconnect
   failures stay below three; the client only ever talks to its seed or a reported node, and
   moves exactly when and where `WhenItMoves` says.
7. RESP pipelines read back as the commands written, whatever follows on the stream.

## What turned out not to hold

Each of these has a lemma with the exact condition, one with a concrete input, or both.

- A debit that is answered as already recorded may be lost by a restart: its first save
  failed and the retry saves nothing. It survives exactly if this call booked it or some
  earlier save succeeded while it was recorded (`AcknowledgedDebitCanBeLost`,
  `AcknowledgedDebitIsDurableExactly`).
- Revoking an API key may likewise be undone by a restart: the first revocation failed to save
  and the acknowledged retry saves nothing (`AcknowledgedRevocationCanBeLost`,
  `AcknowledgedRevocationIsDurableExactly`).
- The number of available clients of a model counts a client out twice when it is both cooling
  down and suspended, as one 429 makes it; with two clients the count is then zero
  (`OneFailureHidesBoth`, `CountIsAvailableExactly`).
- A YAML merge can leave out a key whose absence does not mean the same: a new `false` or `0`
  for a setting that defaults to more (usage statistics, the signature cache, error log files,
  the reasoning-effort percentage), an entry of a free-form map, or a list of empty values.
  Writing "usage statistics off" into a file that does not mention them changes nothing
  (`SwitchedOffIsLost`, `MergeCarries`).
- Merging the same YAML source a second time can discard comments the first merge kept, because
  a sequence element may have been matched by a value that the merge filled in
  (`SecondMergeLosesComments`, `MergingTwiceExactly`).
- A usage record whose Enqueue read the switch before it was turned off can end up retained in
  the disabled queue (`RecordRetainedWhileOff`, `RetainedWhileOffExactly`).
- The RESP reader does not return on a stream that announces more than can be allocated; it
  panics (`ReadArrayReturnsExactly`).
- Sanitising is not idempotent on a double-layered Claude signature whose inner layer ends in
  a line break; a second pass trims it (`SecondPassTrims`, `IdempotentExactly`).
- A usage record published while every subscriber is full is neither delivered nor retained
  (`EnqueueLosesExactlyWhenFull`).
- A registry diff can keep cooldown or suspension marks that a fresh start would drop, or
  clear ones it would keep (`DiffIsScratchExactly`, `LeftoverMarksAreReachable`).
- A signature lookup that overlaps a clear can return an older signature than the last one
  stored (`HitCanBeStale`, `HitIsLastStoredExactly`).
- A purge between a signature store's two steps loses the signature (`PurgeCanLoseAStore`,
  `StoreIsVisibleExactly`).
- `ValidateConfig` can accept a request and return something outside the model's capability:
  level `AUTO` on a budget-only model, a negative budget on a model with minimum 0, `auto` on
  a level-only model without `medium` (`UnanswerableRequests`, `ResultFitsExactly`).
- Saving an auth file outside the managed directory fails without undoing the write
  (`OutsideIsNotUndone`).
- Failover alternates between two nodes while the node list is unchanged; a third is never
  tried (`MovesAlternate`).
- A nil item of a RESP array is read back as an empty string (`ArrayRoundTripExactly`).
- The enrolment client takes any two bytes for the line ending after a bulk string, and
  refuses a nil that the server's own reader takes for an empty string
  (`GoesFurtherExactly`, `NilIsRefused`).

Where the code and its comments disagree the model follows the code: the comment on
`ThinkingConfig` (`internal/thinking/types.go:66`) gives a disabled configuration budget 0,
but `ValidateConfig` returns the model's minimum when zero is not allowed.

## Model

| member | source | states |
|---|---|---|
| `RegistryRecount.EveryRunIsRecounted` | internal/registry/model_registry.go:235-728 | after any run, each model's count is its multiplicity over all clients, each provider tally its clients' share, no zero entry remains, and definitions exist for exactly the providers counted |
| `RegistryRecount.RunListsLastRegistration` | internal/registry/model_registry.go:235-448 | what a run leaves for a client is its last registration, unless since unregistered, whatever others did |
| `RegistryRecount.RegisterKeeps` | internal/registry/model_registry.go:235-448 | one RegisterClient, diff or fresh, keeps the recount and leaves exactly the supplied ids and lower-cased provider |
| `RegistryRecount.ReconcileEffect` | internal/registry/model_registry.go:296-430 | for one model, the five diff stages together take out the old listing and put in the new one, in count and in every provider tally |
| `RegistryRecount.UnregisterKeeps` | internal/registry/model_registry.go:583-637 | unregistering keeps the recount and leaves nothing of the client |
| `RegistryRecount.UnregisterLeavesNothing` | internal/registry/model_registry.go:583-637 | the three client tables are as before without the client's entries |
| `RegistryTransient.UnregisterClearsListedMarks` | internal/registry/model_registry.go:583-637 | of the marks for the client exactly those on models it listed are cleared; a mark on another model survives, and other clients' marks stay |
| `RegistryRecount.RecountIsUnique` | internal/registry/model_registry.go:450-524 | count and tallies are determined by the client tables alone, so any two routes to the same tables agree |
| `RegistryRecount.DiffEqualsForgetThenRegister` | internal/registry/model_registry.go:235-448 | re-registering by diff gives the counts, tallies and all three client tables of unregistering and registering from scratch |
| `RegistryTransient.DiffIsScratchExactly` | internal/registry/model_registry.go:235-448 | in every remaining field the two registrations are equal if and only if no leftover cooldown or suspension mark exists |
| `RegistryTransient.LeftoverMarksAreReachable` | internal/registry/model_registry.go:235-448 | a run of two operations reaches a state with leftover marks, in which the two registrations differ |
| `RegistrySpec.CachedListStaysRight` | internal/registry/model_registry.go:761-836 | a list served from the cache between its building and its expiry equals, as a multiset, the list rebuilt at that time |
| `RegistrySpec.CleanupIsInvisible` | internal/registry/model_registry.go:1298-1317 | dropping expired cooldowns changes neither the lists nor the counts from then on |
| `Registry.ModelRegistry.RegisterClient` | internal/registry/model_registry.go:235-448 | the loops over models, old and new counts leave exactly the specified tables, and the caches valid |
| `Registry.ModelRegistry.AddModelRegistration` | internal/registry/model_registry.go:450-489 | one binding added to one registration, nothing else changed |
| `Registry.ModelRegistry.RemoveModelRegistration` | internal/registry/model_registry.go:491-524 | one binding released, the registration gone with its last one |
| `Registry.ModelRegistry.UnregisterClientInternal` | internal/registry/model_registry.go:583-637 | every binding of the client released, its tables gone |
| `Registry.ModelRegistry.SetModelQuotaExceeded` | internal/registry/model_registry.go:643-654 | the mark is set and every cached list dropped |
| `Registry.ModelRegistry.ClearModelQuotaExceeded` | internal/registry/model_registry.go:660-670 | the mark is removed and every cached list dropped |
| `Registry.ModelRegistry.SuspendClientModel` | internal/registry/model_registry.go:677-703 | the suspension is recorded once, the caches stay sound |
| `Registry.ModelRegistry.ResumeClientModel` | internal/registry/model_registry.go:709-728 | the suspension is lifted, the caches stay sound |
| `Registry.ModelRegistry.GetAvailableModels` | internal/registry/model_registry.go:761-787 | cached or rebuilt, the answer is the list of this moment; every cached list keeps its expiry sound |
| `Registry.ModelRegistry.BuildAvailableModels` | internal/registry/model_registry.go:789-836 | the list holds each available model once per registration, and the expiry is the first end of a running cooldown |
| `Registry.ModelRegistry.GetModelCount` | internal/registry/model_registry.go:1013-1038 | bindings less running cooldowns and suspensions, never negative |
| `RegistryCounts.CountDrift` | internal/registry/model_registry.go:1013-1038 | after any run the count is the number of clients listing the model with no running cooldown and no suspension, plus repeated listings, less double marks and marks of clients that do not list it, floored at zero |
| `RegistryCounts.CountIsAvailableExactly` | internal/registry/model_registry.go:1004-1038 | so it is the documented number of available clients if and only if those corrections cancel, or nobody is available and the floor hides them |
| `RegistryCounts.OneFailureHidesBoth` | internal/registry/model_registry.go:1013-1038 | with two clients, one marked both ways, one is available and the count is zero |
| `Registry.ModelRegistry.CleanupExpiredQuotas` | internal/registry/model_registry.go:1298-1317 | exactly the expired cooldowns are dropped, and the caches stay valid |
| `RegistryAvailability.ShownExactly` | internal/registry/model_registry.go:761-836 | after any run the list shows a model if and only if its servers (clients that list it with no cooldown set in the last five minutes and no suspension but for quota) and repeated listings outnumber the clients marked both ways and the marked strangers, or nobody is suspended but for quota, somebody lists it and some cooldown or quota suspension runs |
| `RegistryAvailability.ShownWhenServed` | internal/registry/model_registry.go:789-836 | without repeats, double marks and strangers' marks: if and only if some client can serve it, or somebody lists it and only quota stands in the way |
| `RegistryAvailability.RowsAreModels` | internal/registry/model_registry.go:789-836 | every row is a registered model's current definition under the handler asked for, and no model has two |
| `RegistryAvailability.StillShownInCooldown` | internal/registry/model_registry.go:827-833 | a run of one client and one 429 after which nobody can serve the model and it is still listed |
| `RegistryMarks.MarksFollow` | internal/registry/model_registry.go:583-728 | every operation sets and clears the cooldown and suspension it names - a registration those of its own client on the models it listed or lists - and no others |
| `RegistryMarks.ShowsLastSupplied` | internal/registry/model_registry.go:235-489 | after any run a model shows the first definition in the last registration that listed it, and for each provider in the last under that provider |
| `RegistryMarks.OwnDefinitionsAreLastSupplied` | internal/registry/model_registry.go:235-448 | each client's own definitions are the first ones of its last registration |
| `RegistryMarks.ListedAsSupplied` | internal/registry/model_registry.go:244-275 | a model is listed as often as it is supplied, a blank id never |
| `RegistryLookup.GetModelProviders` | internal/registry/model_registry.go:1046-1095 | all providers with a positive tally, once each, by tally and then name |
| `RegistryLookup.RankingIsUnique` | internal/registry/model_registry.go:1046-1095 | there is only one such ranking, so map order never shows |
| `RegistryLookup.ProvidersAreThoseSupplying` | internal/registry/model_registry.go:1046-1095 | after any run those are exactly the providers of clients that list the model |
| `RegistryLookup.RankedByListings` | internal/registry/model_registry.go:1046-1095 | they come by how often their clients list the model, among equals by name |
| `RegistryLookup.ResolveModelID` | internal/registry/model_registry.go:1133-1163 | an exact served name wins, else the smallest served id with the same normalised key, else nothing |
| `RegistryLookup.ResolutionIsUnique` | internal/registry/model_registry.go:1126-1163 | the answer does not depend on map iteration order |
| `RegistryLookup.ResolvesExactlyWhenSupplied` | internal/registry/model_registry.go:1133-1163 | after any run a name resolves if and only if a client with a provider lists it or a spelling of it |
| `RegistryLookup.SpellsExactly` | internal/registry/model_registry.go:1097-1112 | two names spell the same model if and only if they differ in outer white space, letter case and dots for dashes only |
| `Fifo.EveryRecordIsAccountedFor` | internal/redisqueue/queue.go:86-230 | over any run each record still waits, in order, or left by delivery, by expiry after more than the window then in force, or by a clear; what was handed out is the delivered ones in order |
| `Fifo.PruneRemovesExactlyTheExpired` | internal/redisqueue/queue.go:199-214 | pruning from the head removes exactly the expired records if and only if none waits behind an unexpired one |
| `Fifo.SortedMeansExpiredFirst` | internal/redisqueue/queue.go:199-214 | non-decreasing time stamps suffice |
| `Fifo.PruneIsExactThroughout` | internal/redisqueue/queue.go:199-214 | so in every run whose clock readings do not go back, each prune removes exactly the expired records |
| `Fifo.NothingOutlivesTheWindow` | internal/redisqueue/queue.go:172-214 | and nothing is handed out, nor left waiting by a put or pop, that was queued longer ago than the window then in force |
| `PubSub.EveryInterleavingIsSafe` | internal/redisqueue/queue.go:86-170 | no channel is closed twice or sent to after its close, and received plus buffered is a gap-free piece of the publish log |
| `PubSub.EndedMeansClosedOnce` | internal/redisqueue/queue.go:86-170 | once a subscriber is gone and no close is outstanding its channel has been closed exactly once |
| `PubSub.PublishReaches` | internal/redisqueue/queue.go:117-136 | a record reaches exactly the live subscribers with room; the full ones are dropped, and none is left exactly when all were full |
| `UsageFlow.EnqueueLosesExactlyWhenFull` | internal/redisqueue/queue.go:59-70 | an accepted record is delivered to some subscriber or retained, unless somebody subscribes and all are full; then it is lost |
| `UsageFlow.Usage.Enqueue` | internal/redisqueue/queue.go:59-70 | drops records while disabled and empty ones, else publishes, and retains only if nobody subscribes |
| `UsageFlow.Usage.SetEnabled` | internal/redisqueue/queue.go:36-101 | switching off empties the retained records, takes every subscriber out of the table and closes its channel once |
| `UsageFlow.Usage.PopOldest` | internal/redisqueue/queue.go:72-80 | hands out the oldest unexpired records, and nothing while disabled or for a non-positive count |
| `UsageFlow.Usage.SetRetentionSeconds` | internal/redisqueue/queue.go:47-57 | the configured retention is stored within its bounds |
| `UsageRuns.RunIsFifo` | internal/redisqueue/queue.go:36-101 | whatever is called and whoever subscribes, records and deliveries are those of the plain FIFO under the retention configured last, 60 seconds at first, at most an hour |
| `UsageRuns.TakeGoesByAge` | internal/redisqueue/queue.go:72-80 | a pop drops records older than that retention, hands out as many of the others as asked for, oldest first, and leaves the rest; under a clock that does not go back all of these are recent |
| `UsageRuns.PutGoesByAge` | internal/redisqueue/queue.go:59-70 | a retained record is queued behind the others, of which only those older than the retention go |
| `UsageRace.RetainedWhileOffExactly` | internal/redisqueue/queue.go:36-101 | switched off and cleared, and neither switched on nor cleared again, the queue comes to hold a record if and only if some Enqueue reaches its second lock region, and each such thread was in flight when the queue was cleared |
| `UsageRace.QuietSwitchOffStaysEmpty` | internal/redisqueue/queue.go:36-101 | so with no Enqueue in flight at the clear it stays empty |
| `UsageRace.RecordRetainedWhileOff` | internal/redisqueue/queue.go:36-101 | an interleaving that leaves a record in the disabled queue |
| `Fifo.NormalRetention` | internal/redisqueue/queue.go:47-57 | a value in range is kept, and any value ends up positive and at most an hour |
| `UsageQueue.Queue.Prune` | internal/redisqueue/queue.go:199-214 | advancing the head drops the expired prefix of the FIFO |
| `UsageQueue.Queue.MaybeCompact` | internal/redisqueue/queue.go:216-230 | compaction leaves the FIFO alone and the head at 0 or below both 1024 and half the length |
| `UsageQueue.Queue.Enqueue` | internal/redisqueue/queue.go:103-115 | prune, then append, then compact |
| `UsageQueue.Queue.PopOldest` | internal/redisqueue/queue.go:172-197 | the oldest unexpired records, at most count of them, leave in order |
| `UsageQueue.Queue.SubscribeUsage` | internal/redisqueue/queue.go:138-157 | a fresh channel under a fresh id, starting at the end of the log |
| `UsageQueue.Queue.TakeSubscriber` | internal/redisqueue/queue.go:159-170 | at most one caller gets the channel to close |
| `UsageQueue.Queue.TakeAll` | internal/redisqueue/queue.go:86-101 | clear takes every live channel out of the table, to be closed once |
| `UsageQueue.Queue.CloseTaken` | internal/redisqueue/queue.go:98-100 | a taken channel is open when its taker closes it |
| `UsageQueue.Queue.PublishToSubscribers` | internal/redisqueue/queue.go:117-136 | offers the record to every subscriber, closes the full ones, and returns whether there was any subscriber at all |
| `UsageQueue.Queue.Clear` | internal/redisqueue/queue.go:86-101 | records and subscribers are gone and every channel taken out of the table is closed, once |
| `YamlReflect.MergeReflects` | internal/config/config.go:1317-1380 | after a merge every source key at every depth reads back an equivalent value, or is absent with a value not worth writing; sequences agree in length and pointwise |
| `YamlReflect.PrunedReflects` | internal/config/config.go:1451-1485 | a new value stripped of defaults still reflects the value it was stripped from |
| `YamlReflect.ZeroOncePruned` | internal/config/config.go:1410-1485 | what pruning reduces to zero was made of zeros and known defaults only |
| `YamlReflect.OldKeysStayInOrder` | internal/config/config.go:1278-1312 | a mapping merge keeps the old keys, in order, as a prefix of the new ones |
| `YamlReflect.AssignIsInjective` | internal/config/config.go:1567-1630 | sequence matching uses each old element at most once |
| `YamlReflect.PruneMissingReflects` | internal/config/config.go:1769-1798 | removing keys the source lacks leaves the others' values in place |
| `YamlMeaning.MergeCarries` | internal/config/config.go:1281-1512 | at every depth a source key is found with what it says, or left out; a key left out works as if written if and only if it holds no list with elements, no entry of a free-form map and no zero for a setting that defaults to more |
| `YamlMeaning.NewKeyExactly` | internal/config/config.go:1304-1311 | a key the destination lacks is left out if and only if its value, without what is dropped from it, holds only hollow scalars (false, zero, empty, null) or is the default of one of four settings, and it is not the one setting always written; what is dropped from a new mapping is stated the same way at every depth |
| `YamlMeaning.SwitchedOffIsLost` | internal/config/config.go:665-665 | switching usage statistics off in a file that does not mention them is not written, though absence means on; switching debug on is |
| `YamlElements.ReorderedKeepNotes` | internal/config/config.go:1567-1672 | a list of scalars, or of elements named by one of nine keys, that is only reordered or cut keeps each element's node and comments |
| `YamlElements.UnchangedKeepNotes` | internal/config/config.go:1589-1712 | so does a list of elements with nothing to name them by |
| `YamlElements.NoStrayKeys` | internal/config/config.go:1345-1351 | a mapping in a merged list has no key its source lacks |
| `YamlTwice.MergingTwiceExactly` | internal/config/config.go:1317-1460 | merging the same source into any document twice gives what merging it once gives, comments included, if and only if the merged document is settled: it agrees with the source throughout and every sequence element is matched with the one in its own place, or with none and equals the source's |
| `YamlTwice.SettledStays` | internal/config/config.go:1317-1460 | a settled document is left as it is, comments included |
| `YamlTwice.StayingIsSettled` | internal/config/config.go:1317-1460 | and only such a document is, when comments tell the elements of its sequences apart |
| `YamlTwice.SecondMergeLosesComments` | internal/config/config.go:1567-1672 | a document whose comments survive the first merge and not the second |
| `YamlMerge.MergeNodePreserve` | internal/config/config.go:1317-1380 | in place, the destination becomes the specified merge, with no node shared between positions or with the source, growing by fresh nodes only |
| `YamlMerge.MergeMappingPreserve` | internal/config/config.go:1278-1312 | the same for mappings, pair by pair |
| `YamlMerge.MergePairAt` | internal/config/config.go:1294-1311 | one source pair is merged where its key stands, or added unless it is a default |
| `YamlMerge.MergeSequence` | internal/config/config.go:1330-1365 | reordered, merged position by position, extended with copies and cut to the source's length |
| `YamlMerge.ReorderSequenceForMerge` | internal/config/config.go:1567-1587 | the old children move to their matches without being duplicated |
| `YamlMerge.AssignElements` | internal/config/config.go:1589-1630 | the matches are found one source element at a time against what is still unused |
| `YamlMerge.PruneKnownDefaults` | internal/config/config.go:1451-1485 | defaults are removed from a new node in place |
| `YamlMerge.PruneMissingMapKeys` | internal/config/config.go:1769-1798 | keys without a source counterpart are removed in place |
| `YamlMerge.CopyNodeShallow` | internal/config/config.go:1549-1565 | the destination node takes over a deep copy of the source's value and keeps its own comments |
| `YamlMerge.FindMapKeyIndex` | internal/config/config.go:1384-1394 | the first position of a key |
| `YamlTree.DeepCopy` | internal/config/config.go:1533-1545 | an equal tree made of fresh nodes only |
| `Base64.RoundTrip` | internal/signature/claude_validation.go:202-227 | standard base64 (section 4 of RFC 4648) reads back every byte string it writes |
| `Base64.DecodableCharacters` | internal/signature/claude_validation.go:202-297 | whatever decodes consists of alphabet letters, padding and line breaks |
| `Base64.RoundTripIn` | internal/signature/gpt_validation.go:24-59 | the same round trip in the standard and the URL alphabet, padded or not |
| `ProtoPrint.FieldsReadBack` | internal/signature/claude_validation.go:484-520 | a printed message of numbers and byte strings reads back field by field |
| `ClaudeSignature.LayersShowInFirstLetter` | internal/signature/claude_validation.go:4-15 | a payload starting 0x12 encodes to text starting E, and that to text starting R |
| `ClaudeSignature.AntigravityIsLossless` | internal/signature/claude_validation.go:202-261 | normalising to the double layer loses nothing and is stable exactly while the result fits the length cap |
| `ClaudeSignature.NativeOfNative` | internal/signature/claude_validation.go:232-261 | normalising a native form only trims it, and nothing is left to trim then |
| `ClaudeSignature.RFormOf` | internal/signature/claude_validation.go:202-227 | the R-form of a valid E-form is itself a valid double-layered signature and decodes to that E-form |
| `Recognisers.ChannelBlockIsNotOpaque` | internal/signature/gemini_validation.go:435-471 | the version byte of an opaque Gemini value is an illegal tag for a Claude channel block |
| `Recognisers.ClaudePayloadIsNoEnvelope` | internal/signature/gemini_validation.go:358-464 | no payload is both a Claude signature and a known Gemini envelope |
| `Recognisers.ClaudeAndGeminiDisjoint` | internal/signature/provider_compatibility.go:79-122 | no trimmed signature without # is valid for both |
| `Recognisers.GPTAndGeminiDisjoint` | internal/signature/gpt_validation.go:24-59 | a Fernet-shaped token is no Gemini signature |
| `Recognisers.GPTAndClaudeDisjoint` | internal/signature/gpt_validation.go:24-59 | nor a Claude one |
| `Recognisers.BypassDisjoint` | internal/signature/gemini_validation.go:146-153 | the bypass sentinels satisfy no other recogniser |
| `Recognisers.AtMostOneAccepts` | internal/signature/provider_compatibility.go:79-122 | at most one of the four recognisers accepts a signature without # |
| `Recognisers.DetectionIsOrderIndependent` | internal/signature/provider_compatibility.go:79-122 | so the provider detected does not depend on the order of the tests |
| `Compatibility.DetectedAs` | internal/signature/provider_compatibility.go:79-122 | what a recogniser accepts is detected as that recogniser's provider |
| `SignatureAcceptance.GPTExactly` | internal/signature/gpt_validation.go:24-59 | base64url text, padded or not, is a GPT signature if and only if it fits 32 MiB and encodes version 0x80, an 8-byte time stamp starting with zeros, a 16-byte vector, whole AES blocks and a 32-byte MAC; it is then detected as GPT |
| `SignatureAcceptance.ClaudeExactly` | internal/signature/claude_validation.go:263-482 | a payload with a channel block in field 1 of field 2, in either normal form, is a Claude signature if and only if it fits and the block has an id, numbers where they belong and a readable model name; it is then detected as Claude |
| `Utf8.ValidExactly` | internal/signature/claude_validation.go:352-456 | a model name is readable if and only if its bytes encode some text of Unicode scalar values |
| `SignatureAcceptance.GeminiExactly` | internal/signature/gemini_validation.go:358-471 | base64 text, padded or not, is a Gemini signature if and only if it fits and encodes a known envelope; it is then detected as Gemini |
| `SignatureAcceptance.SentinelsExactly` | internal/signature/gemini_validation.go:146-153 | two sentinels are detected as Gemini's bypass and nothing else is |
| `SignatureAcceptance.RecordsAreKnownExactly` | internal/signature/gemini_validation.go:358-471 | field-1 records are such an envelope if and only if there are some and each value starts with the version byte |
| `SignatureAcceptance.NestedIsKnownExactly` | internal/signature/gemini_validation.go:358-471 | so is one value in field 1 of field 2 if and only if it does |
| `SignatureAcceptance.PrefixedExactly` | internal/signature/provider_compatibility.go:79-260 | behind a name and a `#` a signature is detected if and only if the name is one of its own provider's, in any letter case |
| `SignatureAcceptance.CompatibleExactly` | internal/signature/provider_compatibility.go:131-174 | a recognised signature is compatible with its own provider's target and no other |
| `Compatibility.CompatiblePayload` | internal/signature/provider_compatibility.go:131-174 | a signature judged compatible passes the target's own recogniser once its prefix is split off |
| `Compatibility.KeptTwice` | internal/signature/provider_compatibility.go:272-294 | what is kept of a compatible signature is compatible again and only loses white space when kept again |
| `Compatibility.KeptCarriesPayload` | internal/signature/provider_compatibility.go:272-294 | what is kept of a compatible signature carries what it carried: the same decoded bytes for Claude, the split-off payload itself for Gemini and GPT |
| `Compatibility.KeptHasSpaceExactly` | internal/signature/claude_validation.go:232-261 | what is kept of a compatible Claude signature has outer white space if and only if it is double-layered and its decoded inner layer ends in a line feed or carriage return |
| `Compatibility.SentinelStays` | internal/signature/provider_compatibility.go:131-174 | the sentinel written for an incompatible Gemini call is compatible and stays |
| `Sanitizer.Sanitize` | internal/signature/claude_messages_sanitize.go:43-160 | the nested loops keep exactly the specified messages and parts and report exactly the specified decisions |
| `Sanitizer.SanitizeParts` | internal/signature/claude_messages_sanitize.go:60-145 | one message's parts, and whether any changed |
| `SanitizerSpec.SanitisedIsReplayable` | internal/signature/claude_messages_sanitize.go:43-229 | every signature left anywhere is compatible with the target |
| `SanitizerSpec.ReportAddsUp` | internal/signature/claude_messages_sanitize.go:43-229 | without dropToolSignatures, decisions equal preserved plus replaced plus dropped signatures plus dropped blocks |
| `SanitizerReport.ReportTells` | internal/signature/claude_messages_sanitize.go:43-229 | the report counts the signatures the target can use, the thinking blocks it cannot, the tool signatures it cannot (replaced for Gemini, dropped otherwise) and the tool calls stripped on request, with one decision for each signature judged |
| `SanitizerSpec.OthersSurviveInOrder` | internal/signature/claude_messages_sanitize.go:43-160 | message by message and part by part, in order, everything but signatures is kept, and each compatible signature goes on carrying the same payload; left out are exactly the thinking blocks the target cannot use and, if asked for, the messages that held nothing else |
| `SanitizerSpec.SanitisingTwice` | internal/signature/claude_messages_sanitize.go:43-229 | a second pass only trims Claude signatures, a third changes nothing, and for other targets neither does the second |
| `SanitizerSpec.IdempotentExactly` | internal/signature/claude_messages_sanitize.go:43-229 | sanitising is idempotent if and only if none of the Claude signatures it keeps is double-layered with a decoded inner layer that ends in a line break |
| `SanitizerSpec.SecondPassTrims` | internal/signature/claude_messages_sanitize.go:43-229 | a message on which it is not |
| `Pairing.Validate` | internal/signature/gemini_validation.go:255-340 | accepts exactly the histories that alternate named call groups with matching response groups, an optional pending group last; otherwise names the first content that breaks this and what is wrong with it |
| `Pairing.CauseIsUnique` | internal/signature/gemini_validation.go:255-340 | each offending group has exactly one problem, so the reported one is determined |
| `Pairing.PrefixOfWellPaired` | internal/signature/gemini_validation.go:255-340 | every prefix of an accepted history is accepted |
| `Pairing.BuiltExactly` | internal/signature/gemini_validation.go:255-340 | a history built of rounds of calls and responses is accepted if and only if every call is named and answered by name and, where it has one, by id |
| `Pairing.OthersPlayNoPart` | internal/signature/gemini_validation.go:255-340 | contents with neither calls nor responses play no part, wherever they stand |
| `RespSpec.ReadPrintedArray` | internal/api/redis_queue_protocol.go:381-453 | reading a printed array, whatever follows, returns one string per item and leaves exactly what follows |
| `RespSpec.CommandRoundTrip` | internal/home/certificate.go:334-347 | an encoded command is read back as its arguments, leaving the rest of the stream |
| `RespSpec.ArrayRoundTripExactly` | internal/api/redis_queue_protocol.go:479-509 | a payload list survives if and only if it holds no nil |
| `RespSpec.PipelineRoundTrip` | internal/api/redis_queue_protocol.go:381-406 | concatenated commands are read as that list of commands, ending in a clean end of stream |
| `RespSpec.ReadArrayStable` | internal/api/redis_queue_protocol.go:381-453 | a command that can be read is read the same when more of the stream has arrived |
| `RespSpec.ReadArrayConsumes` | internal/api/redis_queue_protocol.go:381-453 | what is left after a command is a suffix of the stream |
| `RespSpec.OnTheWire` | internal/api/redis_queue_protocol.go:479-509 | the characters sent for a payload, for nil and for a list |
| `RespSpec.SimpleIsRead` | internal/api/redis_queue_protocol.go:408-421 | a simple string or integer in an array is read as the rest of its line, with or without carriage return |
| `RespSpec.ReadArrayReturnsExactly` | internal/api/redis_queue_protocol.go:381-443 | the reader panics if and only if the stream announces more strings than can be allocated, or where a string is to be read announces a longer one than that; it returns on every other stream |
| `RespReply.ReplyRoundTrip` | internal/home/certificate.go:349-381 | the enrolment client reads a printed payload back and leaves the rest |
| `RespReply.NilIsRefused` | internal/home/certificate.go:349-381 | it refuses a printed nil, which the server's reader takes for an empty string |
| `RespReply.ServerErrorIsReported` | internal/home/certificate.go:349-381 | an error line is reported with its text |
| `RespReply.AgreesWhereStrict` | internal/home/certificate.go:349-381 | whatever the server's reader accepts, this one refuses if it is no bulk string or nil, and reads the same otherwise |
| `RespReply.GoesFurtherExactly` | internal/home/certificate.go:349-381 | it accepts what the server's reader does not exactly when the length is a number only once trimmed, or the two bytes after the payload are no line ending |
| `RespReply.ReadBulkReply` | internal/home/certificate.go:349-381 | the consuming reader returns the specified payload or refusal |
| `Bytes.AtoiItoa` | internal/api/redis_queue_protocol.go:479-509 | lengths and counts are read back as written |
| `Resp.WriteArrayOfBulkStrings` | internal/api/redis_queue_protocol.go:496-509 | the writer ends up with the printed array appended |
| `Resp.WriteBulkString` | internal/api/redis_queue_protocol.go:479-494 | a payload or the nil bulk string is appended |
| `Resp.EncodeArray` | internal/home/certificate.go:334-347 | the buffer loop produces the printed command |
| `Resp.Reader.Array` | internal/api/redis_queue_protocol.go:381-406 | the loop over the reader returns what the specification reads, or its error, or panics on an unallocatable count |
| `Resp.Reader.String` | internal/api/redis_queue_protocol.go:408-421 | the same for one string of the array, bulk or simple |
| `Resp.Reader.BulkString` | internal/api/redis_queue_protocol.go:423-443 | the same for a bulk string, nil, malformed and unallocatable lengths included |
| `Resp.Reader.Line` | internal/api/redis_queue_protocol.go:445-453 | the same for one line |
| `LedgerSpec.EveryRunConserves` | internal/customerstate/service.go:237-516 | in memory and on disk, balance is opening credits plus movements, each entry shows its running balance, no request is debited twice, and the saved ledger is a prefix of the one in memory |
| `LedgerSpec.BalanceIsExact` | internal/customerstate/service.go:237-516 | while the true sum fits 64 bits the balance is that sum |
| `LedgerRuns.BalanceIsWhatWasAsked` | internal/customerstate/service.go:237-516 | after any run, failed saves and restarts included, and while the sum fits 64 bits, a balance is the credits the customer was created with plus the amounts of its booked top-ups minus those of its booked deductions and usage |
| `LedgerRuns.MemoryAsIn` | internal/customerstate/service.go:237-516 | memory holds exactly the customers, balances and ledger entries, with their kinds, signed amounts, texts and running balances, that the surviving operations account for |
| `LedgerRuns.FileAsIn` | internal/customerstate/service.go:546-599 | and so does the file for the history up to the last save |
| `LedgerRuns.ChargesByHistory` | internal/customerstate/service.go:392-516 | a charge is refused exactly for an amount that is not positive or an unknown customer, and booked exactly if it is neither refused nor usage already booked for its request |
| `LedgerRuns.ProfileIsLastGiven` | internal/customerstate/service.go:237-294 | email, name and flags are the last ones given, blank texts and absent flags aside |
| `LedgerSpec.RetriesChangeNothing` | internal/customerstate/service.go:468-516 | any run of charges at any times, refused ones included, ends in the state of the run of those that reach the books: no refusals, no debit already recorded, no retry |
| `LedgerSpec.ReplayChangesNothing` | internal/customerstate/service.go:468-516 | a later batch, at its own times, changes nothing if and only if each of its charges is refused or the debit of one already booked |
| `LedgerSpec.ReplayedDebitIsAbsorbed` | internal/customerstate/service.go:468-516 | every identified usage debit of the run is such a charge |
| `LedgerSpec.RecordedAfterAll` | internal/customerstate/service.go:468-516 | after any run a debit is recorded if and only if it was before or one that reached the books is the same; the ledger grew by exactly those |
| `LedgerSpec.DurableExactly` | internal/customerstate/service.go:468-516 | after any run the file holds a debit if and only if some successful save of the run came when the debit was recorded in memory |
| `LedgerSpec.AcknowledgedDebitIsDurableExactly` | internal/customerstate/service.go:468-516 | after any run, an acknowledged debit survives a restart if and only if this call booked it or some earlier successful save came when it was recorded |
| `LedgerSpec.AcknowledgedDebitCanBeLost` | internal/customerstate/service.go:468-516 | a run in which it does not |
| `ApiKeys.Resolve` | internal/customerstate/service.go:364-390 | the loops return an answer that fits the store: a customer's unrevoked key, an inactive holder, or nothing |
| `ApiKeys.AnswerIsUnique` | internal/customerstate/service.go:364-390 | with distinct keys the answer does not depend on map iteration order |
| `ApiKeys.EveryRunIsDistinct` | internal/customerstate/service.go:296-362 | in memory and on disk, through failed saves and restarts, ids and hashes stay distinct and come from issued keys |
| `ApiKeys.IssuedOpens` | internal/customerstate/service.go:296-329 | a fresh key resolves to its customer at once, and no other key resolves differently |
| `ApiKeys.RevokedShuts` | internal/customerstate/service.go:331-362 | a revoked key resolves to nothing, and no other key resolves differently |
| `ApiKeyRuns.KeysResolveByHistory` | internal/customerstate/service.go:296-390 | after any run, failed saves and restarts included, a key resolves to a customer if and only if the surviving history issued it to that customer, has not revoked it and leaves the customer active; there is no other answer |
| `ApiKeyRuns.MemoryIsSurvivingHistory` | internal/customerstate/service.go:237-362 | memory holds each customer and each key as the surviving history says: all operations but those a restart took back |
| `ApiKeyRuns.DiskIsLastWrite` | internal/customerstate/service.go:546-599 | the file holds the memory of the moment of the last operation that saved |
| `ApiKeyRuns.DurableExactly` | internal/customerstate/service.go:296-362 | in the history up to the last save, which is the file's, a key is issued, or revoked, if and only if some successful save of the run came when it was so in memory |
| `ApiKeyRuns.AcknowledgedRevocationIsDurableExactly` | internal/customerstate/service.go:331-362 | after any run, an acknowledged revocation and a restart the key opens nothing if and only if this call revoked it, or an earlier save came when it was revoked, or none came since it was issued |
| `ApiKeyRuns.AcknowledgedRevocationCanBeLost` | internal/customerstate/service.go:331-362 | a run of issue, unsaved revocation, acknowledged retry and restart after which the key opens again |
| `ApiKeys.Service.IssueAPIKey` | internal/customerstate/service.go:296-329 | the key is added in memory, saved or not, and returned only when saved |
| `ApiKeys.Service.RevokeAPIKey` | internal/customerstate/service.go:331-362 | the first key with the id is revoked, and success means it was found and either saved or already revoked |
| `LedgerSpec.UpsertConserves` | internal/customerstate/service.go:237-294 | creating or updating a customer keeps every balance explained |
| `CustomerState.Service.UpsertCustomer` | internal/customerstate/service.go:237-294 | the account object and the store take on the specified state, saved or not |
| `CustomerState.Service.Charge` | internal/customerstate/service.go:392-516 | top-up, deduction and usage debit: refusals in order, idempotent answer, entry and balance |
| `CustomerState.Service.FindDebit` | internal/customerstate/service.go:489-495 | the first ledger entry for a customer and request |
| `HomeLoop.EveryRunIsSound` | internal/home/client.go:678-788 | in every run failures stay below three, live clients match the current address, the handshake evidence fits the stage, and addresses are the seed's or reported |
| `HomeLoop.HeartbeatMeansConnected` | internal/home/client.go:678-788 | a heartbeat implies ping, config fetch, apply and subscribe all succeeded since the last reconnect, the config from the node now current |
| `HomeLoop.HandshakeSucceeds` | internal/home/client.go:678-788 | from the start on a usable address eight steps without a failure lead to a heartbeat, with both clients at that address |
| `HomeLoop.TopStartsAfresh` | internal/home/client.go:678-700 | each round starts without clients, heartbeat or answers |
| `HomeLoop.FailedStepRetries` | internal/home/client.go:700-788 | a failed step leads back to the top and counts as a failure, save a config that cannot be applied |
| `HomeLoop.UnconnectedRetries` | internal/home/client.go:700-788 | so does a step for which the clients cannot be had |
| `HomeLoop.WhatEndsListening` | internal/home/client.go:740-788 | a timeout ends the heartbeat and moves on at once, a broken subscription ends it and counts, a pong forgets failures, pushed nodes are taken in |
| `HomeLoop.CancelStops` | internal/home/client.go:689-697 | cancelling takes effect at the top of the loop, ends the heartbeat and stops the loop for good |
| `HomeLoop.DiscoveryMoves` | internal/home/client.go:314-359 | with discovery on, a connected client asked for nodes moves to the first usable one of least load |
| `HomeLoop.TalksToSeedOrReported` | internal/home/client.go:330-478 | a live client's address is the seed or one the cluster reported |
| `HomeLoop.NoDiscoveryNeverMoves` | internal/home/client.go:301-312 | with discovery disabled no run leaves the configured address or learns a node |
| `HomeFailover.SwitchLands` | internal/home/client.go:401-413 | a switch lands on the node asked for, drops both clients, and happens unless the node is unusable or current |
| `HomeFailover.NextLands` | internal/home/client.go:457-478 | moving on changes the address if and only if a usable candidate is elsewhere, and then to a candidate |
| `HomeFailover.WhenItMoves` | internal/home/client.go:422-478 | with discovery on, a subscription timeout and every third failure in a row move to the first usable reported node elsewhere, else to the seed, else nowhere; earlier failures only count, and without discovery nothing moves |
| `HomeFailover.EnsureConnects` | internal/home/client.go:144-174 | when enabled on a usable address and TLS options can be built, both clients end up at that address |
| `HomeFailover.OperationsAreSound` | internal/home/client.go:144-174 | every operation keeps failures below the threshold and clients at the current address |
| `HomeFailover.EveryThirdFailureMoves` | internal/home/client.go:422-440 | n failures in a row move on exactly once for every third |
| `HomeFailover.SeedIsAlwaysAWayOut` | internal/home/client.go:422-478 | away from a usable seed the threshold failure always leaves |
| `HomeFailover.NoDiscoveryStaysPut` | internal/home/client.go:422-455 | without discovery no number of failures moves the client |
| `HomeFailover.MovesAlternate` | internal/home/client.go:457-478 | with the node list unchanged, every other move returns to the same node |
| `HomeSpec.SortIsStable` | internal/home/client.go:383-399 | nodes end up ordered by load, equal loads in the order reported |
| `HomeSpec.NormalizedExactly` | internal/home/client.go:383-399 | for each load the list holds exactly the reported nodes with a host and a port and that load, in order, negative loads counting as none |
| `HomeSpec.RefreshMovesToBestNode` | internal/home/client.go:330-399 | a refresh leaves the client at the first reported usable node of least load, with the sorted nodes stored and failures forgotten |
| `HomeSpec.BestNodeIsFirstLeastLoaded` | internal/home/client.go:383-399 | that node heads the normalised list |
| `HomeClient.NormalizeClusterNodes` | internal/home/client.go:383-399 | the loop and the stable sort produce exactly that order |
| `HomeClient.Client.EnsureClients` | internal/home/client.go:144-174 | builds the missing clients for the current address, or fails without building more |
| `HomeClient.Client.SwitchToNodeLocked` | internal/home/client.go:401-413 | in place, the specified switch and whether it happened |
| `HomeClient.Client.SwitchToNextNodeLocked` | internal/home/client.go:457-478 | in place, the first usable candidate elsewhere |
| `HomeClient.Client.FailoverAfterReconnectFailure` | internal/home/client.go:422-440 | counts, and moves on at the threshold |
| `HomeClient.Client.FailoverAfterSubscriptionTimeout` | internal/home/client.go:442-455 | moves on at once |
| `HomeClient.Client.RefreshClusterNodes` | internal/home/client.go:330-359 | stores the nodes, forgets failures and switches to the best |
| `ThinkingFits.ResultFitsExactly` | internal/thinking/validate.go:38-165 | a successful validation is inside the model's capability if and only if the request was answerable, a condition on request and model alone |
| `ThinkingFits.FittingIsFixed` | internal/thinking/validate.go:38-165 | a configuration inside the capability is returned unchanged |
| `ThinkingFits.ValidatingTwice` | internal/thinking/validate.go:38-165 | validating an answerable request twice is validating it once |
| `ThinkingFits.UnanswerableRequests` | internal/thinking/validate.go:38-165 | three requests an extractor can build that pass validation and come out outside the capability |
| `ThinkingFits.BestIsNearest` | internal/thinking/validate.go:218-259 | the loop over supported levels finds the nearest one, the lower on a tie |
| `ThinkingFits.ClampIsOrderIndependent` | internal/thinking/validate.go:218-259 | the clamped level does not depend on the list's order, spelling or repetitions |
| `ThinkingFits.ClampedIsSupported` | internal/thinking/validate.go:218-259 | a standard level is clamped to a supported one whenever any standard level is supported |
| `ThinkingFits.CrossFamilyRefusedExactly` | internal/thinking/validate.go:58-131 | across families a standard level or positive budget is refused if and only if it has to become a level and the model lists no standard one |
| `ThinkingFits.StrictBudgetExactly` | internal/thinking/validate.go:122-131 | within a family, on a model with a budget range, a non-zero body budget passes, unchanged, if and only if it is in range |
| `ThinkingFits.LenientBudgetIsClamped` | internal/thinking/validate.go:262-310 | otherwise, on such a model, a non-zero budget becomes the nearest end of the range, and -1 stays -1 |
| `ThinkingFits.UndeclaredBudgetPasses` | internal/thinking/validate.go:262-310 | on a model that declares neither range nor levels every non-zero budget passes unchanged |
| `ThinkingFits.LowestCoveringLevel` | internal/thinking/convert.go:77-97 | the level a budget becomes covers it if and only if the budget is at most 32768, and no lower level does |
| `ThinkingFits.LevelRoundTrip` | internal/thinking/convert.go:13-97 | level to budget and back is the identity, except that max comes back as xhigh |
| `ThinkingFits.LevelBecomesBudget` | internal/thinking/validate.go:58-165 | on a model of budgets only a standard level becomes its budget, moved to the nearest end of the range |
| `ThinkingFits.BudgetBecomesLevel` | internal/thinking/validate.go:58-165 | on a model of levels only a budget becomes the lowest level covering it if on offer, else the nearest on offer |
| `ThinkingFits.SameFamilyLevelExactly` | internal/thinking/validate.go:100-131 | within a family, on a model with levels, a level passes, unchanged, if and only if it is listed |
| `ThinkingFits.CrossFamilyLevelIsNearest` | internal/thinking/validate.go:100-131 | across families a standard level that is not listed becomes the nearest standard one that is |
| `ThinkingFits.AutoBecomesMiddle` | internal/thinking/validate.go:133-216 | automatic thinking stays where allowed; elsewhere it becomes medium, the middle of the range, nothing, or the minimum |
| `ThinkingFits.FamiliesAre` | internal/thinking/validate.go:349-373 | which formats count as one family |
| `Thinking.ValidateConfig` | internal/thinking/validate.go:38-165 | the staged reassignments compute the specified result or error |
| `Thinking.ClampToSupported` | internal/thinking/validate.go:218-259 | the best-so-far loop returns the nearest supported level |
| `SignatureCacheSpec.CacheIsTimelines` | internal/cache/signature_cache.go:78-182 | a lookup sees exactly its own key's history: the last signature stored, used within the last three hours, untouched by purges and other keys |
| `SignatureCacheSpec.PurgesAreInvisible` | internal/cache/signature_cache.go:78-97 | no lookup ever answers differently because purges ran |
| `SignatureCacheSpec.SharedExactly` | internal/cache/signature_cache.go:123-201 | two models share a bucket if and only if both names mention gpt, else claude, else gemini, or are the same; a miss answers with the sentinel for Gemini only |
| `SignatureCacheSpec.StoredIsFound` | internal/cache/signature_cache.go:101-169 | a signature of fifty characters is found again for every model of the family within three hours, and not after |
| `SignatureCache.SignatureCache.CacheSignature` | internal/cache/signature_cache.go:101-119 | stores under group and hash, refusing empty texts and short signatures |
| `SignatureCache.SignatureCache.GetCachedSignature` | internal/cache/signature_cache.go:123-169 | the answer, and the renewal or removal of the entry |
| `SignatureCache.SignatureCache.PurgeExpiredCaches` | internal/cache/signature_cache.go:78-97 | removes expired entries and emptied buckets, nothing else |
| `SignatureCache.WithoutExpired` | internal/cache/signature_cache.go:84-88 | one bucket's expired entries are deleted |
| `SignatureCacheRace.HitIsLastStoredExactly` | internal/cache/signature_cache.go:53-169 | however bucket-level steps interleave, a hit was stored for that text, and is the last signature stored for the group asked for if and only if no later store of the text went to another bucket of the group |
| `SignatureCacheRace.UndisturbedHitIsLastStored` | internal/cache/signature_cache.go:53-169 | as long as the group is neither dropped nor cleared, a hit is the last signature stored for the text |
| `SignatureCacheRace.HeldWasAsked` | internal/cache/signature_cache.go:53-63 | a thread only ever works on a bucket of the group it last asked for |
| `SignatureCacheRace.HitCanBeStale` | internal/cache/signature_cache.go:123-182 | a run in which a lookup across a clear returns an older signature than the last one stored |
| `SignatureCacheRace.StoreIsVisibleExactly` | internal/cache/signature_cache.go:101-119 | a completed store is visible if and only if its bucket is still in the table, or the table's bucket shows the same signature as recently |
| `SignatureCacheRace.StoredStaysVisible` | internal/cache/signature_cache.go:78-169 | within the TTL only a drop, a clear or another store of that text hides it |
| `SignatureCacheRace.PurgeCanLoseAStore` | internal/cache/signature_cache.go:78-97 | an interleaved purge that loses a store |
| `AuthStore.EveryRunKeepsParity` | internal/store/postgresstore.go:207-395 | as long as compensations succeed, after every operation each row mirrors its file and both hold what the last successful operation asked for |
| `AuthStoreSpec.FailedSaveIsUndoneExactly` | internal/store/postgresstore.go:207-294 | a failed save never touches the row, and leaves the file alone if and only if it did not disturb it or could undo it |
| `AuthStoreSpec.FailedDeleteIsUndoneExactly` | internal/store/postgresstore.go:361-395 | a failed delete keeps the file, and the row if and only if the file can restore it |
| `AuthStoreSpec.AllOrNothing` | internal/store/postgresstore.go:207-395 | from parity, an operation whose compensation works succeeds in parity or changes nothing |
| `AuthStoreSpec.OutsideIsNotUndone` | internal/store/postgresstore.go:285-291 | outside the managed directory a save fails yet keeps what it wrote |
| `AuthStoreSpec.SavedMeansBoth` | internal/store/postgresstore.go:207-294 | a successful save leaves file and row alike, holding what was given |
| `AuthStoreSpec.SaveSucceedsExactly` | internal/store/postgresstore.go:207-294 | a managed save is skipped exactly for a disabled credential without a file, and succeeds exactly if every call it needs does and the file can go into a row |
| `AuthStoreSpec.DeleteSucceedsExactly` | internal/store/postgresstore.go:361-395 | a delete succeeds exactly if reading, database and removal do, leaving nothing |
| `AuthStore.Store.Save` | internal/store/postgresstore.go:207-294 | the sequence of writes and compensations gives the specified cell and touches nothing else |
| `AuthStore.Store.Delete` | internal/store/postgresstore.go:361-395 | the same for deletes |

## Left out

- Clocks, goroutines, sockets, the file system and SQL: time is a parameter, each lock region is one step, and each outside call may fail by a flag.
- Letter case: lower-casing and case-insensitive comparison cover ASCII letters only.
- Registry: model definitions carry four fields; a list row is the pair of handler and definition, not the formatted map; hooks, logs, `GetAvailableModelsByProvider`, `GetModelInfo` and `GetModelsForClient` are not modelled.
- Usage queue: a subscriber id is unbounded, so wrap-around of the 64-bit counter is not modelled; payload copying is invisible on values.
- YAML: anchors and alias targets (an alias node compares as if its target were absent), comments and styles beyond travelling with their node, the YAML text itself, legacy-key removal, `pruneMappingToGeneratedKeys`, `normalizeCollectionNodeStyles`.
- YamlMeaning.MergeCarries: stated for trees as the encoder writes a configuration, numbers in plain decimal notation; what the program makes of a value is taken from the loading code and its users for the settings named there, and for all others the value is used as it is.
- YamlTwice.MergingTwiceExactly: that an unchanged document is settled is proved where comments tell sequence elements apart; without that, equal elements could change places unseen.
- YAML: a nil key node in the source mapping panics in the code and is skipped here.
- YAML: read-only helpers (zero test, default test, structural equality, identities) are applied to a snapshot of the tree's value instead of walking the heap.
- Signatures: the JSON around messages is structured data; classification strings, routing hints and decision reasons are not modelled, nor are the non-strict prefix and base64-only modes and the validation of whole request bodies.
- SanitizerSpec.SanitisingTwice: stated for an already normalised target, which is what the code computes from its options before the loops; deriving a target from a model name is not modelled.
- Base64.Decode: the library's own strictness about trailing bits is taken as its documented default.
- RESP: simple strings, errors and integers written by the server, connection authentication, memory running out below the runtime's own allocation limit, and the reader's position after an error; white space around the enrolment client's length line is ASCII.
- RespSpec.ReadPrintedArray: items and counts up to the runtime's allocation limit on a 64-bit platform, beyond which no program holds the list.
- Ledger: `ListLedger`, entry identifiers and the JSON file's text; key prefixes, names and time stamps are dropped; the stages of writing the file count as saved or not saved.
- Home: TLS files (whether options can be built is a flag), `RPopAuth` and the other commands beyond their use of the clients, and the 1-second pauses.
- Thinking: messages of errors, log output, user-defined models and the request extractors (their outputs are described by `ThinkingFits.Extracted`).
- Signature cache: SHA-256 (texts are known by their hash, so colliding texts share an entry), the ticker that schedules purges, and the enabled and strict switches.
- Auth store: paths outside the directory for deletes (refused before anything happens), bootstrap, listing, `PersistAuthFiles` and the config record; a managed path is identified with its row id, and a failing database call is taken to change nothing.
- Usage queue: `Usage.Enqueue` and `Usage.SetEnabled` are stated with nothing between their lock regions; interleavings are the subject of `PubSub`, `UsageRace` and `EnqueueLosesExactlyWhenFull`; pops, which only take records away, are no action of `UsageRace`.
- ApiKeys.Service: API keys and credits belong to one service in the source; here each has its own class over its own view of the customers.
- HTTP routing, OAuth logins, TLS enrolment, TUI, updater, and the git and object stores.
