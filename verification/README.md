# golagram: the hand-written core, modelled and proved

golagram is a Telegram bot framework in Go. Most of it is generated from the Bot API's description; this project
models the hand-written parts whose properties no finite set of examples settles, and proves those properties for
every input, every run and every interleaving.

- **Formatting** (`Utf16`, `Entities`, `Format`, `SplitTheorems`, `WholeEntities`, `FormatEntities`, `RenderTheorems`,
  `EntitySegments`). A list of entities gives every UTF-16 unit of a text a list of styles: `Entities.Styled` is that
  meaning, and rendering a node tree, splitting a long text and cutting it into segments are all judged by it. Text is
  a sequence of Unicode scalar values; Go's utf16 package is modelled by sections 2.1 and 2.2 of RFC 2781. The
  splitter's two retreating loops are specified by one declarative choice: the greatest point of the window that is
  both a preferred break and outside every avoidable entity.
- **The keyed lock** (`KeyedMutex`, `KeyedMutexClass`, `UpdateRace`). Lock and Unlock are four atomic steps of any
  number of threads; the class performs the same steps on real objects. On top of it, handlers run get, merge and set
  as separate steps.
- **Storages** (`Json`, `Conversations`, `ConversationLaws`, `MemoryStorages`, `Decimal`, `RedisStorages`,
  `StorageAgreement`). Both storages refine one abstract map from keys to conversations, up to what a JSON round trip
  makes of a value.
- **Polling** (`Polling`). Run, its queue and its workers as interleaved steps, with cancellation at any moment.
- **Routers** (`RouterGraph`, `RouterScan`, `RouterLeaves`, `RouterClass`). The tree as a graph of mutable routers,
  and its recursive dispatch against a linear scan of the flattened leaf routes.
- **Token buckets** (`Rates`, `RateLimit`, `Pacer`) and **broadcasts** (`Broadcast`, `BroadcastSends`,
  `BroadcastCounts`), over real numbers and a clock that never goes back.
- **Transformations** (`Uploads`, `Strings`, `Base64Url`, `CallbackData`, `CallbackReading`, `RichText`,
  `RichTextTheorems`, `RichTextFormatting`, `RichTextReferences`, `RichTextScan`, `RichTextReadBack`): hoisting
  uploads out of value trees, packing callback data, and rich text as HTML and as plain text. Base64url is section 5
  of RFC 4648.

Classes and methods follow the code that changes things step by step; each is proved against a function of its inputs
or its old state, and the properties are lemmas about those functions.

## Where the code and its documentation differ, and other limits of the code

The models follow the code.

- `format.go:103-106` says that only an entity too long for any chunk is split. The guard `off > start` at
  `format.go:217` leaves out an entity that is already open at the chunk start. `SplitTheorems.PromiseFails` is an
  input on which the promise fails, `SplitTheorems.PromiseHoldsExactly` the exact condition at one split point, and
  `WholeEntities.WholeExactly` says which fitting entities a whole split leaves whole.
- The doc comment of `BroadcastResult.Errors` (`broadcast.go:29`) speaks of non-blocked chats; the code at
  `broadcast.go:111-117` records blocked ones as well (`Broadcast.BlockedChatIsInErrors`). Errors is what the comment
  says exactly when no chat's error is that it was blocked (`Broadcast.ErrorsAreAsDocumentedExactly`).
- The comment at `broadcast.go:81-83` says that a canceled broadcast returns immediately and that chats which had not
  started sending are absent from the result. The code waits for every chat that it handed out and counts each of them
  (`BroadcastSends.ReturnedExactly`); a chat whose first wait the cancellation ended is counted as failed although send
  was never called (`BroadcastSends.CanceledChatIsCounted`). The comment is right exactly when there is no such chat
  (`BroadcastSends.UnsentAreAbsentExactly`).
- Sleeping for the wait that the pacer returned does not always make the next reservation succeed: after a pause
  shorter than the refill it may not (`Pacer.ShortPauseRefusesAgain`). `Pacer.WaitingHelpsExactly` gives the exact
  condition; in broadcasts, where pauses are whole seconds, waiting helps exactly from a rate of one per second on.
- With a rate below one per second no send is ever granted, since the burst equals the rate
  (`Pacer.SendsExactlyFromRateOne`).
- Eviction of idle keys is visible to callers when `idleTTL * rate < burst`, which the default TTL allows for large
  bursts (`RateLimit.EvictionIsInvisibleExactly`, `RateLimit.DefaultTTLHidesEvictions`); the same condition decides
  whether the rate is kept at all (`RateLimit.RateIsKeptExactly`).
- `containsUpload` looks into arrays, as its comment says, and `hoistUploads` does not, and does not say so
  (`internal/api/client.go:363` against `:430`). The former thus reports uploads that the latter leaves in place:
  `Uploads.ArrayUploadIsMissed` is an input, `Uploads.HoistEmptiesExactly` the exact condition.
- An entity that begins inside a surrogate pair is left out of the segment that begins with that pair, even where it
  covers all the rest of the segment (`entity_text.go:77-82`, `:109-118`). `EntitySegments.ListedExactly` says which
  segments list an entity, and `EntitySegments.EntityFromHalfAPairIsUnlisted` is an entity that none lists.
- The two storages' UpdateData replies differ: Redis returns the merged map as it is, memory returns its JSON image
  (`storage/redis/storage.go:117-135`, `fsm_memory.go:160-183`). `StorageAgreement.UpdateRepliesDiffer` is an input, and
  `StorageAgreement.RepliesAgreeExactly` and `Compare` give the exact condition: the partial map cannot be marshalled or
  is its own JSON image.
- Mathematical expressions are written unescaped on purpose (`richmessage_builder.go:446-450`). The plain text is read
  back exactly when none of them contains a < or starts a character reference
  (`RichTextReadBack.HtmlReadsAsPlainTextExactly`).
- Unpack accepts more than Pack writes: numbers that wrap in their field, signs and leading zeros, other spellings of
  booleans, and other spellings of the tag. `CallbackReading.RepacksExactly` tells the two apart, and
  `CallbackReading.WideNumberDoesNotRepack` is data that comes back changed.

## Model

| member | source | states |
|---|---|---|
| `Utf16.DecodeEncode` | format.go:120 | decoding undoes encoding, for every text |
| `Utf16.EncodeDecodeIff` | format.go:136 | a slice of units survives decode and encode if and only if it has no lone surrogate |
| `Utf16.SplitInThree` | entity_text.go:27-33 | cutting a text's units at two points outside surrogate pairs and decoding the pieces loses nothing |
| `Format.LastBreak` | format.go:187-203 | the greatest break point in the window: no newline or, failing that, space lies behind it, and nothing greater qualifies |
| `Format.EntityStartBefore` | format.go:212-226 | the greatest point up to q that no avoidable entity strictly contains; the repeated scans end there whatever the order of the entities |
| `Format.SplitPoint` | format.go:155-183 | terminates, strictly after start, at the greatest point of the window that is both a break point and free; so the alternating loop finds a common fixpoint and the defensive return is never needed |
| `Format.GreatestGoodIsGreatest` | format.go:170-182 | such a point always exists after start and no greater point of the window is one |
| `Format.ClipEntities` | format.go:232-246 | returns the clip of the entities whose meaning the next row states |
| `Format.ClipKeepsMeaning` | format.go:228-246 | a range of the text with the clipped, re-based entities denotes exactly that range of the formatted text: every position keeps its styles, in order, and gains none |
| `Format.ClipOneExactly` | format.go:232-246 | an entity that overlaps a chunk is cut to it, re-based and never empty; one that does not is left out |
| `Format.ClipAppend` | format.go:232-246 | every entity is clipped for itself, in order |
| `Format.SplitTextWithEntities` | format.go:111-146 | terminates for every limit and returns the chunks of the ranges below. For a given limit n > 0 every chunk encodes to at most n units (2 for a limit of 1), for none or a non-positive one to at most 4096; a text within it that does not end in whitespace is returned as the one chunk, with its own entities; no chunk ends in whitespace and only the first can begin with some |
| `Format.SplitText` | format.go:88-98 | the texts of the chunks, in order; each within the limit, and a text within it that does not end in whitespace alone and unchanged |
| `Format.ChunksFollowRanges` | format.go:124-144 | each chunk is the non-empty slice of one range with the entities clipped to it |
| `SplitTheorems.RangesTile` | format.go:124-144 | the ranges are ordered and disjoint, and everything outside them is split whitespace |
| `Format.ChunksFit` | format.go:80-83 | every chunk is non-empty and encodes to at most the limit (at most 2 for a limit of 1), for any entities whatever |
| `Format.OneChunk` | format.go:111-146 | a text that fits the limit and does not end in whitespace is one chunk |
| `Format.ChunksAreTrimmed` | format.go:126-143 | no chunk ends in a space, tab or line break, and only the first can begin with one |
| `Format.SplitAtExactly` | format.go:155-183 | a window ends with the text if at most limit units are left, and otherwise at the last good point within limit units, where nothing but half a pair can lie behind a later one |
| `Format.BreaksInOrder` | format.go:185-203 | without entities a window ends after its last newline, or, if it has none, after its last space, or, if it has neither, at its edge |
| `SplitTheorems.DefaultChunksAreSendable` | validation.go:51-67 | default chunks always pass validateOutgoingText |
| `SplitTheorems.SendableStaysWhole` | validation.go:51-67 | a text that passes validateOutgoingText and does not end in whitespace is one default chunk |
| `SplitTheorems.SplitAtAligned` | format.go:160-169 | when no entity boundary falls inside a surrogate pair, no split point does |
| `SplitTheorems.RangesAligned` | format.go:80-83 | nor does either end of any chunk |
| `SplitTheorems.SplitLosesOnlySpaces` | format.go:127-143 | the text is the chunks' texts interleaved with gaps that are all whitespace |
| `SplitTheorems.SplitKeepsFormatting` | format.go:100-110 | each chunk's units and entities denote exactly its range of the original formatted text, and re-encode to it when the entities are pair-aligned |
| `SplitTheorems.LaterEntitiesAreWhole` | format.go:205-211 | a split point strictly crosses no entity that starts after the chunk start and fits the limit |
| `SplitTheorems.PromiseHoldsExactly` | format.go:100-106 | a split point cuts no fitting entity if and only if every fitting entity already open at the chunk start has a good point between its end and the window edge |
| `SplitTheorems.PromiseFails` | format.go:217 | "hello worldxxxxxxx" with an entity over its first 11 units and a limit of 12 is cut at 6, inside the entity |
| `WholeEntities.WholeExactly` | format.go:100-110 | for any text, entities and limit: an entity that fits the limit ends up whole in one chunk, but for split whitespace, if and only if every window starting inside it ends the text, has a good point behind all of its content, or has good points only in front of it; so it is whole when no window starts inside it |
| `FormatEntities.Render` | format_entities.go:91-130 | the text and the entities that the tree denotes, at any offset |
| `FormatEntities.NodesFrom` | format_entities.go:136-149 | strings become plain leaves, nodes stay, and anything else makes it fail |
| `FormatEntities.OneEntityPerNode` | format_entities.go:95-130 | as many entities as formatted nodes |
| `FormatEntities.EntityOfNode` | format_entities.go:95-130 | entity k carries all that a leaf carries, or just a group's kind, and covers exactly the own text of formatted node k in pre-order, with some text before it and some after |
| `FormatEntities.EntityTextExactly` | entity_text.go:17-33 | EntityText re-encodes to the entity's units when its ends fit the text and lie outside pairs, and is empty when they do not fit |
| `RenderTheorems.EntityCoversItsNode` | entity_text.go:17-33 | EntityText of entity k is the rendered text of formatted node k, and the styles agree |
| `RenderTheorems.RenderShifts` | format_entities.go:95-130 | rendering at an offset is rendering at 0, shifted |
| `RenderTheorems.RenderIsPairAligned` | format_entities.go:114-120 | no entity boundary of a rendered tree falls inside a surrogate pair |
| `RenderTheorems.SpansNestOrFollow` | format_entities.go:114-128 | of two entities, the later is inside the earlier or after it: any two are nested or disjoint |
| `RenderTheorems.RenderKeepsMeaning` | format_entities.go:91-130 | text and entities together denote the tree: every unit has the styles of the nodes around it, outermost first |
| `RenderTheorems.SplitRenderedKeepsMeaning` | format.go:100-110 | a rendered tree, split under any limit, loses only whitespace between chunks and every chunk means the same as its part of the tree; no assumption on offsets |
| `EntitySegments.ClipRange` | entity_text.go:125-142 | clamps any range, negative or inverted ones included, into the text |
| `EntitySegments.EntityBoundaries` | entity_text.go:83-107 | the boundaries are exactly 0, the end and every entity's clipped ends moved out of surrogate pairs, strictly ascending |
| `EntitySegments.CoveringEntities` | entity_text.go:109-118 | the entities that contain the whole segment, in entity order |
| `EntitySegments.EntitySegments` | entity_text.go:52-72 | one segment between each two neighbouring boundaries, with the entities covering it |
| `EntitySegments.SegmentsConcatenate` | entity_text.go:42-72 | the segments' texts concatenate to the input, whatever the entities are |
| `EntitySegments.SegmentListsItsStyles` | entity_text.go:42-72 | for pair-aligned entities, a segment's list is exactly the entities covering each of its positions; all others miss every position |
| `EntitySegments.SegmentsKeepMeaning` | entity_text.go:42-72 | the segments denote the formatted text |
| `EntitySegments.SegmentsReverseRender` | entity_text.go:42-72 | segmenting a rendered tree gives back the tree's meaning |
| `EntitySegments.ListedExactly` | entity_text.go:74-118 | for any entities, a segment lists an entity if and only if it lies between the entity's two boundaries, its ends clipped and moved out of pairs, and does not begin with a pair of which the entity holds only the second half |
| `EntitySegments.ListedThroughoutExactly` | entity_text.go:74-118 | an entity is listed by every segment between its two boundaries if and only if these are equal or its clipped start is not inside a pair |
| `EntitySegments.EntityFromHalfAPairIsUnlisted` | entity_text.go:83-118 | the text U+1F600 "a" with the entity [1,3) has one segment, which does not list the entity |
| `KeyedMutex.LockIsExclusiveAndCounted` | keyed_mutex.go:24-51 | in every state of every interleaving at most one thread holds a key, every entry's count is the number of threads waiting on, holding or about to drop it, and there is an entry exactly when that number is positive |
| `KeyedMutex.WaitingIsNeverStuck` | keyed_mutex.go:24-51 | while a thread waits, it or the owner of its mutex can move |
| `KeyedMutexClass.DispatchLocks.LockEnter` | keyed_mutex.go:26-33 | the first half of Lock on real objects is exactly the machine's Enter step, with a fresh mutex for a new key |
| `KeyedMutexClass.DispatchLocks.LockObtain` | keyed_mutex.go:35 | taking the entry's mutex is the Obtain step |
| `KeyedMutexClass.DispatchLocks.UnlockDrop` | keyed_mutex.go:41-47 | the first half of Unlock is the Drop step and finds the mutex that Lock took |
| `KeyedMutexClass.DispatchLocks.UnlockRelease` | keyed_mutex.go:49 | releasing it is the Release step |
| `UpdateRace.NoUpdateIsLost` | bot.go:758-759 | under the keyed lock, in every interleaving of get, merge and set, a key's data is what its updates give one after another, in the order in which their locks were obtained |
| `UpdateRace.ApplyIsUpdateData` | fsm.go:105-112 | the serial update is the abstract storage's own UpdateData |
| `UpdateRace.UnlockedUpdatesAreLostExactly` | storage/redis/storage.go:117-135 | without the lock, two updates that both read first leave data that no serial order gives if and only if both can be marshalled and the first writes a key that the second does not write and whose stored value it changes |
| `UpdateRace.RaceIsARun` | storage/redis/storage.go:117-135 | for any data and any two updates the unlocked machine has that run |
| `Json.MarshalUnmarshal` | fsm_memory.go:202-215 | marshalling what was unmarshalled gives the document back |
| `Json.ImageIdempotent` | fsm_memory.go:193-215 | copyData normalises: doing it again changes nothing |
| `Json.ImageExactly` | fsm_memory.go:193-215 | exactly the values with nothing unmarshalable in them survive the round trip, with integers as floats and structs as maps, all the way down |
| `ConversationLaws.StateIsLastSet` | fsm.go:105-112 | after any operations GetState answers what the last SetState of the conversation set, or the empty state if it was cleared since or never set |
| `ConversationLaws.EntryIsLastSet` | fsm.go:105-112 | after any operations GetData has under each name what the last operation that decides it wrote: an entry of a SetData or UpdateData in its generic form, or nothing after a Clear or a SetData without it |
| `ConversationLaws.FailsExactly` | fsm_memory.go:193-215 | an operation fails exactly when its own data holds something unmarshalable, and then changes nothing; UpdateData answers what GetData answers after it |
| `MemoryStorages.MemoryStorage.Get` | fsm_memory.go:105-113 | creates a missing entry without changing what any caller can observe |
| `MemoryStorages.MemoryStorage.SetState` | fsm_memory.go:116-121 | the abstract map's state is set, its data kept |
| `MemoryStorages.MemoryStorage.GetState` | fsm_memory.go:124-133 | the abstract map's state; nothing changes |
| `MemoryStorages.MemoryStorage.GetData` | fsm_memory.go:148-157 | the abstract map's data; nothing changes, and the copy is the data itself since it is already normal |
| `MemoryStorages.MemoryStorage.SetData` | fsm_memory.go:136-146 | state and reply are the abstract map's: the JSON image is stored, or nothing on data that cannot be marshalled |
| `MemoryStorages.MemoryStorage.UpdateData` | fsm_memory.go:160-183 | state and reply are the abstract map's: the image of the merged data, or nothing changed on failure |
| `MemoryStorages.MemoryStorage.Clear` | fsm_memory.go:186-191 | the abstract map forgets the key |
| `RedisStorages.KeysAreDistinct` | storage/redis/storage.go:61-67 | for one prefix, distinct storage keys have distinct Redis keys and a state key is never a data key |
| `RedisStorages.KeysAreLaidOut` | storage/redis/storage.go:61-67 | the two keys are prefix:chat:user:thread:state and prefix:chat:user:thread:data |
| `RedisStorages.OnlyOneConversation` | storage/redis/storage.go:71-141 | an operation that touches only the two Redis keys of one storage key changes no other conversation |
| `RedisStorages.RedisStorage.SetState` | storage/redis/storage.go:71-76 | the server represents the abstract map after the operation, the empty state included |
| `RedisStorages.RedisStorage.GetState` | storage/redis/storage.go:80-89 | the abstract map's state, absent keys included |
| `RedisStorages.RedisStorage.GetData` | storage/redis/storage.go:102-115 | the abstract map's data, absent keys included |
| `RedisStorages.RedisStorage.SetData` | storage/redis/storage.go:92-98 | the server's keys go on representing the abstract map, one step further |
| `RedisStorages.RedisStorage.UpdateData` | storage/redis/storage.go:117-135 | the server represents the abstract map after the update; the reply is the merged map as it was before marshalling, or the failure |
| `RedisStorages.RedisStorage.Clear` | storage/redis/storage.go:137-141 | both Redis keys go, and the abstract map forgets the storage key |
| `StorageAgreement.Compare` | fsm.go:98-112 | the same operations on the two storages, whatever they are: memory replies as the abstract map does, Redis the same up to JSON normalisation, and the two replies are identical if and only if the operation is no UpdateData, or its partial map cannot be marshalled, or is its own JSON image |
| `StorageAgreement.RepliesAgreeExactly` | storage/redis/storage.go:117-135 | the same for one operation on any normal data |
| `StorageAgreement.UpdateRepliesDiffer` | fsm_memory.go:160-183 | storing the integer 1: Redis replies with the integer, memory with the number 1.0 |
| `Json.ImageOfMerge` | fsm_memory.go:160-183 | merging into normal data: the result can be marshalled exactly when the change can, its image is the data merged with the change's image, and it is normal exactly when the change is |
| `Polling.QueuedOnceAndNoneSkipped` | bot.go:558-599 | in every run nothing is sent on the closed channel, updates are queued in increasing order of ID and so once each, and every fetched update that the offset has passed is queued |
| `Polling.DroppedStayDropped` | bot.go:602-616 | in every state of every run the loop started at 0, or, if it was told to drop what was pending and there was some, just after the last such update, and neither queued nor dispatched anything up to it |
| `Polling.OnlyCancellationEnds` | bot.go:518-523 | without cancellation the loop ends only if asking for the updates to drop failed, and then nothing was fetched or queued |
| `Polling.DispatchedAtMostOnce` | bot.go:692-699 | no update is dispatched twice, and only queued ones are |
| `Polling.ReturnMeansDrained` | bot.go:540-543 | when Run returns, the queue is empty and the updates dispatched are exactly those queued |
| `Polling.ShutdownIsNeverStuck` | bot.go:472-483 | after the queue is closed, until all workers have left, one of them can move |
| `Polling.RunIsNeverStuck` | bot.go:529-599 | a run that has started has a step other than the cancellation in every state until it is back, a full queue included |
| `Polling.CanceledLoopCanStop` | bot.go:558-599 | once canceled, the loop can stop from the top, from getUpdates, from a retry's sleep and from a send to a full queue |
| `Polling.QueueIsBounded` | bot.go:590-597 | in every state of every run the queue holds at most its capacity |
| `RouterGraph.PathReaches` | router.go:195-205 | reaches finds every router at the end of a path of includes |
| `RouterGraph.ReachesByPath` | router.go:195-205 | and only those: what it reaches has such a path |
| `RouterGraph.RefusedIncludeIsACycle` | router.go:187-189 | an Include that is refused would have closed a cycle through this router |
| `RouterGraph.EveryWorldIsAcyclic` | router.go:136-191 | after any sequence of creation, registration, Include (refused or not) and freeze no path returns to its start, and everything below a frozen router is frozen |
| `RouterGraph.FrozenForever` | router.go:136-154 | once a router is frozen, its whole subtree is the same after any further operations |
| `RouterScan.ScanExplained` | router.go:269-293 | the linear scan is decided by the first leaf whose condition holds and that does not skip. Each leaf tried is the outermost of a stack of handlers, called with the leaf's flags: the leaf's own handler at the bottom, and above it each middleware applied to what is below, the first registered on top. The deciding leaf's error goes to the nearest enclosing OnError, once, or is returned |
| `RouterScan.ScanAround` | router.go:160-166 | scanning the leaves below a router and then bubbling is scanning them with that router around each |
| `RouterScan.FirstMatchDecides` | router.go:295-315 | the route that firstMatchingRoute names is the deciding leaf unless its handler skips, and none means that nothing matches |
| `RouterLeaves.LeavesInOrder` | router.go:269-293 | the leaves below a router are one for each way down to a leaf through includes, with that leaf's route, its own router's middleware and the routers on the way, in registration order at every router; every way is among them |
| `RouterLeaves.DispatchExplained` | router.go:252-293 | what dispatch reports is decided by the first leaf in that order that matches and does not skip, called through its router's middleware |
| `RouterClass.Router.Include` | router.go:182-191 | changes the graph exactly as the operation says, and panics exactly when frozen, nil or closing a cycle |
| `RouterClass.Router.Reaches` | router.go:195-205 | computes reachability, and terminates |
| `RouterClass.Router.SwapFrozen` | router.go:146-148 | the flag is set once, and nothing else of the graph changes |
| `RouterClass.Router.Freeze` | router.go:145-154 | freezes exactly the routers reachable from this one |
| `RouterClass.Router.Handle` | router.go:386-395 | appends the route, or panics exactly when the router is frozen |
| `RouterClass.Router.Use` | router.go:107-110 | appends the middleware, or panics exactly when the router is frozen |
| `RouterClass.Router.OnError` | router.go:131-134 | sets the error handler, or takes it away when nil is registered, or panics exactly when the router is frozen |
| `RouterClass.Router.Dispatch` | router.go:252-260 | freezes the subtree and gives exactly the linear scan's outcome: match, error, context and error-handler calls |
| `RouterClass.Router.DispatchRoutes` | router.go:269-293 | the recursive loop over routes and sub-routers equals the linear scan of the flattened leaves |
| `RouterClass.Router.FirstMatchingRoute` | router.go:301-315 | the recursive look-ahead equals the look-ahead over the flattened leaves |
| `RateLimit.RateLimiter.constructor` | middleware.go:114-136 | defaults for non-positive rate, burst and TTL; the configuration is always valid |
| `RateLimit.RateLimiter.EvictExpired` | middleware.go:161-170 | removes exactly the buckets idle for longer than the TTL |
| `RateLimit.RateLimiter.Allow` | middleware.go:174-196 | takes the step whose consequences the next rows state |
| `RateLimit.EvictionIsInvisibleExactly` | middleware.go:114-196 | evictions at arbitrary moments never change an answer if and only if idleTTL times rate is at least burst |
| `RateLimit.DefaultTTLHidesEvictions` | middleware.go:121-126 | with the default TTL that is the case if and only if burst is at most 10 or at most 60 times the rate |
| `RateLimit.RateIsBounded` | middleware.go:161-196 | in any stretch of any run, one key's successes are at most burst plus rate times the stretch's length, if no eviction falls into the stretch or if idleTTL times rate is at least burst |
| `RateLimit.RateIsKeptExactly` | middleware.go:161-196 | with evictions at arbitrary moments that bound holds in every stretch of every run if and only if idleTTL times rate is at least burst |
| `Pacer.BroadcastPacer.TryReserve` | broadcast.go:214-233 | takes the reservation step and returns its answer |
| `Pacer.BroadcastPacer.PauseFor` | broadcast.go:238-245 | extends the pause |
| `Pacer.PausesAreNeverShortened` | broadcast.go:238-245 | in every run pausedUntil, once set, never decreases |
| `Pacer.PausesAreHonoured` | broadcast.go:235-245 | in every run a send is granted only after every pause asked for before it is over |
| `Pacer.RateIsBounded` | broadcast.go:214-233 | in any stretch of any run the grants are at most burst plus rate times the stretch's length |
| `Pacer.WaitingHelpsExactly` | broadcast.go:200-233 | sleeping the returned wait makes the next reservation succeed if and only if the rate is at least 1 and, under a pause, the bucket has a token again when it ends |
| `Pacer.WaitIsShortest` | broadcast.go:214-233 | after a refusal no reservation before the returned wait is over is granted, whatever other workers reserve and pause in between |
| `Pacer.WaitReturnsExactly` | broadcast.go:200-212 | left alone, Wait has its token after at most three attempts if the rate is at least 1, and never if it is below |
| `Pacer.ShortPauseRefusesAgain` | broadcast.go:214-245 | a pause of half a second after the last token: the wait is over and the reservation is refused again |
| `Pacer.WaitingHelpsInBroadcasts` | broadcast.go:136-146 | with pauses of whole seconds, waiting helps if and only if the rate is at least 1 |
| `Pacer.SendsExactlyFromRateOne` | broadcast.go:195-197 | below a rate of 1 no reservation of any run is granted; from 1 on the first one is |
| `Broadcast.SharedResult.Resolve` | broadcast.go:105-127 | updates the summary for one chat and reports it |
| `Broadcast.EveryChatOnce` | broadcast.go:105-178 | in every run each chat handed out is with one worker or resolved once, never both; each is sent at most twice; Sent plus Failed counts the resolved chats; the keys of Errors are exactly the failed chats (which chats are sent at all, and which a canceled broadcast returns, is stated by the `BroadcastSends` rows) |
| `Broadcast.ErrorsAreAsDocumentedExactly` | broadcast.go:25-30 | in every state of every run Blocked lists exactly the blocked failures in order; Errors holds just the non-blocked failures, as its comment says, if and only if no chat's error is that it was blocked; for distinct chats, if and only if no chat's send ended with that error, and if and only if Blocked is empty |
| `Broadcast.BlockedChatIsInErrors` | broadcast.go:111-117 | one chat that has blocked the bot is in Errors |
| `Broadcast.ProgressCountsDown` | broadcast.go:118-126 | the k-th callback reports k chats done and len(chatIDs) - k, never below zero, remaining |
| `Broadcast.UncanceledRunIsComplete` | broadcast.go:164-178 | a broadcast that was not canceled has Sent plus Failed equal to the number of chats when it returns |
| `BroadcastCounts.ResultIsCounted` | broadcast.go:105-127 | in every state of every run Sent is the number of resolutions without an error, Failed that of those with one and Blocked's length that of those by a block, and the k-th progress callback reported these numbers for the first k |
| `BroadcastCounts.FloodedChatsAreSentAgain` | broadcast.go:135-149 | in every state of every run a resolved chat was sent to a second time exactly if its first send was answered with a flood error, unless the cancellation ended the wait in between |
| `BroadcastCounts.NeverStuck` | broadcast.go:129-173 | in every state of every run a worker that has not exited can move, or the feeder can close the channel that it waits on |
| `BroadcastCounts.CancellationCutsShort` | broadcast.go:164-173 | once canceled, the feeder can close the channel at once and any wait for the pacer can end |
| `BroadcastSends.ResolvedChatsWereSent` | broadcast.go:129-150 | in every state of every run a resolved chat whose send was never called failed with the context's error in a canceled broadcast; so send was called for every chat counted as sent, and for every resolved chat of a broadcast that was not canceled |
| `BroadcastSends.OutcomesAreDecided` | broadcast.go:129-150 | in every run each outcome counted in the result is what some send call for that chat answered, or the context's error after a wait for it |
| `BroadcastSends.NeverSentExactly` | broadcast.go:129-133 | in every state of every run a chat has an outcome without a send call if and only if the cancellation ended its first wait |
| `BroadcastSends.ReturnedExactly` | broadcast.go:164-178 | when Broadcast returns, canceled or not, the resolved chats are exactly those handed out, Sent plus Failed is their number, and one of them was never sent if and only if the cancellation ended its first wait |
| `BroadcastSends.UnsentAreAbsentExactly` | broadcast.go:81-85 | when Broadcast returns, the chats that were never sent are absent from the result, as the comment says, if and only if the cancellation ended no chat's first wait |
| `BroadcastSends.CanceledChatIsCounted` | broadcast.go:129-133 | one chat and one worker, canceled during the first wait: send is never called and the result has Failed 1 with the chat in Errors |
| `Uploads.ContainsUpload` | internal/api/client.go:343-373 | true exactly when an upload can be reached through pointers, interfaces, exported struct fields, slices and arrays; maps are not looked into |
| `Uploads.HoistUploads` | internal/api/client.go:394-442 | appends exactly the uploads outside arrays, left to right, under names continuing the shared list, and returns the tree with references in their place |
| `Uploads.HoistEmptiesExactly` | internal/api/client.go:383-393 | no upload is left behind, and the appended ones are all there were, if and only if no array holds one |
| `Uploads.ArrayUploadIsMissed` | internal/api/client.go:363-441 | an upload inside an array is reported by containsUpload and not hoisted |
| `Uploads.HoistKeepsShape` | internal/api/client.go:383-393 | the tree keeps its shape; only uploads outside arrays and unexported fields change |
| `Uploads.PartsStayNumbered` | internal/api/client.go:418-419 | the shared list of a request stays numbered and its names pairwise distinct |
| `Uploads.PartsAndReferencesAgree` | internal/api/client.go:418-420 | with n parts in the list, the k-th upload becomes the part golagram_upload_(n+k), and attach:// with that name stands in its place |
| `Uploads.HoistIsUndoneExactly` | internal/api/client.go:383-393 | resolving the references in the finished list restores the tree if and only if no reference of it already used one of the names and its unexported fields were zero |
| `Base64Url.DecodeEncode` | callback_data.go:167-171 | base64url decoding undoes encoding for any bytes, and encodings contain no separator |
| `Base64Url.EncodeDecodeExactly` | callback_data.go:187 | a decodable text is the encoding of what it decodes to if and only if it has no line breaks and the unused bits of its last character are zero |
| `Base64Url.CodesAreTheAlphabet` | callback_data.go:167-171 | the characters are A to Z, a to z, 0 to 9, - and _, in this order |
| `Base64Url.GroupIsOneNumber` | callback_data.go:167-171 | three bytes and their four characters are the same 24-bit number, both from the high end |
| `Base64Url.RestIsPaddedWithZeros` | callback_data.go:167-171 | one or two bytes left over are encoded as if zeros followed, without the characters that hold only zeros |
| `CallbackData.Pack` | callback_data.go:115-153 | succeeds exactly when no string field contains the separator and the encoding has at most 64 bytes; otherwise names the first such field or the length |
| `CallbackData.Unpack` | callback_data.go:177-238 | reads the data as the next rows say, with the error of the first check that fails |
| `CallbackData.SplitJoin` | callback_data.go:142-197 | splitting undoes joining when no part contains the separator |
| `CallbackData.DataIsLaidOut` | callback_data.go:111-171 | the data is the prefix and each value after a colon; a signature adds a colon and the eleven characters of the tag's eight bytes |
| `CallbackData.ValuesAreWritten` | callback_data.go:118-139 | strings are written as they are, numbers in decimal, booleans as true and false |
| `CallbackData.UnpackUndoesPack` | callback_data.go:111-238 | whatever is packed is unpacked to the same values, signed or not, for every schema of string, bool and integer fields |
| `CallbackData.PackIsInjective` | callback_data.go:111-153 | different payloads have different data |
| `CallbackData.VerifiedExactly` | callback_data.go:180-196 | a signing schema accepts a payload exactly when some encoding of that payload's own tag follows it |
| `CallbackData.AcceptsExactly` | callback_data.go:251-260 | Filter accepts exactly the data whose first part is the prefix |
| `CallbackData.WhatUnpacksIsAccepted` | callback_data.go:251-260 | data that a schema can unpack always passes its own Filter |
| `CallbackData.ForeignDataIsRejected` | callback_data.go:197-200 | what one schema packs, no schema with another prefix accepts or unpacks, whatever the two schemas' signing |
| `CallbackReading.NarrowFieldsWrap` | callback_data.go:223-228 | every number that fits 64 bits is read into an unsigned field modulo the field's size, and a larger one is refused |
| `CallbackReading.UnsignedFieldsHoldTheirBits` | callback_data.go:223-228 | fields of 8, 16, 32 and 64 unsigned bits keep a number modulo 2 to that power |
| `CallbackReading.NarrowSignedFieldsWrap` | callback_data.go:229-234 | every number that fits 64 bits is read into a signed field as the value in the field's range that is equal modulo its size, and any other is refused |
| `CallbackReading.FlagSpellings` | callback_data.go:211-216 | a boolean field reads exactly six spellings of true and six of false |
| `CallbackReading.PartExactly` | callback_data.go:205-236 | a part that can be read is its value's own text if and only if it is canonical: plain digits in range, a minus only before a positive number, true or false; and the value read fits its field |
| `CallbackReading.RepacksExactly` | callback_data.go:111-238 | data that unpacks gives values that Pack accepts but for their length, and packing them gives the same data back if and only if every part is canonical and the tag is the canonical base64url text |
| `CallbackReading.WideNumberDoesNotRepack` | callback_data.go:223-228 | under the prefix "p" and one field of 8 unsigned bits, "p:300" unpacks to 44, which packs to "p:44" |
| `CallbackReading.SplitParts` | callback_data.go:142-197 | joining undoes splitting, and no part contains the separator |
| `RichText.RenderRichText` | richmessage_builder.go:399-497 | appends the HTML of the tree and nothing else |
| `RichText.WrapText` | richmessage_builder.go:383-397 | appends opening tag, inner HTML and closing tag |
| `RichText.RichTextPlainText` | richmessage_reader.go:84-150 | the words of the tree |
| `RichTextTheorems.HtmlIsRead` | richmessage_builder.go:374-497 | when no expression contains <, a quote-aware reader cuts the HTML into exactly the tree's tags and characters, whatever follows |
| `RichTextFormatting.FormattingIsRead` | richmessage_builder.go:399-497 | for every tree whose expressions contain no <, a reader that knows what each tag and attribute of the format means reads from the HTML every character of the tree under exactly the spans around it, outermost first, and every span where it begins |
| `RichTextReadBack.HtmlReadsAsPlainText` | richmessage_reader.go:80-150 | for every tree without expressions, dropping the tags and undoing the escaping leaves exactly RichTextPlainText |
| `RichTextReadBack.HtmlReadsAsPlainTextExactly` | richmessage_builder.go:446-450 | for every tree it does so if and only if no expression contains < and none starts a character reference together with the text that follows it |
| `RichTextScan.UnreadableMathIsLost` | richmessage_builder.go:446-450 | an expression with a < in it, anywhere in any tree, keeps the plain text from being read back |
| `RichTextReadBack.MathReadsBackExactly` | richmessage_builder.go:446-450 | a single expression is read back if and only if it has no < and unescaping leaves it as it is |
| `RichTextTheorems.HtmlIsBalanced` | richmessage_builder.go:383-397 | when no expression contains <, every tag is closed, in order |
| `RichTextTheorems.AttributesReadBack` | richmessage_builder.go:374-381 | when no expression contains <, a reader gets every name and address back whole, in order, and no other attribute value |

## Left out

- Outer middleware, handler panics and what handlers do with a canceled context: handlers, filters and middleware are
  opaque functions of the context.
- RouterClass.Router.Dispatch: the outer middleware that the cited lines wrap around the routes, and concurrent first
  dispatches that race to freeze the same router; the runs of the graph are sequential.
- RouterScan.ScanExplained: a router included at two places keeps both places; update kinds are part of the opaque condition.
- Polling.QueuedOnceAndNoneSkipped: Run, its queue and its workers are steps on values rather than goroutines on a
  channel, and IDs are assumed to increase within a batch and not to fall below the offset, as the server promises;
  how long a retry waits is open. StopWorkers is called by Run only; null elements in the server's answer are left out.
- Broadcast.EveryChatOnce: the machine is on values; the pacer's answers, the length of a pause and each send's result
  are open, so its statements hold for all of them.
- KeyedMutex.WaitingIsNeverStuck: some step is enabled; which waiting thread gets the mutex next, and fairness, are open.
  A thread holds one lock at a time. In the source a handler can call HandleUpdate (`bot.go:717-726`) for the key that
  its own dispatch has locked (`bot.go:758`); it then waits for itself.
- Json.ImageIdempotent, StorageAgreement.Compare: JSON numbers are exact reals here and float64 in the source, so
  integers beyond 2^53 and the rounding of fractions are left out.
- RateLimit.RateIsBounded, Pacer.RateIsBounded: floating-point rounding and the truncation of a wait to whole
  nanoseconds; rates, tokens and times are real numbers.
- RateLimit.RateLimiter.constructor: the goroutine that evicts at intervals, and Close; evictions happen at arbitrary moments.
- Format.SplitTextWithEntities, EntitySegments.EntitySegments: invalid UTF-8 in the input and overflow of
  Offset + Length; text is Unicode scalars and offsets are unbounded integers.
- MemoryStorages.MemoryStorage.Get: expiry by TTL and lastAccess, and sharing of nested values by reference, which
  copyData is there to prevent; values have no identity here.
- RedisStorages.RedisStorage.UpdateData: network errors and expiry; every command on the server succeeds, and only data
  that cannot be marshalled fails. Nil and empty maps are one value here (Redis gives a stored nil map back as nil,
  memory as an empty map).
- Uploads.HoistUploads: reflection's types beyond the zero value of an unexported field, pointer cycles, maps (neither
  function looks into them) and a request's top-level file fields, which become parts under their own field names.
- CallbackData.UnpackUndoesPack: float64 fields, and HMAC-SHA256 itself, which is any function from payloads to eight bytes.
- CallbackData.Unpack: the values already set in the struct when a field fails to parse.
- RichTextTheorems.HtmlIsBalanced, RichTextTheorems.AttributesReadBack: trees with an expression that contains <, which can
  open or close any tag by itself.
- FormatEntities.Render: the node constructors (Bold, TextLink, Mention, …), each of which sets a kind and its own field.
- Broadcast's options and their defaults: the rate is the pacer's, and the number of workers is any.
- Rich-message blocks (lists, tables, media, and the limits on their number and depth): each is a fixed frame around rich text.
- HTTP, multipart encoding, retries, the webhook server, wizards, keyboards, internationalisation, health counters and
  the generated methods.
