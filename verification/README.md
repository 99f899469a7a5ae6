# A verified model of the aiomatrix core

This project models the parts of the Matrix bot library where ordering, expiry, quoting and
counting decide whether the bot behaves, and proves properties of them in Dafny 4.11.
`dafny verify dfyconfig.toml` checks everything.

JavaScript runs each segment between two awaits to completion, so a segment is one atomic step
here. Objects whose methods change their fields are classes; each of their methods is proved
against a function on a plain value, and the theorems are about those functions and about
transition systems built from them, over every interleaving of the steps. What the outside world
decides (the server's answers, crashes, clock readings, random numbers, failed writes) is an
argument, and the theorems hold for all of them.

- `DispatchQueue.dfy` — the scheduler with one running task per room and a global limit; `run` is a
  transition system over its synchronous segments.
- `EventDeduper.dfy` — the ring of seen events: an array behind a moving head refines a window.
- `SyncLoop.dfy` — the sync loop with its token file, bootstrap flag and poison counter, through
  crashes and restarts.
- `Delivery.dfy`, `LateDecryption.dfy` — what reaches `onRoomEvent`: bootstrap, cold-start cut-off,
  deduplication, and the queue of events that wait for a room key.
- `ShareCache.dfy`, `ShareHistory.dfy`, `Fingerprint.dfy` — when a message may skip sharing its room
  key, compared with a ledger of what was really shared and with the history of the run.
- `Text.dfy`, `Entities.dfy`, `Sanitizer.dfy`, `SanitizerLaws.dfy`, `SanitizerGrammar.dfy`,
  `SanitizerTheorems.dfy`, `SanitizerContent.dfy`, `SanitizerElements.dfy` — escaping, attribute decoding
  and the HTML sanitiser, character by character.
- `CommandArgs.dfy` — the argument tokeniser and quoting.
- `Router.dfy`, `Chain.dfy` — routers as a growing forest with preorder search and errors that bubble
  up, and the middleware chain.
- `Http.dfy` — the retry loop.
- `TokenStore.dfy`, `Callbacks.dfy`, `Queries.dfy` — stores whose entries expire, and the single-use
  tokens and mini-app queries that rest on them.
- `LruCache.dfy`, `Throttle.dfy` — the bounded cache and the throttle kept in it.
- `Outbox.dfy` — the persisted outbox and its flush.
- `AsyncLock.dfy` — the lock made of a promise chain, over the runtime's job queue.
- `Optional.dfy`, `Numbers.dfy` — what several of these share.

## What the proofs found

- **Sanitiser.** A self-closing tag that is not a void tag is printed as an open tag and never
  closed. Output is well nested, and sanitising is idempotent, exactly when no such tag is printed
  (`WellNestedExactly`, `IdempotentExactly`, with `SelfClosingExample`). Two passes always settle.
- **Deduper.** `forget` does not remove the key from the order, so a later eviction of that stale copy
  drops the key again. Over any calls, every answer is the promised one exactly when no call asks for a
  key that was recorded twice within the capacity and whose earlier copy has left
  (`ForgettingExactly`, with `ForgetBreaksPromise`).
- **Share cache.** A device-list change whose sync response is still under its locked part, or failed
  there, is missing from the share that stands, and messages go out under a key that a new device never
  got. After a failure the next share misses it as well: the user is not dirty, so nobody asks, until a
  response that names the user is folded in. A skipped share was made with every change of its peers
  exactly when none that it lacks is in flight or was lost (`SkipIsUpToDateExactly`,
  `ShareKnowsExactly`, `LostUntilNamedAgain`, with `NewDeviceMissed` and `NextShareMissesIt`).
- **Callback tokens.** A spent token's entry lasts for the life that its caller's `now` leaves the token,
  and at least a millisecond, from the store's clock on. A second call succeeds exactly when its look-up
  is past that and its own caller still reckons the token unexpired (`SecondCallExactly`). `revoke`
  overwrites a longer entry by the registry's own time to live, so a token issued for longer opens again
  (`AfterRevokeExactly`).
- **Mini-app queries.** Revoking a query twice does the same to it (`SecondRevokeExactly`).
- **Capability state.** It does not pass the deduper: such an event reaches the handler once per
  occurrence in the rooms that are reached, so at most once exactly when it occurs there at most once
  (`CapabilityCallsExactly`, with `CapabilityRepeats`).
- **Fetched events.** `getEvent` and `getMessages` queue what they cannot decrypt, and a recovered event
  is delivered without the cut-off or the deduper. The cut-off and the count of calls hold for whatever
  follows a fetch exactly when it does not queue an event from before the cut-off, or one with no record
  left to be delivered for (`FetchBreaksCutOffExactly`, `FetchBreaksCountExactly`, `RecentExactly`,
  `BalancedExactly`, with `OldEventIsDelivered` and `FetchedFirstIsDeliveredTwice`).
- **Outbox.** When the send works and the removal fails, the entry stays, with one attempt more if that can
  be written. It is sent again if a later flush can send it before its attempts run out, and reported lost
  although it was sent if a flush finds them used up and can remove it (`SentAgainExactly`,
  `SentYetDroppedExactly`, with `SentAgainOrDropped`). While the store fails on the first entry, that
  entry is sent again without bound and no other is reached (`FailingHeadBlocks`); an entry leaves exactly
  when a flush that gets to it can remove it, sent or with no attempts left (`LeavesExactly`).

## Model

| member | source | states |
|---|---|---|
| Dispatch.DispatchQueue.constructor | src/dispatch-queue.ts:20-27 | a limit below one counts as one; the queue starts empty and open |
| Dispatch.DispatchQueue.Acquire | src/dispatch-queue.ts:77-97 | refused when closed and then nothing changes; otherwise granted exactly when the room is idle and the limit leaves a slot, and queued last if not |
| Dispatch.DispatchQueue.WakeOne | src/dispatch-queue.ts:105-117 | resumes the first waiter that may run and, on the first pass, is of another room; nobody when there is none |
| Dispatch.DispatchQueue.WakeNext | src/dispatch-queue.ts:118-120 | one round: another room first, then the freed one |
| Dispatch.DispatchQueue.Release | src/dispatch-queue.ts:99-121 | the slot is given back and waiters are resumed, in order, until none can run; a closed queue resumes nobody |
| Dispatch.DispatchQueue.Close | src/dispatch-queue.ts:45-51 | the first close hands back every waiter in order; later ones none |
| Dispatch.ReleaseWakesAtMostOne | src/dispatch-queue.ts:99-121 | from a valid queue a release resumes at most one waiter: the first of an idle room, else the first of the freed room |
| Dispatch.StepInv | src/dispatch-queue.ts:53-66 | every segment of `run` and `close`, in any order, keeps the invariant |
| Dispatch.NoLostWakeUp | src/dispatch-queue.ts:45-121 | in every reachable state no waiter could run, the counter is the number of busy rooms and within the limit, a release finds a positive counter, a closed queue has no waiters, the limit is the one given or one, and the queue is closed exactly when `close` was called |
| Dispatch.ClosedForGood | src/dispatch-queue.ts:45-66 | once closed, whatever happens, no call is taken up and no task begins, not even one that had its slot |
| Dispatch.RoomFifo | src/dispatch-queue.ts:77-121 | the tasks of one room begin in the order of their `run` calls, and on an open queue none is lost |
| Dispatch.FinishAdvances | src/dispatch-queue.ts:99-121 | a completion gives the idle room's oldest waiter its slot or moves it one place up |
| Dispatch.BoundedBypass | src/dispatch-queue.ts:86-121 | once a room is idle, its oldest waiter with i waiters ahead has its slot after i + 1 completions, whatever arrives meanwhile |
| Dedup.EventDeduper.constructor | src/dispatch-queue.ts:130-138 | a capacity below one counts as one; nothing is remembered |
| Dedup.EventDeduper.Seen | src/dispatch-queue.ts:141-157 | answers like the window of the last `capacity` recorded keys; the array holds at most twice the capacity and all splices so far touched at most two elements per call |
| Dedup.EventDeduper.Forget | src/dispatch-queue.ts:160-162 | the key is no longer remembered; the order is untouched |
| Dedup.AnswersLikeLastCapacity | src/dispatch-queue.ts:141-157 | without `forget`, a key is reported seen exactly when it is among the last `capacity` newly recorded keys |
| Dedup.RecordsSpaced | src/dispatch-queue.ts:141-157 | two records of one key are more than `capacity` records apart |
| Dedup.ForgettingExactly | src/dispatch-queue.ts:141-162 | over any calls of `seen` and `forget` on a new deduper, every answer is "among the last `capacity` records and not forgotten since" exactly when no call asks for a live key recorded again within `capacity` records of its own earlier record whose earlier copy has left |
| Dedup.OpAgrees | src/dispatch-queue.ts:141-162 | after every call the remembered keys are exactly those in the last `capacity` records, not forgotten since, and without such a departed copy |
| Dedup.ForgetBreaksPromise | src/dispatch-queue.ts:141-162 | capacity two: see a, forget a, see a, see b, see a breaks the promise, for any two keys |
| Dedup.ForgetExample | src/dispatch-queue.ts:141-162 | capacity two: see a, forget a, see a, see b, and a is taken for new again |
| Sync.SyncLoop.constructor | src/sync.ts:218-231 | the backoff bounds are at least one and in order; the loop is not running |
| Sync.SyncLoop.Pass | src/sync.ts:276-380 | one pass of the loop does what `Play` says, in memory, in the file and in what it shows |
| Sync.SyncLoop.Loop | src/sync.ts:270-383 | the whole loop plays the rounds until it stops or the process dies |
| Sync.TokenDiscipline | src/sync.ts:270-383 | over any life with crashes and restarts: a start takes up what the file holds; filters are uploaded only when there is none; polls carry the token and the filter in memory; calls are on the answer to that token, and are bootstrap calls exactly when there is no token or neither the file nor a move says that the bootstrap is done; moves go to that answer after a call that succeeded or four that failed; writes follow moves; sleeps double up to the maximum; the file holds what was written last, a token only under its user's name |
| Sync.FileIsBehind | src/sync.ts:361-368 | the token in the file is one that memory held in the present incarnation |
| Sync.FreshLifeBootstraps | src/sync.ts:66-83 | in a life that begins without a file, or with another user's, a call is a bootstrap call exactly when the token has neither moved since the last start nor been written after a move |
| Sync.PassExactly | src/sync.ts:276-380 | which events one pass shows, and whether the loop goes on, stops or stops for good, from the filter and the failures in memory and what the outside decided |
| Sync.PoisonedBatchIsSkipped | src/sync.ts:326-359 | whatever happens between them, four answered polls of a loop that does not stop move the token, and so do any four handler calls |
| Delivery.MatrixClient.QueuePendingDecrypt | src/crypto.ts:831-854 | an event is queued once per key, with its attempts counted; the oldest leaves a full queue |
| Delivery.MatrixClient.EmitTimelineEvent | src/client.ts:1267-1320 | skips seen events and records new ones, drops those dated before the cut-off, and delivers the rest or queues them for a key; says whether the handler threw |
| Delivery.MatrixClient.RetryPendingDecrypts | src/crypto.ts:856-889 | each pending event, in order, is dropped when too old or tried too often, delivered when its key came, and counted otherwise |
| Delivery.MatrixClient.HandleJoinedRoom | src/client.ts:1170-1243 | capability state first, then the timeline in order, which a bootstrap batch skips; a throwing handler or failed key tracking cuts it short |
| Delivery.MatrixClient.HandleSync | src/client.ts:1091-1149 | notes the bootstrap instant once, retries pending events, then takes the rooms in order; a failure before either, or a throwing room, ends it there |
| Delivery.MatrixClient.Fetch | src/client.ts:639-696 | an event that cannot be decrypted joins the queue, one that can leaves it |
| Delivery.SyncIsPlay | src/client.ts:1091-1320 | a batch is a series of the moves that the sessions below are made of: noting its instant, retrying, showing a state, taking up an event |
| Delivery.BootstrapIsSilent | src/client.ts:1230-1236 | at any point of any session a bootstrap batch delivers nothing from its timelines |
| Delivery.NothingBeforeColdStart | src/client.ts:1095-1097 | after a bootstrap start, with fetches at any point, nothing dated before its instant is delivered from a timeline or by late decryption, if no fetch queues an event from before it |
| Delivery.RecentExactly | src/client.ts:1280-1290 | over every session, with fetches at any point, nothing before the cut-off is delivered or waits all along exactly when no fetch queues such an event |
| Delivery.FetchBreaksCutOffExactly | src/client.ts:190-196 | whatever batch follows a fetch, nothing before the cut-off is delivered exactly when the fetch does not queue such an event |
| Delivery.OldEventIsDelivered | src/client.ts:664-696 | after a bootstrap start an old event is fetched without its key, the key comes, and the handler gets it |
| Delivery.AtMostOncePerWindow | src/client.ts:1267-1315 | calls for one event by timeline and late decryption together, when no fetch overdraws: at most one per 2049 newly recorded keys, rounded up; at most one while no more were recorded |
| Delivery.BalancedExactly | src/crypto.ts:831-889 | over every session, with fetches at any point, calls and waiting events are covered by records all along exactly when no fetch queues an event that has none left |
| Delivery.FetchBreaksCountExactly | src/client.ts:190-196 | whatever batch follows a fetch, no event has more calls than records exactly when the fetch does not overdraw |
| Delivery.FetchedFirstIsDeliveredTwice | src/client.ts:639-655 | an event fetched before its batch, whose key comes with the batch, is delivered late and again from the timeline |
| Delivery.NewBatchIsDelivered | src/client.ts:1147-1315 | new events of a batch are delivered in order over all its rooms, once each when due, up to the one on which the handler throws or the room that fails; those are recorded and the rest stay new |
| Delivery.OfferedAgain | src/client.ts:1147-1315 | a batch offered any number of times, with fetches in between: each event reached is taken up in one pass, in order, from where the pass before stopped; once a pass goes through, all are |
| Delivery.NoneTwice | src/client.ts:1276-1278 | no event of such a batch is delivered from the timeline twice, whatever the passes were |
| LateDecryption.WaitingFate | src/crypto.ts:856-889 | over any batches and fetches that do not meet a waiting event and leave the queue room: it is delivered late, once, exactly when its key comes while it is young enough and has attempts left; it leaves undelivered exactly when a retry finds it too old or tried too often first; else it waits on with its attempts counted |
| LateDecryption.NewEventIsMet | src/client.ts:1293-1315 | a new event of a batch that goes through waits from then on when it is recent and unreadable, and is called once and does not wait when due |
| Delivery.CapabilityCallsExactly | src/client.ts:1204-1228 | over every session a capability state event reaches the handler once per occurrence in the rooms that are reached |
| Delivery.CapabilityRepeats | src/client.ts:1204-1228 | the same event in two batches is shown twice |
| ShareCache.FilterShareRecipients | src/crypto-policy.ts:71-74 | exactly the members other than the bot itself, when the bot is known |
| ShareCache.CryptoEngine.ReceiveSync | src/crypto.ts:550-572 | after the locked part, changed and departed users are dirty, and any of either drops every cached share; when the locked part failed nothing happens |
| ShareCache.CryptoEngine.ShareIsFresh | src/crypto.ts:616-626 | the six tests, in order; a look-up makes the room the most recently used |
| ShareCache.CryptoEngine.EnsureFast | src/crypto.ts:634-640 | a fresh share is charged one message and sharing is skipped |
| ShareCache.CryptoEngine.StaleUsers | src/crypto.ts:656-659 | the peers asked for again: all when every message rotates, else the dirty ones |
| ShareCache.CryptoEngine.Refreshed | src/crypto.ts:660-672 | the users asked for are clean again |
| ShareCache.CryptoEngine.Finish | src/crypto.ts:729-752 | the share is remembered, unless every key was withheld, which forgets it |
| ShareCache.StepInv | src/crypto.ts:550-752 | every segment, with responses arriving, being folded in and failing at any time, keeps cache and ledger in agreement |
| ShareCache.SkipsExactlyWhenShareStands | src/crypto.ts:616-640 | over every run, sharing is skipped exactly when the peers are those last shared with and that share has messages and time left; then no peer is dirty, and the share is used at most max(1, rotationPeriodMessages) times |
| ShareHistory.SkipsExactlyByHistory | src/crypto.ts:550-752 | over every run with no more rooms than the cache holds, from the events alone: a message skips sharing exactly when a share of its room was completed and neither replaced, withheld, dropped by a call nor by a response with changes since, messages do not rotate one by one, its peers are those of that share, and that share has messages left, counting those that skipped since, and time |
| ShareHistory.DirtyExactly | src/crypto.ts:562-672 | over every run, a user is dirty exactly when a response that names the user was folded in and no share with the user has asked for its peers since |
| ShareCache.SkipIsUpToDateExactly | src/crypto.ts:550-572 | over every run, a skipped share was made with every device-list change of its peers that has arrived exactly when none that it was made without is in flight or was lost with its response |
| ShareCache.ChangeInFlight | src/crypto.ts:550-572 | a response with changes leaves a share standing at its arrival and when its locked part fails, out of date exactly when it names a peer or the share was so before; folding it in ends the share |
| ShareCache.ShareKnowsExactly | src/crypto.ts:656-672 | a share made now knows a change of a peer exactly when it was folded in, or the peer was asked for since it arrived, or the peer is dirty or every message rotates |
| ShareCache.LostUntilNamedAgain | src/crypto.ts:550-672 | without rotation at every message, a change lost with its response is missing from every later share with its user, whatever happens, until a response that names the user is folded in |
| ShareCache.NewDeviceMissed | src/crypto.ts:550-572 | the key shared with a peer, its new device arriving, and a message skipping while the response is in flight and after it failed |
| ShareCache.NextShareMissesIt | src/crypto.ts:656-672 | after any run: the response with a clean peer's new device fails, the next share asks nobody and lacks it, and messages skip |
| Fingerprint.Compute | src/util.ts:210-217 | the digest of the sorted, length-prefixed names |
| Fingerprint.EncodeInjective | src/util.ts:213-215 | two lists of names with the same bytes are the same list: the frames are uniquely decodable |
| Fingerprint.SortedFacts | src/util.ts:211-211 | sorting gives a strictly ascending list with the same members |
| Fingerprint.FingerprintInjective | src/util.ts:204-217 | two member lists have the same fingerprint exactly when they are equal as sets |
| Entities.DecodeUndoesEscape | src/html.ts:156-166 | decoding an escaped string gives the string, trimmed, for every string and through all seven passes |
| Entities.EscapedIsInert | src/util.ts:195-202 | escaped text has no angle bracket or quote |
| Entities.DecodedIsStable | src/html.ts:156-167 | a decoded value survives another round |
| Entities.NumericReferenceDecodes | src/html.ts:156-159 | a decimal or hexadecimal reference to any code point, with its semicolon or before what does not go on with it, becomes its character, or nothing when there is none |
| Entities.NamedReferenceDecodes | src/html.ts:160-164 | a named reference in any mixture of cases becomes its character, and any other character is copied |
| Sanitizer.Tokenize | src/html.ts:97-130 | the scan with two positions gives the tokens of the recursive definition |
| Sanitizer.Filter | src/html.ts:205-256 | one token against the stack, the output and the suppression counter |
| Sanitizer.CloseDownTo | src/html.ts:246-258 | closes every tag above a stack height, innermost first |
| Sanitizer.SanitizeMatrixHtml | src/html.ts:197-264 | the whole sanitiser, with its cut at `maxLength` |
| SanitizerGrammar.TagIsRead | src/html.ts:97-130 | a tag as the expression writes it, with quoted parts and in any case, is read whole, whatever follows it |
| SanitizerGrammar.ReadIsTag | src/html.ts:97 | whatever is read as a tag is written so |
| SanitizerGrammar.NextTag | src/html.ts:99-130 | the tokens of a string are the text before its leftmost tag, that tag, and the tokens of the rest |
| SanitizerGrammar.FieldIsRead | src/html.ts:130 | an attribute as the expression writes it, bare or in either quotes, with space around its equals sign, is read whole |
| SanitizerGrammar.ReadIsField | src/html.ts:130 | whatever is read as an attribute is written so |
| SanitizerGrammar.NextAttribute | src/html.ts:134-154 | the attributes of a tag are the leftmost one, its name in lower case and its value decoded, and those of the rest |
| SanitizerLaws.ScanUndoesShow | src/html.ts:132-154 | scanning printed attributes gives the attributes back |
| SanitizerLaws.AttributesStable | src/html.ts:132-154 | sanitising attributes again changes nothing, and each one left is permitted |
| SanitizerLaws.TextIsCleaned | src/html.ts:267-272 | escaped text has no angle brackets, and every ampersand begins a reference |
| SanitizerGrammar.TextEscapedExactly | src/html.ts:267-272 | an ampersand of a text is kept exactly when a decimal, hexadecimal or named reference follows it; every other one and every angle bracket is escaped |
| SanitizerLaws.EscapeKeepsClean | src/html.ts:267-272 | escaping leaves such text alone |
| SanitizerTheorems.TokensOfPrinted | src/html.ts:97-130 | reading printed pieces gives them back as tokens |
| SanitizerContent.InsideIsSuppressed | src/html.ts:205-232 | content is discarded exactly inside a script, style, iframe or object element, same-name nesting counted |
| SanitizerContent.TextSurvivesExactly | src/html.ts:197-264 | whatever the input, the text of the output is exactly the escaped text of the input outside such elements, in order; text inside unknown tags is kept |
| SanitizerContent.NestedMarkupSurvives | src/html.ts:233-258 | well-nested input of allowed tags within the depth keeps every tag and text in place |
| SanitizerContent.AttributesSurviveExactly | src/html.ts:132-154 | the attributes of a printed tag are exactly the permitted ones among its raw attributes |
| SanitizerElements.StackIsOpen | src/html.ts:233-256 | the stack holds, in order, exactly the elements that are open: admitted, and with no closing tag since of their own name, or of an enclosing element's name, that no element opened after that one takes |
| SanitizerElements.OutputExactly | src/html.ts:197-264 | the whole output for every input, from its tokens: the escaped text outside dropped elements, the admitted opening tags with their permitted attributes, for each closing tag the end tags of the elements it ends, innermost first, and at the end those of all still open |
| SanitizerTheorems.WellNestedExactly | src/html.ts:197-264 | the output, read again, is a well-nested sequence of allowed tags within `maxDepth`, exactly when no tag was left open |
| SanitizerTheorems.OnlyPermittedMarkup | src/html.ts:205-245 | whatever the input, every tag of the output is allowed and every attribute permitted |
| SanitizerTheorems.IdempotentExactly | src/html.ts:197-264 | sanitising twice is sanitising once, exactly when no tag was left open |
| SanitizerTheorems.TwoPassesSettle | src/html.ts:197-264 | a third pass never changes anything |
| SanitizerTheorems.NoSelfClosingSuffices | src/html.ts:233-240 | no tag is left open when the input has no self-closing tag that is not void |
| SanitizerTheorems.SelfClosingExample | src/html.ts:237-238 | a self-closing `b` is printed open, and a second pass closes it |
| CommandArgs.TokenizeArgs | src/command-args.ts:87-103 | the loop of matches gives the tokens of the recursive definition |
| CommandArgs.TokenizeUndoesWriting | src/command-args.ts:87-103 | any mix of bare and quoted arguments, with any blanks between them, tokenises back to the arguments |
| CommandArgs.TokenizeUndoesQuoting | src/command-args.ts:87-103 | double-quoting every string of a list, with quotes and backslashes escaped, and joining with spaces tokenises back to the list |
| CommandArgs.ClosesExactly | src/command-args.ts:89 | a quoted run ends exactly with a quote that follows a body of plain and escaped characters |
| CommandArgs.UnclosedIsBare | src/command-args.ts:89 | a quote that is never closed is an ordinary character of the run up to the next blank |
| Routers.Router.Include | src/router.ts:204-226 | refuses itself, an attached router and an ancestor, in that order, and changes nothing then; otherwise hangs the router last below this one and keeps the forest |
| Routers.Router.IsBelow | src/router.ts:215-219 | the walk up the parents finds a root exactly when this router is below it |
| Routers.Router.ResolveHere | src/router.ts:262-271 | the first own route that matches type and filters |
| Routers.Router.Resolve | src/router.ts:257-280 | the first match in preorder over enabled subtrees, with the middleware from the root down to the owner |
| Routers.Router.HandleError | src/router.ts:283-290 | handled exactly when some handler on the way from this router to the top handles it; they are asked in that order and none after the one that did |
| Routers.WayIsAbove | src/router.ts:283-290 | the way to the top passes exactly the routers that this one is at or below, each once, child before parent |
| Routers.CaughtExactly | src/router.ts:283-290 | an error is caught exactly when some router that this one is at or below has a handler for it |
| Routers.Passes | src/router.ts:293-302 | a route's filters all pass |
| Routers.IncludeKeepsForest | src/router.ts:204-226 | an accepted include keeps parents, children and subtrees a forest |
| Routers.ForestForever | src/router.ts:204-226 | from routers attached nowhere, whatever includes are tried, in whatever order, the links stay a forest |
| Routers.AcceptedExactly | src/router.ts:204-226 | an include is accepted exactly when the links it would make are a forest, and each refusal says which of the three reasons against it comes first |
| Routers.ReachedThroughInclude | src/router.ts:257-279 | an included router's subtree is reached from above exactly as it was from itself, if the includer is reached and the include's filter passes, with the middleware down to the includer first |
| Routers.ThroughChild | src/router.ts:261-279 | the middleware found by walking up is that of the parent followed by that of the child's own path |
| Routers.VisitsOnlyReached | src/router.ts:272-279 | the search looks only at routers reached through passing include filters |
| Routers.VisitsAllReached | src/router.ts:272-279 | and at all of them |
| Routers.UnhandledExactly | src/router.ts:244-246 | an update is unhandled exactly when no router so reached has a matching route |
| Chain.Dispatcher.Dispatch | src/router.ts:310-323 | an index entered before is refused; otherwise the layers from it on run as an onion |
| Chain.RunChain | src/router.ts:305-325 | the outcome of the onion; every layer is entered at most once, from the outside in, and the handler exactly when every middleware calls `next()` |
| Chain.TransparentLayers | src/router.ts:305-325 | layers that call `next()` once and pass its outcome on do not change the outcome |
| Chain.FirstStopDecides | src/router.ts:305-325 | behind such layers, the first that does not call `next()` decides the outcome |
| Http.RetryDelayFor | src/http.ts:445-477 | a delay only for a rate limit or an idempotent request, never above max(90 s, maxRetryDelayMs), and never below an honoured Retry-After |
| Http.MatrixHttp.Request | src/http.ts:255-334 | the loop makes exactly the attempts, refreshes and sleeps of the recursive definition and ends with its outcome and token |
| Http.CallIsBounded | src/http.ts:255-334 | at most budget + 2 attempts, one refresh and budget sleeps, together at most budget times the longest delay |
| Http.GoesOnExactly | src/http.ts:255-334 | a call goes on after every reply but the last, by status, kind, idempotence, budget and refresh; each attempt has the token of the time; the outcome is that of the last reply; each sleep is the rate limit's wait or the base doubled and jittered up to the maximum |
| Http.SucceedsInTime | src/http.ts:255-334 | a call succeeds when a success comes within the budget after failures that may be replayed |
| Http.DoubledIsPower | src/http.ts:470-477 | the base wait doubles at every attempt |
| Http.EndsAsLastReplySays | src/http.ts:301-326 | the value or the kind of error a call ends with is what its last attempt met |
| Http.AppliedAtMostOnce | src/http.ts:303-328 | a request that is not idempotent is applied at most once, and only by its last attempt, if the server applies nothing it rejects with a rate limit or an auth failure |
| TokenStore.TtlMap.Get | src/token-store.ts:40-48 | a value until it expires; an expired key is dropped when looked up |
| TokenStore.TtlMap.Set | src/token-store.ts:50-59 | expired keys leave, then the oldest until there is room, then the key is set |
| TokenStore.TtlMap.Prune | src/token-store.ts:79-83 | every expired key leaves |
| TokenStore.TtlMap.TryAdd | src/token-store.ts:61-65 | adds the key exactly when it is not held |
| TokenStore.PrunedValues | src/token-store.ts:79-83 | exactly the expired keys leave |
| TokenStore.SetWithRoom | src/token-store.ts:50-59 | with room, setting a key drops only what has expired |
| TokenStore.SetEvictsOldest | src/token-store.ts:50-59 | setting a key drops what has expired and then just as many of the oldest as make room |
| TokenStore.SetGuards | src/token-store.ts:50-59 | with room, setting a key ends another key's protection never, and its own exactly when it is set to end too soon |
| Callbacks.SignedCallbackRegistry.Issue | src/keyboards.ts:634-655 | the token carries what it was issued with, and its alias leads to it both ways |
| Callbacks.SignedCallbackRegistry.Canonicalize | src/keyboards.ts:662-671 | an alias leads to its signed token, a hit in the store is remembered |
| Callbacks.SignedCallbackRegistry.Peek | src/keyboards.ts:713-731 | no record for a spent, forged or expired token |
| Callbacks.SignedCallbackRegistry.Resolve | src/keyboards.ts:733-752 | the record, with a single-use token spent for the rest of its life |
| Callbacks.SignedCallbackRegistry.Revoke | src/keyboards.ts:787-803 | the token is spent for the registry's time to live and its alias forgotten |
| Callbacks.ResolvesExactly | src/keyboards.ts:713-752 | a call gives a record exactly when its name leads to a signed token, unexpired for the caller, for this user, and not spent |
| Callbacks.SecondCallExactly | src/keyboards.ts:742-750 | after a use, a second call by any name succeeds exactly when the entry has run out by its look-up while its caller still reckons the token unexpired |
| Callbacks.AfterRevokeExactly | src/keyboards.ts:787-789 | a revoked token resolves again exactly from the end of the registry's time to live until its own expiry |
| Callbacks.AtMostOnce | src/keyboards.ts:662-752 | a single-use token resolves at most once in a run, under all its names together |
| Callbacks.IssuedResolves | src/keyboards.ts:634-655 | a fresh token resolves to what it was issued with, by token or alias |
| Callbacks.NamedForever | src/keyboards.ts:634-803 | over any events, memory and store lead only from a token's own alias to it and back |
| Callbacks.IssuedThenRevoked | src/keyboards.ts:787-803 | once a token is issued and then revoked, however much later, its alias leads nowhere |
| Queries.SignedMiniAppQueryRegistry.Peek | src/miniapp/query.ts:188-203 | the payload of an open query, and whether it was answered |
| Queries.SignedMiniAppQueryRegistry.Claim | src/miniapp/query.ts:205-223 | succeeds for an open, unanswered query of the user, and records the claim |
| Queries.SignedMiniAppQueryRegistry.Release | src/miniapp/query.ts:242-244 | the claim is gone |
| Queries.SignedMiniAppQueryRegistry.Revoke | src/miniapp/query.ts:246-251 | revoked and claimed, for as long as an open query lives and else for the registry's time to live |
| Queries.ClaimsExactly | src/miniapp/query.ts:188-223 | a claim succeeds exactly for a genuine, unexpired query of the user, neither revoked nor claimed |
| Queries.SecondClaimExactly | src/miniapp/query.ts:209-223 | after a claim, the next succeeds exactly when the entry has run out by its look-up although its expiry test still passed |
| Queries.SecondRevokeExactly | src/miniapp/query.ts:246-251 | after a second revocation a query can be claimed exactly from the end of the registry's time to live until its own expiry |
| Queries.ReleaseBetweenClaims | src/miniapp/query.ts:188-244 | between two successful claims of a query there is a release |
| Queries.ReleaseReopens | src/miniapp/query.ts:242-244 | a released query can be claimed exactly while it is open, by its user |
| Lru.LruCache.Get | src/util.ts:149-155 | the value, and the key becomes the newest |
| Lru.LruCache.Set | src/util.ts:157-165 | the key becomes the newest; the oldest leaves past the capacity |
| Lru.LruCache.Delete | src/util.ts:167-169 | the key leaves |
| Lru.SetKeeps | src/util.ts:157-165 | the only other key a set can take away is the oldest, when the cache was full of other keys |
| Lru.FewKeysNoEviction | src/util.ts:157-165 | while no more distinct keys than the capacity are in play, nothing is evicted |
| Throttle.Throttle.Handle | src/middleware.ts:48-67 | the verdict and the record, a new window set and an open one counted in place |
| Throttle.WindowExactly | src/middleware.ts:48-67 | in a window, counted from the update that opens it, the first `limit` pass, the next is told how long the window lasts, and the others are dropped |
| Throttle.AtMostTheLimitPerWindow | src/middleware.ts:52-60 | at most `limit` updates from the one that opens a window, itself included, to its end |
| Throttle.AtMostTwiceTheLimit | src/middleware.ts:48-67 | at most twice the limit in any closed interval as long as the window |
| Throttle.RetryHintExact | src/middleware.ts:59-65 | one notice per window; the wait it names is exact: updates are dropped in silence until it is over and the first one from then on passes |
| Throttle.KeysDoNotInterfere | src/middleware.ts:46-56 | while no more keys are in play than the cache holds, each key sees a throttle of its own |
| Throttle.FloodIsBounded | src/middleware.ts:42-68 | the bound of twice the limit for each key of a mixed flood |
| Outbox.OutboxStore.Enqueue | src/outbox.ts:43-56 | the entry goes last, with no attempts |
| Outbox.OutboxStore.BumpAttempt | src/outbox.ts:66-75 | entries with the id have one attempt more and the error's first 500 characters |
| Outbox.FlushEntry | src/outbox.ts:97-119 | one entry: dropped, sent and removed, kept with one attempt more, or the store failed |
| Outbox.FlushOutbox | src/outbox.ts:93-122 | every snapshot entry settles in place, in order, and what arrived meanwhile stays behind; sent, dropped and kept add up to the snapshot; a store failure stops the flush where it happens |
| Outbox.RemovedHits | src/outbox.ts:62-64 | removing by an id that one entry has takes out exactly that entry |
| Outbox.GoneOrBumped | src/outbox.ts:97-119 | any flush takes an entry out or keeps it with one attempt more, and says which; the entry on which the store fails and those behind it stay as they are |
| Outbox.LeavesInTime | src/outbox.ts:93-122 | every entry leaves within as many flushes as it has attempts left, and one, not counting those in which the store fails on it or before it |
| Outbox.LeavesExactly | src/outbox.ts:97-112 | over any flushes, an entry leaves exactly when one that gets to it can remove it and has sent it or finds its attempts used up |
| Outbox.StoryIs | src/outbox.ts:93-122 | from flush to flush an entry stays as it is when the store fails on it and gains an attempt when it is kept, until the flush in which it leaves |
| Outbox.SentAgainExactly | src/outbox.ts:103-112 | over any flushes, an entry is sent more than once exactly when one sends it without removing it and a later one, before its attempts run out, sends it |
| Outbox.SentYetDroppedExactly | src/outbox.ts:97-112 | over any flushes, an entry was sent and is then reported lost exactly when one sends it while its attempts last and one finds them used up and can remove it |
| Outbox.FailingHeadBlocks | src/outbox.ts:97-119 | while the store fails on the first entry, every flush that can send it does, no other entry is reached, and none leaves |
| Outbox.SentAgainOrDropped | src/outbox.ts:97-112 | one failed removal sends an entry twice, or, with one attempt only, sends it and reports it lost |
| AsyncLock.Lock.Run | src/util.ts:184-191 | the task goes behind the chain and the chain behind the task, with the reactions in their order of registration |
| AsyncLock.OneAtATimeInOrder | src/util.ts:180-192 | in every reachable state, a task starts only when every task before it is done and every caller that awaits one of those has gone on |
| AsyncLock.NeverStuck | src/util.ts:184-191 | in every reachable state, while a task waits and none runs, the first one waiting starts once the queued jobs and at most one more have run, whether or not earlier tasks failed |

## Left out

- Delivery.AtMostOncePerWindow: events without an id are not deduplicated by the source and are outside the bound; an event goes from the deduper to its handler in one move, so a fetch in between is the one just before it, which leaves the same state (`FetchDuringEvent`).
- ShareCache.SkipIsUpToDateExactly: a change counts as known when it was folded in or its user was asked for as stale after it arrived; the question the key machine puts for a user new to it, or repeats by itself after one that failed, is not counted. Tracked users, the key machine and the to-device sends are not modelled.
- Fingerprint.FingerprintInjective: SHA-256 is taken to be injective, and names are sorted by their bytes where the source sorts by UTF-16 code units; any fixed order gives the same result.
- Callbacks.AtMostOnce: assumes a clock that does not run backwards, room in the store of spent tokens, and calls that meet the conditions `SecondCallExactly` and `AfterRevokeExactly` show to be needed.
- Queries.ReleaseBetweenClaims: assumes the same of the clock and the store, no query that expires between two readings of one claim, and repeated revocations only of queries that live no longer than the registry's time to live.
- Callbacks.SignedCallbackRegistry.Peek: message ids bound to tokens and the answered flag are not part of the record; `bindMessage`, `markAnswered` and `revokeForMessage` only touch those.
- Http.MatrixHttp.Request: two requests that share one refresh in flight, telemetry and the transport itself are not modelled; a sleep cut short by an abort is counted in full.
- Routers.Router.Resolve: filters and handlers are pure tests; filters that throw or that include routers while a search runs are not modelled.
- Chain.RunChain: a middleware awaits each `next()`; one that starts two at once without awaiting is not modelled.
- AsyncLock.OneAtATimeInOrder: speaks of callers that await the result of `run` in the segment that calls it, as `receiveSync` does; one that does so later counts as not awaiting.
- Throttle.FloodIsBounded: with more keys in play than the cache holds, an evicted key starts a new window, as in the source.
- Outbox.FlushOutbox: ids are distinct and one flush runs at a time; a process that dies in a flush is a store that fails from there on; the file format and `txnId`, by which a server may drop a second send, are not modelled.
- Sanitizer.SanitizeMatrixHtml: the regular expressions are scanners; the URL test is an arbitrary predicate of the options; lone surrogates cannot be written as Dafny characters, so a numeric reference to one decodes to nothing; a cut at `maxLength` can break the balance and no claim is made about it.
- Sync.SyncLoop.Loop: the two filters are one opaque id each, and the poll's timeout and the status callbacks are left out.
- Network, timers and the file system as such; the Olm machine, HMAC and random ids, which are ideal or arguments here.
- Memory registries of callbacks and mini-app queries: single map operations.
- Room cache, finite-state machine, file-backed TTL map, sending, login, session recovery, media, the command line, the bridge, widgets, polls, help text and capabilities: option merging, content building or single map updates.
- `DispatchQueue.drain`, `rateLimitBackoff` and asynchronous stores shared between processes.
