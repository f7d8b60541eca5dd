# A verified model of the explorer's stateful core

The repository is a Bitcoin explorer: a Go backend in front of a btcd node, a browser client that keeps one live
socket to it, and a bash watchdog for the node's sync. The pages and the HTTP routes are thin. What is hard to get
right is a dozen small stateful parts that are each meant to agree, over every run, with something much simpler.
This project models those parts and proves that they do. Where the code does not quite do what it is documented to
do, the project proves exactly when it does.

A component that updates fields in place is a class here, with a method for each of its operations; each method is
proved against a function of the old state, and lemmas then say what those functions achieve over whole runs. A
component that only computes is a function or a method with its loop. Concurrency is a set of interleaved steps.

- **Watch protocol.** `Hub` is the event loop's registry: clients, per-client watch sets and the reverse index.
  `Pushes` is what wakes the loop and how it sends.
  `Socket` is the browser's socket with its counted watches, its replay and its backoff. `WatchProtocol` puts one
  page, its wires and the hub together, under connection loss, refusals, slow-client drops and the traffic of
  everybody else, and proves that hub and page agree.
- **Rate limiter.** `Limiter`: token buckets refilled lazily and swept when idle.
- **Mempool.** `Volume` says what vbytes add up to on a multiset of entries. `Queue` builds the histogram, `Position`
  places a transaction in it and compares the server's estimate with the browser's, `Fees` derives the tiers
  (`Rounding` is Go's `math.Round`), `PeakWindow` keeps the recent peak, `MempoolCache` has the critical sections of
  the shared snapshot and `RefreshProtocol` their interleavings with fetches and marks.
- **Caches.** `Lru` is the list and map, `LruHistory` what they amount to over a history, `Recent` the ribbon window
  walked through that cache.
- **Background refresh.** `LiveRefresh` covers the live feeds and the sync probe, `Watchdog` one tick of the script
  and `WatchdogRuns` every run of it.
- **Sliding windows.** `Inflow` is the ring of buckets (and `PeakWindow` above the list of maxima).
- **Money, history and paging.** `TxInputs`, `TxOutputs` and `TxType` derive a transaction; `AddressHistory` and
  `Paging` derive an address's totals and rows and reassemble them in the browser; `Ribbon` merges mined blocks.

`Options` holds the option datatype, `Common` a few small shared functions.

Where code and documentation part ways, the model follows the code:

- "The amount is always positive" fails for a transaction in which an address receives more than it spends
  (`AddressHistory.AmountSign` says exactly when, `AddressHistory.AmountCanBeNegative` shows one).
- `approximate` is documented to mean that more history exists; it is also set when the history ends exactly at the
  cap (`AddressHistory.FlagUpWithNothingMissed`).
- Fee tiers are documented as clamped to the configured floors; rounding to one decimal can take a tier below its
  floor (`Fees.RawFloorsHoldIff` says for which floors it never does).
- A clean mempool snapshot need not be current: a fetch begun before a mark can land on a newer, clean one
  (`RefreshProtocol.BrokenExactlyByAStaleLanding`, `RefreshProtocol.StaleLandingHappens`).
- A page's watches and the hub's agree until the page asks for more than 32 at once, and that is the only way they
  come to differ (`WatchProtocol.StepInSync`; `WatchProtocol.PartsPastTheBound` has runs in which they do). A reopen
  is said never to lose a watch; it restores agreement whenever at most 32 are replayed
  (`WatchProtocol.ReopenRestores`).
- "Invalidate forces the next Snapshot call to refresh" fails when a fetch begun before the block lands after it, or
  is still young and refreshing a warm copy (`RefreshProtocol.BlockForces` says exactly when a read fetches,
  `RefreshProtocol.BlockNeedNotForce` has a run in which it does not).
- A stale page of rows is documented as dropped. One for the same address or block, left and viewed again, is
  appended and its cursor adopted; the view stays right exactly when that page starts where the rows end, or is an
  empty one that comes when everything is shown (`Paging.LatePageOfSameKey`; `Paging.LateEmptyPageCutsShort` has an
  empty one that ends a list early).

## Model

| member | source | states |
|---|---|---|
| `Hub.Hub.Register` | internal/api/hub.go:146-155 | A new connection is registered with no watches, or, when the house is full, shut down once and not registered; the reverse index stays exact. |
| `Hub.Hub.Command` | internal/api/hub.go:160-181 | A watch or unwatch changes only the asking client's set, is ignored past 32 watches or for an unregistered client, and keeps the reverse index exact. |
| `Hub.Hub.Drop` | internal/api/hub.go:244-253 | A departing client leaves the registry and every index set and is shut down once; a second drop does nothing. |
| `Hub.Hub.RemoveEverywhere` | internal/api/hub.go:248-251 | Taking a client out of the index txid by txid leaves the exact index of the remaining clients. |
| `Hub.Hub.RemoveWatcher` | internal/api/hub.go:255-262 | One watcher leaves one txid's set, and the txid leaves with its last watcher. |
| `Hub.RemovedIsIndex` | internal/api/hub.go:255-262 | Removing one watcher from an exact index gives the exact index of the registry without that watch, with no empty set left. |
| `Hub.AddedIsIndex` | internal/api/hub.go:170-176 | Adding one watcher to an exact index gives the exact index of the registry with that watch. |
| `Hub.Hub.Targets` | internal/api/hub.go:230-242 | The index sends a push for a txid to exactly the registered clients that watch it. |
| `Hub.Hub.IndexBounded` | internal/api/hub.go:160-181 | In every valid state the index has at most 32 keys per registered client. |
| `Hub.Hub.Stop` | internal/api/hub.go:140-144 | Cancelling shuts every registered client down once. |
| `Hub.RunSafe` | internal/api/hub.go:129-181 | Over every run: never more than the client bound, never more than 32 watches a client, no registered client ever shut down, and each one that left or was refused shut down exactly once. |
| `Hub.JoinsIffRoom` | internal/api/hub.go:146-155 | A new connection is let in if and only if there is no limit or room under it, with no watches; one turned away is shut down once more; nobody else notices. |
| `Hub.AskedIff` | internal/api/hub.go:160-181 | After a command a registered client watches the txid if and only if it asked to and watched it already or held fewer than 32; every other watch of it and of everybody else is as before. |
| `Hub.WsClient.TrySend` | internal/api/ws.go:55-66 | A live client's message is queued iff there is room, without ever waiting, and only a live client without room counts as slow. |
| `Pushes.Notifications.NotifyBlock` | internal/api/hub.go:111-117 | The newest block replaces one not yet handled. |
| `Pushes.Notifications.OnBlock` | internal/api/hub.go:183-192 | Handling a block pushes the mempool to everybody at once and clears the dirty flag. |
| `Pushes.Notifications.OnMempoolTick` | internal/api/hub.go:197-204 | A tick pushes the mempool to everybody iff the flag was dirty, and clears it. |
| `Pushes.Notifications.Send` | internal/api/hub.go:315-331 | A message reaches every live client with room; a live client without is put up for dropping unless that queue is full; nobody else is. |
| `Pushes.RunTells` | internal/api/hub.go:108-204 | In every interleaving: blocks are handled in order, none twice, only superseded ones skipped, and the notifier never has to wait; the flags tell exactly which mempool notifications are unseen or unpushed; throttled pushes never outnumber notifications. |
| `Pushes.EveryNoteIsPushed` | internal/api/hub.go:194-204 | From any state, one look at the channel and one tick push every mempool notification made so far. |
| `Socket.LiveSocket.Watch` | web/src/api/ws.ts:72-80 | A first callback for a txid sends one watch frame if the socket is open; later ones only join; a socket is started unless one exists or a reconnect is due. |
| `Socket.LiveSocket.Unwatch` | web/src/api/ws.ts:82-90 | The last callback to go takes the watch with it and sends one unwatch frame; any other sends nothing. |
| `Socket.LiveSocket.OnOpen` | web/src/api/ws.ts:103-111 | Opening resets the backoff and replays every watched txid exactly once. |
| `Socket.LiveSocket.OnClose` | web/src/api/ws.ts:131-142 | Closing forgets the socket, schedules a reconnect after the current backoff and doubles it up to the cap. |
| `Socket.LiveSocket.OnTimer` | web/src/api/ws.ts:137-140 | The reconnect timer clears itself and opens a new socket. |
| `Socket.BackoffDoubles` | web/src/api/ws.ts:105-141 | After k failures in a row since an open the wait is one second times two to the k, capped at thirty. |
| `WatchProtocol.StepShape` | web/src/api/ws.ts:93-145 | Every step keeps the page to one socket or one timer and never both, with nothing sent on a socket that is not open. |
| `WatchProtocol.FoldReplay` | web/src/api/ws.ts:108-110 | A replay onto a fresh connection registers only what it lists, and all of it up to the hub's bound of 32. |
| `WatchProtocol.StepSound` | web/src/api/ws.ts:72-153 | No step makes the hub end up, once it has handled the frames in flight, with a watch the page has given up. |
| `WatchProtocol.StepInSync` | internal/api/hub.go:160-181 | A step takes a page and hub out of step if and only if it takes the page past 32 watches. |
| `WatchProtocol.Agreement` | web/src/api/ws.ts:72-153 | Over every run of both sides: folding the frames in flight over the hub's watch set never gives more than the page watches, and gives exactly that in a run that never passes 32 watches. |
| `WatchProtocol.AgreementFrom` | web/src/api/ws.ts:72-153 | The same from any state of page and hub, not only from the start. |
| `WatchProtocol.ReopenRestores` | web/src/api/ws.ts:22-26 | After any past at all, a reopen with at most 32 watches puts page and hub in step, and they stay so until the page passes the bound again. |
| `WatchProtocol.PartsPastTheBound` | internal/api/hub.go:164-169 | A page that watches some txids and then connects agrees with the hub if and only if there are at most 32 of them. |
| `WatchProtocol.AgreementAtRest` | web/src/api/ws.ts:72-153 | With nothing in flight the hub watches for an open, registered page exactly what the page watches. |
| `WatchProtocol.HandlingSettles` | internal/api/ws.go:99-129 | From any state, handling the frames in flight in order leaves the hub with exactly the predicted watch set and touches no other client. |
| `WatchProtocol.KeepsTrying` | web/src/api/ws.ts:93-145 | In every run, from the first watch or subscription on, the page has a socket or a reconnect is due. |
| `WatchProtocol.Reconnects` | web/src/api/ws.ts:131-142 | A lost socket leads to a timer, and the timer to a new socket, dialling, with every watch kept. |
| `WatchProtocol.CallbacksAre` | web/src/api/ws.ts:72-91 | In every run the callbacks called for a txid are exactly those that asked for it and have not stopped since. |
| `Limiter.RateLimiter.constructor` | internal/api/middleware.go:92-101 | A limiter starts with no buckets, the per-second rate of its per-minute budget, and a burst that defaults to that budget. |
| `Limiter.RateLimiter.Sweep` | internal/api/middleware.go:131-138 | A sweep removes exactly the buckets idle for longer than the truncated refill time. |
| `Limiter.RateLimiter.Allow` | internal/api/middleware.go:103-127 | One request sweeps when due, refills the client's bucket up to the burst, and is admitted and charged iff the bucket covers its cost. |
| `Limiter.IdleIsFull` | internal/api/middleware.go:131-136 | Truncating the refill time to whole nanoseconds is harmless: a bucket idle for strictly longer is full. |
| `Limiter.SweepInvisible` | internal/api/middleware.go:129-138 | A sweep changes nobody's spendable tokens, at that moment or later. |
| `Limiter.SweepNeverChangesADecision` | internal/api/middleware.go:103-138 | On every trace of a nondecreasing clock the limiter decides every request as one that never sweeps. |
| `Limiter.OwnHistoryDecides` | internal/api/middleware.go:103-138 | A decision follows from the client's own earlier requests alone, whatever other clients do and whenever sweeps happen. |
| `Limiter.AdmissionBound` | internal/api/middleware.go:103-138 | For every client and every interval, the cost admitted is at most the burst plus the rate times the interval. |
| `Limiter.AdmissionInNumbers` | internal/api/middleware.go:103-127 | The same bound with the rate and the seconds written out. |
| `Limiter.AdmittedExactlyWhen` | internal/api/middleware.go:103-127 | In every run a request is admitted if and only if its cost is at most the burst and, with all the client was admitted since any earlier request, at most the burst plus the rate times the time since then. |
| `Limiter.AvailableIsRoom` | internal/api/middleware.go:112-126 | What a client can spend is exactly what the tightest stretch of its past leaves it. |
| `Limiter.ConfigTells` | internal/api/middleware.go:92-101 | Sixty times the rate is the budget per minute, and the burst is as given or else that budget. |
| `Limiter.Ledger` | internal/api/middleware.go:112-126 | What was admitted since a time plus what is left in the bucket never exceeds the burst plus what has been earned since. |
| `Limiter.MemoryIsBounded` | internal/api/middleware.go:73-76 | After every request there are buckets only for clients heard from within the refill time and one sweep interval, so memory is bounded by recent distinct clients. |
| `Limiter.MemoryInNumbers` | internal/api/middleware.go:90-138 | Every bucket's client was heard from within the time to refill and five minutes. |
| `Queue.Sort` | internal/explorer/queue.go:65-67 | The sort yields the same entries in rate order; nothing is assumed about ties. |
| `Queue.QueueFromSnapshot` | internal/explorer/queue.go:41-93 | The one walk puts into each band the vbytes of its rate range, totals them, gives the block's share of the total, and finds the rate at which one block has gone by. |
| `Queue.Walk` | internal/explorer/queue.go:72-92 | From any descending order of the entries the walk reaches that same histogram. |
| `Queue.Advance` | internal/explorer/queue.go:77-79 | The advancing index stops in the band the rate belongs to. |
| `Queue.CutoffIsRate` | internal/explorer/queue.go:85-88 | The entry that completes the first block has the rate at or above which a block sits and strictly above which less than a block does. |
| `Volume.BandOfIs` | internal/explorer/queue.go:76-80 | A rate belongs to exactly one band: the first whose floor it reaches. |
| `Volume.OneEntry` | internal/explorer/queue.go:80-84 | An entry weighs its vbytes, or one, in the cuts it is in. |
| `Position.BandsTile` | internal/explorer/queue.go:41-53 | The bands start at 15, 10, 6, 4 and 1 sat/vB, each reaches to the next, and the front one is open above. |
| `Position.BandEnds` | internal/explorer/queue.go:76-80 | A rate is counted in the band between whose ends it lies; below 1 in the last one. |
| `Position.QueueDetermined` | internal/explorer/queue.go:70-92 | Neither map order nor sort ties can show: the histogram is a function of the multiset of entries. |
| `Position.NextBlockRateUnique` | internal/explorer/queue.go:85-91 | The next-block rate is determined by the entries. |
| `Position.BandsTotal` | internal/explorer/queue.go:76-82 | The bands share out the whole mempool. |
| `Position.NextBlock` | internal/explorer/tx.go:527-540 | Once the mempool holds a block, a rate is in the next block iff it is at least the next-block rate; below a block every rate is. |
| `Position.EtaMonotone` | internal/explorer/tx.go:527-540 | Paying more never means waiting longer. |
| `Position.DerivePending` | internal/explorer/tx.go:503-550 | A pending transaction missing from the snapshot invalidates it and is looked up once more; its position then counts exactly the entries and vbytes paying strictly more, in any map order, itself skipped. |
| `Position.PlacedBy` | internal/explorer/tx.go:517-538 | A queued transaction is placed by its own entry among the others, whatever its caller computed; one not in the snapshot by what its caller computed, or by rate 0. |
| `Position.AheadCounts` | internal/explorer/tx.go:527-538 | The transactions and vbytes ahead, with those paying no more, are the whole mempool. |
| `Position.EtaInBlocks` | internal/explorer/tx.go:540-540 | The vbytes ahead fill all but the last of the blocks waited for, at a million vbytes a block. |
| `Position.FractionIs` | internal/explorer/tx.go:543-546 | The fraction times the mempool is the vbytes ahead, between 0 and 1, and 0 for a mempool of no vbytes. |
| `Position.BandIndex` | web/src/components/MempoolQueue.tsx:68-73 | The browser picks the band the server's walk put that rate in. |
| `Position.BandEtaBlocks` | web/src/components/MempoolQueue.tsx:78-85 | The browser's estimate is one plus the whole blocks in the bands ahead, the capacity coming from the cutoff fraction. |
| `Position.CutoffIsABlock` | web/src/components/MempoolQueue.tsx:75-84 | The capacity the server encodes in the cutoff fraction decodes to exactly one block. |
| `Position.BandEtaBelowServer` | web/src/components/MempoolQueue.tsx:78-85 | For one snapshot the browser's estimate never exceeds the server's, and equals it when the mempool exceeds a block and nobody in the rate's band pays strictly more. |
| `Fees.Percentile` | internal/explorer/fees.go:84-94 | A percentile is the least mempool rate at or below which the wanted vbytes sit. |
| `Fees.LeastSplits` | internal/explorer/fees.go:84-94 | At or below a percentile sits at least the wanted share, strictly below it less. |
| `Fees.LeastMonotone` | internal/explorer/fees.go:84-94 | That rate is unique whatever the order or ties, and rises with the share asked for. |
| `Fees.TierRates` | internal/explorer/fees.go:64-110 | The tiers are the 25th, 50th and 90th percentile by vbytes, or the floors of an empty mempool, each raised to its floor, rounded, and raised to the tier below. |
| `Fees.TiersOrdered` | internal/explorer/fees.go:96-106 | Tiers are at least 1, in order, and none is below its floor rounded to one decimal. |
| `Fees.TiersAreNear` | internal/explorer/fees.go:96-105 | Each tier is its percentile by vbytes (a quarter, a half, nine tenths), or its floor if higher, to the nearest tenth, unless the tier below it (1 for the slowest) is more. |
| `Rounding.RoundIsNearest` | internal/explorer/fees.go:103-105 | Rounding is to the nearest integer, halves away from zero. |
| `Fees.TiersDetermined` | internal/explorer/fees.go:64-110 | The tiers are a function of the multiset of entries. |
| `Fees.RawFloorsHoldIff` | internal/explorer/fees.go:96-106 | Whatever the mempool, no tier is below its raw floor, if and only if each floor is at most 1, survives rounding, or is covered by an earlier floor's rounding. |
| `Fees.RawFloorCanBeUndercut` | internal/explorer/fees.go:104-106 | A floor of 1.04 gives a slow tier below it. |
| `PeakWindow.PeakWindow.NotePeak` | internal/explorer/mempool.go:116-137 | After any run of notes the answer is the highest total noted in the last six buckets, with at most six buckets kept. |
| `PeakWindow.PeakWindow.Record` | internal/explorer/mempool.go:120-130 | A total raises the last bucket or opens a new one, and buckets before the window are pruned. |
| `PeakWindow.NotedRepresents` | internal/explorer/mempool.go:116-130 | One note keeps the list the rising per-bucket maxima of the window over the whole history. |
| `PeakWindow.WindowInTime` | internal/explorer/mempool.go:27-37 | The window reaches back at least fifty minutes and less than an hour. |
| `MempoolCache.Mempool.Begin` | internal/explorer/mempool.go:146-163 | A reader fetches iff the copy is stale and no young fetch is refreshing a warm one, and takes the generation with it. |
| `MempoolCache.Mempool.Install` | internal/explorer/mempool.go:195-207 | A landing replaces the copy, forgets the histogram and clears the mark only under an unchanged generation. |
| `MempoolCache.Mempool.Invalidate` | internal/explorer/mempool.go:212-218 | A block makes the copy stale at once, dirty, and of an older generation. |
| `MempoolCache.Mempool.MarkDirty` | internal/explorer/mempool.go:222-227 | A transaction marks the copy dirty and of an older generation without making it stale. |
| `MempoolCache.Mempool.SnapshotAndQueue` | internal/explorer/mempool.go:100-111 | Readers get a histogram that derives from the very entries handed out with it and a peak that covers it, memoised until the next landing; drawing it notes its total, and its peak is then the highest total of the last six buckets. |
| `RefreshProtocol.RunSound` | internal/explorer/mempool.go:145-227 | In every interleaving a fetch carries the current generation iff no mark came after it began, and a clean flag means that a fetch begun after the last mark has landed. |
| `RefreshProtocol.CacheTells` | internal/explorer/mempool.go:145-218 | In every interleaving the cache holds what the last fetch to land brought, dated from its landing unless a block came since, and knows whether a fetch is running and since when. |
| `RefreshProtocol.ReadFetchesExactlyWhen` | internal/explorer/mempool.go:145-163 | In every interleaving a read fetches unless the copy landed less than five seconds ago (one with a mark outstanding) with no block since, or a fetch less than two minutes old is refreshing a copy. |
| `RefreshProtocol.LandingServes` | internal/explorer/mempool.go:195-207 | A copy's age counts from its landing: the next fetch is due five seconds after it, or one when it landed overtaken by a mark. |
| `RefreshProtocol.ClearedOnlyByALaterFetch` | internal/explorer/mempool.go:195-206 | A dirty mark is only ever cleared by the landing of a fetch begun after the last mark. |
| `RefreshProtocol.BrokenExactlyByAStaleLanding` | internal/explorer/mempool.go:195-207 | A step makes a clean copy outdated if and only if an overtaken fetch lands on a clean copy. |
| `RefreshProtocol.StaleLandingHappens` | internal/explorer/mempool.go:154-163 | Two fetches on a cold start with a mark between them, the older landing last, leave a clean but outdated copy. |
| `RefreshProtocol.CurrentUnlessOverlapping` | internal/explorer/mempool.go:145-227 | In every run whose fetches never overlap, a clean copy comes from a fetch begun after the last mark. |
| `RefreshProtocol.OrderlyNeverOverlaps` | internal/explorer/mempool.go:145-208 | From a cold start: if no reader comes during the fetch that warms the copy up and fetches end within two minutes after that, no two fetches ever overlap and a clean copy is always current. |
| `RefreshProtocol.WarmNeverOverlaps` | internal/explorer/mempool.go:154-161 | In every run from a warm state, fetches that end within two minutes never overlap and a clean copy stays current. |
| `RefreshProtocol.BlockForcesUntilALanding` | internal/explorer/mempool.go:210-218 | After a block, as long as nothing lands, a read fetches if and only if no young fetch is refreshing a warm copy. |
| `RefreshProtocol.BlockForces` | internal/explorer/mempool.go:210-218 | Until a fetch begun after the block has landed cleanly, a read fetches if and only if no young fetch is refreshing a warm copy and nothing has landed within the throttle. |
| `RefreshProtocol.BlockNeedNotForce` | internal/explorer/mempool.go:145-218 | A warm copy, a fetch, a block, the landing of that fetch: the next read is served what was fetched before the block. |
| `Lru.LruCache.Get` | internal/explorer/cache.go:31-42 | A hit answers the stored value and moves it to the front; a miss changes nothing; list and map stay in bijection. |
| `Lru.LruCache.Put` | internal/explorer/cache.go:51-66 | A put leaves the pair in front, everything else in order behind it, and the last out if the bound is passed; list and map stay in bijection. |
| `Lru.LruCache.Clear` | internal/explorer/cache.go:44-49 | Clearing empties both. |
| `Lru.LruCache.Overwrite` | internal/explorer/cache.go:55-59 | A put on a present key changes its value in place and moves it to the front. |
| `Lru.LruCache.RemoveBack` | internal/explorer/cache.go:61-65 | The least recently used entry leaves both list and map. |
| `LruHistory.HitReturnsLastPut` | internal/explorer/cache.go:31-66 | In every history the bound holds, no key appears twice, and a hit returns the last value put since the last clear. |
| `LruHistory.HoldsMostRecent` | internal/explorer/cache.go:31-66 | Under read-through use the cache holds exactly the most recently requested distinct keys, newest first. |
| `LruHistory.RecencyRank` | internal/explorer/cache.go:31-66 | A key's place in that order is the number of distinct keys requested since. |
| `LruHistory.HitIffRecent` | internal/explorer/cache.go:31-66 | A request hits if and only if the key was requested before and fewer distinct keys than the bound have been since. |
| `LruHistory.LargerNeverMissesMore` | internal/explorer/cache.go:31-66 | A larger cache never misses where a smaller one hits. |
| `LruHistory.AskingAgain` | internal/explorer/cache.go:31-66 | From any contents, asking again for what was just asked for, behind some new keys, fetches at most those. |
| `Recent.RecentBlocks.RecentEntry` | internal/explorer/recent.go:83-107 | A block comes from the cache or the node, is true either way, and is cached. |
| `Recent.RecentBlocks.WalkBack` | internal/explorer/recent.go:48-65 | The walk takes a prefix of the true parent walk, stopping only at ten blocks, the first block, or an unreadable one. |
| `Recent.RecentBlocks.GetRecentBlocks` | internal/explorer/recent.go:39-78 | Every answer is a prefix of the true window, whole if everything was readable; exactly complete windows are published, and the published list is always the walk from the published tip. |
| `Recent.Stopped` | internal/explorer/recent.go:52-77 | A stopped walk that shows the whole complete window is one that did not stop short. |
| `Recent.WalkIs` | internal/explorer/recent.go:53-61 | The walk goes from each block to its parent and stops short only at the first block or where the chain is not known. |
| `Recent.WholeWindow` | internal/explorer/recent.go:48-77 | A complete window shows ten blocks, or fewer and reaches the first one, in the order of the walk. |
| `Recent.NewBlocksCostOneReadEach` | internal/explorer/recent.go:39-78 | After a whole walk, a tip any number of blocks further costs at most one read for each new block and never more than the window, whatever the cache held before. |
| `Recent.RunPublished` | internal/explorer/recent.go:39-78 | However calls interleave, the published list is the complete window of the published tip. |
| `LiveRefresh.LiveCache.LiveSnapshot` | internal/explorer/live.go:36-50 | Readers are answered at once, and one of them starts a refresh iff one is due and none that is not stuck is running. |
| `LiveRefresh.LiveCache.RefreshLive` | internal/explorer/live.go:54-72 | A refresh that lands frees the gate; a feed that failed keeps its previous value. |
| `LiveRefresh.SyncCache.GetSyncStatus` | internal/explorer/stats.go:91-109 | The same gate with a ten-second interval in front of the sync probe. |
| `LiveRefresh.SyncCache.RefreshSync` | internal/explorer/stats.go:118-139 | An answered probe sets tip and syncing; an unanswered one keeps the last answer. |
| `LiveRefresh.KicksAreSpaced` | internal/explorer/live.go:36-72 | In every run successive refreshes start at least the interval apart, however late old ones finish. |
| `LiveRefresh.AtMostOneInFlight` | internal/explorer/live.go:36-72 | If refreshes end within two minutes at most one is ever in flight. |
| `LiveRefresh.NeverFrozen` | internal/explorer/live.go:39-48 | A poll that starts nothing comes within the interval of a finish or within two minutes of a start. |
| `LiveRefresh.PollKicksExactlyWhen` | internal/explorer/live.go:36-50 | In every run a poll starts a refresh if and only if the last one to end did so at least the interval ago, and none is running or the last to start did so at least two minutes ago. |
| `LiveRefresh.KicksInNumbers` | internal/explorer/stats.go:91-109 | Live refreshes start at least five seconds apart, sync probes ten. |
| `LiveRefresh.FeedIsLatest` | internal/explorer/live.go:63-71 | A feed shows the value of the last refresh that brought one. |
| `LiveRefresh.StatusTells` | internal/explorer/stats.go:118-139 | The status is that of the last answered probe: its height, and syncing if and only if tip age means something and the tip was over four hours old. |
| `LiveRefresh.StatusBeforeAnswer` | internal/explorer/stats.go:118-139 | Until a probe is answered a node counts as syncing where tip age means something. |
| `Watchdog.Watchdog.RunTick` | deploy/btcd-sync-watchdog.sh:83-162 | One tick, branch by branch, leaves the state file and the log the step function gives, and reports which way it went. |
| `WatchdogRuns.RunTellsStall` | deploy/btcd-sync-watchdog.sh:99-128 | In every run the state file tells the present stall: its height, when it was first read, and how many interventions and give-ups it has had. |
| `WatchdogRuns.StallIsOneHeight` | deploy/btcd-sync-watchdog.sh:99-103 | All readings since a stall began are of its height. |
| `WatchdogRuns.StallReachesBack` | deploy/btcd-sync-watchdog.sh:99-103 | The last reading before a stall was of another height, and there is no stall only if nothing was ever read. |
| `WatchdogRuns.CappedPerStall` | deploy/btcd-sync-watchdog.sh:121-128 | At most the configured number of interventions and one give-up between height changes, the give-up only after the last of them. |
| `WatchdogRuns.LogTellsTheRun` | deploy/btcd-sync-watchdog.sh:90-96 | In every run the log has one line per intervention, in order, settled by the first reading after it as recovered iff the height differs; at most the last line is pending. |
| `WatchdogRuns.VerdictIs` | deploy/btcd-sync-watchdog.sh:90-96 | An intervention is judged by the first reading after it alone: recovered if that is another height, no effect if the same, pending while there is none. |
| `WatchdogRuns.InterventionsAreSpaced` | deploy/btcd-sync-watchdog.sh:130-133 | Interventions are at least the interval apart, across stalls too. |
| `WatchdogRuns.IntervenesExactlyWhen` | deploy/btcd-sync-watchdog.sh:105-162 | Told from the past readings alone: a tick intervenes if and only if the height has stood still for the stall time, no sync peer exists, the stall is under its cap, the interval has passed, and an outbound peer can be disconnected. |
| `WatchdogRuns.GivesUpExactlyWhen` | deploy/btcd-sync-watchdog.sh:121-128 | Told from the past readings alone: the give-up is announced if and only if a stuck stall without a sync peer has had all its interventions and no announcement yet. |
| `WatchdogRuns.ReportsExactlyWhen` | deploy/btcd-sync-watchdog.sh:83-119 | Told from the past readings alone: when a tick cannot read, sees progress, waits out the stall time, cannot see the peers, or leaves the stall to the node. |
| `WatchdogRuns.FailureIsFree` | deploy/btcd-sync-watchdog.sh:105-154 | A tick of a stall that waits, leaves it to the node, finds no outbound peer or fails to disconnect one adds no line and counts for nothing. |
| `Inflow.InflowCounter.Note` | internal/explorer/inflow.go:33-43 | After any run of notes each bucket of the ring counts exactly the events of its slot in the window. |
| `Inflow.InflowCounter.Rotate` | internal/explorer/inflow.go:68-77 | Rotating past any number of skipped slots keeps that. |
| `Inflow.InflowCounter.RatePerMin` | internal/explorer/inflow.go:47-64 | The rate is the events of the current and previous five slots over the time counted so far. |
| `Inflow.WindowSum` | internal/explorer/inflow.go:53-56 | The ring's six counts add up to the events of the window. |
| `Inflow.WindowInTime` | internal/explorer/inflow.go:33-56 | The window reaches back at least fifty seconds and less than a minute. |
| `Inflow.RateTells` | internal/explorer/inflow.go:57-63 | Before rounding, the rate is the count itself after a full minute, six times it in the first ten seconds, and in proportion between. |
| `TxInputs.Resolver.ResolvePrevouts` | internal/explorer/tx.go:463-500 | Inputs are resolved in order as if nothing were cached; the node is asked once for each distinct parent of the inputs the cache lacks in their turn, and never more often than there are parents; it fails only on an input the node cannot resolve. |
| `TxInputs.DeriveTx` | internal/explorer/tx.go:277-307 | A transaction's rows, senders, outputs, fee and type are what its resolved inputs and its outputs say. |
| `TxInputs.Conservation` | internal/explorer/tx.go:409-418 | Inputs equal outputs plus fee (a coinbase has none), and the amount plus the change is the whole output. |
| `TxInputs.SomeOutputCounts` | internal/explorer/tx.go:393-403 | A transaction with outputs always has one not flagged as change. |
| `TxInputs.ChangeIs` | internal/explorer/tx.go:348-404 | A row is change if and only if the transaction is not a coinbase, the output has addresses and all of them are addresses of inputs, and some other output is not like that. |
| `TxInputs.RowsShow` | internal/explorer/tx.go:287-385 | Every row shows its output's or input's value and first address, or the label of an output without one. |
| `TxInputs.PartiesAre` | internal/explorer/tx.go:286-408 | Senders are exactly the inputs' addresses, recipients exactly those of the outputs that are not change, each named once. |
| `TxInputs.CodesCount` | internal/explorer/tx.go:376-403 | The type counts each output that is not change, once. |
| `TxInputs.InputCodesCount` | internal/explorer/tx.go:284-286 | The type counts each input once. |
| `TxInputs.ResolvedIs` | internal/explorer/tx.go:485-498 | An input is worth the one output its outpoint names. |
| `TxOutputs.DeriveOutputs` | internal/explorer/tx.go:340-420 | The flags follow the change heuristic unless every output looks like change, then none is set; amount, recipients and codes are those of the rows not flagged; the fee is inputs minus outputs. |
| `TxOutputs.FirstPass` | internal/explorer/tx.go:376-391 | One pass with the heuristic keeps running totals that match the rows it has flagged. |
| `TxOutputs.AllChange` | internal/explorer/tx.go:393-396 | Nobody was paid if and only if every output looks like change. |
| `TxOutputs.CountAll` | internal/explorer/tx.go:393-403 | A self-send takes every flag back and counts every output. |
| `TxOutputs.DedupIs` | internal/explorer/tx.go:363-373 | The recipient list has the same addresses, none twice, in the order of first sight. |
| `TxType.DominantCode` | internal/explorer/tx.go:671-690 | The dominant code is the most frequent classified one, the earliest on ties. |
| `TxType.DominantUnique` | internal/explorer/tx.go:671-690 | There is only one such code. |
| `TxType.CountIsPlaces` | internal/explorer/tx.go:671-690 | A code counts as often as it occurs. |
| `TxType.DeriveTxType` | internal/explorer/tx.go:654-667 | The headline is the dominant input code, else the dominant output code, and there is none iff nothing is classified. |
| `AddressHistory.AddressDelta` | internal/explorer/address.go:162-181 | What a transaction pays an address and what it spends from it, once per listing. |
| `AddressHistory.TxFee` | internal/explorer/address.go:227-239 | The fee is known iff every input's origin is, and is inputs minus outputs. |
| `AddressHistory.ActivityFor` | internal/explorer/address.go:189-223 | The row for a transaction by what was received, spent and paid in fees. |
| `AddressHistory.SignedIsNet` | internal/explorer/address.go:189-223 | Whichever case a row falls in, its signed amount is the net effect on the address. |
| `AddressHistory.DirectionIs` | internal/explorer/address.go:189-215 | A row is incoming if and only if the address put nothing in, and to oneself if and only if it put in and got back, every origin is known, and the others together end up with no more than they put in. |
| `AddressHistory.PaysPerListing` | internal/explorer/address.go:162-181 | An output pays an address its value once for each time it lists it. |
| `AddressHistory.AmountSign` | internal/explorer/address.go:189-223 | For nonnegative output values, a row's amount is negative iff the address spent in the transaction and received more than it spent, and zero iff the two are equal. |
| `AddressHistory.AmountCanBeNegative` | internal/explorer/address.go:205-223 | A transaction with one input of the address and one of another, paying the address, has a negative amount. |
| `AddressHistory.AddressTotals` | internal/explorer/address.go:111-143 | The chunked scan equals the fold over the newest transactions up to the cap, flags itself approximate iff the history reaches the cap, and fails if and only if a page it asks for does. |
| `AddressHistory.FlagUpWithNothingMissed` | internal/explorer/address.go:111-143 | The flag is up with nothing missed if and only if the history ends exactly at the cap. |
| `AddressHistory.RowsNet` | internal/explorer/address.go:189-223 | The signed rows of a whole history add up to everything received less everything sent. |
| `AddressHistory.RowsAddUpToTheBalance` | internal/explorer/address.go:66-107 | When the totals are not approximate the rows add up to the balance. |
| `AddressHistory.Address` | internal/explorer/address.go:66-107 | An answer is the totals, their balance, and the rows of the asked page of the history, with more to come as the totals know it; it fails iff the scan or the page does. |
| `AddressHistory.ServesRows` | internal/explorer/address.go:79-100 | Rows made page by page are the pages of the list of all rows, and a size claimed to be known is right. |
| `AddressHistory.LoadAllShowsHistory` | web/src/state.ts:125-136 | Loading the server's pages until the button is gone shows every row of the address once, in order. |
| `Paging.BlockPage` | internal/explorer/block.go:111-132 | A block's page is the asked slice of its transactions, with more to come iff the slice ends before the last. |
| `Paging.PressLoads` | internal/explorer/address.go:84-100 | A press repeats and skips nothing, and either adds rows or takes the button away. |
| `Paging.LoadAllShowsEverything` | web/src/state.ts:140-151 | For a block or an address, presses end, with the whole list shown once in order. |
| `Paging.LoadsThroughStrays` | web/src/state.ts:123-151 | Pages of other addresses or blocks, wherever they come in between the answers, change nothing: loading still ends with the whole list. |
| `Paging.LatePageOfSameKey` | web/src/state.ts:123-136 | A late page of the key being viewed leaves rows and button right if and only if it starts where the rows end, or is past the end of a list that is all shown. |
| `Paging.LateRows` | web/src/state.ts:123-136 | The rows alone stay a front of the list if and only if the page starts where they end or past the end of everything. |
| `Paging.LateEmptyPageCutsShort` | web/src/state.ts:123-136 | The empty answer past a full last page, landing on the first page of a second visit, takes the button away with a row missing. |
| `Ribbon.MergeRecentBlocks` | web/src/lib/blocks.ts:17-28 | Merging shows the highest blocks of the two lists, the preferred one winning a height. |
| `Ribbon.DescendingIs` | web/src/lib/blocks.ts:25-26 | The sorted list is strictly descending and has exactly the map's blocks. |
| `Ribbon.LastWriterWins` | web/src/lib/blocks.ts:22-24 | Each height holds the last block written at it. |
| `Ribbon.KeepIs` | web/src/lib/blocks.ts:25-27 | A block is kept if and only if fewer than the maximum are higher. |
| `Ribbon.KeepCommutes` | web/src/lib/blocks.ts:22-27 | Cutting to the highest before an update makes no difference after it. |
| `Ribbon.ShowsTheTenHighest` | web/src/hooks/useNetworkData.ts:60-68 | After any sequence of windows and pushes the ribbon is the ten greatest heights of the unbounded last-writer-wins map. |

## Left out

- Node RPC, HTTP routing, JSON, configuration, price lookups, search, navigation and rendering: input and output.
- Arithmetic is exact: floats are reals, satoshis and vbytes are unbounded, the generation counter never wraps and
  durations never saturate.
- Clocks are arguments. Runs of the limiter, the refreshes and the two windows assume a clock that never runs
  backwards in lock order, which the limiter's code alone does not ensure because it reads the time before it takes
  the lock.
- Txids, hashes, addresses and script-type codes are opaque strings: validating, lower-casing and classifying them is
  library code, so pages watch canonical txids.
- Go's container/list is a sequence of elements: its own pointers are not modelled, the map from keys to elements is.
- The watch protocol does not tie a drop to its cause: a slow, closed or stale client shows up as a drop at any
  moment.
- Callbacks of the browser socket are identifiers and do not call back into it.
- Queue.QueueFromSnapshot: entries have nonnegative vsize; a nonempty mempool of no vbytes has cutoff 1, where the
  code divides by zero in floating point and caps the infinity at 1.
- Turning the node's mempool answer into entries (vsize fallback, unparsable fees) is outside the fetch, which
  installs any snapshot.
- Queue.Sort: the library sort is any arrangement in rate order, modelled by insertion.
- Pushes.Notifications.Send: one fan-out is one step, though the loop, the write pumps and other fan-outs run between
  its sends; payloads, write pumps, the ten-second tick and the viewer log line are left out.
- Watchdog.Watchdog.RunTick: log stamps are epoch seconds, console text is left out, a crash between appending to the
  log and saving the state is not modelled, and the configuration is fixed between ticks.
- Position.DerivePending: the seconds derived from the block count and the first-seen time are left out.
- TxInputs.DeriveTx: confirmation status, replace-by-fee signal, fee rate, fiat value and spend labels are left out.
- AddressHistory.ActivityFor: confirmations, status and time of a row are left out.
- AddressHistory.Address: script type and fiat value are left out.
- AddressHistory.AddressTotals: the short-lived cache of totals and a history that changes between pages are left out.
- The contents of the live feeds: they are opaque values.
- Adjacent-repeat suppression of block notifications in the node client.
