# Traffic Control: caches, request fan-in, parent selection, configuration and statistics

This project models the parts of Apache Traffic Control in which state lives in several places
that must agree, and proves what holds over whole runs of them:

- **Grove**, the caching proxy: the fan-in of concurrent requests for one object (`FanIn.dfy`),
  the cache stack from the LRU list to the tiered cache (`Lru.dfy`, `MemCache.dfy`,
  `GcSignals.dfy`, `GcAccounts.dfy`, `GcRefines.dfy`, `DiskCache.dfy`,
  `TierCache.dfy`, `TierOverlaps.dfy`), parent selection on a consistent-hash ring
  and the retry loop over it (`Rings.dfy`, `Retries.dfy`), byte ranges (`ByteRanges.dfy`) and the
  network that covers an address range (`Cidr.dfy`).
- **The configuration generator**: topology tiers (`Topologies.dfy`), profile layering
  (`Layering.dfy`), order-independent parameters (`Params.dfy`) and retry-code lists
  (`RetryCodes.dfy`).
- **Traffic Stats**: batching of measurements (`TrafficStats.dfy`).

`Words.dfy` holds wrap-around 64-bit arithmetic and the cached object, `Text.dfy` the string
operations used by several modules. `dafny verify dfyconfig.toml` checks everything.

## How it is modelled

Concurrent protocols are state machines with one step per critical section, atomic or channel
action; a theorem about them quantifies over every sequence of enabled steps. Objects that update
their fields are classes whose methods are proved equal to functions on values, and the laws are
lemmas about those functions and about all runs of them. Loops of the source are loops here. Where
the source ranges over a map, the model takes the keys in an arbitrary order.

`FanIn` and `GcSignals` carry bookkeeping fields (who a waiter enlisted under, when a response was
sent, by how much sizes have drifted) that no step reads to decide anything.

## What the code does not promise

Some statements one would expect are false of the code. Each has a witness, and the exact condition
under which it does hold.

- Exact size accounting of the memory cache holds when operations are atomic and fails under the
  finest interleaving: a `Get` can list a key again between gc's removal from the list and from the
  map (`GcSignals.AccountingDrifts`), after which gc finds the list empty
  (`GcSignals.ResetIsReachable`); two Adds of different keys, once each and without any `Get`, are
  enough for that (`GcAccounts.AddsAloneReset`). A cache used with a set of operations, each any
  number of times, keeps exact accounts and never finds its list empty in any interleaving if and
  only if no key is added with two sizes, no key added with content is read, and all objects
  together are within the maximum (`GcAccounts.AccountingIff`).
- The disk cache's branch that "should never happen" happens with whole operations atomic:
  rewriting a key counts it again (`DiskCaches.OverCountResets`). `DiskCaches.ResetsIff` says when one
  collection takes it, and `DiskCaches.NeverResetsIff` for which operations none ever does: those that
  write no nonempty entry.
- The disk cache is not always within its maximum when no collection is pending: recovery starts
  none, so a store found over the limit stays over it (`DiskCaches.RecoveredOverLimit`) until
  something is written (exact condition `DiskCaches.RunAfterRecovery`).
- After a disk write fails, an old object comes back as soon as the memory tier evicts the new one
  (`TierCaches.StaleRun`, exact condition `TierCaches.AddCoherentIff`).
- The tiers are presumed to have the same content; with overlapping operations on a key they may
  not (`TierOverlaps.CrossedAdds`, `TierOverlaps.LatePromotion`, exact condition
  `TierOverlaps.CoherentIff`).
- A confirmation that arrives after a newer full response was cached puts the older object back
  (`Retries.OlderBodyReturns`, exact condition `Retries.CachedIsLatestIff`).
- A suffix range at least as long as the content loses the first byte (`ByteRanges.SuffixServedIff`,
  which is also the exact condition).
- Two databases and policies whose names concatenate to the same string have their points mixed
  (`TrafficStats.ClashMisroutes`, exact condition `TrafficStats.RoutesSafeIff`).
- A quoted empty retry list is rejected (`RetryCodes.QuotedRoundTripIff`, which is also the exact
  condition).
- `paramsToMap` is documented to use the first parameter of a name; it keeps the least value
  (`Params.SecondKept`, exact condition `Params.KeepsFirstIff`). It is documented to warn about names
  with different values; it warns about every repetition (`Params.RepetitionWarned`, exact condition
  `Params.WarningsAsDocumentedIff`).
- `trimParamUnderscoreNumSuffix` is documented to trim digits; it trims what the float parser
  accepts (`Params.TrimsMoreThanDigits`, exact condition `Params.TrimAsDocumentedIff`).
- "Last cache tier", told by a node's first parent, is not "distance one", told by any parent
  (`Topologies.LaterOriginDisagrees`, exact condition `Topologies.LastTierIsDistanceOneIff`). A server
  is counted among those an origin's connections are shared by because of the latter and gets its
  share because of the former, so less than the maximum may be handed out
  (`Topologies.LaterOriginGetsNone`, exact condition `Topologies.TierSharesConnections`).

The flag that `GetNext` returns as `retryAllowed` is true on the last attempt, when no further retry
is allowed; its caller uses it as "a failure may be cached", and the model follows that.

## Model

| member | source | states |
|---|---|---|
| FanIn.FanInSafety | grove/thread/getter.go:52-87 | In every reachable state of any number of concurrent calls, a key is in `waiters` exactly while it has an unfinished Author, who is unique; a waiter with an empty channel is listed exactly once under that Author and has been sent nothing; and an Author holding the mutex can always go on, so no send blocks |
| FanIn.FanInResults | grove/thread/getter.go:52-87 | Every call fetches at most once; a returned waiter took exactly one response, sent after it enlisted, by the Author of its key it enlisted under, and returned that Author's own answer or the object it fetched itself |
| FanIn.ReturnedIsFetched | grove/thread/getter.go:64-86 | Over every run: a call that returns its own object returns what its own fetch brought; one that returns another's accepted it, and that one's fetch brought it; a waiter that returns its own has rejected its Author's; and every response sent is what its Author's fetch brought |
| FanIn.PastKept | grove/thread/getter.go:52-87 | Every step keeps each held, sent and returned object tied to the fetch that brought it |
| FanIn.ThrottleBound | grove/thread/limiter.go:29-40 | In every run at most the limit of a rule's fetches are under way at once, whether Authors or rejecting waiters make them |
| FanIn.AlwaysFinishes | grove/thread/getter.go:52-87 | Fan-in and throttling together neither deadlock nor livelock: a run of n calls has at most 8n steps, and one that cannot be extended has finished every call |
| FanIn.StepKeepsInv | grove/thread/getter.go:52-87 | Every step of every call keeps the protocol's whole invariant |
| FanIn.RunKeepsInv | grove/thread/getter.go:52-87 | So does every run, and each of its steps uses up work |
| FanIn.HolderStep | grove/thread/getter.go:67-75 | The Author holding the mutex is never blocked: the channel of its next waiter has room |
| FanIn.Progress | grove/thread/getter.go:52-87 | An unfinished call can take a step, or waits (for the mutex, a slot or a response) for one that can, or for an Author that waits for one that can |
| FanIn.StepWorks | grove/thread/getter.go:52-87 | Every step decreases a measure of the work left |
| FanIn.TokensKept | grove/thread/limiter.go:36-40 | The throttler's channel always holds as many tokens as there are calls inside the fetch section, within its capacity |
| GcSignals.NoLostCollection | grove/memcache/memcache.go:68-122 | With one step per lock, atomic and channel action, whenever the tracked size exceeds the maximum an adder is about to signal, the channel is full, or gc is in its loop with a value above the maximum; so every quiescent state is within the limit |
| GcSignals.SettlesWithinLimit | grove/memcache/memcache.go:68-122 | Every run is finite, and where no step is possible all operations have ended with the tracked size within the maximum |
| GcSignals.Progress | grove/memcache/memcache.go:50-122 | Unless everything is at rest some step is enabled, readers and the write lock included |
| GcSignals.SignalKept | grove/memcache/memcache.go:68-122 | Every step of every interleaving keeps the signalling invariant |
| GcSignals.LedgerKept | grove/memcache/memcache.go:50-122 | Every step keeps tracked size, changes not yet counted, evictions not yet subtracted, recorded sizes and drift in balance modulo 2^64 |
| GcSignals.TrackedIsRecordedUpToDrift | grove/memcache/memcache.go:50-122 | At rest the tracked size differs from the recorded sizes by exactly what Gets re-recorded and resets dropped on the way, modulo 2^64 |
| GcRefines.AddWhole | grove/memcache/memcache.go:68-95 | An Add's steps, not interrupted, store, list, count and ask exactly as the whole Add of `MemCaches` does |
| GcRefines.GetWhole | grove/memcache/memcache.go:50-59 | A Get's steps, not interrupted, are the whole Get |
| GcRefines.CollectWhole | grove/memcache/memcache.go:97-122 | The collector's steps, not interrupted, are the whole collection |
| GcAccounts.AccountingIff | grove/memcache/memcache.go:50-122 | For the operations a cache is used with, each any number of times and with one step per lock, atomic and channel action: in every interleaving gc never finds its list empty, and whenever nothing is under way map and list agree and `sizeBytes` is the sum of the cached sizes, if and only if no key is added with two sizes, no key added with content is read, and all objects together are within the maximum |
| GcAccounts.SafeIsSound | grove/memcache/memcache.go:50-122 | On such a workload every run of any list of operations keeps exact accounts and never collects |
| GcAccounts.UndisturbedKept | grove/memcache/memcache.go:50-83 | Every step keeps tracked size plus uncounted changes equal to the recorded sizes, and every stored key listed or about to be |
| GcAccounts.ReadBreaks | grove/memcache/memcache.go:50-75 | A Get between an Add's store and its touch leaves an object that nobody counts, whatever the sizes and the maximum |
| GcAccounts.ResizeBreaks | grove/memcache/memcache.go:68-82 | Two Adds of a key with different sizes, the smaller counted first, wrap the size around and make gc find its list empty |
| GcAccounts.OversizeBreaks | grove/memcache/memcache.go:68-122 | One object over the maximum, added twice, leaves a stale request that finds the list empty |
| GcAccounts.CrowdBreaks | grove/memcache/memcache.go:68-122 | Any two or more objects that fit only without one of them reach a state at rest with a key listed and not stored |
| GcAccounts.AddsAloneReset | grove/memcache/memcache.go:68-122 | Two Adds of different keys, once each, make gc find its list empty |
| GcSignals.AccountingDrifts | grove/memcache/memcache.go:50-59 | A concrete interleaving after which 150 bytes are recorded that nobody counts and nothing stores |
| GcSignals.ResetIsReachable | grove/memcache/memcache.go:104-113 | A concrete continuation in which gc finds the list empty |
| LruList.LRU.Add | grove/lru/lru.go:38-50 | Moves or puts the key at the front with its size, keeps list and index in agreement, and returns the size recorded before, 0 for a new key |
| LruList.LRU.RemoveOldest | grove/lru/lru.go:52-65 | Takes the last key off list and index and returns it with its size, or reports that the list is empty and changes nothing |
| LruList.LRU.Keys | grove/lru/lru.go:67-76 | The keys from oldest to newest |
| LruList.WeightIsSum | grove/lru/lru.go:38-76 | A list of all keys, each once, weighs what the map of sizes sums to, in whatever order it is summed |
| MemCaches.RunAccounts | grove/memcache/memcache.go:50-122 | After any run of whole operations `sizeBytes` is the sum of the cached sizes modulo 2^64, map and list hold the same keys and sizes, and the list is in order of last use |
| MemCaches.RunInv | grove/memcache/memcache.go:50-122 | The accounting invariant holds after any run |
| MemCaches.RunAsks | grove/memcache/memcache.go:68-122 | After any run, a tracked size over the maximum has a collection asked for, so with none pending the cached bytes, modulo 2^64, are within the maximum; and a collection leaves none pending |
| MemCaches.RequestKept | grove/memcache/memcache.go:78-95 | An Add over the maximum asks with the new size, unless a request is waiting, which stays |
| MemCaches.MapLaws | grove/memcache/memcache.go:50-83 | An Add is found and changes no other key; a Get finds what a Peek finds, counted once more, and leaves that behind |
| MemCaches.RunOrder | grove/memcache/memcache.go:50-83 | The list is in order of the last Add or hit of each key, where the run itself tells which Gets hit |
| MemCaches.GcExact | grove/memcache/memcache.go:104-122 | A collection given the current size keeps exactly the longest newest-first run of entries that fits, their objects and nothing else |
| MemCaches.RunNeverResets | grove/memcache/memcache.go:104-113 | After any run, no collection that is asked for, however stale its request, takes the branch for an empty list |
| MemCaches.GcNeverResets | grove/memcache/memcache.go:104-113 | A collection that starts on a nonempty list never takes it |
| MemCaches.GcLargestFit | grove/memcache/memcache.go:104-122 | With less than 2^64 bytes cached, "fits" means that the exact sizes sum to at most the maximum |
| MemCaches.GcKeeps | grove/memcache/memcache.go:104-122 | A collection started with a stale size keeps the invariant and ends within the maximum |
| MemCaches.AddKeeps | grove/memcache/memcache.go:68-83 | Adding or replacing an object of any size keeps the accounting, through wrap-around |
| MemCaches.EvictKeeps | grove/memcache/memcache.go:107-121 | One eviction keeps the accounting, through the two's-complement subtraction |
| MemCaches.MemCache.AddObj | grove/memcache/memcache.go:68-83 | The new state is the specified one: object stored, key touched, size changed by the difference, collection asked for without blocking; never reports an eviction |
| MemCaches.MemCache.GetObj | grove/memcache/memcache.go:50-59 | The new state and result are the specified ones: a hit is touched and counted, a miss changes nothing |
| MemCaches.MemCache.PeekObj | grove/memcache/memcache.go:61-66 | The stored object, with nothing touched or counted |
| MemCaches.MemCache.CollectOnce | grove/memcache/memcache.go:97-102 | One round of the collector does the specified collection and keeps the invariant |
| MemCaches.MemCache.GcLoop | grove/memcache/memcache.go:104-122 | The loop computes the specified collection, keeps the invariant and never takes the branch for an empty list |
| DiskCaches.RunAfterRecovery | grove/diskcache/diskcache.go:62-162 | Over all runs after recovery stored bytes never exceed the tracked size; and they are within the maximum whenever no collection is pending if and only if the recovered store was, or something has been written since |
| DiskCaches.RunNeverUnderCounts | grove/diskcache/diskcache.go:86-162 | Through any run of whole operations, stored bytes never exceed the tracked size |
| DiskCaches.RunBoundedIff | grove/diskcache/diskcache.go:86-162 | A run ends with a collection pending or the size within the maximum if and only if it began so or wrote something; otherwise size and store are as they were |
| DiskCaches.RecoveredOverLimit | grove/diskcache/diskcache.go:62-80 | A store of 60 bytes recovered under a maximum of 50 keeps its 60 bytes through any run that writes nothing |
| DiskCaches.PutKeepsIff | grove/diskcache/diskcache.go:86-118 | A write keeps the one-sided invariant if and only if the tracked size does not wrap around |
| DiskCaches.GetKeeps | grove/diskcache/diskcache.go:152-162 | A hit, which rewrites the recorded size to the body's, keeps the invariant |
| DiskCaches.EvictKeepsIff | grove/diskcache/diskcache.go:122-149 | The subtraction of an eviction never underflows, and it keeps the invariant if and only if the store carries out the deletion |
| DiskCaches.GcFits | grove/diskcache/diskcache.go:122-149 | A collection ends with the tracked size, hence the stored bytes, within the maximum, and evicts oldest first |
| DiskCaches.GcExact | grove/diskcache/diskcache.go:122-149 | A request within the maximum changes nothing; one over it evicts oldest first, at least one entry if there is any, and never one more than it has to; the size is reduced by what was evicted, or reset, and exactly the evicted entries are gone, save those that could not be deleted |
| DiskCaches.CollectRuns | grove/diskcache/diskcache.go:112-149 | Running a pending collection takes its request away and brings the size within the maximum |
| DiskCaches.SettlesWithinLimit | grove/diskcache/diskcache.go:112-149 | With all pending collections run, none is left and the stored bytes are within the maximum |
| DiskCaches.MapLaws | grove/diskcache/diskcache.go:86-196 | A write that succeeds is found, one that fails changes nothing, and neither touches another key; a Get finds what a Peek finds, counted once more in the returned copy only |
| DiskCaches.RunOrder | grove/diskcache/diskcache.go:86-162 | Through any run the list is in order of the last write or hit of each key, and records the length written, or the size of the object found |
| DiskCaches.ResetsIff | grove/diskcache/diskcache.go:125-131 | The branch that should never happen is taken exactly when the list is empty or the tracked size over-counts the recorded sizes by more than the maximum |
| DiskCaches.OverCountResets | grove/diskcache/diskcache.go:107-131 | Writing one key three times before a collection runs takes that branch |
| DiskCaches.NeverResetsIff | grove/diskcache/diskcache.go:86-149 | A disk cache used with some Adds, each any number of times, with reads and collections at any moment, never takes the branch for an empty list if and only if none of them writes a nonempty entry |
| DiskCaches.RewritesReset | grove/diskcache/diskcache.go:107-131 | Any nonempty entry, written often enough before a collection runs, makes it take that branch |
| DiskCaches.StepKeeps | grove/diskcache/diskcache.go:86-162 | Every operation keeps the one-sided invariant |
| DiskCaches.StepBounds | grove/diskcache/diskcache.go:107-149 | Every operation keeps the size within the maximum unless a collection is pending, and a write makes up for a size that was over it |
| DiskCaches.DiskCache.ResetAfterRestart | grove/diskcache/diskcache.go:62-80 | Recovery from any store lists every entry with its length and makes the tracked size exactly the stored bytes |
| DiskCaches.DiskCache.AddObj | grove/diskcache/diskcache.go:86-118 | The specified new state: nothing on an encoding or store failure, otherwise stored, recorded, counted in full, and a collection started when over the maximum |
| DiskCaches.DiskCache.GetObj | grove/diskcache/diskcache.go:152-162 | The specified new list and the decoded object counted once more |
| DiskCaches.DiskCache.PeekObj | grove/diskcache/diskcache.go:165-196 | The decoded stored object, or a miss when there is none or it does not decode |
| DiskCaches.DiskCache.GcLoop | grove/diskcache/diskcache.go:122-149 | The loop computes the specified collection, also over deletions that fail, and terminates |
| TierCaches.HitIsLatest | grove/tiercache/tiercache.go:40-70 | The tiered, sharded stack refines a lossy map: after any run of operations and collections on any tier with disk writes succeeding, a hit by Get or Peek is the object last added for the key, up to its hit count |
| TierCaches.RunCoherent | grove/tiercache/tiercache.go:40-70 | Through any such run, whatever either tier holds for a key is what was last added |
| TierCaches.LookupExact | grove/tiercache/tiercache.go:40-64 | A lookup hits exactly when the first tier holds the key or the key's file has an entry that decodes, and returns the first tier's object if it has one, else the file's; a Get counts it once more and leaves it in the first tier, and takes nothing away |
| TierCaches.AddExact | grove/tiercache/tiercache.go:66-70 | An Add is found in the first tier whatever becomes of the write, and in the second if it succeeds; nothing changes for other keys |
| TierCaches.AddCoherentIff | grove/tiercache/tiercache.go:66-70 | An Add leaves its key coherent if and only if the disk write succeeds, or fails over no readable entry or one with the same contents |
| TierCaches.FailedWriteServesStale | grove/tiercache/tiercache.go:57-70 | After a failed write the new object is served from the first tier, and the old one by any first tier that lacks it |
| TierCaches.StaleRun | grove/tiercache/tiercache.go:57-70 | A run that reaches this: a failed write of 60 bytes, then a collection of a memory tier of 50 bytes |
| TierCaches.GetCoherent | grove/tiercache/tiercache.go:40-55 | A lookup with promotion keeps every key coherent |
| TierCaches.CollectCoherent | grove/memcache/memcache.go:104-122 | A collection on either tier keeps every key coherent |
| TierOverlaps.CoherentIff | grove/tiercache/tiercache.go:40-70 | However operations on a key overlap, one step for each access to a tier, and whatever is evicted: whenever nothing is under way the tiers agree, and once an Add has ended hold nothing but what was added, if and only if one object is ever added and, if the key is also read, the second tier held no other one to begin with |
| TierOverlaps.CrossedAdds | grove/tiercache/tiercache.go:66-70 | Any two different objects added at once can end up one in each tier |
| TierOverlaps.LatePromotion | grove/tiercache/tiercache.go:43-50 | An Add between the read and the write of a promotion leaves the older object in the first tier |
| TierOverlaps.InvKept | grove/tiercache/tiercache.go:40-70 | Every step of a safe use keeps what agreement rests on |
| TierOverlaps.AddWhole | grove/tiercache/tiercache.go:66-70 | An Add's steps, not interrupted, are the whole Add of `TierCaches` |
| TierOverlaps.GetWhole | grove/tiercache/tiercache.go:40-55 | A Get's steps, not interrupted, are the whole Get, promotion included |
| TierOverlaps.HalfWay | grove/tiercache/tiercache.go:40-70 | Between its writes an Add has changed the first tier only; a Get that hits the first tier, or misses both, changes nothing |
| TierCaches.MultiDiskCache.AddObj | grove/diskcache/multi.go:51-55 | Exactly the key's shard changes, as specified |
| TierCaches.MultiDiskCache.GetObj | grove/diskcache/multi.go:57-61 | The key's shard answers, and only its list changes |
| TierCaches.MultiDiskCache.PeekObj | grove/diskcache/multi.go:63-67 | The key's shard answers |
| TierCaches.TierCache.GetObj | grove/tiercache/tiercache.go:40-55 | The specified result and state: first tier, else second tier with promotion |
| TierCaches.TierCache.PeekObj | grove/tiercache/tiercache.go:57-64 | The specified result, with nothing promoted |
| TierCaches.TierCache.AddObj | grove/tiercache/tiercache.go:66-70 | Both tiers are written as specified |
| Rings.Monotone | grove/chash/atsconsistenthash.go:72-119 | Inserting a parent at any position of a rule's list leaves each request on its parent or moves it to the new one, also when ring hashes collide |
| Rings.InsertExtends | grove/remap/remap.go:472-482 | The ring with the inserted parent differs from the one without only in positions that the new parent owns |
| Rings.RingMapExact | grove/remap/remap.go:472-482 | The ring holds exactly the replicas of its parents, and where those of several coincide the last parent in the list owns the position |
| Rings.RingTextsApart | grove/chash/atsconsistenthash.go:76-83 | Replicas are hashed apart: two hashed texts are the same only for the same number and host, and the host is the proxy's if there is one, whatever the node is called |
| Rings.FallbackIsFirst | grove/remapdata/remapdata.go:155-175 | Without a name to look up or a ring position it is the first parent, whatever the others are |
| Rings.LandingOwns | grove/chash/atsorderedmap.go:121-129 | The lower bound with wrap-around lands on the owner of the hash: the nearest key at or after it, or the least of all |
| Rings.OwnerUnique | grove/chash/atsconsistenthash.go:96-119 | A hash has one owner |
| Rings.OwnerStays | grove/chash/atsconsistenthash.go:96-119 | In a larger ring the owner of a hash is a new key or the owner it had |
| Rings.ChooseOwner | grove/remapdata/remapdata.go:166-189 | The first attempt of a request goes to the parent that owns its hash |
| Rings.SortedKeysSort | grove/chash/atsorderedmap.go:103-119 | The sorted key list is strictly increasing and holds exactly the map's keys |
| Rings.SortsUnique | grove/chash/atsorderedmap.go:103-119 | A set of keys has one strictly increasing list |
| Rings.NextWraps | grove/chash/atsorderedmap.go:185-200 | Stepping to the next entry, or from the last to the first, adds one modulo the ring size |
| Rings.OrderedMap.InsertBulk | grove/chash/atsorderedmap.go:103-119 | Fails and changes nothing on lists of different lengths; else the entries are put in order, and the key list is the strictly sorted keys of the map |
| Rings.OrderedMap.FindLowerBound | grove/chash/atsorderedmap.go:121-129 | The index of the first key at or after the searched one, or none |
| Rings.ConsistentHash.Insert | grove/chash/atsconsistenthash.go:61-89 | As many replica hashes as the rounded weight gives are put over the map, and the ring stays sorted; a negative number panics and changes nothing |
| Rings.RoundNearest | grove/chash/atsconsistenthash.go:61-73 | Rounding is off by at most a half, symmetric around zero, with halves away from it; a weight of one gives 1024 positions |
| Rings.ConsistentHash.Select | grove/remapdata/remapdata.go:166-189 | The entry as many steps around the ring after the landing point as there were failures; none for an empty name or ring |
| Rings.MakeRuleHash | grove/remap/remap.go:472-482 | The ring of a rule's parents inserted in order, unless a weight rounds to a negative number |
| Retries.RetryingGet | grove/cache/retryinggetter.go:56-96 | The attempts are numbers f, f+1, ..., at most up to RetryNum, each on the next ring entry, with an object of its own or one joined from another request; all but the last failed; the answer is the first that is no failure, with its parent, or else the last; errors of building a request end the loop |
| Retries.RetriedIff | grove/cache/retryinggetter.go:98-101 | An attempt that asks a parent is retried exactly if there is no connection, or a retry code or 502 is sent; one that confirms an object, exactly if that object is a failure, or 304 is a retry code and attempts are left |
| Retries.JoinedRetriedIff | grove/cache/retryinggetter.go:56-101 | An attempt that joined another request is retried exactly if that one's object is a failure |
| Retries.AnswerFromWeb | grove/cache/retryinggetter.go:79-101 | What is returned, in terms of what the last parent asked sent: without a connection, or with a retry code or 502, it was the last attempt allowed and no parent is named; with any other full response its parent is; the object has that response's body and code |
| Retries.ModifiedFrom | grove/cache/retryinggetter.go:152-162 | The Last-Modified time is the header's, else the Date header's, else that of arrival |
| Retries.RemappingProducer.GetNext | grove/remap/remap.go:173-205 | Gives up once RetryNum is below the failures, else counts one and names the parent that many entries around the ring |
| Retries.RetryCodeCachedLast | grove/cache/retryinggetter.go:142-194 | A response with a retry code is cached by attempt number RetryNum only, the last one, and never by one that joined another request |
| Retries.CachedIsLatestIff | grove/cache/retryinggetter.go:134-194 | Over any overlapping full responses, confirmations and evictions of a key, the cached object is at all times the latest full response cached if and only if no confirmation is overtaken by a full response cached while it was under way |
| Retries.CachedIsOneResponse | grove/cache/retryinggetter.go:134-194 | However requests overlap, each cached object has Size = len(Body) and the body, code and Last-Modified time of one and the same full response cached for the key (section 4.3.4 of RFC 7234) |
| Retries.CachedIsLatestFull | grove/cache/retryinggetter.go:134-194 | When requests do not overlap, that response is the latest one cached |
| Retries.OvertakenIsStale | grove/cache/retryinggetter.go:174-193 | A confirmation overtaken by a full response puts the older content back |
| Retries.OlderBodyReturns | grove/cache/retryinggetter.go:174-193 | A run of two full responses and a confirmation asked for between them, after which the first body is cached again |
| ByteRanges.ServeRanges | grove/plugin/range_req_handler.go:133-273 | From header text to response: a header that does not parse gets the whole content; explicit satisfiable ranges get a 206 laid out for the collapsed ranges, from which a client that checks the part headers reads every requested position once, in increasing order, with its Content-Length, Content-Type and Content-Range (sections 2.1 and 4.1 of RFC 7233) |
| ByteRanges.ServedExactly | grove/plugin/range_req_handler.go:163-195 | For every list of explicit satisfiable ranges, however sorted, the collapsed ranges are assembled without a panic, and a client that checks the part headers reads every requested position once, in increasing order |
| ByteRanges.PayloadIsRequested | grove/plugin/range_req_handler.go:163-189 | The concatenated slices are exactly the requested bytes, each position once and increasing |
| ByteRanges.CollapsedMeaning | grove/plugin/range_req_handler.go:244-273 | Collapsing explicit ranges gives sorted, pairwise disjoint ranges with the same union, however equal starts were ordered |
| ByteRanges.CollapseMeaning | grove/plugin/range_req_handler.go:249-271 | The same for the collapsing loop from any intermediate range |
| ByteRanges.PositionsIncrease | grove/plugin/range_req_handler.go:163-189 | Disjoint sorted ranges send each covered position within the content once, in increasing order |
| ByteRanges.PayloadPicks | grove/plugin/range_req_handler.go:163-189 | With satisfiable ranges every slice is in bounds and is the bytes at its positions |
| ByteRanges.BodyCarriesPayload | grove/plugin/range_req_handler.go:172-192 | Reading an assembled body, with each part's header and the closing line checked, gives exactly the payload, one part or several |
| ByteRanges.RangeReadsBack | grove/plugin/range_req_handler.go:172-179 | A written Content-range value reads back as its first and last position and the whole length (section 4.2 of RFC 7233) |
| ByteRanges.PartLines | grove/plugin/range_req_handler.go:174-192 | A part's header and the closing line, line by line |
| ByteRanges.InBoundsIff | grove/plugin/range_req_handler.go:163-189 | With explicit ranges no slice panics if and only if no range starts after the end of the content |
| ByteRanges.SuffixServedIff | grove/plugin/range_req_handler.go:164-170 | A suffix range of n bytes is served right if and only if n is less than the content's length |
| ByteRanges.HeaderRoundTrip | grove/plugin/range_req_handler.go:198-242 | Writing explicit ranges into a header and parsing it gives them back (section 2.1 of RFC 7233) |
| ByteRanges.ParseSuffix | grove/plugin/range_req_handler.go:198-222 | A suffix range is parsed as its length with no start |
| ByteRanges.PanicsWithout | grove/plugin/range_req_handler.go:198-232 | A piece without a dash panics if it is empty or a number and is rejected otherwise; a header without an equals sign panics |
| ByteRanges.ParseRangeHeader | grove/plugin/range_req_handler.go:225-273 | Rejects and panics exactly when the parse of the pieces in order does; else returns the collapse of some sort of the parsed ranges |
| ByteRanges.InsertionSort | grove/plugin/range_req_handler.go:244-247 | A permutation sorted by start |
| ByteRanges.CollapseSorted | grove/plugin/range_req_handler.go:249-271 | The loop computes the specified collapse |
| ByteRanges.Respond | grove/plugin/range_req_handler.go:133-195 | Panics exactly when a slice is out of bounds; else the body is the parts and closing line, the code is 206, Content-Length is its length, Content-Type names the boundary for several parts, and Content-Range is given for a single one |
| Topologies.TierSharesConnections | lib/go-atscfg/headerrewritedotconfig.go:500-623 | Around a cachegroup on the last cache tier with n online peers: every peer counts the same n; n times the limit is within n/2 of the maximum, or equals n when the maximum is under n/2; a peer gets that limit if no origin is among its later parents only, and none otherwise; and the limits of the online peers add up to n limits if and only if that holds of every one of them |
| Topologies.PeerOnLastCache | lib/go-atscfg/meta.go:226-252 | A peer of a server on the last cache tier gets the last-tier file too if and only if no origin is among its later parents only |
| Topologies.LaterOriginGetsNone | lib/go-atscfg/meta.go:226-252 | A tier of an edge and a mid, of which only the mid gets a limit: five of ten connections are handed out |
| Topologies.GetOriginDistance | lib/go-atscfg/headerrewritedotconfig.go:576-593 | Whatever correct distances were memoised before, in any order, the result is the plain recursive distance, and everything memoised after is correct |
| Topologies.DistanceUnique | lib/go-atscfg/headerrewritedotconfig.go:576-593 | A node has one distance |
| Topologies.NodesWithSameDistance | lib/go-atscfg/headerrewritedotconfig.go:558-574 | Exactly the nodes as far from their origin as the given one, each once; none for an index that is no node |
| Topologies.AtDistance | lib/go-atscfg/headerrewritedotconfig.go:567-573 | Exactly the memoised nodes at a distance, each once |
| Topologies.CachegroupsInSameTier | lib/go-atscfg/headerrewritedotconfig.go:528-556 | Exactly the cachegroups of nodes as far from their origin as the given cachegroup's node |
| Topologies.TiersAreEquivalence | lib/go-atscfg/headerrewritedotconfig.go:528-593 | Being in the same tier is reflexive on the topology's cachegroups, symmetric and transitive |
| Topologies.TierServers | lib/go-atscfg/headerrewritedotconfig.go:500-526 | The servers of the tier with the required capabilities, in their order, restricted to the cachegroup for a regional service |
| Topologies.SamePeers | lib/go-atscfg/headerrewritedotconfig.go:500-526 | All servers of a tier of a service that is not regional see the same peers |
| Topologies.PeersExact | lib/go-atscfg/headerrewritedotconfig.go:500-526 | Exactly the servers with a cachegroup of the tier, an id, every required capability, and for a regional service the same cachegroup, each as often as it occurs |
| Topologies.OnlineCounted | lib/go-atscfg/headerrewritedotconfig.go:223-233 | The count is the number of servers that are reported or online |
| Topologies.HalfRoundsUp | lib/go-atscfg/headerrewritedotconfig.go:620 | A quotient halfway between two integers is rounded up |
| Topologies.LimitRounds | lib/go-atscfg/headerrewritedotconfig.go:613-623 | n times the rounded limit is within n/2 of the maximum, or equals n when rounding gives 0 |
| Topologies.FloatRounds | lib/go-atscfg/headerrewritedotconfig.go:620 | For a maximum below 2^52, rounding the 64-bit floating-point quotient gives what rounding the exact one gives |
| Topologies.GetTopologyPlacement | lib/go-atscfg/atscfg.go:490-543 | A cachegroup is placed by its first node: first tier without children, last cache tier without parents or with an origin as first parent, inner otherwise; last tier also asks whether the service is multi-site; malformed exactly when the first parent cannot be looked up |
| Topologies.LastTierIsDistanceOneIff | lib/go-atscfg/atscfg.go:517-541 | Last cache tier and origin distance one agree on a node if and only if it has no origin among its later parents only |
| Topologies.LaterOriginDisagrees | lib/go-atscfg/headerrewritedotconfig.go:585-590 | A node whose second parent is an origin is at distance one and not on the last cache tier |
| TrafficStats.PointsConserved | traffic_stats/traffic_stats.go:312-344 | At every moment of every run, whichever connections and writes fail, each produced point is in exactly one place: aggregated, held by one goroutine (in flight or being requeued), or written |
| TrafficStats.PointsStayOnRoute | traffic_stats/traffic_stats.go:331-344 | If no two databases and policies in use share a key, the same holds of points together with their database and policy, so none is written to another |
| TrafficStats.RoutesSafeIff | traffic_stats/traffic_stats.go:331-344 | A set of databases and policies is safe over all runs if and only if no two of them share a key |
| TrafficStats.ClashMisroutes | traffic_stats/traffic_stats.go:331-344 | Any two that share a key have a run that writes a point to the wrong one |
| TrafficStats.PrefixFreeKeysApart | traffic_stats/traffic_stats.go:333 | Keys are apart when no database name in use is a proper prefix of another |
| TrafficStats.StepConserves | traffic_stats/traffic_stats.go:312-344 | Every step conserves the points |
| TrafficStats.RunConserves | traffic_stats/traffic_stats.go:312-344 | Every run from a conserving state conserves them and keeps batches under their own key |
| TrafficStats.AggregateHolds | traffic_stats/traffic_stats.go:331-343 | Aggregating a batch adds exactly its points to the map |
| TrafficStats.AggregateAppends | traffic_stats/traffic_stats.go:331-343 | A received batch goes behind what is held for its key, under the database and policy held there, and changes no other key |
| TrafficStats.ExportersHold | traffic_stats/traffic_stats.go:312-318 | Publishing hands exactly the map's points to exporters, in whatever order the map is visited |
| TrafficStats.SendMetrics | traffic_stats/traffic_stats.go:1102-1140 | The loop terminates; without a connection the whole batch is requeued; else the chunks whose write succeeds are written and, when retrying, the others requeued, in order |
| TrafficStats.ChunkCreated | traffic_stats/traffic_stats.go:1114-1124 | Creating a chunk's batch from the fields of a batch that was created cannot fail, and gives the same fields |
| TrafficStats.ChunkAt | traffic_stats/traffic_stats.go:1112-1128 | The k-th chunk carries the points from k * max on, at most max of them, with the batch's database and policy, and there are chunks exactly as long as points are left |
| TrafficStats.ExportConserves | traffic_stats/traffic_stats.go:1112-1140 | Written and requeued chunks together carry exactly the batch's points |
| TrafficStats.ExportRefines | traffic_stats/traffic_stats.go:1102-1140 | In any run in which an exporter comes to its end, whatever other goroutines do in between, it writes exactly the chunks `SendMetrics` writes and the main loop receives exactly those it sends back, each in order |
| TrafficStats.Collector.Receive | traffic_stats/traffic_stats.go:331-343 | The map changes as specified: points appended under an existing key, else the batch stored |
| TrafficStats.Collector.Publish | traffic_stats/traffic_stats.go:312-318 | One exporter is started for each key, and the map is emptied |
| Params.TextOrderFree | lib/go-atscfg/atscfg.go:406-420 | Any two texts generated from permuted parameters are the identical string, whatever order the map is visited in |
| Params.KeepsLeastUnique | lib/go-atscfg/atscfg.go:670-685 | Permuted parameters give the same map |
| Params.ParamsToMap | lib/go-atscfg/atscfg.go:670-685 | The map has exactly the names that occur, each with its least value; there are as many warnings as parameters beyond the distinct names, and every value is kept or named in exactly one warning |
| Params.KeepsFirstIff | lib/go-atscfg/atscfg.go:665-685 | The first value of every name is kept, as documented, if and only if no later value of that name is less |
| Params.WarningsAsDocumentedIff | lib/go-atscfg/atscfg.go:665-685 | Every name with different values is warned about, as documented, and only those are if and only if no name is repeated with a single value |
| Params.SecondKept | lib/go-atscfg/atscfg.go:665-685 | Of the values 2, 1 of a name the second is kept |
| Params.RepetitionWarned | lib/go-atscfg/atscfg.go:665-685 | The values 1, 1 of a name give a warning |
| Params.FilterParams | lib/go-atscfg/atscfg.go:642-660 | Exactly the matching parameters remain, each as often as it occurred |
| Params.MatchesAll | lib/go-atscfg/atscfg.go:642-660 | Each criterion asks for its own field, an empty one for nothing, the last one for any other name; a parameter matches if it meets all four |
| Params.GenericProfileConfig | lib/go-atscfg/atscfg.go:406-420 | The text is the sorted concatenation of one line for each entry of the map |
| Params.ProfileText | lib/go-atscfg/plugindotconfig.go:66-74 | Filtering, mapping and rendering composed, after the header comment, with an empty line when there are no parameters |
| Params.RendersUnique | lib/go-atscfg/atscfg.go:406-420 | A map has one text |
| Params.SortedUnique | lib/go-atscfg/atscfg.go:417 | A sorted list is determined by what is in it |
| Params.LessIsLexicographic | lib/go-atscfg/atscfg.go:675 | A string is less than another exactly if it is a proper prefix of it or has the lesser character where they first differ |
| Params.TextSplits | lib/go-atscfg/atscfg.go:411-419 | Read line by line, the text has the map's lines in sorted order and nothing else |
| Params.LineReads | lib/go-atscfg/atscfg.go:413-415 | A line is the name without its number, the separator and the value |
| Params.EmptyText | lib/go-atscfg/plugindotconfig.go:66-74 | Without a parameter that matches, the text is the header comment and an empty line |
| Params.TrimExact | lib/go-atscfg/atscfg.go:422-432 | A name split at its last "__" loses the suffix exactly when the number parser accepts what follows |
| Params.TrimAsDocumentedIff | lib/go-atscfg/atscfg.go:422-432 | Such a name is trimmed as documented if and only if the number parser accepts the suffix exactly when it is digits |
| Params.TrimCases | lib/go-atscfg/atscfg.go:422-432 | Every name can be split so, or has no "__" and is left alone as documented |
| Params.TrimsMoreThanDigits | lib/go-atscfg/atscfg.go:422-432 | With a parser that accepts 1e5, a__1e5 becomes a |
| Layering.LayerProfiles | lib/go-atscfg/atscfg.go:1017-1053 | Exactly one parameter for each name and config file on a listed profile: the last such parameter of the earliest listed profile that has one |
| Layering.LayersConcat | lib/go-atscfg/atscfg.go:1036-1046 | Layering ps + qs is layering qs overridden by layering ps |
| Layering.LayeredExact | lib/go-atscfg/atscfg.go:1036-1046 | The layered map holds a key exactly when a listed profile has it, with the parameter in force |
| Layering.InForceUnique | lib/go-atscfg/atscfg.go:1017-1053 | At most one parameter is in force for a name and config file |
| Layering.GroupByProfile | lib/go-atscfg/atscfg.go:1028-1034 | Each profile's parameters, in their order |
| Layering.OnExact | lib/go-atscfg/atscfg.go:1028-1034 | A profile's list has all parameters assigned to it, in the order in which they are given |
| Cidr.CoveringNet | grove/grovetccfg/grovetccfg.go:1111-1118 | The mask loop terminates with bits in range; the network's address is masked; it contains every address between the two, in either order; and every network with both contains it, so no longer prefix has both |
| Cidr.NetConvex | grove/grovetccfg/grovetccfg.go:1111-1118 | A network contains every address between two of its own |
| Cidr.NetNested | grove/grovetccfg/grovetccfg.go:1111-1118 | Of two networks that share an address the one with the longer prefix lies inside the other |
| RetryCodes.PlainRoundTrip | lib/go-atscfg/parentabstraction.go:301-320 | Parsing a printed list gives it back, for every list, the empty one included |
| RetryCodes.QuotedRoundTripIff | lib/go-atscfg/parentabstraction.go:301-320 | With quotes it is given back if and only if it is nonempty |
| RetryCodes.ParseRetryResponses | lib/go-atscfg/parentabstraction.go:301-320 | Unquotes, skips blank pieces, and fails exactly when a piece is no integer |
| RetryCodes.CodesExact | lib/go-atscfg/parentabstraction.go:308-318 | A list is accepted exactly when every piece that is not blank is an integer, and gives those in order |
| RetryCodes.UnquoteExact | lib/go-atscfg/parentabstraction.go:301-307 | A value that starts with a quote loses it and its last character if anything is left; another is only trimmed |
| RetryCodes.IntsToStrs | lib/go-atscfg/parentabstraction.go:451-457 | Each integer in decimal, in order |
| Text.ParseItoa | lib/go-atscfg/parentabstraction.go:454 | Printing then parsing an integer is the identity |
| Text.SplitJoin | lib/go-atscfg/parentabstraction.go:443 | Splitting undoes joining when no piece contains the separator |
| Text.TrimmedEnds | lib/go-atscfg/parentabstraction.go:302 | No space is left at either end |
| Text.TrimmedMiddle | lib/go-atscfg/parentabstraction.go:302 | Only spaces at the ends are taken off |

## Left out

- HTTP transport, listeners, TLS, logging, statistics endpoints and the other plugins: plumbing around the modelled decisions.
- The caching rules of lib/go-rfc (may this be reused, may this be cached) and date parsing: parameters of the model.
- siphash, gob, the key-value store, JSON, URL and IP parsing: functions or an abstract map. Of the disk codec it is assumed that decoding undoes encoding and that no object's Size exceeds its encoded length.
- Keyed throttlers: unused by the program.
- The retry loop and the fan-in protocol are separate models: a fetch of `FanIn` is one `GetAndCache`, and `RetryingGet` takes as given for each attempt whether it joined another request and that one's object.
- FanIn.AlwaysFinishes: counts a fetch as one step that ends, because a request that never returns is cut off by the transport.
- GcAccounts.AccountingIff: sizes and maximum are below 2^63, as they are lengths of Go slices and a configured int.
- DiskCaches.RunNeverUnderCounts: assumes that the tracked size does not wrap around and that the store carries out deletions; `PutKeepsIff` and `EvictKeepsIff` show that both are needed.
- DiskCaches.DiskCache.ResetAfterRestart: runs alone, on an empty list as its documentation demands, and with less than 2^63 bytes stored, the range of the int it sums in.
- Operations of a disk cache are atomic. The memory cache is also modelled step by step, and the tiered cache with one step for each access to a tier of one key.
- DiskCaches.NeverResetsIff: for a maximum below 2^63; one of 2^64-1 is never exceeded.
- TierOverlaps.CoherentIff: disk writes succeed; `AddCoherentIff` is about those that fail.
- Rings.ConsistentHash.Insert: the weight is a real number where the source has a 64-bit float.
- `SimpleOrderedMapUInt64Node.Insert`, `Prev` and the iterator's `Key`: not used for selection.
- ByteRanges.ServedExactly: assumes that the Content-Length header is the length of the body, and leaves out suffix ranges combined with others, which the collapse does not treat as suffixes.
- ByteRanges.SuffixServedIff: is about a suffix range alone in its request.
- Sorting is an insertion sort in the model; the source calls the library's sort, and no result depends on how ties are broken.
- Topologies.LimitRounds: rounds the exact quotient; `FloatRounds` shows that the floating-point one is the same for maxima below 2^52, and larger ones are left out.
- Topologies.TierSharesConnections: assumes that a cachegroup is not listed twice with different types; placement that is malformed, on which generation stops, counts as not on the last tier.
- Topologies.GetOriginDistance: requires that first parents lead to an origin; on a cycle the source does not return. Tiers are stated for topologies without repeated cachegroups.
- Assigned edges and mids of services without a topology, and the text of the directives.
- TrafficStats.PointsConserved: InfluxDB is the only exporter, there is no shutdown, and a batch's precision is not carried along.
- TrafficStats.SendMetrics: requires a positive MaxPublishSize, since with zero the source loops for ever; the branch for a chunk's batch that cannot be created is left out, because `ChunkCreated` shows that it is not reached.
- Params.ParamsToMap: warnings hold the name and the ignored value, not the sentence around them.
- The text around addresses in makeACL, and ACL entries that are already networks.
- Duplicate removal and the other formats of parent.config, and the remaining per-file text generators: string concatenation with easy claims.
- Size, Capacity and Keys of the caches, and cache keys built from request lines.
