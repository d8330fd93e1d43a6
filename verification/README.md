# Sandbox gateway: verified models of its state machines

The gateway is mostly HTTP plumbing around a few self-contained state machines.
This project models those machines in Dafny and proves what they are for, over
every input, every run and every interleaving:

- the **backpressure buffer** (`Buffer*.dfy`), a bounded frame queue with a
  restartable drain goroutine, watermarks, stop, flush and resize;
- the **sliding-window limiter** (`SlidingWindow*.dfy`) and the three **token
  buckets** (`TokenBucket*.dfy`): in memory, as a Redis script with key expiry,
  and the one in the authentication middleware;
- the **LRU cache with expiry** (`Lru*.dfy`, `CacheCode.dfy`);
- the **template store** (`TemplateStore.dfy`, `Store*.dfy`, `Redis*.dfy`,
  `IndexIntegrity.dfy`) in memory and in Redis, the latter down to the commands
  on its keys, and the adapter operations that compose store calls
  (`AdapterHistory.dfy`);
- the **stream relay** (`Relay*.dfy`), the **backend router** (`Router*.dfy`),
  the **envelope codec** and the **process output stream** (`Envelope*.dfy`,
  `ProcessStream.dfy`, `Base64.dfy`), and **shell quoting** (`ShellQuote.dfy`).

Each component has three layers. A file of functions gives the meaning of every
operation on values; for the two concurrent components this is a labelled
transition system whose labels are the atomic actions of all goroutines. A file
of theorems proves properties of whole runs of those functions. A class holds
the operations as the source writes them, with loops and fields updated in
place, and every method is proved against the functions. The classes for the
buffer and the relay carry their trace as a ghost, and their invariant says that
the trace is a run of the transition system that ends in the object's state, so
every theorem about runs is a theorem about the object.

A second set of theorems says what the functions compute without using them: the
answers after any run are told from the positions of the earlier calls alone, with
the source's constants and conditions written out (`BufferWatermarks.dfy`,
`BufferProgress.dfy`, `SlidingWindowRule.dfy`, `TokenBucketExact.dfy`,
`LruEviction.dfy`, `StoreHistory.dfy`, `RedisHistory.dfy`, `AdapterHistory.dfy`,
`RelayHistory.dfy`, `RouterRules.dfy`; `Histories.dfy` has the induction they share).

Clocks, the sender's answers, the select's choices, the handler's answers, JSON
decoding and the identifiers that are generated at random are parameters. The
transition systems are the only concurrent part; methods of the classes describe
one goroutine's work while no other goroutine acts in between.

## What was found

- *Buffer.* Conservation, at most one drain goroutine and silence after Stop hold
  with Resize. Order holds without it. The send under the lock never blocks as
  long as every Resize leaves room above its high watermark for all frames
  stored, and after every Resize that does not, a writer can block for ever with
  the lock in its hands (`RoomyWriterNeverBlocks`, `ResizeIsSafeExactly`,
  `ResizeCanDeadlock`). Stop hands over everything accepted exactly from the
  states that `BufferStop.Safe` describes; to a caller who sees only the queue,
  an empty one is the only guarantee (`StopDeliversExactly`,
  `OnlyAnEmptyQueueIsCertain`, `StopCanStrandAFrame`).
- *Sliding window.* The rate bound holds exactly as long as no call is more than
  `windows` windows after the previous one, because catch-up is capped there
  (`SyncIsExact`), and then for exactly the lengths up to nine tenths of the window
  the constructor's comment promises it for (`LongestInterval`). On steady schedules
  it admits what a limiter that remembers every grant would (`AdmitsLikeAList`). A
  negative amount raises the bound (`NegativeRequestBreaksBound`).
- *Token buckets.* A request is granted exactly when it fits burst + rate * elapsed
  since every earlier request of its key (`GrantedExactly`). Cleanup is invisible exactly for maxAge * rate >= burst
  (`CleanupIsExact`). Negative amounts break the bounds here too
  (`NegativeAskBreaksBound`). The one second that the
  script adds to its expiry is what tolerates a second of clock disagreement.
- *Template stores.* They part exactly at a second claim of an alias
  (`SecondClaimDiverges`). Referential integrity holds in both all the same, and
  an operation breaks it exactly when it files a build identifier that another
  template owns (`IntegrityIsExact`, `RedisIntegrityIsExact`).
- *Relay.* The comment on Stop promises that frames in flight are drained. That
  fails when the loop has not been spawned or is over, when the client's queue is
  behind the drain point, and when both sides can still close by failing sends
  while a frame waits; `RelayStop.SafeToStop` is the exact condition at the
  signal (`StopDeliversExactly`, `StopCanOvertakeStart`).
- *Router.* Round-robin selection is fair exactly as long as the counter stays
  below 2^63, or ends on it with a number of slots that divides it; beyond, the
  conversion to a signed integer makes every selection take the first slot
  (`FairExactly`).
- *Codec.* A stream cut right behind an envelope's header reads as a clean end
  (`PartialEnvelope`, `CutStream`), and process output cut there is returned as
  complete (`CutOutput`). Above 4 GiB the byte-slice decoder compares
  lengths modulo 2^32 (`DecodersAgree`).

## Model

| member | source | states |
|---|---|---|
| BufferTheorems.AtMostOneDrain | internal/streaming/buffer.go:77-130 | in every state of every interleaving two drain goroutines in their loop are the same one, and then `running` is set |
| BufferTheorems.CountersConserved | internal/streaming/buffer.go:77-319 | received = sent + dropped + queued in all channels + in some goroutine's hand + failed in the drain loop, in every state of every interleaving, Resize included; so sent + dropped <= received |
| BufferTheorems.FramesConserved | internal/streaming/buffer.go:77-319 | the same for each single frame with multiplicity: none is duplicated or lost by any action |
| BufferTheorems.HandedInOrder | internal/streaming/buffer.go:187-303 | without Resize: accepted = handed to the sender + at most one frame in hand + queue, in order |
| BufferTheorems.WriterNeverBlocks | internal/streaming/buffer.go:77-100 | without Resize the queue never exceeds the high watermark, and a writer past the watermark test can always send |
| BufferTheorems.QuiescentAfterStop | internal/streaming/buffer.go:118-130 | after the first Stop returned no continuation hands over, accepts, counts as sent or counts as received anything more |
| BufferStop.StopDeliversExactly | internal/streaming/buffer.go:118-303 | in every state reached without Resize where Stop can be entered: every continuation up to its return hands over everything accepted, if and only if the queue is empty or the goroutine in its loop is where it cannot leave before the queue is empty |
| BufferStop.OnlyAnEmptyQueueIsCertain | internal/streaming/buffer.go:118-130 | for every queue contents up to the high watermark there is a reachable state with that queue in which Stop surely delivers if and only if the queue is empty |
| BufferWatermarks.SettingsOfConstruction | internal/streaming/buffer.go:52-72 | in every run without Resize: capacity as given or 1024, high watermark as given when in 1..capacity and the capacity otherwise, low as given when in 0..high and high / 2 otherwise |
| BufferWatermarks.SettingsOfLastResize | internal/streaming/buffer.go:151-174 | in every run the capacity and watermarks in force are those of its last Resize, by the same rule with the capacity before it as default |
| BufferWatermarks.LowInForce | internal/streaming/buffer.go:161-169 | in every reachable state the low watermark is the one the last Resize or else the construction asked for, when that lies in 0..high, and high / 2 otherwise |
| BufferWatermarks.LeavesAtLow | internal/streaming/buffer.go:226-232 | a drain goroutine past a send leaves exactly when at most that many frames are queued, and goes on otherwise |
| BufferWatermarks.DropsAtHigh | internal/streaming/buffer.go:85-90 | a Write drops its frame exactly when the queue has reached the high watermark, and counts the drop |
| BufferWatermarks.OnlyStartTakesAContext | internal/streaming/buffer.go:97-114 | only a goroutine that Start spawned can be cancelled |
| BufferProgress.StopDecides | internal/streaming/buffer.go:77-130 | with the lock free, a Write enters exactly before the first Stop of the run and is refused exactly after it, the first Stop signals once and every later one returns at once |
| BufferProgress.EmptyLeaves | internal/streaming/buffer.go:187-205 | a goroutine that measures an empty queue leaves, and otherwise waits on the current channel |
| BufferProgress.WaitsOnlyStarved | internal/streaming/buffer.go:187-286 | with the lock free, a goroutine that is not over can step, if and only if it does not wait on an empty channel without stop or cancellation |
| BufferResize.RoomyWriterNeverBlocks | internal/streaming/buffer.go:77-174 | in every run whose Resizes leave room above the new high watermark for all stored frames, a writer past the watermark test can send in every state |
| BufferResize.ResizeIsSafeExactly | internal/streaming/buffer.go:151-174 | after a Resize from any state reached without one, no continuation blocks a writer, if and only if the buffer is stopped or new high watermark + queue length <= new capacity, defaults applied; and some continuation deadlocks if and only if not |
| BufferTheorems.StopCanStrandAFrame | internal/streaming/buffer.go:226-232 | a run in which Stop returns and an accepted frame was never handed over |
| BufferResize.ResizeCanDeadlock | internal/streaming/buffer.go:151-174 | every Resize, from an ordered state that is not stopped, with new high watermark + queue length > new capacity has a continuation after which, in all further runs, a writer keeps the lock and never completes its send |
| BufferInvariants.ControlStep | internal/streaming/buffer.go:105-130 | every action keeps: `running` counts the goroutine in its loop, the wait group counts the live ones, flags are set in order |
| BufferInvariants.ConservedStep | internal/streaming/buffer.go:187-319 | every action keeps the weighted conservation law, for every weight on frames |
| BufferInvariants.OrderedStep | internal/streaming/buffer.go:77-100 | every action but Resize keeps order and capacity |
| BufferCode.BackpressureBuffer.constructor | internal/streaming/buffer.go:52-72 | the defaulted watermarks and an empty run |
| BufferCode.BackpressureBuffer.Write | internal/streaming/buffer.go:77-100 | refused, dropped or queued with a spawn, as a run of the machine; the answer is an error exactly on a stopped buffer |
| BufferCode.BackpressureBuffer.Start | internal/streaming/buffer.go:105-114 | spawns unless running or stopped, and otherwise changes nothing |
| BufferCode.BackpressureBuffer.SignalStop | internal/streaming/buffer.go:118-128 | the first Stop sets both stop flags and nothing else, a later one changes nothing |
| BufferCode.BackpressureBuffer.ResizeTo | internal/streaming/buffer.go:151-174 | the defaulted capacity and watermarks, a new empty channel and a forwarder from the old to the new one |
| BufferCode.BackpressureBuffer.DrainOnce | internal/streaming/buffer.go:199-232 | one frame from the head of the queue is handed over, counted as sent exactly when the send succeeded and recorded as failed otherwise; the loop goes on exactly on success above the low watermark |
| BufferCode.BackpressureBuffer.DrainLoop | internal/streaming/buffer.go:187-286 | from spawn to end: a prefix of the queue handed over in order, each frame counted as sent but at most one failed one, the end only on an empty queue, a failed send or the low watermark, everything flushed under a stop signal |
| BufferCode.BackpressureBuffer.FlushRemaining | internal/streaming/buffer.go:289-303 | the whole queue handed over in order and counted as sent, whatever the sender answers |
| BufferCode.BackpressureBuffer.ForwardItems | internal/streaming/buffer.go:306-319 | the old channel emptied, the oldest frames that fit appended in order, each other frame one drop |
| SlidingWindowBounds.RunRingForm | internal/ratelimit/sliding_window.go:98-128 | after m rotation steps of any run slot (m - j) mod windows holds start t0 + max(0, m - j) * size and the amounts filed under window m - j, and the max-scan returns m mod windows |
| SlidingWindowBounds.TotalIsSlotSum | internal/ratelimit/sliding_window.go:132-142 | after advance the cutoff test leaves out no non-empty slot |
| SlidingWindowBounds.SlotsWithinLimit | internal/ratelimit/sliding_window.go:73-142 | whatever the clock does, all slots together never hold more than the limit |
| SlidingWindowBounds.RateBound | internal/ratelimit/sliding_window.go:73-142 | in a synced run the amounts admitted in any interval of length up to (windows - 1) * size sum to at most the limit |
| SlidingWindowBounds.LongestInterval | internal/ratelimit/sliding_window.go:33-65 | over all synced runs of a limiter made for `limit` and `window`, any interval of up to a length admits at most `limit` (1 for limit <= 0), if and only if the length is at most 9 * (window / 10), or 0 for a window below 10 ns; the whole window that the constructor's comment promises is one tenth too long |
| SlidingWindowBounds.GapsAreSynced | internal/ratelimit/sliding_window.go:98-116 | calls at most windows * size apart are synced |
| SlidingWindowBounds.SyncIsExact | internal/ratelimit/sliding_window.go:108-111 | after any synced run, a call time keeps the bound for every possible second call if and only if it is at most `windows` windows ahead |
| SlidingWindowBounds.LagBreaksRateBound | internal/ratelimit/sliding_window.go:108-111 | past that, two whole limits are admitted within (windows - 1) * size |
| SlidingWindowBounds.NegativeRequestBreaksBound | internal/ratelimit/sliding_window.go:73-87 | a negative amount is admitted and lets the next request exceed the limit |
| SlidingWindowRule.AdmitsLikeAList | internal/ratelimit/sliding_window.go:33-142 | on every schedule whose clock does not go back and whose calls are at most the span apart, the ring admits exactly what a limiter admits that keeps the list of everything granted and adds up the current tenth of the window and the nine before it |
| SlidingWindowRule.CountsLikeAList | internal/ratelimit/sliding_window.go:90-142 | on such schedules Count is the sum over that list |
| SlidingWindow.SlidingWindowLimiter.constructor | internal/ratelimit/sliding_window.go:36-65 | the ring of `New`, with the millisecond fallback |
| SlidingWindow.SlidingWindowLimiter.CurrentWindow | internal/ratelimit/sliding_window.go:119-128 | the first slot with the latest start |
| SlidingWindow.SlidingWindowLimiter.AdvanceTo | internal/ratelimit/sliding_window.go:98-116 | in place, the rotation by min(elapsed / size, windows) steps |
| SlidingWindow.SlidingWindowLimiter.Total | internal/ratelimit/sliding_window.go:132-142 | the sum of the slots that start after the cutoff |
| SlidingWindow.SlidingWindowLimiter.Allow | internal/ratelimit/sliding_window.go:73-87 | admits exactly when the total after advance plus n is within the limit, and files n under the current slot |
| SlidingWindow.SlidingWindowLimiter.Count | internal/ratelimit/sliding_window.go:90-95 | the total after advance |
| LruTheorems.RunSound | internal/cache/cache.go:39-143 | every run keeps keys distinct and at most maxSize entries |
| LruTheorems.LargerCacheIncludesSmaller | internal/cache/cache.go:55-143 | on the same operations the smaller cache's recency list is a subsequence of the larger one's, entries with equal value and expiry, and every hit of the smaller is the same hit of the larger |
| LruTheorems.RunAgrees | internal/cache/cache.go:55-143 | every entry agrees with a plain timestamped map of the same operations |
| LruTheorems.HitIsLastSet | internal/cache/cache.go:55-72 | a hit returns the last value set, neither deleted nor expired |
| LruTheorems.HitIsCertain | internal/cache/cache.go:55-104 | Get hits when the key is unexpired in the plain map and fewer than maxSize distinct other keys were set or hit since its last set or hit |
| LruEviction.HitExactly | internal/cache/cache.go:55-143 | on every run, Get hits, if and only if the last Set of the key is neither deleted nor expired and, since its last set or hit, fewer than maxSize other keys were ever held in front of it; keys deleted, swept or found expired by Get do not count |
| LruEviction.ExpiredGetIsDelete | internal/cache/cache.go:55-72 | after any run, Get of an expired entry answers nothing and leaves the cache that Delete leaves: one entry less, the others as they were |
| LruEviction.CleanupIs | internal/cache/cache.go:124-137 | after any run, Cleanup leaves exactly the entries whose expiry is not before now |
| CacheCode.Cache.constructor | internal/cache/cache.go:39-52 | size 1000 and lifetime 30 s by default, empty |
| CacheCode.Cache.MapIsList | internal/cache/cache.go:26-36 | map and list are in bijection: the map finds a key exactly when the list holds it, with the same entry |
| CacheCode.Cache.Get | internal/cache/cache.go:55-72 | the answer and the new recency list, expired entries removed |
| CacheCode.Cache.SetWithTTL | internal/cache/cache.go:80-104 | overwritten and moved to the front, or pushed and evicted to maxSize; bijection and bound kept |
| CacheCode.Cache.EvictOverflow | internal/cache/cache.go:100-103 | exactly the least recent entries beyond maxSize are removed |
| CacheCode.Cache.Delete | internal/cache/cache.go:107-114 | the key's entry is removed and the order of the others kept |
| CacheCode.Cache.Cleanup | internal/cache/cache.go:124-137 | the back-to-front sweep removes exactly the expired entries |
| CacheCode.Cache.RemoveLocked | internal/cache/cache.go:139-143 | removed from list and map together |
| CacheCode.Cache.Len | internal/cache/cache.go:117-121 | the number of entries, at most maxSize |
| TokenBucketTheorems.AgreeingStores | internal/ratelimit/limiter.go:53-82 | two stores whose buckets refill to the same level decide alike on every later call sequence |
| TokenBucketTheorems.EagerIsLazy | internal/ratelimit/limiter.go:107-126 | a full bucket made early decides like one made at the first request |
| TokenBucketTheorems.CleanupIsInvisible | internal/ratelimit/limiter.go:129-141 | cleanups with maxAge * rate >= burst change no decision of any run |
| TokenBucketTheorems.CleanupIsExact | internal/ratelimit/limiter.go:102-141 | no run of one-token requests shows whether cleanups with maxAge run in between, if and only if maxAge * rate >= burst |
| TokenBucketTheorems.ImpatientCleanupShows | internal/ratelimit/limiter.go:102-141 | for every smaller maxAge there is a run of one-token requests whose decisions a cleanup changes |
| TokenBucketTheorems.RedisIsLimiter | internal/ratelimit/redis.go:47-122 | the script with its key expiry decides every call sequence like the in-memory limiter, with up to one second of clock disagreement |
| TokenBucketTheorems.RedisRefines | internal/ratelimit/redis.go:47-83 | the same from any pair of agreeing stores and for any disagreement the expiry covers |
| TokenBucketTheorems.WideSkewShows | internal/ratelimit/redis.go:75-82 | for every clock disagreement that the expiry does not cover there is a run on which they differ |
| TokenBucketTheorems.GrantedWithinBound | internal/ratelimit/limiter.go:53-82 | after any run, the tokens granted in any interval, less those given back by negative requests, are at most burst + rate * length |
| TokenBucketExact.GrantedExactly | internal/ratelimit/limiter.go:53-126 | on every run, a request is granted, if and only if it is within the burst and, with what was granted to its key since each earlier request of the key, within burst + rate * elapsed |
| TokenBucketExact.RefusedLeavesNoTrace | internal/ratelimit/limiter.go:59-64 | a refused request, left out of any run, changes no other answer |
| TokenBucketExact.CleanupKeeps | internal/ratelimit/limiter.go:129-141 | after any run, Cleanup keeps exactly the keys with a request at most maxAge old |
| TokenBucketExact.PerMinute | internal/auth/auth.go:254-293 | the middleware's limiter gains requestsPerMinute tokens each minute up to burstSize |
| TokenBucketExact.GrantedPerMinute | internal/auth/auth.go:254-293 | after any run, it grants a key at most burstSize + requestsPerMinute * minutes in any number of minutes |
| TokenBucketExact.TtlIs | internal/ratelimit/redis.go:47-83 | the expiry given to the key is burst / rate rounded up to seconds, plus one |
| TokenBucketExact.ScriptClockBack | internal/ratelimit/redis.go:47-83 | a clock that went back gives no tokens and takes none, and is stored |
| TokenBucketTheorems.TokensWithinBurst | internal/ratelimit/limiter.go:53-82 | with requests for non-negative amounts tokens stay within 0..burst |
| TokenBucketTheorems.NegativeAskBreaksBound | internal/ratelimit/limiter.go:53-64 | every negative request stores more than the burst in a full bucket, and between two requests at one instant lets more than the burst through |
| TokenBucket.Limiter.constructor | internal/ratelimit/limiter.go:32-45 | clamped rate and burst, a full bucket |
| TokenBucket.Limiter.Refill | internal/ratelimit/limiter.go:74-82 | the level at `now`, capped at burst |
| TokenBucket.Limiter.AllowN | internal/ratelimit/limiter.go:53-64 | takes n tokens exactly when the refilled level holds them |
| TokenBucket.RateLimiter.GetLimiter | internal/ratelimit/limiter.go:107-126 | the key's limiter, made full if absent, every other one untouched |
| TokenBucket.RateLimiter.Allow | internal/ratelimit/limiter.go:102-104 | one token from the key's bucket, every other bucket untouched |
| TokenBucket.RateLimiter.Cleanup | internal/ratelimit/limiter.go:129-141 | exactly the limiters last used before now - maxAge are dropped |
| TokenBucket.RedisServer.Eval | internal/ratelimit/redis.go:47-83 | the script on the stored hash: decision, written hash and deadline |
| TokenBucket.AuthRateLimiter.Allow | internal/auth/auth.go:254-293 | the same take as the limiter at requestsPerMinute / 60, or always allowed when disabled |
| StoreEquivalence.StepsAgree | internal/adapter/opensandbox/memory_store.go:61-305 | from related stores every operation but a second alias claim gives equal replies and related stores |
| StoreEquivalence.StoresEquivalent | internal/adapter/opensandbox/redis_store.go:140-440 | on every run without second claims all replies are equal, and forward and reverse alias indexes are exact inverses in both stores |
| StoreEquivalence.SecondClaimDiverges | internal/adapter/opensandbox/redis_store.go:323-333 | adding an alias keeps the stores' answers to its resolution equal if and only if no other template holds it |
| StoreEquivalence.InverseStep | internal/adapter/opensandbox/memory_store.go:190-247 | every operation but a second claim keeps the alias indexes inverse |
| StoreIntegrity.ReferentialIntegrity | internal/adapter/opensandbox/adapter.go:680-798 | after every run of adapter operations whose build IDs are fresh or refiled under their template, each resolving alias names an existing template that lists it, each template's build is filed under it, builds are the disjoint union of the per-template sets, and what is not a template owns nothing |
| StoreIntegrity.IntegrityIsExact | internal/adapter/opensandbox/adapter.go:680-798 | every single adapter operation keeps that, if and only if the build ID it files is fresh or already filed under the same template |
| StoreIntegrity.DeletedLeavesNothing | internal/adapter/opensandbox/adapter.go:727-733 | a deleted template leaves no alias, tag or build, also where an alias had been claimed twice |
| IndexIntegrity.FileTwice | internal/adapter/opensandbox/memory_store.go:137-148 | a build filed under a second template breaks the partition of builds |
| RedisIntegrity.AdaptersAgree | internal/adapter/opensandbox/adapter.go:680-798 | adapter runs over the two stores get equal replies and stay related while no alias is claimed twice |
| RedisIntegrity.RedisReferentialIntegrity | internal/adapter/opensandbox/redis_store.go:140-440 | the same integrity of the Redis store on every such run, second claims of an alias included |
| RedisIntegrity.RedisIntegrityIsExact | internal/adapter/opensandbox/adapter.go:680-798 | over Redis too, an operation keeps integrity if and only if its build ID is fresh or already filed under the same template |
| RedisIntegrity.RedisDeletedLeavesNothing | internal/adapter/opensandbox/adapter.go:727-733 | a template deleted from Redis leaves no alias, tag or build, and no alias resolves to it |
| StoreHistory.TemplateByPosition | internal/adapter/opensandbox/memory_store.go:61-133 | after any run, GetTemplate returns the entry of the first creation since the last deletion, with every later update that succeeded applied in turn |
| StoreHistory.PresentByPosition | internal/adapter/opensandbox/memory_store.go:61-133 | and it finds a template, if and only if a creation has no deletion behind it |
| StoreHistory.TemplatesListed | internal/adapter/opensandbox/memory_store.go:78-104 | ListTemplates returns exactly the entries that GetTemplate finds |
| StoreHistory.TagsByPosition | internal/adapter/opensandbox/memory_store.go:251-305 | after any run, ListTags returns a tag, if and only if a SaveTag saved it under the template and no later call saved that name there, deleted it or deleted the tags of the template |
| StoreHistory.AliasesByPosition | internal/adapter/opensandbox/memory_store.go:190-247 | ListAliases returns an alias, if and only if an AddAlias added it and no later call removed it from that template or deleted its aliases |
| StoreHistory.ResolvesByPosition | internal/adapter/opensandbox/memory_store.go:190-247 | ResolveAlias returns the template whose AddAlias claimed the alias last, if and only if no later call took it from any template that listed it |
| StoreHistory.BuildByPosition | internal/adapter/opensandbox/memory_store.go:137-186 | GetBuild returns a build, if and only if it was saved and since then neither replaced nor deleted with the builds of a template that kept it |
| StoreHistory.BuildsByPosition | internal/adapter/opensandbox/memory_store.go:161-186 | ListBuilds returns exactly the builds saved under the template since its builds were last deleted that GetBuild still finds |
| StoreHistory.RefusalsByQuery | internal/adapter/opensandbox/memory_store.go:61-305 | each call is refused with its error exactly when the query for what it needs answers so before it |
| RedisHistory.RedisAnswersAlike | internal/adapter/opensandbox/redis_store.go:140-440 | on every run, second claims included, Redis answers all queries for templates, builds and tags as the memory store does |
| RedisHistory.RedisAliasesByPosition | internal/adapter/opensandbox/redis_store.go:323-388 | on every run Redis lists the aliases by the same positions as the memory store |
| RedisHistory.RedisResolvesByPosition | internal/adapter/opensandbox/redis_store.go:323-388 | on every run Redis resolves an alias to the template it was first added to since it was last taken from a template that listed it |
| RedisHistory.UnresolvedByPosition | internal/adapter/opensandbox/redis_store.go:359-388 | and to none when there is no such addition |
| AdapterHistory.TemplateShown | internal/adapter/opensandbox/adapter.go:657-773 | after any requests, GetTemplate shows name, CPU count, memory and time of the first creation since the last deletion, and the build of the last rebuild since |
| AdapterHistory.FieldIsLastSet | internal/adapter/opensandbox/adapter.go:680-773 | Dockerfile, image and start command stored are those of the last rebuild since then that brought one, else of the creation, whose image defaults to python:3.11-slim |
| AdapterHistory.UnknownShown | internal/adapter/opensandbox/adapter.go:657-672 | a template never created or deleted since is shown under its identifier, with no build |
| AdapterHistory.Birth | internal/adapter/opensandbox/adapter.go:680-733 | every template created and not deleted since has a first creation since its last deletion, so the statements above cover it |
| AdapterHistory.BuildShown | internal/adapter/opensandbox/adapter.go:680-780 | GetBuildStatus answers "ready", if and only if the build was made for a template and no template that kept it was deleted since, and not found otherwise |
| AdapterHistory.TagsShown | internal/adapter/opensandbox/adapter.go:1115-1144 | a tag is shown, if and only if it was put on the template while that existed, and no later request put one of that name, took it off or deleted the template |
| AdapterHistory.AliasesListed | internal/adapter/opensandbox/adapter.go:727-799 | an alias is listed, if and only if it was given to the template while that existed and not taken since |
| AdapterHistory.AliasResolves | internal/adapter/opensandbox/adapter.go:727-799 | an alias stands for the template that claimed it last, if and only if it was not taken since from any template that had it |
| RedisKeyspace.KeysDistinct | internal/adapter/opensandbox/redis_store.go:116-118 | two keys of one store are equal only if they stand for the same table or set, whatever the prefix and the identifiers |
| RedisKeyspace.ReadSlot | internal/adapter/opensandbox/redis_store.go:157-170 | reading a key gives the hash or set the store keeps there, never a value of the wrong type |
| RedisKeyspace.WriteSlot | internal/adapter/opensandbox/redis_store.go:238-252 | writing one key leaves every other table and set of the store as it was |
| StoreCode.MemoryTemplateStore.CreateTemplate | internal/adapter/opensandbox/memory_store.go:61-76 | inserts, or refuses an existing ID |
| StoreCode.MemoryTemplateStore.UpdateTemplate | internal/adapter/opensandbox/memory_store.go:106-122 | replaces the entry only when the update function succeeds |
| StoreCode.MemoryTemplateStore.DeleteTemplate | internal/adapter/opensandbox/memory_store.go:124-133 | removes, or reports a missing template |
| StoreCode.MemoryTemplateStore.SaveBuild | internal/adapter/opensandbox/memory_store.go:137-148 | stored and filed under the template |
| StoreCode.MemoryTemplateStore.ListBuilds | internal/adapter/opensandbox/memory_store.go:162-175 | exactly the stored builds filed under the template |
| StoreCode.MemoryTemplateStore.DeleteBuilds | internal/adapter/opensandbox/memory_store.go:177-186 | every build filed under the template removed, in place |
| StoreCode.MemoryTemplateStore.AddAlias | internal/adapter/opensandbox/memory_store.go:190-201 | listed once; the last claim wins the reverse index |
| StoreCode.MemoryTemplateStore.RemoveAlias | internal/adapter/opensandbox/memory_store.go:203-215 | the first occurrence cut from the list, the reverse entry removed |
| StoreCode.MemoryTemplateStore.DeleteAliases | internal/adapter/opensandbox/memory_store.go:238-247 | all reverse entries of the listed aliases removed |
| StoreCode.MemoryTemplateStore.SaveTag | internal/adapter/opensandbox/memory_store.go:251-265 | replaces the tag of that name or appends |
| StoreCode.MemoryTemplateStore.DeleteTag | internal/adapter/opensandbox/memory_store.go:280-297 | cuts the tag of that name, or reports it missing |
| StoreCode.MemoryTemplateStore.DeleteTags | internal/adapter/opensandbox/memory_store.go:299-305 | the template's tags removed |
| RedisCode.RedisTemplateStore.constructor | internal/adapter/opensandbox/redis_store.go:108-113 | the default key prefix, and an empty keyspace that stands for the empty store |
| RedisCode.RedisTemplateStore.CreateTemplate | internal/adapter/opensandbox/redis_store.go:140-155 | HSETNX on the template hash: the keyspace goes on standing for the store, which gains the entry or refuses an existing ID |
| RedisCode.RedisTemplateStore.GetTemplate | internal/adapter/opensandbox/redis_store.go:157-170 | HGET finds exactly the stored entry |
| RedisCode.RedisTemplateStore.ListTemplates | internal/adapter/opensandbox/redis_store.go:172-192 | the loop over HGETALL returns exactly the stored entries |
| RedisCode.RedisTemplateStore.UpdateTemplate | internal/adapter/opensandbox/redis_store.go:194-223 | HGET, the update, HSET: the entry is replaced only when the update succeeds |
| RedisCode.RedisTemplateStore.DeleteTemplate | internal/adapter/opensandbox/redis_store.go:225-234 | HDEL removes the entry or its count reports a missing one |
| RedisCode.RedisTemplateStore.SaveBuild | internal/adapter/opensandbox/redis_store.go:238-252 | HSET and SADD on two keys are one step of the store |
| RedisCode.RedisTemplateStore.GetBuild | internal/adapter/opensandbox/redis_store.go:254-267 | HGET finds exactly the stored build |
| RedisCode.RedisTemplateStore.ListBuilds | internal/adapter/opensandbox/redis_store.go:269-299 | SMEMBERS and HMGET return exactly the stored builds filed under the template, missing ones skipped |
| RedisCode.RedisTemplateStore.DeleteBuilds | internal/adapter/opensandbox/redis_store.go:301-319 | SMEMBERS, HDEL and DEL are one step of the store; an empty set changes nothing |
| RedisCode.RedisTemplateStore.AddAlias | internal/adapter/opensandbox/redis_store.go:323-333 | HSETNX and SADD: the first claim keeps the reverse entry, every claimant lists the alias |
| RedisCode.RedisTemplateStore.RemoveAlias | internal/adapter/opensandbox/redis_store.go:335-348 | SREM of an absent member changes nothing and is reported, otherwise the reverse entry goes too |
| RedisCode.RedisTemplateStore.ListAliases | internal/adapter/opensandbox/redis_store.go:350-357 | SMEMBERS returns exactly the listed aliases |
| RedisCode.RedisTemplateStore.ResolveAlias | internal/adapter/opensandbox/redis_store.go:359-368 | HGET finds exactly the reverse entry |
| RedisCode.RedisTemplateStore.DeleteAliases | internal/adapter/opensandbox/redis_store.go:370-388 | SMEMBERS, HDEL and DEL are one step of the store |
| RedisCode.RedisTemplateStore.SaveTag | internal/adapter/opensandbox/redis_store.go:392-402 | HSET on the template's own hash replaces or adds the tag of that name |
| RedisCode.RedisTemplateStore.ListTags | internal/adapter/opensandbox/redis_store.go:404-420 | the loop over HGETALL returns exactly the template's tags |
| RedisCode.RedisTemplateStore.DeleteTag | internal/adapter/opensandbox/redis_store.go:422-432 | HDEL removes the tag, and with the last one the key, or reports a missing one |
| RedisCode.RedisTemplateStore.DeleteTags | internal/adapter/opensandbox/redis_store.go:434-440 | DEL removes the template's tags |
| StoreCode.Adapter.CreateTemplate | internal/adapter/opensandbox/adapter.go:680-723 | the composed store calls, a name required, an existing ID refused before any build or alias is written |
| StoreCode.Adapter.GetTemplate | internal/adapter/opensandbox/adapter.go:657-672 | the stored template, or one made up from the identifier |
| StoreCode.Adapter.DeleteTemplate | internal/adapter/opensandbox/adapter.go:727-733 | builds, aliases and tags removed with the template |
| StoreCode.Adapter.TriggerBuild | internal/adapter/opensandbox/adapter.go:740-773 | a new build filed and made current, only for an existing template |
| StoreCode.Adapter.CreateAlias | internal/adapter/opensandbox/adapter.go:785-794 | added only to an existing template |
| StoreCode.Adapter.DeleteAlias | internal/adapter/opensandbox/adapter.go:797-799 | removed, or refused when the template does not list it |
| StoreCode.Adapter.CreateTag | internal/adapter/opensandbox/adapter.go:1115-1134 | saved only for an existing template and a non-empty name |
| RelayTheorems.RunInv | internal/streaming/relay.go:142-207 | every run keeps the order, drain-progress and control invariants |
| RelayTheorems.ForwardsInOrder | internal/streaming/relay.go:81-195 | in each direction accepted = forwarded + at most one held + queued, in order, keep-alives aside; queues within capacity |
| RelayTheorems.DrainsBeforeEnding | internal/streaming/relay.go:182-193 | when the loop ends through stop or cancel, every frame accepted before that signal has been handed over |
| RelayTheorems.MarkIsSignalTime | internal/streaming/relay.go:121-132 | in every run in which a signal was given, the mark used in these statements is the accepted counts at the point of the run where it was given |
| RelayTheorems.StopWaitsForLoop | internal/streaming/relay.go:121-132 | Stop returns only after a spawned loop has ended, and then, if it ended by stop, after the drain |
| RelayStop.StopDeliversExactly | internal/streaming/relay.go:93-207 | in every reachable state where the stop signal can be given: every continuation up to the return of Stop hands over everything accepted before the signal, if and only if the state is safe to stop, a condition on the queues, the loop's place and the closed flags at the signal |
| RelayTheorems.StopCanOvertakeStart | internal/streaming/relay.go:93-117 | a run in which Stop overtakes Start and a frame is left |
| RelayHistory.ClosedExactly | internal/streaming/relay.go:142-178 | in every run a destination counts as closed, if and only if a frame forwarded to it outside a drain has failed |
| RelayHistory.EndsWhenClosed | internal/streaming/relay.go:156-159 | at the head of the loop with both closed, it ends and forwards nothing more |
| RelayHistory.ReadyCases | internal/streaming/relay.go:160-193 | otherwise each case of the select is possible exactly when its queue is not empty, its signal is in the run, or a tick is due |
| RelayHistory.BeatsAreTicks | internal/streaming/relay.go:179-181 | every tick gives one keep-alive to the client and then one to the backend, and nothing else gives any |
| RelayHistory.AcceptsBelow256 | internal/streaming/relay.go:50-88 | a frame is accepted, if and only if fewer than 256 of its side wait for the loop |
| RelayHistory.StartsOnce | internal/streaming/relay.go:93-132 | a run has at most one Start that is not refused, none behind a stop signal, at most one loop and at most one Stop that signals |
| RelayCode.Relay.SendFrame | internal/streaming/relay.go:81-88 | accepted exactly when the queue has room, and nothing else changes |
| RelayCode.Relay.Start | internal/streaming/relay.go:93-117 | refused exactly when started or stopped before, and then nothing changes; otherwise the loop is spawned and nothing else changes |
| RelayCode.Relay.SignalStop | internal/streaming/relay.go:121-130 | the first Stop sets both flags and the mark of accepted counts and nothing else, a later one changes nothing |
| RelayCode.Relay.DrainChannel | internal/streaming/relay.go:198-207 | everything queued on that side forwarded in order, the other side untouched |
| RelayCode.Relay.ForwardOne | internal/streaming/relay.go:162-178 | the head frame goes to the destination, a failed send closes the destination's side, and nothing else changes |
| RelayCode.Relay.Shutdown | internal/streaming/relay.go:184-193 | both queues forwarded in full and in order, then the loop is over |
| RelayCode.Relay.Turn | internal/streaming/relay.go:156-195 | one turn of the loop: the frame it forwards or the two keep-alives, or the full drain of both queues, and whether the loop goes on |
| RouterTheorems.LatestVerdictRules | internal/routing/router.go:116-165 | after any history the flag is the kind of the most recent streak that reached its threshold |
| RouterTheorems.NoVerdictKeepsFlag | internal/routing/router.go:66-77 | without such a streak the flag is what it started as |
| RouterTheorems.HealthByHistory | internal/routing/router.go:116-165 | over any history of checks of a backend: healthy when never checked; without such a streak, healthy if and only if registered at construction; else as the latest streak says; the thresholds default to 3 failures and 2 successes |
| RouterTheorems.CountersAreStreak | internal/routing/router.go:140-163 | the two counters are the length of the current streak and zero |
| RouterTheorems.FailoverFindsHealthy | internal/routing/router.go:168-215 | with failover, selection returns a healthy registered backend whenever the chain holds one |
| RouterTheorems.FailoverIsExact | internal/routing/router.go:290-313 | where no healthy rule answers first, it does so if and only if the chain holds one |
| RouterTheorems.TimesIsQuotient | internal/routing/router.go:247-287 | how often a slot is taken by any stretch of counter values, in closed form |
| RouterTheorems.RoundRobinFair | internal/routing/router.go:247-287 | any k * n consecutive selections take each of n slots exactly k times |
| RouterTheorems.FairExactly | internal/routing/router.go:247-287 | for counters below 2^64, k rounds over n slots take each slot k times, if and only if k = 0, n = 1, the counter ends below 2^63, or it ends on 2^63 and n divides 2^63 |
| RouterTheorems.WeightedAnswers | internal/routing/router.go:168-215 | the i-th answer to a series of unclaimed requests is the slot of counter value c + i + 1 |
| RouterTheorems.SharesAreExact | internal/routing/router.go:168-287 | over k rounds of requests each backend is the answer exactly k times the number of eligible slots that hold it |
| RouterRules.ClaimAnswers | internal/routing/router.go:168-244 | the answer is the backend of the first place, strategy by strategy and rule by rule, where strategy name, request field and rule field agree and the backend is registered, when that backend is healthy and also when it is not and failover is off |
| RouterRules.UnhealthyClaimFailsOver | internal/routing/router.go:168-190 | with failover on and that backend unhealthy, the chain answers |
| RouterRules.FailoverAnswers | internal/routing/router.go:290-313 | the chain, or all listed backends when it is empty, answers by position: its first registered and healthy backend, else its first, else an error |
| RouterRules.SlotPlaces | internal/routing/router.go:251-272 | the round-robin slots are the backends of exactly the healthy registered rules of weighted strategies, in the order of the configuration |
| RouterRules.UnclaimedAnswers | internal/routing/router.go:168-215 | without a claim: the next slot under the weighted strategy if there is one, else the chain under the priority strategy or with failover, else the fallback |
| RouterRules.FallbackAnswers | internal/routing/router.go:194-215 | the fallback is the default backend if registered, else the first listed healthy one, else the first listed, else an error |
| Router.Router.constructor | internal/routing/router.go:66-85 | every registered backend starts healthy with empty streaks |
| Router.Router.CheckAllBackends | internal/routing/router.go:116-165 | each checked record takes one step of the hysteresis, all others unchanged |
| Router.Router.TryStrategies | internal/routing/router.go:218-244 | the first rule that applies and names a registered backend |
| Router.Router.CollectSlots | internal/routing/router.go:251-272 | the healthy registered slots of the weighted strategies, in order |
| Router.Router.TryWeightedRoundRobin | internal/routing/router.go:247-287 | the counter bumped once and its slot returned; nothing changes without slots |
| Router.Router.TryFailover | internal/routing/router.go:290-313 | the first usable backend of the chain, else the chain's first |
| Router.Router.SelectBackend | internal/routing/router.go:168-215 | the composed decision and the counter |
| EnvelopeTheorems.RoundTrip | internal/envd/codec.go:45-84 | decoding an encoding followed by any bytes gives the envelope and leaves the bytes, if and only if the payload is at most 32 MiB |
| EnvelopeTheorems.DecodersAgree | internal/envd/codec.go:60-110 | the two decoders differ if and only if the 32-bit comparison wraps below a length that is there; never under 4 GiB; accepted envelopes are equal |
| EnvelopeTheorems.EndBit | internal/envd/codec.go:118-120 | an envelope ends the stream, if and only if bit 0x02 of its flags is set |
| EnvelopeTheorems.WireBytes | internal/envd/codec.go:45-57 | the encoding byte by byte: flags, length modulo 2^32 with the highest byte first, payload |
| EnvelopeTheorems.HeaderBytes | internal/envd/codec.go:60-110 | for any five header bytes and any bytes behind them, the length they announce and what both decoders then return: too large above 32 MiB, truncated, or the envelope and the rest |
| EnvelopeTheorems.ShortBytes | internal/envd/codec.go:60-95 | fewer than five bytes: end of stream for none, truncated otherwise |
| EnvelopeTheorems.ParseOver | internal/envd/codec.go:60-84 | encodings followed by a tail parse to the envelopes and then to the tail's |
| EnvelopeTheorems.StreamRoundTrip | internal/envd/codec.go:137-160 | over concatenated encodings the handler is called on exactly the list up to and including the first end-stream (or refused) envelope, and the result is that envelope's |
| EnvelopeTheorems.StopsAtFirst | internal/envd/codec.go:137-160 | the first envelope, by position, that the handler refuses or whose bit 0x02 is set is the last one the handler sees, whatever bytes follow, and decides the result |
| EnvelopeTheorems.PartialEnvelope | internal/envd/codec.go:60-84 | a proper prefix of an encoding is a clean end at 0 or 5 bytes and truncated otherwise |
| EnvelopeTheorems.CutParse | internal/envd/codec.go:60-84 | a stream cut anywhere parses to the whole envelopes before the cut, then ends cleanly exactly at a boundary or right behind a header |
| EnvelopeTheorems.CutStream | internal/envd/codec.go:137-160 | a stream cut anywhere shows the handler exactly the whole envelopes before the cut, and how it then ends |
| EnvelopeCodec.Reader.ReadFull | internal/envd/codec.go:60-78 | n bytes, or an end of stream, or a truncation |
| EnvelopeCodec.DecodeEnvelope | internal/envd/codec.go:60-84 | the envelope or error and what is left to read |
| EnvelopeCodec.ReadStream | internal/envd/codec.go:137-160 | the loop handles exactly what the parsed stream prescribes |
| Base64.RoundTrip64 | internal/envd/process.go:228-240 | decoding a base64 encoding gives the bytes back (section 4 of RFC 4648) |
| Base64.EncodedAt | internal/envd/process.go:228-240 | the encoding by position: four characters for each three bytes begun, the digits of their 24-bit number read off the alphabet, and padding for missing bytes |
| Base64.DecodesExactly | internal/envd/process.go:228-240 | a text without line breaks decodes, if and only if its length is a multiple of four and it consists of digits of the alphabet but for one or two padding characters at its end |
| Base64.BreaksIgnored | internal/envd/process.go:228-240 | line breaks anywhere make no difference |
| ProcessStream.Process.Read | internal/envd/process.go:185-209 | one event, at least five bytes consumed, or the end or an error |
| ProcessStream.Process.Take | internal/envd/process.go:227-246 | chunks appended, exit code kept, a process error reported |
| ProcessStream.Process.ReadAll | internal/envd/process.go:212-250 | terminates with what the parsed stream prescribes |
| ProcessStream.OutputReassembled | internal/envd/process.go:212-250 | however the outputs are cut into chunks and interleaved, both byte strings and the last exit code come back, undecodable chunks counting as empty, whatever follows the end of the stream |
| ProcessStream.ErrorWithOutput | internal/envd/process.go:212-250 | an error of the process ends the reading, whatever follows; beside it come the output and exit code so far, those of the failing event included |
| ProcessStream.BadJsonLosesOutput | internal/envd/process.go:185-226 | an envelope whose JSON does not decode ends the reading, whatever follows, with empty output and exit code -1 |
| ProcessStream.TooLargeLosesOutput | internal/envd/process.go:185-226 | so does a header that announces more than 32 MiB |
| ProcessStream.CutOutput | internal/envd/process.go:185-250 | cut anywhere, the stream reads as success exactly when the cut is at an envelope boundary or right behind a header, and then gives the output and last exit code so far |
| ShellQuote.LexQuoted | internal/adapter/util/helpers.go:82-85 | a quoted argument lexes to exactly that argument, whatever follows |
| ShellQuote.QuoteText | internal/adapter/util/helpers.go:82-85 | the text of a quoted argument: the argument between single quotes, each quote in it as quote, backslash, quote, quote |
| ShellQuote.QuoteRoundTrip | internal/adapter/agentsandbox/adapter.go:498-505 | splitting the space-joined quotes returns exactly the NUL-free arguments, empty ones included |
| ShellQuote.CommandLineRoundTrip | internal/adapter/agentsandbox/adapter.go:497-505 | behind any command that splits, the arguments are appended as they are |
| ShellQuote.QuoteExact | internal/adapter/util/helpers.go:82-85 | one quoted argument round-trips if and only if it has no NUL |

## Left out

- HTTP handlers, route tables, middleware, the remote backend clients, JWT and API keys, configuration and observability: plumbing over libraries.
- JSON marshalling, frame contents and Redis number formatting are opaque values; the JSON decoder of the process stream is a parameter.
- float64 rounding (arithmetic is over `real`) and int64 overflow of durations.
- The two separate clock readings inside one sliding-window call: one reading per call.
- Liveness of the drain goroutine: a Write between its exit decision and the clearing of `running` spawns nothing.
- WaitDrain, Stats, the per-key map of sliding-window limiters and its cleanup, Tokens and Set: easy members.
- The act of registering a backend, and the concurrency of health checks within one round.
- ListTemplates, ListAliases and ListTags of the memory store are covered by the step functions and the equivalence theorems but have no method of their own; their replies are sets, so the order of the lists is not captured.
- Concurrent adapter operations, network errors of Redis, and a script call that fails, which refuses the request.
- GenerateTemplateID and ParseDockerfileFrom: their results are parameters.
- PTY output of the process stream, and the branches of the relay for closed channels, which nothing closes.
- Everything of the shell but blanks, quotes and backslashes: a line with an active special character does not split in the model.
- BufferTheorems.HandedInOrder: says nothing about runs with Resize, whose forwarder works outside the lock.
- BufferTheorems.WriterNeverBlocks: its bound on the queue length is for runs without Resize; RoomyWriterNeverBlocks is the statement with it.
- BufferStop.StopDeliversExactly: for runs without Resize, before and after the Stop.
- BufferResize.ResizeIsSafeExactly: for the first Resize of a run; RoomyWriterNeverBlocks covers any number of roomy ones, in one direction.
- SlidingWindowBounds.SlotsWithinLimit: for non-negative amounts; NegativeRequestBreaksBound shows why.
- SlidingWindowBounds.RateBound: one sub-window short of the promised window; LongestInterval shows why.
- TokenBucketTheorems.TokensWithinBurst: for non-negative amounts; NegativeAskBreaksBound shows why.
- RouterTheorems.FairExactly: a counter that wraps past 2^64 is not covered.
- StoreCode.Adapter.CreateTemplate: the adapter's methods are over the memory store; AdaptersAgree carries them to Redis.
- RelayCode.Relay.Start: ends at the spawn; the wait for the loop is only in the transition system.
