# axess, modelled and proved

A Dafny model of the parts of the axess authentication workspace where state,
interleaving or arithmetic carries the argument, with the properties those parts
promise proved for every input, every run or every reachable state.

- **The cache** (`Recency`, `LruMap`, `CacheSpec`, `TtlCache`, `SingleFlight`).
  `Recency` is a plain list of key-value pairs, most recent first. `LruMap` is the
  slab with its intrusive list and free chain, and refines that list. `CacheSpec`
  says on values what each critical section of the TTL cache does; `TtlCache` is the
  class proved against it; `SingleFlight` is the concurrent load protocol made of the
  same functions.
- **The outbound OAuth client's token** (`TokenCache`, `TokenProtocol`): the lock
  sections as a class, the callers around them as a state machine.
- **The local identity provider** (`LocalIdp`, `Replicas`): one replica as a class,
  many replicas over one key store as a state machine.
- **The KDF executor** (`KdfExecutor`): callers as a state machine, and the executor as a class
  whose counters account for them.
- **Encodings and arithmetic** (`Xoshiro`, `EnvelopeAad`, `Hex`, `RecoveryCode`, `Hotp`,
  `Cidr`, `ClientIp`), over `Bytes`, `Text` and `Options`.

A state machine has a `State`, a `Step`, `Enabled`, `Next` and `Reachable`: the states
any finite interleaving leads to. One step is one critical section, one atomic
operation, one clock reading, or one release of a reference.

What the code does not decide is a parameter or a step: the clock (which may jump either
way), fetchers and the network, the key store, cancellation, HMAC, Argon2id, base32, and
reading an IP address or a number from text.

Where the code and its comments differ, the model follows the code:

- The in-flight guard's comment says the last participant out removes the slot
  (`axess-cache/src/cache.rs:526-532`). The count also includes callers that are through
  their own drop and have not yet released their reference, so a slot can outlive its
  last participant. `OrphanOccurs` is a run that does it, `OrphanedExactly` says exactly
  when, `CoarseRunsAreTidy` that it takes such a late release, and `OrphanIsReusable` that
  it does no harm.
- `with_max_queue` says a job is refused when `limit` jobs are already waiting
  (`axess-core/src/blocking.rs:118-121`). Refusals not yet undone count too:
  `RefusedBelowLimit` is a run that refuses a job while nobody waits, and `RefusedExactly`
  says exactly when a job is refused.
- `Source::Peer` is described as a peer that is not a trusted proxy
  (`axess-core/src/client_ip.rs:551-553`). It is also the source when a trusted peer's
  headers name nobody: `TrustedPeerAnswers` is such an input, and `PeerExactly` says
  exactly when the peer is the source.

## Model

| member | source | states |
|---|---|---|
| LruMap.LruMap.constructor | axess-cache/src/lru.rs:43-52 | a new map refines the empty list |
| LruMap.LruMap.Len | axess-cache/src/lru.rs:54-56 | the index counts exactly the listed pairs |
| LruMap.LruMap.Get | axess-cache/src/lru.rs:63-68 | answers the pair filed under the key and moves it to the front of the list, or changes nothing |
| LruMap.LruMap.Put | axess-cache/src/lru.rs:72-90 | a known key is replaced and moved to the front; a new one goes in front, the least recent pair making room at capacity |
| LruMap.LruMap.Replace | axess-cache/src/lru.rs:73-78 | a known key's pair gets the new value and moves to the front |
| LruMap.LruMap.PutNew | axess-cache/src/lru.rs:79-89 | a new key's pair goes in front, the least recent one making room at capacity |
| LruMap.LruMap.Pop | axess-cache/src/lru.rs:93-97 | removes exactly the pair filed under the key and answers its value |
| LruMap.LruMap.Clear | axess-cache/src/lru.rs:99-105 | empties the map |
| LruMap.LruMap.Entries | axess-cache/src/lru.rs:108-118 | following `next` from the head terminates and visits the list in order |
| LruMap.LruMap.Alloc | axess-cache/src/lru.rs:134-146 | takes the first hole or grows within the capacity; every other slot stays |
| LruMap.LruMap.Release | axess-cache/src/lru.rs:149-161 | the slot joins the front of the free chain and its node comes back |
| LruMap.LruMap.EvictTail | axess-cache/src/lru.rs:163-171 | drops exactly the least recent pair |
| LruMap.LruMap.Unlink | axess-cache/src/lru.rs:174-189 | the links visit the same slots without this one; keys and values stay |
| LruMap.LruMap.PushFront | axess-cache/src/lru.rs:192-205 | the links visit this slot first and then the same slots as before |
| LruMap.LruMap.Detach | axess-cache/src/lru.rs:93-97 | unlinking and freeing a slot takes one pair out of the list and one key out of the index |
| LruMap.LruMap.Promote | axess-cache/src/lru.rs:63-68 | unlinking and pushing a slot moves its pair to the front |
| LruMap.LruMap.Append | axess-cache/src/lru.rs:81-89 | allocating, indexing and pushing a node puts a new pair in front |
| LruMap.LruMap.SetValue | axess-cache/src/lru.rs:73-77 | overwriting a value changes that pair only |
| LruMap.LruMap.KeysDistinct | axess-cache/src/lru.rs:24-40 | a valid map lists pairwise distinct keys |
| LruMap.Spliced | axess-cache/src/lru.rs:174-189 | pointing the neighbours of any position at each other takes exactly that position out of the list |
| Recency.TouchKeeps | axess-cache/src/lru.rs:62-68 | a lookup permutes the pairs and keeps keys distinct |
| Recency.PutKeeps | axess-cache/src/lru.rs:70-90 | an insert keeps keys distinct and the capacity, and adds nothing but its own pair |
| Recency.LookupIff | axess-cache/src/lru.rs:62-68 | a lookup finds exactly the pair filed under the key |
| Recency.WithoutMembers | axess-cache/src/lru.rs:92-97 | removal takes out the one pair under the key and no other |
| CacheSpec.ApplyKeeps | axess-cache/src/cache.rs:124-177 | every cache operation keeps distinct keys and the capacity, and leaves only entries it does not end or has just inserted |
| CacheSpec.AnswersAreLive | axess-cache/src/cache.rs:124-177 | after any run, under any clock, a lookup answers only a value inserted under the key, strictly before its saturated expiry, that nothing later overwrote, invalidated or found expired |
| CacheSpec.RetainedWhileRecent | axess-cache/src/cache.rs:124-177 | after any run, counted from the last insert or hit, an entry answers at exactly the instants before its expiry while nothing ended it and fewer keys than the capacity were used since |
| CacheSpec.AnswersAreYoung | axess-cache/src/cache.rs:120-131 | after any run, under any clock, a value answered was inserted under the key less than the TTL ago |
| CacheSpec.AnswersWithinTtl | axess-cache/src/cache.rs:147-177 | an inserted value that nothing ended, with fewer keys than the capacity used since, answers exactly less than the TTL after its insert |
| CacheSpec.InsertAnswers | axess-cache/src/cache.rs:147-177 | straight after an insert the key answers exactly within the TTL |
| CacheSpec.JustUsed | axess-cache/src/cache.rs:124-177 | an entry just inserted or hit is the most recent |
| CacheSpec.EvictsAnother | axess-cache/src/cache.rs:147-177 | a full cache gives up some other entry while fewer keys than the capacity were used since this one |
| CacheSpec.KeyIsPredicate | axess-cache/src/cache.rs:196-249 | invalidating one key, or all, removes what the predicate form of it removes |
| CacheSpec.LoadRoundTrip | axess-cache/src/cache.rs:397-456 | whoever claims next joins the same cell; the first publication files the value and frees the slot, a second does nothing; a lone load that fails leaves the cache as it found it |
| CacheSpec.InvalidatedLoad | axess-cache/src/cache.rs:444-456 | after an invalidation neither publishing nor leaving touches the cache, even when the slot was claimed anew |
| TtlCache.PopAllMatching | axess-cache/src/cache.rs:229-241 | popping the collected keys one by one leaves exactly the entries kept, in order |
| TtlCache.Collect | axess-cache/src/cache.rs:229-236 | collects exactly the keys of entries not to be kept, in order |
| TtlCache.ClockTtlCache.constructor | axess-cache/src/cache.rs:93-101 | a new cache is empty and loads nothing |
| TtlCache.ClockTtlCache.Get | axess-cache/src/cache.rs:124-144 | answers exactly an entry that expires later than now, which becomes most recent; a stale one is removed |
| TtlCache.ClockTtlCache.Insert | axess-cache/src/cache.rs:147-177 | files the value at the front, to be answered exactly within the TTL of now |
| TtlCache.ClockTtlCache.InvalidateInflight | axess-cache/src/cache.rs:197 | the in-flight half: frees the key's slot only |
| TtlCache.ClockTtlCache.InvalidateEntry | axess-cache/src/cache.rs:198 | the entry half: removes the key's entry only |
| TtlCache.ClockTtlCache.Invalidate | axess-cache/src/cache.rs:196-204 | both halves; answers whether a load or an entry was removed |
| TtlCache.ClockTtlCache.InvalidateBy | axess-cache/src/cache.rs:222-249 | frees exactly the matching slots, removes exactly the matching entries, keeps the order of the rest and counts them |
| TtlCache.ClockTtlCache.InvalidateEntriesBy | axess-cache/src/cache.rs:261-279 | removes exactly the entries whose key and value match and leaves loads alone |
| TtlCache.ClockTtlCache.InvalidateAll | axess-cache/src/cache.rs:290-304 | empties both maps |
| TtlCache.ClockTtlCache.CleanupExpired | axess-cache/src/cache.rs:317-342 | removes exactly the entries a lookup would refuse now, keeps the order of the rest and counts them |
| TtlCache.ClockTtlCache.ClaimOrJoin | axess-cache/src/cache.rs:397-408 | the key's slot holds the returned cell, the one already there if there was one; every other slot and all entries stay |
| TtlCache.ClockTtlCache.PublishLoaded | axess-cache/src/cache.rs:437-456 | promotes the value and frees the slot only while the slot holds this very cell |
| TtlCache.ClockTtlCache.DropGuard | axess-cache/src/cache.rs:524-539 | empties the slot exactly if it held this cell and nobody else counts on it; every other slot and all entries stay |
| SingleFlight.InvalidateWins | axess-cache/src/cache.rs:196-204 | in every interleaving, once the in-flight half of an invalidation ran, no step adds to the cache a value of a load claimed before it |
| SingleFlight.InvalidatedStaysGone | axess-cache/src/cache.rs:222-249 | in every interleaving, once both halves ran, every matching entry was put there later, by a plain insert or by a load claimed after the invalidation began |
| SingleFlight.OneFetcher | axess-cache/src/cache.rs:424-427 | in every reachable state at most one fetch runs per cell, and per key among cells no invalidation removed, across failures, panics and cancellations |
| SingleFlight.PromotedOnce | axess-cache/src/cache.rs:437-456 | each cell is promoted at most once and only with the value it holds, and every caller is given that value until it has released the cell |
| SingleFlight.SetIsPromoted | axess-cache/src/cache.rs:349-353 | no success is lost: a cell that is set and not invalidated has been promoted, or still has its slot and a caller about to promote it |
| SingleFlight.FateStays | axess-cache/src/cache.rs:429-473 | how a call ends, once decided, stays decided through every run to its end |
| SingleFlight.LoadAnswers | axess-cache/src/cache.rs:424-473 | a call that fetched a value answers it, a failed one the failure, an aborted one nothing, a joiner the value another caller fetched through its cell |
| SingleFlight.HitAnswers | axess-cache/src/cache.rs:391-394 | the fast path ends a call exactly when the key has an entry that expires later, with that entry's value |
| SingleFlight.InsertThenHit | axess-cache/src/cache.rs:147-177 | straight after a plain insert a call for the key is answered its value, exactly within the TTL |
| SingleFlight.SweptExactly | axess-cache/src/cache.rs:261-342 | sweeping expired or matching entries leaves exactly the others, and loads alone |
| SingleFlight.LoneLoad | axess-cache/src/cache.rs:386-474 | a call on its own whose fetch succeeds answers the value, leaves it cached from its publication, and gives the slot back |
| SingleFlight.LoneFailure | axess-cache/src/cache.rs:458-473 | a call on its own whose fetch fails answers the failure and leaves the cache as the missed lookup did |
| SingleFlight.FirstPublishes | axess-cache/src/cache.rs:437-456 | after one caller published through a cell, no later publication through it changes the cache |
| SingleFlight.InvalidatedOnlyBy | axess-cache/src/cache.rs:196-249 | a cell counts as invalidated only through an invalidation of its key |
| SingleFlight.LruStep | axess-cache/src/cache.rs:386-474 | a step adds to the cache only the value it publishes through the cell in its slot, or its plain insert |
| SingleFlight.CountIsExact | axess-cache/src/cache.rs:502-504 | under the lock the count is at most three exactly when nobody else holds the cell |
| SingleFlight.GuardSparesHeldCells | axess-cache/src/cache.rs:524-539 | a guard frees its slot exactly when no other caller holds the cell |
| SingleFlight.OrphanedExactly | axess-cache/src/cache.rs:524-539 | a guard drop leaves a slot without participants exactly when it is the last participant's and a caller through its own drop still holds a reference |
| SingleFlight.OnlyDropsOrphan | axess-cache/src/cache.rs:386-474 | no other step leaves a slot without participants |
| SingleFlight.OrphanIsReusable | axess-cache/src/cache.rs:397-427 | a slot without participants holds an unset, idle cell, and the next caller for the key joins it and may run its own fetch |
| SingleFlight.CoarseRunsAreTidy | axess-cache/src/cache.rs:472-474 | when guard drop and releases are one step, every slot has a participant in every run |
| SingleFlight.OrphanOccurs | axess-cache/src/cache.rs:524-539 | a run of two failing callers after which a slot outlives both |
| SingleFlight.RunKeepsInv | axess-cache/src/cache.rs:386-474 | every run keeps calls, cells, slots, references, entries and invalidation records consistent |
| TokenCache.RefreshWithinLife | axess-factors/src/outbound_oauth_client.rs:711-736 | for every lifetime and threshold, the expiry is the lifetime (an hour if none is named, a second if zero) after now, refused exactly when not representable; the refresh instant lies between half the lifetime and the expiry, at the threshold before it or at half |
| TokenCache.Cache.Read | axess-factors/src/outbound_oauth_client.rs:471-488 | the fast path answers a token not yet due, the path beside a running fetch one not yet expired; either is unexpired |
| TokenCache.Cache.Condemn | axess-factors/src/outbound_oauth_client.rs:555-561 | takes a condemned token out, keeps any other, changes nothing else, and reports the fetches seen |
| TokenCache.Cache.Settle | axess-factors/src/outbound_oauth_client.rs:567-588 | a token used is cached and unexpired, and not due if nobody fetched; an error shared is that of the fetch that completed since, with nothing usable; another fetch exactly when nobody fetched and nothing will do, or when the fetch since succeeded and its token was condemned or has expired |
| TokenCache.Cache.Store | axess-factors/src/outbound_oauth_client.rs:594-625 | a success replaces the token; a failure is recorded and keeps an unexpired token, which is then the answer |
| TokenProtocol.CondemnedIsNeverServed | axess-factors/src/outbound_oauth_client.rs:510-561 | from the step that condemns a token onward, no call in any continuation is answered with it |
| TokenProtocol.CondemnTakesOut | axess-factors/src/outbound_oauth_client.rs:510-561 | a forced refresh takes out whatever is cached, one of a given token only that token |
| TokenProtocol.SharedErrorIsRecent | axess-factors/src/outbound_oauth_client.rs:474-480 | an error shared is that of a fetch completed after the call began or condemned its token |
| TokenProtocol.CachedAnswers | axess-factors/src/outbound_oauth_client.rs:471-490 | a token not yet due answers at once, and one due but unexpired answers while another call holds the gate |
| TokenProtocol.DueCallFetches | axess-factors/src/outbound_oauth_client.rs:471-494 | a call on its own with nothing cached, or a token due, fetches; a success is cached and answered, a failure recorded and answered unless the cached token has not expired |
| TokenProtocol.OneFetch | axess-factors/src/outbound_oauth_client.rs:540-548 | in every reachable state at most one fetch runs, and its caller holds the gate |
| TokenProtocol.RefetchExactly | axess-factors/src/outbound_oauth_client.rs:567-588 | a caller that waited while a fetch completed fetches again exactly when that fetch succeeded and its token has since expired or been condemned |
| TokenProtocol.ServedUnexpired | axess-factors/src/outbound_oauth_client.rs:471-494 | a token answered is the caller's own fetch, or was unexpired at a clock reading that call took; its refresh instant lies in the second half of its life |
| TokenProtocol.ErredOnlyWhenUnusable | axess-factors/src/outbound_oauth_client.rs:594-625 | an error answered is that of the last completed fetch, and nothing cached was usable at a reading the call took |
| TokenProtocol.RunKeepsInv | axess-factors/src/outbound_oauth_client.rs:471-625 | every run keeps gate, tokens, record and readings consistent and forgets no condemnation |
| LocalIdp.CheckKeyIds | axess-core/src/local_idp.rs:705-723 | accepts exactly key sets with non-empty, pairwise distinct ids, and otherwise names the first key that breaks that |
| LocalIdp.RebuildJwks | axess-core/src/local_idp.rs:725-735 | current, then historical keys, each with its own id and material, then extra keys, in order |
| LocalIdp.LoadChecked | axess-core/src/local_idp.rs:546-554 | yields the store's keys exactly when they load and can be told apart |
| LocalIdp.FromKeyStore | axess-core/src/local_idp.rs:240-266 | constructs a sound replica exactly from a usable key set |
| LocalIdp.LocalIdp.constructor | axess-core/src/local_idp.rs:252-265 | a replica of a checked key set is sound |
| LocalIdp.LocalIdp.ReplaceKeys | axess-core/src/local_idp.rs:220-232 | adopts the store's keys and rebuilds the JWKS from them and the extra keys |
| LocalIdp.LocalIdp.MintKid | axess-core/src/local_idp.rs:371-424 | the id of a fresh token occurs in the JWKS exactly once |
| LocalIdp.LocalIdp.RotateSigningKey | axess-core/src/local_idp.rs:452-489 | refused exactly for an empty or held id or by the store, and then nothing changes; otherwise the replica signs with the re-read current key, or with the new key and every key held before is historical |
| LocalIdp.LocalIdp.RetireHistoricalKey | axess-core/src/local_idp.rs:503-528 | refused or failed it changes nothing; otherwise it adopts the store's keys, or keeps signing with its key and drops exactly the historical key with that id |
| LocalIdp.LocalIdp.Reload | axess-core/src/local_idp.rs:536-541 | adopts a usable key set or changes nothing |
| LocalIdp.AdoptedIsSound | axess-core/src/local_idp.rs:218-233 | adopting a checked key set makes any replica sound |
| LocalIdp.RotateIsSound | axess-core/src/local_idp.rs:452-489 | a rotation keeps key ids distinct and the JWKS in step, re-read or not |
| LocalIdp.RetireIsSound | axess-core/src/local_idp.rs:503-528 | a retirement does too, and without a re-read removes exactly the key with that id |
| LocalIdp.MintKidOccursOnce | axess-core/src/local_idp.rs:371-424 | in a sound replica the signing key's id names the first JWKS entry and no other |
| Replicas.SignersStayInStore | axess-core/src/local_idp.rs:108-148 | with any replicas and any store failures, a key that signed anywhere is in the store until it is retired |
| Replicas.ReadersServeSigners | axess-core/src/local_idp.rs:452-554 | a replica that reads the store verifies tokens of every such key, with no other material under its id |
| Replicas.ServedUntilRetired | axess-core/src/local_idp.rs:426-430 | once a replica holds a key it verifies its tokens, with no other material under its id, through every continuation by any replicas with any failures, until the store retires it |
| Replicas.SignedStaysVerifiable | axess-core/src/local_idp.rs:426-430 | a key that signed anywhere is served by every replica that reads the store, from then on until it is retired |
| Replicas.MintedStaysVerifiable | axess-core/src/local_idp.rs:371-430 | a token minted on one replica verifies there, and on every replica from the time it reads the store, until its key is retired |
| Replicas.RotationTakesEffect | axess-core/src/local_idp.rs:473-488 | after a rotation's re-read the replica signs with the store's current key, or with the new key when the re-read fails, and then still serves every key it held |
| Replicas.UndisturbedRotation | axess-core/src/local_idp.rs:452-489 | undisturbed, the replica signs with the new key whether or not the re-read succeeds |
| Replicas.RetiredExactly | axess-core/src/local_idp.rs:140-147 | a key is retired only by the store's retirement of a historical key under its id, and is then gone from the store |
| Replicas.StepKeepsHeld | axess-core/src/local_idp.rs:469-488 | a re-read brings every unretired key back and a local fallback keeps it |
| Replicas.ReplicasStaySound | axess-core/src/local_idp.rs:452-554 | every replica, always: usable ids, JWKS in step, signing key listed exactly once |
| Replicas.RotateForgetsNothing | axess-core/src/local_idp.rs:135-138 | a rotation in the store keeps every key and distinct ids |
| Replicas.RetireForgetsNothing | axess-core/src/local_idp.rs:144-147 | a retirement in the store forgets only what it retires |
| Replicas.RunKeepsInv | axess-core/src/local_idp.rs:108-148 | every run keeps signers known to the store and every replica sound |
| KdfExecutor.Executor.constructor | axess-core/src/blocking.rs:92-102 | the counters account for no callers; at least one permit, and sixteen queue places per permit, saturating at the largest word |
| KdfExecutor.Executor.TryAcquire | axess-core/src/blocking.rs:177-179 | succeeds exactly while some permit is neither held by a caller nor set aside for one, and the counters still account for every caller |
| KdfExecutor.Executor.Enqueue | axess-core/src/blocking.rs:180-183 | admits exactly while waiters and refusals not yet undone leave a place, and the counters still account for every caller |
| KdfExecutor.Executor.Grant | axess-core/src/blocking.rs:184-192 | a waiting caller comes to hold a permit while it is still counted |
| KdfExecutor.Executor.Undo | axess-core/src/blocking.rs:181 | the refused caller was counted, so the counter does not wrap, and no longer is |
| KdfExecutor.Executor.DropWaiting | axess-core/src/blocking.rs:73-80 | a waiting caller was counted, so the counter does not wrap; dropping its guard takes no permit from it and gives it none |
| KdfExecutor.Executor.Start | axess-core/src/blocking.rs:154 | the started count is the jobs that run, were detached or have ended |
| KdfExecutor.Executor.End | axess-core/src/blocking.rs:160-166 | exactly one held permit fewer, whether the caller is still there or not |
| KdfExecutor.PermitsConserved | axess-core/src/blocking.rs:148-193 | in every interleaving permits are free, set aside or held and add up to the configured count; admitted waiters never exceed the limit; the counter is exactly the waiters and the refusals not yet undone |
| KdfExecutor.HeldUntilEnd | axess-core/src/blocking.rs:160-166 | after any run a caller that held a permit still holds it exactly when the run did not end its job, dropped or not |
| KdfExecutor.PermitReturnsAtEnd | axess-core/src/blocking.rs:160-166 | no step but the end of a job gives a held permit back; besides that only one set aside and never taken becomes free |
| KdfExecutor.CounterCoversGuards | axess-core/src/blocking.rs:73-80 | the counter is above zero whenever a guard or a refusal is about to decrement it |
| KdfExecutor.RefusedExactly | axess-core/src/blocking.rs:180-183 | a job that found no permit is refused exactly when waiters and refusals not yet undone fill the queue |
| KdfExecutor.RefusedBelowLimit | axess-core/src/blocking.rs:180-183 | a run in which a job is refused while nobody waits |
| KdfExecutor.FreePermitRuns | axess-core/src/blocking.rs:148-179 | with a permit free a job runs without queueing, and when it ends all is as before but for one job more started |
| KdfExecutor.NoPermitWaits | axess-core/src/blocking.rs:175-193 | with none free and a place in the queue a job waits |
| KdfExecutor.FullQueueRefuses | axess-core/src/blocking.rs:180-183 | with none free and the queue full a job is refused and leaves no trace |
| Xoshiro.SplitMix64 | axess-rng/src/numeric.rs:93-99 | the state moves on, and the output determines the new state |
| Xoshiro.UnmixMix | axess-rng/src/numeric.rs:93-99 | the output function is injective: it has a left inverse |
| Xoshiro.SeededDistinct | axess-rng/src/numeric.rs:63-70 | for every seed the four seeded words are pairwise distinct |
| Xoshiro.StepBijective | axess-rng/src/numeric.rs:75-89 | the state step is a bijection on 256-bit states |
| Xoshiro.StepFixesZero | axess-rng/src/numeric.rs:75-89 | the step leads to the all-zero state from nowhere else |
| Xoshiro.NeverZero | axess-rng/src/numeric.rs:63-89 | no number of draws from any seed reaches the all-zero state |
| Xoshiro.SeedsNeverMerge | axess-rng/src/numeric.rs:63-89 | generators of different seeds differ after every number of draws |
| Xoshiro.RepeatsFromStart | axess-rng/src/numeric.rs:75-89 | the first state to repeat is the first state |
| Xoshiro.OutputDeterminesLast | axess-rng/src/numeric.rs:76-78 | a draw and the first word of the state determine the last word |
| Xoshiro.ReferenceSeeding | axess-rng/src/numeric.rs:93-99 | the published first output of SplitMix64 from seed 0 |
| Xoshiro.ReferenceDraws | axess-rng/src/numeric.rs:75-89 | the published first draws of xoshiro256++ from the state 1, 2, 3, 4 |
| Xoshiro.Xoshiro256pp.constructor | axess-rng/src/numeric.rs:63-70 | the loop fills the state with the seed's four words |
| Xoshiro.Xoshiro256pp.NextU64 | axess-rng/src/numeric.rs:75-89 | the in-place update is the state step, and the output is taken from the state before it |
| EnvelopeAad.Put | axess-events/src/encryption.rs:120-124 | appends one length-prefixed field, or fails exactly when its length does not fit 32 bits |
| EnvelopeAad.PutSubject | axess-events/src/encryption.rs:136-159 | appends the tagged subject, or fails exactly when a field does not fit |
| EnvelopeAad.EnvelopeAad | axess-events/src/encryption.rs:114-161 | yields the encoding exactly when every field fits |
| EnvelopeAad.DecodeEncode | axess-events/src/encryption.rs:114-161 | an independent decoder recovers the envelope and leaves whatever follows it |
| EnvelopeAad.EncodeDecode | axess-events/src/encryption.rs:114-161 | the decoder accepts nothing but encodings |
| EnvelopeAad.Injective | axess-events/src/encryption.rs:114-166 | the encoding is injective and no encoding is a proper prefix of another |
| EnvelopeAad.ReferenceField | axess-events/src/encryption.rs:120-124 | the bytes of a one-byte field |
| EnvelopeAad.ReferenceTags | axess-events/src/encryption.rs:129-159 | the tag of a tenant and of every subject class |
| Hex.Encode | axess-rng/src/hex.rs:33-41 | the loop yields the two lower-case digits of each byte in order |
| Hex.DecodeToSlice | axess-rng/src/hex.rs:61-74 | fills the buffer with the decoded bytes, or reports the first check that failed, in order odd length, wrong length, invalid digit |
| Hex.Decode | axess-rng/src/hex.rs:81-85 | decodes exactly text of even length with valid digits |
| Hex.DecodeEncode | axess-rng/src/hex.rs:33-85 | decoding an encoding gives the bytes back |
| Hex.EncodeDecode | axess-rng/src/hex.rs:33-85 | encoding a decoding gives the text back in lower case |
| Hex.ReferenceEncoding | axess-rng/src/hex.rs:33-41 | a base16 vector of section 10 of RFC 4648 |
| RecoveryCode.ReadKeyedMac | axess-factors/src/recovery_code.rs:153-160 | the MAC of a keyed row, zeros when its digits are malformed, none for an Argon2id row |
| RecoveryCode.KeyedRoundTrip | axess-factors/src/recovery_code.rs:116-129 | a keyed stored form reads back as its MAC |
| RecoveryCode.KeyedMacExactly | axess-factors/src/recovery_code.rs:149-160 | a row without the prefix is no keyed row; one with it stands for the MAC its digits spell, or zeros |
| RecoveryCode.NormalizeRecovers | axess-factors/src/recovery_code.rs:270-277 | text normalises to a canonical code exactly when it is that code with white space and dashes anywhere and letters as capitals or small letters |
| RecoveryCode.FindMatch | axess-factors/src/recovery_code.rs:286-327 | the branch-free scan examines every row, picks the first unspent match and tells whether only the previous pepper matched it |
| RecoveryCode.VerifyRotating | axess-factors/src/recovery_code.rs:367-398 | decides a submission as `Verified` does, which `AcceptedExactly` and `AcceptanceSpendsOne` pin down |
| RecoveryCode.AcceptedExactly | axess-factors/src/recovery_code.rs:367-398 | unless MACs collide, against a keyed set a submission is accepted exactly when the set's pepper is the current or previous one and the text is, however typed, the code of an unspent row; it spends such a row and reports the previous pepper exactly when the set's is not current |
| RecoveryCode.ArgonAcceptedExactly | axess-factors/src/recovery_code.rs:310-315 | a set in the Argon2id form accepts exactly text that normalises to a well-formed code some unspent row's hash verifies |
| RecoveryCode.AcceptanceSpendsOne | axess-factors/src/recovery_code.rs:391-397 | an acceptance marks one row, unspent before, used at the instant given and changes nothing else |
| RecoveryCode.CodesConserved | axess-factors/src/recovery_code.rs:367-398 | along any chain of persisted results, acceptances plus remaining codes are the codes there were |
| RecoveryCode.RowsKept | axess-factors/src/recovery_code.rs:392-397 | along any chain no hash changes and no spent row changes |
| RecoveryCode.FastSetsSkipArgon | axess-factors/src/recovery_code.rs:188-192 | a set that does not need slow verification is decided without Argon2id |
| RecoveryCode.SymbolsUniform | axess-factors/src/recovery_code.rs:61-65 | each symbol of the alphabet comes from exactly eight of the 256 bytes |
| RecoveryCode.Generated | axess-factors/src/recovery_code.rs:205-214 | ten random bytes always make a well-formed code |
| RecoveryCode.SameCodeExactly | axess-factors/src/recovery_code.rs:205-214 | two draws make the same code exactly when they agree modulo 32 byte by byte |
| RecoveryCode.DisplayForm | axess-factors/src/recovery_code.rs:216-219 | two groups of five with a dash between that spell the code |
| RecoveryCode.GenerateWith | axess-factors/src/recovery_code.rs:221-243 | row for row, an unspent stored form and the display form of the same draw |
| RecoveryCode.DisplayedRecovers | axess-factors/src/recovery_code.rs:216-219 | the displayed text, however typed, normalises to its code |
| RecoveryCode.IssuedCodeVerifies | axess-factors/src/recovery_code.rs:258-398 | every displayed code of a keyed set, however typed, is accepted while unspent, under its pepper as current or previous, and spends its row or an earlier one it matches |
| Hotp.TruncateIsLow31 | axess-factors/src/otp_core.rs:41-54 | the offset is the last byte's low four bits, it leaves four bytes of the digest, and the result is the low 31 bits of the number there, as section 5.3 of RFC 4226 has it |
| Hotp.ReferenceTruncation | axess-factors/src/otp_core.rs:44-50 | the example of section 5.4 of RFC 4226 |
| Hotp.Value | axess-factors/src/otp_core.rs:27-91 | a value below ten to the number of digits, for every algorithm |
| Hotp.ValueIsTruncatedMac | axess-factors/src/otp_core.rs:38-90 | for every algorithm the value is the low 31 bits at the offset of the MAC of the counter's eight bytes, modulo ten to the number of digits |
| Hotp.SameCode | axess-factors/src/hotp.rs:282-292 | equal numbers mean equal zero-padded codes, digit for digit |
| Hotp.ShortCodesParse | axess-factors/src/hotp.rs:286-291 | digits of an accepted length always fit 64 bits, so none is lost to the failed-parse case |
| Hotp.Scan | axess-factors/src/hotp.rs:291-303 | the loop tries every counter of the window up to the 64-bit maximum and records the first whose code is the text |
| Hotp.Verify | axess-factors/src/hotp.rs:244-304 | the least counter of the window, cut off at the 64-bit maximum, whose zero-padded code is the trimmed input; none exactly when there is none or length or secret is refused |
| Cidr.HostBitsClearIff | axess-core/src/client_ip.rs:136-143 | the mask test is divisibility by the block size |
| Cidr.InNetworkIff | axess-core/src/client_ip.rs:150-168 | the shift test is membership in the numeric range, for every prefix including zero |
| Cidr.MappedPrefix | axess-core/src/client_ip.rs:117-130 | a mapped address with clear host bits has a prefix of at least 96, so the subtraction never fails |
| Cidr.SplitOnceExactly | axess-core/src/client_ip.rs:97-99 | the text before and after the first slash, none exactly when there is no slash |
| Cidr.BlockTrustsRange | axess-core/src/client_ip.rs:96-132 | exactly when a block is refused, and that an accepted one trusts exactly the addresses whose canonical form lies in its range; a mapped block exactly the IPv4 addresses of the 128-bit block |
| ClientIp.WithCidrs | axess-core/src/client_ip.rs:241-258 | appends one block per specification, or reports the first that does not parse |
| ClientIp.ExtendedTrust | axess-core/src/client_ip.rs:241-258 | adding blocks trusts exactly the addresses they cover besides those trusted before |
| ClientIp.ExactTrust | axess-core/src/client_ip.rs:353-361 | an address listed by itself trusts that address in either form and no other |
| ClientIp.SplitExactly | axess-core/src/client_ip.rs:469 | the parts of a line hold no comma and joined by commas are the line |
| Text.TrimExactly | axess-core/src/client_ip.rs:472-473 | trimming takes off white space at either end, and all of it |
| ClientIp.WalkBack | axess-core/src/client_ip.rs:471-483 | the reverse loop computes the walk |
| ClientIp.ClientFromChain | axess-core/src/client_ip.rs:450-507 | the whole chain reading: all lines in order, an unreadable line ends it, `X-Real-IP` only without a chain and only as a single line |
| ClientIp.RightmostDecides | axess-core/src/client_ip.rs:471-483 | the rightmost entry that is not a trusted hop decides whatever is to its left |
| ClientIp.WalkExactly | axess-core/src/client_ip.rs:471-483 | an address is the outcome exactly when some entry reads as it, it is not trusted, and every entry to its right is a trusted hop |
| ClientIp.SplittingIrrelevant | axess-core/src/client_ip.rs:451-470 | readable lines with the same comma-joined text give the same answer, as section 5.3 of RFC 9110 has it |
| ClientIp.LeftIrrelevant | axess-core/src/client_ip.rs:450-483 | entries and readable lines left of the deciding entry change no answer |
| ClientIp.ForwardedExactly | axess-core/src/client_ip.rs:411-435 | an address is answered as forwarded exactly when the headers may be read and name it, in a readable chain that decides it or, without a chain, in the one `X-Real-IP` line the operator vouches for |
| ClientIp.PeerExactly | axess-core/src/client_ip.rs:420-434 | the peer is the source exactly when it is untrusted or the headers name nobody, and then it is the address; no address is known exactly when there is no peer and the headers may not be read or name nobody |
| ClientIp.TrustedPeerAnswers | axess-core/src/client_ip.rs:423-428 | a trusted loopback peer that is the source, with no header and with an empty line |
| ClientIp.ChainExactly | axess-core/src/client_ip.rs:450-507 | the chain reading yields an address exactly when the headers name it |
| ClientIp.UntrustedPeerAnswers | axess-core/src/client_ip.rs:416-422 | an untrusted peer is the answer whatever the headers say |

## Left out

- HTTP, TLS, LDAP, JWT signing and verification, WebAuthn, Argon2id and HMAC internals: outcomes or parameters.
- The remaining crates (sessions, rate limits, devices, refresh tokens, authorization, SCIM, SPIFFE): not part of this model.
- Cache statistics, tracing, zeroizing, mutex poisoning and constant-time behaviour: not functional results.
- Memory ordering: every atomic operation is one step of one sequence.
- Fairness and liveness: nothing says a waiting caller is ever served.
- SingleFlight: the concurrent load protocol is a state machine over values made of the functions the class is proved against; panics in `clone` of a key or value are not steps.
- SingleFlight.InvalidateWins: does not cover `invalidate_entries_by`, which leaves in-flight loads alone on purpose; it is a `Sweep` step.
- TokenProtocol.CondemnedIsNeverServed: a token is the result of one fetch, told apart by its serial number; a provider that issues the same text again after a condemnation issues another token.
- TokenCache.Cache.Store: the fetch counter does not wrap at 64 bits.
- Replicas: the store keeps its documented contract (atomic reads, no second key under a known id); a rotation dropped between its two steps is one whose store call took effect and whose caller learned nothing.
- LocalIdp.MintKid: claims, audience and lifetime checks of minting are not modelled.
- KdfExecutor: the inline mode, a closed semaphore, and a runtime that shuts down before a spawned job runs.
- Xoshiro: `next_uniform` and its floating-point result.
- EnvelopeAad: identifiers are their bytes.
- RecoveryCode: no randomness claim beyond `SymbolsUniform`; who sets `under_previous_pepper` after a match is outside these functions.
- Hotp: lockout bookkeeping and TOTP; the base32 text of the secret, which is a parameter.
- Cidr, ClientIp: the axum layer and the constructors that only fill fields.
