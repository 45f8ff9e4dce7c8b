# A verified model of fwknox

fwknox is a single-packet-authorization daemon. A client sends one encrypted, authenticated UDP
packet; the daemon rate-limits it, verifies it, checks that it is fresh, and asks the firewall for a
temporary rule. This project models that path in Dafny and proves what its parts promise, over every
input, every run and every interleaving.

| file | models |
|---|---|
| `Options.dfy`, `Lru.dfy` | optional values; the `lru` crate's cache: a bounded map with a recency order |
| `TokenBucket.dfy` | the token bucket, and the arrival curve it implements |
| `Bytes.dfy`, `SourceKey.dfy` | octets, bit masks, and the keying of source addresses |
| `Limiter.dfy` | the two-tier rate limiter as an object, with its lock recovery |
| `LimiterRuns.dfy`, `LimiterBound.dfy`, `LimiterFairness.dfy` | runs of the limiter: invariant, accounting, total bound, isolation, promotion, eviction |
| `ReplayCache.dfy`, `CacheFile.dfy` | the replay cache, its operations and its text file |
| `ReplayCrash.dfy`, `ReplayConcurrent.dfy` | the cache under crashes at any point, and under interleaved callers |
| `Wire.dfy` | payload checks, header, packet building and parsing |
| `Config.dfy`, `Authorize.dfy` | configuration validity, stanza matching, policy, the pipeline and the privilege-separated parent |
| `StanzaPolicy.dfy` | two documented policy fields that are never read, and when that does not matter |
| `ReplayWindow.dfy` | the daemon over time: how long nonces must be kept |
| `Simulation.dfy`, `Privsep.dfy` | the two process layouts compared, and the three-process protocol |
| `Flood.dfy`, `SingleFlood.dfy` | the limiter's bound and the replay cache together, in the three processes and in the single one: how large the cache must be |

Where the source updates fields in place (bucket, limiter, replay cache, pipeline, parent) the model
is a class or a method with a loop, proved against a function on values; the theorems are about those
functions. A method's row states that tie; what the function means is in the rows of the lemmas.

Conventions. Instants and `f64` token counts are reals. Clock readings, save outcomes and the random
nonce are parameters. The AEAD, HMAC, key derivation and MessagePack are a `Suite` of functions
constrained by laws: sealing and opening are inverse in both directions (sections 2.1 and 2.2 of
RFC 5116), the AEAD tag has 16 bytes and the HMAC tag 32 (section 2 of RFC 2104), derived keys
(section 2 of RFC 5869) are functions of the master key, and unpacking inverts packing. No law says
that a tag cannot be forged: the theorems speak of packets that verify, whoever made them.
`Wire.LawsAreConsistent` exhibits a suite that satisfies the laws.

## Where code and documentation differ

The model follows the code.

- The repository's README says that packet HMACs are cached against replay; the code caches payload nonces.
- `load_from_file` always builds a cache of 10,000 entries and ignores `replay.max_entries`. A file is reloaded whole if and only if it has no more entries than that (`ReplayCaches.LoadWhole`).
- `DaemonConfig::validate` does not relate `replay.max_age` to `max_spa_packet_age`. `ReplayWindow.NoPayloadTwice` and `ReplayWindow.WindowIsTight` give the exact relation that is needed.
- `match_packet` reports a packet of impossible length as rejected by the first stanza, not as unmatched (`Authorize.NoMatchExactly`).
- The stanza fields `require_username` and `max_fw_timeout` are documented as policy and never consulted (`StanzaPolicy.FieldsNeverConsulted`). `StanzaPolicy.DocumentedExactly` says exactly when a rule is what the documentation allows all the same, `StanzaPolicy.OwnCapExactly` when a stanza's own cap is kept, and `StanzaPolicy.WrongUsernameIsGranted` that no username is ever turned away.
- The single-process pipeline consumes a nonce before the policy checks, the privilege-separated parent after them. `Simulation.ModesDifferExactly` says at which packets the two then differ, and `Simulation.ModesDiffer` gives runs on which they do.
- `build_packet` does not check the username; only the parser does (`Wire.PacketRoundTrip`).
- The timestamp subtraction wraps in a release build. `Authorize.ClockCheckIsWindow` shows which timestamps that lets in, and that none are while the clock is 30 seconds short of the last representable second.
- The release profile aborts on panic, so `catch_unwind` in the crypto worker only helps unwinding builds. In the model a panic drops the message; a process that aborted takes no further steps.
- `check_and_insert` accepts a nonce at most once among racing calls as long as it is neither evicted nor pruned (`ReplayConcurrent.SingleAcceptance`). Otherwise a rollback removes the entry of another call exactly when the pending call has lost its own entry and the nonce is in memory again (`ReplayConcurrent.OwnershipExactly`), and every pending call whose nonce has left memory can be brought there (`ReplayConcurrent.RollbackRemovesAccepted`).
- With the default parameters the rate limiter admits 10,001 packets of distinct sources within 20 seconds (`FloodSafety.DefaultsAdmitFlood`), one more than the cache holds. As many new nonces as the cache holds push out every older one (`ReplayCaches.FloodEvicts`), and a payload whose entry is evicted while it is still allowed is granted again (`ReplayWindow.EvictionIsFatal`). `FloodSafety.NoGrantTwiceUnderFlood` and `SingleFlood.NoPayloadTwiceUnderFlood` say which capacity is enough; the defaults do not meet it (`FloodSafety.DefaultsFallShort`).

## Model

| member | source | states |
|---|---|---|
| `TokenBuckets.TokenBucket.constructor` | crates/fwknox-ratelimit/src/bucket.rs:36-44 | a new bucket is full, at the given instant |
| `TokenBuckets.TokenBucket.RefillAt` | crates/fwknox-ratelimit/src/bucket.rs:57-65 | the in-place refill is `Refill` of the old value; a clock that steps back changes nothing |
| `TokenBuckets.TokenBucket.ConsumeAt` | crates/fwknox-ratelimit/src/bucket.rs:47-55 | new fields and decision are `Consume` of the old value |
| `TokenBuckets.LevelIsTightest` | crates/fwknox-ratelimit/src/bucket.rs:47-65 | the level a call finds is the smallest, over all starting points in its history, of burst plus rate times elapsed time minus passes |
| `TokenBuckets.ServeIsExact` | crates/fwknox-ratelimit/src/bucket.rs:47-65 | after any calls, also with a clock that steps back, a call passes if and only if every window ending at it stays within burst plus rate times its length |
| `TokenBuckets.CurveDeterminesDecisions` | crates/fwknox-ratelimit/src/bucket.rs:36-65 | a sequence of decisions obeys the arrival-curve specification if and only if it is the bucket's |
| `TokenBuckets.WindowBound` | crates/fwknox-ratelimit/src/bucket.rs:36-65 | passes in any window of calls are at most burst plus rate times the window |
| `SourceKeys.FromIpv4` | crates/fwknox-ratelimit/src/key.rs:42-49 | the byte copy gives the same key for every IPv6 prefix length |
| `SourceKeys.FromIpv6Masked` | crates/fwknox-ratelimit/src/key.rs:51-77 | the in-place byte loop and bit mask compute the specified key for every prefix length, clamped to 1..128 |
| `SourceKeys.MaskRoundsAddressDown` | crates/fwknox-ratelimit/src/key.rs:51-77 | the mask, as a 128-bit number, is the address rounded down to a multiple of `2^(128 - p)` |
| `SourceKeys.MaskedAgree` | crates/fwknox-ratelimit/src/key.rs:51-77 | two addresses mask alike if and only if their leading `p` bits agree (section 2.3 of RFC 4291) |
| `SourceKeys.MaskIdempotent` | crates/fwknox-ratelimit/src/key.rs:51-77 | masking twice is masking once |
| `SourceKeys.KeysAgree` | crates/fwknox-ratelimit/src/key.rs:35-77 | two addresses share a key if and only if both are the same IPv4 address, or both IPv6 with the same prefix; the families never meet |
| `RateLimiters.RateLimiter.constructor` | crates/fwknox-ratelimit/src/limiter.rs:144-168 | empty tables, full global bucket, zero counters, lock not poisoned |
| `RateLimiters.RateLimiter.SweepExpiredCandidates` | crates/fwknox-ratelimit/src/limiter.rs:88-91 | exactly the candidates seen within 60 seconds remain |
| `RateLimiters.RateLimiter.Lock` | crates/fwknox-ratelimit/src/limiter.rs:183-199 | a poisoned lock yields fresh state from the configuration, keeps the counters and clears the poison; otherwise nothing changes |
| `RateLimiters.RateLimiter.CheckIp` | crates/fwknox-ratelimit/src/limiter.rs:208-320 | disabled: every packet is admitted and only counted; enabled: whole new state, counters and decision are those of the specification `Check` |
| `RateLimiters.RateLimiter.HitTracked` | crates/fwknox-ratelimit/src/limiter.rs:218-242 | a tracked source meets only its own bucket and becomes most recent; counter and drop reason follow |
| `RateLimiters.RateLimiter.HitGlobal` | crates/fwknox-ratelimit/src/limiter.rs:244-264 | an untracked source meets the global bucket; a drop changes neither table |
| `RateLimiters.RateLimiter.CountPass` | crates/fwknox-ratelimit/src/limiter.rs:266-320 | a globally passed packet is admitted whether it is counted, refused a count, or promotes its source; the whole new state is that of `Count`, whose effect on the candidates `LimiterFairness.CandidatesExactly` spells out |
| `RateLimiters.RateLimiter.BumpCandidate` | crates/fwknox-ratelimit/src/limiter.rs:277-296 | new count (saturating at `u32::MAX`) or none, sweeping only a full table |
| `RateLimiters.RateLimiter.Promote` | crates/fwknox-ratelimit/src/limiter.rs:298-316 | the source leaves the candidates and enters the table with a full bucket; an eviction is counted only for another key |
| `LimiterRuns.StepKeepsInv` | crates/fwknox-ratelimit/src/limiter.rs:208-320 | every packet keeps the invariant: table sizes within capacity, tracked and candidates disjoint, counts between 1 and threshold - 1, tokens between 0 and burst |
| `LimiterRuns.ReachableStateIsGood` | crates/fwknox-ratelimit/src/limiter.rs:183-320 | after any packets and panics that leave arbitrary state behind, the invariant holds whenever the lock is clean, and allowed + dropped per source + dropped globally equals the completed checks plus those that panicked after counting their drop |
| `LimiterRuns.TrackedIsPromotedMinusEvicted` | crates/fwknox-ratelimit/src/limiter.rs:298-316 | without a panic, promotions minus evictions is the size of the tracked table |
| `LimiterRuns.PromotionAccounting` | crates/fwknox-ratelimit/src/limiter.rs:244-316 | conservation: global passes equal threshold times promotions, plus live counts, plus counts lost to refusals and sweeps; dropped packets contribute nothing |
| `LimiterRuns.HistoryIsRun` | crates/fwknox-ratelimit/src/limiter.rs:208-320 | without a panic the limiter is the run of its keyed packets, and each of the five counters is the number of packets that took that route, promoted or evicted |
| `LimiterBound.TrackedTierBound` | crates/fwknox-ratelimit/src/limiter.rs:218-242 | from any state, tracked passes plus the capped credit still held are paid for by the credit at the start, by promotions (one burst each) and by `capacity` buckets earning over the run |
| `LimiterBound.GlobalTierBound` | crates/fwknox-ratelimit/src/limiter.rs:244-264 | from any state, global passes plus the level left stay within the global burst plus rate times elapsed time |
| `LimiterBound.PromotionsBound` | crates/fwknox-ratelimit/src/limiter.rs:266-316 | threshold times promotions never exceeds the global passes of the run plus the counts held at its start |
| `LimiterBound.AdmissionFrom` | crates/fwknox-ratelimit/src/limiter.rs:208-320 | from any state, for any number of sources in any order over `T` seconds, admitted packets are at most `G`, plus a burst per promotion that `G` and the counts held allow, plus the credit held, plus `capacity * rate * T` |
| `LimiterBound.AdmissionBound` | crates/fwknox-ratelimit/src/limiter.rs:208-320 | from boot the bound is `G + burst * G / threshold + capacity * rate * T`, with `G` the global burst plus global rate times `T` |
| `LimiterBound.AdmissionInWindow` | crates/fwknox-ratelimit/src/limiter.rs:208-320 | in the last `T` seconds of any run, however long, the same bound with `capacity` full buckets and `capacity * (threshold - 1)` counts to start with |
| `LimiterBound.AllowedBound` | crates/fwknox-ratelimit/src/stats.rs:33-35 | the same bound on the limiter's own `allowed` counter, from addresses rather than keys |
| `LimiterFairness.Isolation` | crates/fwknox-ratelimit/src/limiter.rs:218-242 | while a source stays tracked, its verdicts and bucket are those of its own bucket served only its own packets, whatever others send |
| `LimiterFairness.IsolationFromPromotion` | crates/fwknox-ratelimit/src/limiter.rs:298-316 | from promotion to eviction a source gets exactly the verdicts of the arrival curve of a full bucket created at its promotion |
| `LimiterFairness.CandidateCounts` | crates/fwknox-ratelimit/src/limiter.rs:266-296 | while arrivals come within the TTL of a candidate's last counted packet, its count grows by exactly its passed packets, under any interleaving |
| `LimiterFairness.NoStarvation` | crates/fwknox-ratelimit/src/limiter.rs:266-316 | a candidate whose passed packets come under 60 seconds apart is promoted at exactly its threshold-th counted packet, whatever others do |
| `LimiterFairness.FirstPacket` | crates/fwknox-ratelimit/src/limiter.rs:277-316 | an unknown source that passes the global bucket and finds room among the live candidates gets count 1, dated by that packet, or is promoted at once when the threshold is 1 |
| `LimiterFairness.NoStarvationFromUnknown` | crates/fwknox-ratelimit/src/limiter.rs:266-316 | the same from the very first packet: a source unknown so far, admitted once and then sending under 60 seconds apart, is promoted by exactly the threshold-th of its globally passed packets |
| `LimiterFairness.CandidatesExactly` | crates/fwknox-ratelimit/src/limiter.rs:266-316 | the candidate table after any globally passed packet: entries go only when a newcomer finds the table full, and then exactly those not seen for 60 seconds; the sender counts one more and is dated now, whatever its age |
| `LimiterFairness.PromotionNeedsThreshold` | crates/fwknox-ratelimit/src/limiter.rs:266-316 | never earlier: a source that starts unknown is promoted only on at least threshold globally passed packets of its own |
| `LimiterFairness.RefusedExactly` | crates/fwknox-ratelimit/src/limiter.rs:277-296 | a globally passed packet goes uncounted if and only if its source is new and the table is full of candidates seen within 60 seconds |
| `LimiterFairness.NewcomersAdmitted` | crates/fwknox-ratelimit/src/limiter.rs:244-320 | the lower bound: from boot, packets of pairwise distinct sources, spaced so that the global bucket earns a token in between, are all admitted, however many, for every valid configuration |
| `LimiterFairness.PacketRefreshes` | crates/fwknox-ratelimit/src/limiter.rs:218-220 | every packet of a tracked source, dropped ones included, makes it most recent |
| `LimiterFairness.EvictionLaw` | crates/fwknox-ratelimit/src/limiter.rs:298-316 | after its last packet a tracked source is evicted only once at least `tracked_sources_capacity` distinct other sources have hit or entered the table |
| `LimiterFairness.VerdictExactly` | crates/fwknox-ratelimit/src/limiter.rs:218-264 | a packet is admitted if and only if the bucket in charge (its own when tracked, else the global one), refilled to now and capped, holds a whole token; otherwise the drop reason names that bucket |
| `LimiterFairness.RecoveryAdmits` | crates/fwknox-ratelimit/src/limiter.rs:183-199 | after a panic both tables are empty, the global bucket is full as of the recovery, the counters are kept, and the next packet of any source is admitted and counted |
| `ReplayCaches.ReplayCache.WithCapacity` | crates/fwknox-replay/src/cache.rs:61-72 | an empty cache of the given capacity, file untouched |
| `ReplayCaches.ReplayCache.LoadFromFile` | crates/fwknox-replay/src/cache.rs:167-178 | a cache of the default capacity filled from the file in any enumeration order |
| `ReplayCaches.ReplayCache.SaveToFile` | crates/fwknox-replay/src/cache.rs:181-187 | a successful save makes the file equal to memory, a failed one leaves it alone |
| `ReplayCaches.ReplayCache.CheckInsert` | crates/fwknox-replay/src/cache.rs:87-107 | new memory, file and result, for fresh, replayed and failed-save calls alike |
| `ReplayCaches.ReplayCache.PruneOlderThan` | crates/fwknox-replay/src/cache.rs:140-163 | the collect-then-remove loops give the specified memory, file and count; nothing is written when nothing is stale |
| `ReplayCaches.ExpireDropsStale` | crates/fwknox-replay/src/cache.rs:140-163 | a prune keeps exactly the entries stamped at or after the cutoff, with their stamps |
| `ReplayCaches.PruneExactly` | crates/fwknox-replay/src/cache.rs:140-163 | a prune removes exactly the entries stamped more than `max_age` seconds before now and returns how many; the file becomes memory when something was removed and the save works, and stays as it was otherwise; only that save can fail |
| `ReplayCaches.FileAfterInsert` | crates/fwknox-replay/src/cache.rs:87-107 | an insertion is a replay if and only if the nonce is in memory, fails if and only if it is new and its save fails, and otherwise makes the file equal to memory (or leaves it alone without a path) |
| `ReplayCaches.LoadWhole` | crates/fwknox-replay/src/cache.rs:167-178 | a file is loaded whole, in whatever order its entries come, if and only if it fits the capacity |
| `ReplayCaches.LoadKeepsLast` | crates/fwknox-replay/src/cache.rs:167-178 | of a file larger than the cache, the entries met last are kept, the last one as most recent |
| `ReplayCaches.FailedSaveKeepsOthers` | crates/fwknox-replay/src/cache.rs:99-105 | a failed save takes the new nonce back, leaves the file alone, and loses no other entry except the oldest of a full cache |
| `ReplayCaches.NonceRetention` | crates/fwknox-replay/src/cache.rs:87-163 | an accepted nonce is reported as a replay until a prune finds it stale, or until capacity - 1 distinct nonces other than itself were accepted and one more is inserted |
| `ReplayCaches.FloodEvicts` | crates/fwknox-replay/src/cache.rs:87-98 | the converse of retention: as many saved insertions of new, distinct nonces as the cache holds push out every entry that was there |
| `ReplayCrash.CrashSafety` | crates/fwknox-replay/src/cache.rs:87-187 | over any steps, failed saves and crashes: at rest memory is a submap of the file; a rule is requested only for a nonce already in the file; a nonce whose rule was requested stays in the file and is rejected, also after a reload, unless it was evicted, pruned or lost to the reload capacity after its last request |
| `ReplayCrash.StepsAreInsert` | crates/fwknox-replay/src/cache.rs:87-107 | the crash model's steps of one insertion, taken in a row, are `check_and_insert`, with and without a failed save |
| `ReplayCrash.StepsArePrune` | crates/fwknox-replay/src/cache.rs:140-163 | the same for a prune |
| `ReplayCrash.RequestRecords` | crates/fwknox-daemon/src/pipeline.rs:118-199 | after a saved insertion a request is recorded and a refusal is not; both leave the nonce in memory and in the file |
| `ReplayCrash.RemovedIsGone` | crates/fwknox-replay/src/cache.rs:87-187 | the exemption of the crash theorem is no wider than needed: only a nonce that an event really drops from memory, or that a reload leaves behind, is counted as removed |
| `ReplayCrash.ShutdownRestart` | crates/fwknox-replay/src/cache.rs:167-187 | an orderly shutdown and restart forgets nothing, if memory holds at most 10,000 entries |
| `ReplayConcurrent.SingleAcceptance` | crates/fwknox-replay/src/cache.rs:91-106 | after any interleaving of any number of calls that leaves no pending call of a nonce without its entry, and along any continuation that neither evicts nor prunes the nonce: of the calls that had not lost it before, at most one is ever accepted with it, so at most one of those that enter meanwhile; and no pending rollback would remove another call's entry |
| `ReplayConcurrent.AcceptedOnce` | crates/fwknox-replay/src/cache.rs:91-106 | from the start: a nonce that is never evicted or pruned gets Ok(true) at most once, whoever calls and however the calls interleave |
| `ReplayConcurrent.OwnershipExactly` | crates/fwknox-replay/src/cache.rs:91-106 | evictions and prunes included: a call holding a nonce is lost if and only if the live entry is not its own; at most one accepted call of a nonce is not lost; a pending rollback would remove another call's entry if and only if the pending call is lost and the nonce is in memory |
| `ReplayConcurrent.SectionsAreInsert` | crates/fwknox-replay/src/cache.rs:87-107 | the sections of one call, taken in a row, are `check_and_insert`, accepted or rolled back |
| `ReplayConcurrent.PoolPruneDrops` | crates/fwknox-replay/src/cache.rs:140-163 | a prune between the sections drops exactly the entries stamped more than `max_age` seconds before now, and neither accepts nor ends a call |
| `ReplayConcurrent.RollbackRemovesAccepted` | crates/fwknox-replay/src/cache.rs:91-106 | for every pending call whose nonce has left memory, a new call that inserts the nonce and is accepted loses its entry to the pending rollback |
| `ReplayConcurrent.RollbackAfterEviction` | crates/fwknox-replay/src/cache.rs:91-106 | the condition is needed: after an eviction a rollback removes an accepted call's entry |
| `CacheFile.EncodeNonceHex` | crates/fwknox-replay/src/persist.rs:103-110 | the loop writes the lower-case hex of the nonce |
| `CacheFile.ParseNonceHex` | crates/fwknox-replay/src/persist.rs:120-132 | the loop accepts exactly 32 hex digits and decodes them |
| `CacheFile.HexDigits` | crates/fwknox-replay/src/persist.rs:103-141 | digits and letters of either case are read with their usual values, and written in lower case |
| `CacheFile.HexAt` | crates/fwknox-replay/src/persist.rs:103-110 | each byte is written as two digits, the high one first |
| `CacheFile.NonceFieldRoundTrip` | crates/fwknox-replay/src/persist.rs:103-141 | parsing inverts encoding, and encoding inverts parsing up to letter case |
| `CacheFile.ShowParses` | crates/fwknox-replay/src/persist.rs:45-52 | the decimal text of a 64-bit stamp parses back to it |
| `CacheFile.StampSyntax` | crates/fwknox-replay/src/persist.rs:48-51 | a stamp is accepted if and only if it is at least one digit, with any leading zeros, after an optional plus sign, and its place value fits 64 bits; it then reads as that value |
| `CacheFile.ReadCacheFile` | crates/fwknox-replay/src/persist.rs:18-55 | the loop gives the entries of all lines, later lines winning, or the first bad line's number and error; a missing file is empty |
| `CacheFile.LoadedExactly` | crates/fwknox-replay/src/persist.rs:28-55 | a file loads if and only if none of its lines is bad |
| `CacheFile.EntriesExactly` | crates/fwknox-replay/src/persist.rs:28-55 | a file that loads gives each nonce the stamp of the last line that has it, and holds nothing else |
| `CacheFile.LineOfTwo` | crates/fwknox-replay/src/persist.rs:30-52 | a line with at least two fields is judged on those two alone, whatever blanks and further fields surround them, the nonce before the stamp |
| `CacheFile.LineOfOne` | crates/fwknox-replay/src/persist.rs:40-43 | a line of one field lacks its timestamp |
| `CacheFile.LineIgnored` | crates/fwknox-replay/src/persist.rs:31-34 | blank lines and lines whose first visible character is `#` are skipped |
| `CacheFile.LineEndings` | crates/fwknox-replay/src/persist.rs:30-31 | both line endings end the same line |
| `CacheFile.LinesUnterminated` | crates/fwknox-replay/src/persist.rs:30-31 | a last line without a newline is a line like any other |
| `CacheFile.AsciiWhitespace` | crates/fwknox-replay/src/persist.rs:31-41 | among ASCII characters, fields are separated by blanks and by tab to carriage return, and by nothing else |
| `CacheFile.BadLineStops` | crates/fwknox-replay/src/persist.rs:34-52 | the first bad line decides the error, whatever follows it |
| `CacheFile.WriteCacheFile` | crates/fwknox-replay/src/persist.rs:72-86 | the loop writes a header and one line per entry |
| `CacheFile.WrittenFormat` | crates/fwknox-replay/src/persist.rs:72-86 | the lines written are one comment, then per entry, in order, 32 hex digits, a blank and the decimal stamp |
| `CacheFile.ShowNatIs` | crates/fwknox-replay/src/persist.rs:72-86 | the decimal text of a stamp is all digits, denotes the stamp and has no leading zero |
| `CacheFile.FileRoundTrip` | crates/fwknox-replay/src/persist.rs:18-86 | reading what was written gives back exactly the map, for every map of 64-bit stamps and every write order |
| `Wire.LawsAreConsistent` | crates/fwknox-proto/src/packet.rs:37-141 | the laws assumed of the cryptographic suite have a model in which any given payload encodes |
| `Wire.UsernameExactly` | crates/fwknox-proto/src/payload.rs:52-64 | the structural check passes if and only if the username is at most 64 printable ASCII characters |
| `Wire.ReservedBits` | crates/fwknox-proto/src/header.rs:55-61 | a flag byte is accepted if and only if its high four bits are clear, and the error carries those bits |
| `Wire.HeaderRoundTrip` | crates/fwknox-proto/src/header.rs:101-126 | decoding accepts exactly the encodings of current-version headers with defined flags, and inverts them |
| `Wire.DeriveFlags` | crates/fwknox-proto/src/packet.rs:122-133 | setting the bits one by one gives the sum of the independent flags of the message |
| `Wire.FlagBits` | crates/fwknox-proto/src/packet.rs:122-133 | bit 0 is set exactly for NAT messages, bit 1 exactly with a client timeout, bit 2 exactly for commands, no other bit ever |
| `Wire.BuildPacketBuffer` | crates/fwknox-proto/src/packet.rs:37-72 | the buffer filled field by field is the specified packet, or the same error |
| `Wire.BuildOutcome` | crates/fwknox-proto/src/packet.rs:37-72 | building succeeds if and only if the key has 32 bytes, the payload packs into at most 1024 bytes and the generator works; the packet is then 64 to 1088 bytes, and never too long |
| `Wire.WireLayout` | crates/fwknox-proto/src/packet.rs:37-72 | a built packet byte by byte: version 1, flags, big-endian length, the nonce at 4, the encoding sealed under the encryption key with the header as associated data at 16, and the HMAC-key tag of all that in the last 32 bytes |
| `Wire.HmacGate` | crates/fwknox-proto/src/packet.rs:78-100 | among packets of acceptable length the HMAC error is reported if and only if the tag is wrong, whatever else is wrong |
| `Wire.ParseErrorIsTrue` | crates/fwknox-proto/src/packet.rs:78-141 | every parse error is true of the packet: the lengths, the version byte and the reserved bits it carries are the packet's, the tag is wrong, the ciphertext does not open, or the plaintext does not unpack |
| `Wire.ParseSignedAccepts` | crates/fwknox-proto/src/packet.rs:100-141 | the signed parts that parse to a payload are exactly the framings of its encodings with its own flags |
| `Wire.ParseAccepts` | crates/fwknox-proto/src/packet.rs:78-141 | a packet parses to a payload if and only if the key has 32 bytes, the packet 64 to 1500, and it is a correctly tagged, sealed, framed encoding of that payload, whose username is at most 64 printable ASCII characters |
| `Wire.PacketRoundTrip` | crates/fwknox-proto/src/packet.rs:37-141 | a built packet parses back to its payload if and only if the username is at most 64 printable ASCII characters |
| `DaemonConfigs.Validate` | crates/fwknox-config/src/daemon.rs:392-531 | the loops accept a configuration if and only if it has stanzas with unique names, each with open ports, a nonzero key and none of the unimplemented features; durations positive, at most seven days and in order; an absolute cache path without `..`; and, when rate limiting is on, positive rates no larger than their bursts, a positive capacity and threshold, and a prefix length from 1 to 128; every reported error is true of the configuration |
| `DaemonConfigs.InvalidExactly` | crates/fwknox-config/src/daemon.rs:392-531 | the errors are complete: a configuration is invalid if and only if some error applies to it |
| `DaemonConfigs.ValidateStanzas` | crates/fwknox-config/src/daemon.rs:392-446 | the loop with its set of seen names accepts exactly a nonempty list of sound stanzas with pairwise distinct names; an error names a stanza that has that fault |
| `DaemonConfigs.ValidateDurations` | crates/fwknox-config/src/daemon.rs:497-517 | the loop accepts exactly when packet age, default and maximum rule timeout and cache age are all positive and at most seven days, in nanoseconds |
| `DaemonConfigs.HostNetwork` | crates/fwknox-config/src/shared.rs:30-36 | a network of full prefix length matches exactly its one address, never the other family |
| `DaemonConfigs.NetworkIsRange` | crates/fwknox-config/src/shared.rs:30-36 | for both families and every prefix length, 0 included, a network matches exactly the addresses of its family in a range of `2^(width - p)` numbers that starts at the network address without its host bits |
| `DaemonConfigs.NetworksAreKeys` | crates/fwknox-config/src/shared.rs:30-36 | an IPv6 network of the allowlist contains an address if and only if the rate limiter, at that prefix length, gives both the same key |
| `Authorize.ClockCheckIsWindow` | crates/fwknox-proto/src/validate.rs:18-35 | with wrapping subtraction, the clock check accepts exactly the time window, plus wrapped timestamps only at the very end of the 64-bit range; where the age does not wrap, future and stale are told apart correctly |
| `Authorize.WindowIsConfigured` | crates/fwknox-daemon/src/pipeline.rs:118-124 | the window in whole seconds is the configured one: at most 30 seconds ahead, and an age that in nanoseconds is at most `max_spa_packet_age` |
| `Authorize.MatchIsFirstVerified` | crates/fwknox-daemon/src/matcher.rs:41-65 | if stanza `i` is the first not to fail the HMAC and it parses the packet, the match is that stanza and payload |
| `Authorize.MatchedIndex` | crates/fwknox-daemon/src/matcher.rs:41-65 | conversely every match comes from such a stanza |
| `Authorize.UnmatchedIndex` | crates/fwknox-daemon/src/matcher.rs:41-65 | a packet held against a stanza fails there for another reason than its HMAC, that reason is the one reported, and every earlier HMAC failed |
| `Authorize.NoMatchExactly` | crates/fwknox-daemon/src/matcher.rs:41-65 | unmatched if and only if the length is possible and every HMAC fails; an impossible length is blamed on the first stanza |
| `Authorize.FindIsUnique` | crates/fwknox-daemon/src/pipeline.rs:37-48 | with unique names the lookup by name returns the very stanza that matched |
| `Authorize.FirstClosedPort` | crates/fwknox-daemon/src/pipeline.rs:172-180 | none if and only if every requested port is open, else the first that is not |
| `Authorize.RefusalExactly` | crates/fwknox-daemon/src/pipeline.rs:148-180 | which of several violated conditions is reported: the message type, else the source match, else the allowlist, else a closed port; none if and only if none is violated |
| `Authorize.RunPipeline` | crates/fwknox-daemon/src/pipeline.rs:92-199 | the in-place pipeline leaves the cache, the firewall log and the result of the specification, on every path |
| `Authorize.ResultIsTruthful` | crates/fwknox-daemon/src/pipeline.rs:92-199 | every result of the pipeline is true: unmatched, malformed, untimely and replayed packets change nothing, a failed save leaves no trace of the nonce, a refused packet violates the named condition of the stanza that verified it and has spent its nonce; the missing-stanza error never happens |
| `Authorize.RunParent` | crates/fwknox-daemon/src/privsep_run.rs:332-416 | the same for the parent handling one message |
| `Authorize.ValidRequestIsAllowed` | crates/fwknox-daemon/src/validate.rs:36-119 | the crypto worker forwards a request if and only if the stanza whose key verified it allows it, with the timestamp at most 30 seconds ahead and no older than `max_spa_packet_age`; it reports no match exactly when no key matched |
| `Authorize.RuleIsTheGrant` | crates/fwknox-daemon/src/pipeline.rs:183-193 | the rule built is the only one with the requested source and ports, the stanza's timeout (or the default) cut at the daemon-wide maximum, and the audit comment |
| `Authorize.ShowIntIs` | crates/fwknox-daemon/src/pipeline.rs:183-193 | the timestamp in a rule comment reads back as the number, without leading zeros, after a minus sign if negative |
| `Authorize.PipelineRequests` | crates/fwknox-daemon/src/pipeline.rs:92-199 | the pipeline requests a rule if and only if the timestamp is at most 30 seconds ahead and no older than `max_spa_packet_age`, the packet is verified by a stanza whose policy allows exactly that rule, and its nonce is fresh and saved |
| `Authorize.BuiltPacketIsAllowed` | crates/fwknox-proto/src/packet.rs:37-72 | from client to rule: a packet built with a stanza's key from a timely payload its policy allows is allowed by that stanza, unless an earlier stanza's HMAC verifies it too |
| `Authorize.ModesOnOnePacket` | crates/fwknox-daemon/src/privsep_run.rs:345-414 | on one packet the pipeline and validate-then-parent request the same rule whenever the packet is a valid request |
| `StanzaPolicy.FieldsNeverConsulted` | crates/fwknox-config/src/daemon.rs:292-301 | erasing `max_fw_timeout` and `require_username` from every stanza changes no outcome of the pipeline, no verdict of the crypto worker and no rule of the parent |
| `StanzaPolicy.DocumentedExactly` | crates/fwknox-config/src/daemon.rs:292-301 | a rule the daemon allows is one the documentation allows if and only if the payload carries the required username and the stanza's maximum and the daemon's cut the configured timeout alike |
| `StanzaPolicy.OwnCapExactly` | crates/fwknox-config/src/daemon.rs:292-294 | a stanza's own cap is kept if and only if the configured timeout or the daemon's maximum is already within it |
| `StanzaPolicy.WrongUsernameIsGranted` | crates/fwknox-config/src/daemon.rs:299-301 | every allowed packet with a fresh nonce and a username other than the required one still gets its rule, from the pipeline and from the parent |
| `ReplayWindow.NoPayloadTwice` | crates/fwknox-daemon/src/pipeline.rs:118-146 | if nonces are kept `max_spa_packet_age + 30` whole seconds (plus the parent's lag), no payload gets two rules over any run of packets, prunes, failed saves, shutdowns and restarts in which evictions only hit entries whose packet can no longer be timely |
| `ReplayWindow.WindowIsTight` | crates/fwknox-daemon/src/pipeline.rs:118-146 | kept for any shorter time, every payload that some stanza allows has a run in which it is granted twice |
| `ReplayWindow.EvictionIsFatal` | crates/fwknox-replay/src/cache.rs:87-98 | whenever the entry at the end of a full cache belongs to a payload that is still allowed, one other allowed packet evicts it and the payload is granted again |
| `ReplayWindow.RestartRecalls` | crates/fwknox-replay/src/cache.rs:167-178 | a restart remembers exactly the file, up to 10,000 entries, and requests nothing |
| `ReplayWindow.ShutdownThenRestart` | crates/fwknox-replay/src/cache.rs:167-187 | across an orderly shutdown and restart the daemon forgets nothing |
| `ReplayWindow.DeathSpendsNonce` | crates/fwknox-daemon/src/pipeline.rs:126-199 | if the daemon dies between saving the nonce of an allowed packet and requesting its rule, no rule was requested and the reloaded cache holds the nonce all the same |
| `Simulation.ModesStep` | crates/fwknox-daemon/src/privsep_run.rs:345-414 | one packet keeps the parent's cache inside the pipeline's; a rule of the pipeline is requested identically by the parent; and the requests differ exactly when a forwarded nonce is in the first cache and not in the second |
| `Simulation.CacheIsSpent` | crates/fwknox-daemon/src/pipeline.rs:118-146 | with room, the cache after any packets holds what it started with and the nonces spent on the way: of forwarded packets in both modes, and in the pipeline also of verified, timely packets that policy refused |
| `Simulation.SplitSimulatesSingle` | crates/fwknox-daemon/src/privsep_run.rs:345-414 | over any packets, every rule of the single process is requested identically by the split daemon; at a packet the two differ if and only if it is forwarded, its nonce is neither in the parent's starting cache nor forwarded before, and it is in the pipeline's starting cache or an earlier packet carried it that was verified, in time and refused by policy |
| `Simulation.ModesDifferExactly` | crates/fwknox-daemon/src/privsep_run.rs:345-414 | from one shared cache the modes differ at a packet if and only if it is forwarded, its nonce was neither in that cache nor forwarded before, and an earlier packet with that nonce was verified, in time and refused by policy |
| `Simulation.ModesDiffer` | crates/fwknox-daemon/src/privsep_run.rs:345-414 | for every packet some stanza allows and every source that stanza does not list, when the same bytes first come from that source only the split daemon requests the rule |
| `Simulation.SameRulesOnDistinctNonces` | crates/fwknox-daemon/src/privsep_run.rs:345-414 | when no verified packet repeats an earlier nonce, or one that only the pipeline's starting cache holds, the two modes request the same rules packet by packet |
| `PrivsepProtocol.HandledInOrder` | crates/fwknox-privsep/src/workers.rs:54-174 | under every interleaving of the three processes, panics and skipped messages, the parent handles verdicts on a subsequence of the datagrams forwarded (`FloodSafety.PassedIsCaptured` says which these are), in order, and at most `allowed` of them |
| `PrivsepProtocol.NothingLost` | crates/fwknox-privsep/src/workers.rs:54-174 | without panics and skipped messages the parent's i-th message is the verdict on the i-th datagram the limiter passed, and the rest are still queued |
| `PrivsepProtocol.FaultLosesOne` | crates/fwknox-privsep/src/workers.rs:100-174 | a panic or a skipped message loses the one datagram it concerns, for good: it is never handled, however the run goes on |
| `PrivsepProtocol.TakePipe` | crates/fwknox-privsep/src/workers.rs:54-174 | and no other: every step keeps in the pipe all datagrams but the one a fault gives up |
| `PrivsepProtocol.EveryGrantIsAllowed` | crates/fwknox-daemon/src/privsep_run.rs:345-414 | under every interleaving, each requested rule is allowed (time window, allowlist, source match, ports, daemon-wide timeout) for its payload by the very stanza whose key verified its datagram, and is what that stanza's documentation allows if and only if the required username and the stanza's own maximum are met |
| `PrivsepProtocol.HandledIsGranted` | crates/fwknox-daemon/src/privsep_run.rs:345-414 | the converse of authorization: under every interleaving, a datagram at the head of the parent's queue that some stanza allowed when it was judged, with a nonce not in the cache and a save that works, has exactly its rule requested, and that stays so |
| `PrivsepProtocol.CapturedIsGranted` | crates/fwknox-privsep/src/workers.rs:54-174 | end to end: captured, admitted, its first 1500 bytes allowed by a stanza and its nonce new, a datagram gets exactly its rule from one turn of each process |
| `PrivsepProtocol.ParentIsReceive` | crates/fwknox-daemon/src/privsep_run.rs:345-414 | one parent step is the replay window's receipt of the datagram its message judges, checked at the message's clock reading |
| `PrivsepProtocol.PruneTickForgets` | crates/fwknox-daemon/src/privsep_run.rs:290-305 | a prune of the parent forgets exactly the entries older than `replay.max_age`, to the nanosecond |
| `PrivsepProtocol.NoGrantTwice` | crates/fwknox-daemon/src/privsep_run.rs:221-414 | along every schedule in which the parent's clock never goes back, each handled message was judged at most `wait` seconds before and evictions only hit entries too old to matter, no payload is granted twice if nonces are kept `max_spa_packet_age + 30 + wait` seconds |
| `FloodSafety.RecentAtMost` | crates/fwknox-ratelimit/src/limiter.rs:208-320 | at any point of any run, the datagrams the limiter passed in the last `T` seconds are at most its window allowance |
| `FloodSafety.LimiterIsRun` | crates/fwknox-privsep/src/workers.rs:54-98 | the limiter inside any interleaving of the three processes is the run of the captured datagrams, and the number forwarded is the number it admitted |
| `FloodSafety.PassedIsCaptured` | crates/fwknox-privsep/src/workers.rs:54-98 | under every interleaving, the datagrams forwarded are exactly the captured ones that the limiter's run admits (all of them when it is off), in the order captured, each with its own source and its first 1500 bytes |
| `FloodSafety.PacedCanForget` | crates/fwknox-replay/src/cache.rs:87-107 | with a cache at least as large as the limiter's allowance for the horizon, every eviction along a paced schedule hits an entry whose packet can no longer be timely |
| `FloodSafety.NoGrantTwiceUnderFlood` | crates/fwknox-daemon/src/privsep_run.rs:221-414 | starting from an empty cache of that capacity, whatever is sent from however many sources, no payload is granted twice along any schedule whose messages and datagrams wait at most `wait` and `delay` seconds |
| `FloodSafety.DefaultsFallShort` | crates/fwknox-config/src/daemon.rs:359-385 | the premise of the flood theorems is not met by the default limiter and `max_spa_packet_age`: the allowance exceeds the 10,000 entries of the cache, whatever the waits |
| `FloodSafety.DefaultsAdmitFlood` | crates/fwknox-config/src/daemon.rs:365-385 | the default limiter does admit 10,001 packets, of concrete IPv4 sources, within 20 seconds of boot |
| `SingleFlood.LoopLimiter` | crates/fwknox-daemon/src/run.rs:71-86 | the limiter of the main loop is the run of its datagrams, and the loop admits a datagram exactly when that run does |
| `SingleFlood.LoopIsDaemon` | crates/fwknox-daemon/src/run.rs:66-104 | the pipeline of the main loop sees exactly the admitted datagrams and the prunes, in order |
| `SingleFlood.AdmittedIsGranted` | crates/fwknox-daemon/src/run.rs:66-104 | end to end: an admitted datagram that some stanza allows, with a new nonce and a save that works, gets its rule |
| `SingleFlood.NoPayloadTwiceUnderFlood` | crates/fwknox-daemon/src/run.rs:66-104 | the single process from an empty cache at least as large as the limiter's allowance for the horizon: whatever is sent, no payload gets two rules, if nonces are kept as long as packets stay timely and clocks do not go back |

## Left out

- Floating point: token counts and elapsed seconds are exact reals, so the rounding of `f64` is not covered.
- Counters are unbounded; the wrap-around of the 64-bit statistics is not modelled.
- RateLimiters.RateLimiter.HitTracked: tracked buckets are values inside the table rather than objects updated in place; the table owns them, so nothing can alias them.
- Atomic ordering of the statistics, and readers of a snapshot in the middle of a call.
- The lock itself: calls to `check` are sequential, and a panic is a step that leaves arbitrary state and a poisoned lock.
- Warning throttles (`last_warn_log`, `last_global_drop_warn`), logging, and rejection texts beyond their kind.
- The cryptographic algorithms, MessagePack and the random generator, which are parameters with laws.
- Unforgeability of tags and secrecy: no theorem rests on an adversary's limits.
- ReplayWindow.NoPayloadTwice: assumes a wall clock that never goes back, since a clock set back makes an old packet timely again.
- SingleFlood.NoPayloadTwiceUnderFlood: one lifetime of the daemon from an empty cache, like the theorem for the three processes.
- FloodSafety.NoGrantTwiceUnderFlood: one lifetime of the daemon from an empty cache, since a reload forgets the order in which nonces were inserted; instants and wall clock are one timeline, to the second.
- Simulation.SplitSimulatesSingle: assumes room for every packet, working saves and the same clock readings in both modes.
- PrivsepProtocol.NoGrantTwice: covers one lifetime of the daemon; restarts in that mode are covered by `ReplayWindow.NoPayloadTwice`, where validating and handling a packet is one step.
- PrivsepProtocol.EveryGrantIsAllowed: assumes the validation clock is at least 30 seconds short of the last representable second.
- Durability with several concurrent callers: `ReplayConcurrent` covers memory, `ReplayCrash` a single caller.
- File system detail: a save is atomic, and either succeeds or fails; permissions, directory sync, leftover temporary files and text that is not UTF-8 are not modelled.
- DaemonConfigs.Validate: which of several true errors is reported first is not stated; the three unimplemented features share one error, and so do the rate-limit faults.
- TOML parsing, defaults and base64 keys.
- Processes, signals, sockets, sandboxing, message framing and size limits between the processes; channels are queues that lose nothing except what the workers skip.
- The nftables backend: the firewall is the log of requested rules, whether or not a request succeeds.
- Expiry of rules, the client, key generation and the command line.
- The worker and poll loops: their bodies are steps that any schedule may take in any order.
