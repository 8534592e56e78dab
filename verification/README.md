# OpenAdSource: decision engine, counter protocol, signed pixels, rate limiter

A Dafny model of the parts of the OpenAdSource ad server whose correctness does not show in any single function,
with proofs about every input and every run. Verify it with `dafny verify dfyconfig.toml`.

**Decision engine** (`Bitset`, `Registry`, `Loader`, `Selection`, `SelectionTheorems`, `Delivery`). The loader turns
a list of ads into one bitset per position, country and device; `Select` ANDs three of them, walks the set bits,
filters, compacts to the top priority in place and draws by weight; `ServeVast` wraps this in a loop of at most five
attempts with a growing exclusion set. The arrays, the index and the pooled buffers are heap objects updated in
place, as in the program. The results are stated against one line: take a highest-priority ad among those the
request is eligible for.

**Counter protocol** (`Redis`, `Keys`, `Protocol`, `Frames`, `Runs`, `Sums`, and the theorems in `Conservation`,
`PixelCount`, `PixelTight`, `Frequency`, `FrequencyTight`, `Budget`, `Mutex`). One transition system: Redis as a map
from keys to values with an optional expiry, `daily_stats`, campaign status, a millisecond clock, and any number of
`/vast` requests, `/track` requests and workers in flight. A step is one Redis command or script, one upsert, one status
update, one local decision, a tick of the clock, an expiry, a crash, or a command whose reply is lost, that never
arrives, or, for a worker's commands, that takes effect at any later time. Handlers choose candidates freely, so their
snapshots may be arbitrarily stale. `History` records what happened; no step reads it. Every theorem quantifies over
all configurations and all finite runs from the empty system.

**Signed pixels** (`Text`, `Pixel`, `Tracking`). Printing, signing, reading back and verifying a pixel URL. The MAC
is HMAC-SHA256 (section 2 of RFC 2104), taken as a function that maps different messages to different codes; hex is
section 8 of RFC 4648.

**Imperative handlers over the same Redis** (`Capping`, `Tracking`, `Drainer`, `Worker`): the enforcers, `ServeTrack`,
an error-free `Tick` with its nested loops, and `runTick`. `Refinement` shows that an undisturbed worker of the protocol
has the effect of `Tick`, and that one attempt of a `/vast` request ends as `Delivery` says.

**Rate limiter** (`RateLimit`, `RateLimitTight`): token buckets over reals in a bounded map with best-effort eviction.

## How the protocol's steps follow the program

- `/track`: `Verify` is tracking/handler.go lines 62-70, `ClaimEvent` the SETNX of lines 74-87, `ReadDate` line 89 and
  `Count` the INCR of lines 90-93 of server/internal/tracking/handler.go.
- `/vast`: `Pick` is one turn of the loop at server/internal/delivery/handler.go lines 141-147 (and the `ad_id` path of
  lines 121-137, which is a pick without selection), `Consume` is `TryConsume`, `Reserve` is `TryReserve` with its EVAL
  fallback, `Render` is `serveAd` (lines 241-280). A frequency error lets the candidate through, a budget error ends
  the request (lines 195-204 and 155-163).
- Worker: `Begin` and `Acquire` are server/cmd/worker/main.go lines 103-116, `Release` lines 117-121, `Load` to
  `EndReconcile` are `Tick` in server/internal/worker/drainer.go, one GETDEL, upsert, GET or UPDATE a step. `Timeout`
  is the 45-second context: no command of a tick is sent after its deadline. One that was sent and given up on, by an
  error, the deadline or a crash, stays in flight; `Land` and `Lose` end it at any later time, `LandRelease` a release.

## What the proofs brought out

- A pixel can be counted more than once. `PixelTight.AtMostOnceIff`: never, exactly when the token TTL plus 999 ms plus
  the delay before the claim stay below 24 hours. With the default TTL of 24 hours a refire in the last valid second
  counts again, although the comment at server/internal/tracking/handler.go lines 27-28 says every duplicate within
  the validity window is ignored. `PixelCount.PixelBound` and `PixelTight.BoundIsReached` give the exact maximum.
- The lock excludes exactly when every release lands less than 15 seconds after the deadline of the tick that sent it:
  the difference between the 60-second lock and the 45-second tick (`Mutex.MutualExclusionIff`). Its token names the
  process, not the tick, so a release delayed into the same process's next tick frees that tick's lock. It never frees
  another process's lock (`Mutex.OnlyOwnerRemoves`).
- Within one window a user passes a frequency cap at most 2·cap - 1 times, and some run reaches that number
  (`Frequency.FrequencyHolds`, `FrequencyTight.BoundIsReached`).
- The country index is exact exactly when nobody enters `*` as a country (`Loader.CountriesExactIff`); the device index
  always is. An ad listing only unknown devices targets every device (`Loader.UnknownDevicesWiden`).
- Forgetting idle visitors is unobservable exactly when the burst is at most 60 seconds' worth of tokens
  (`RateLimitTight.EvictionUnobservableIff`).
- The int32 window test is the ±2 window exactly for offsets at least 2 away from both int32 ends; nearer to an end no
  ad passes it (`SelectionTheorems.WindowExactIff`, `SelectionTheorems.WindowExact`).
- `parseUnix` reads numbers up to 2^62 correctly and no others, but does not refuse all larger ones: one that wraps around
  int64 before the guard is accepted (`Pixel.ParseUnixWraps`); `Pixel.ParseUnixAllNumbers` says what any number reads as.
- Where documentation and code differ the model follows the code: `SearchFloat64s` finds the first entry that is at least
  the pick (the comment at server/internal/selection/select.go line 97 says greater); `offset` is a mid-roll time, not
  the rotation index of docs/api.md line 32; campaigns without a budget still cost a Redis call (docs/architecture.md
  line 121 says none), and a budget error is a no-fill (docs/architecture.md line 259 says allow).

## Assumptions

Redis commands and scripts are atomic and Redis keeps its data; a key may be dropped at any time from its expiry on.
The Redis client sends each command once. go-redis re-sends by default after a network error, and the program does not
turn that off: a re-sent INCR then counts one claim twice, so that `PixelCount.PixelBound` bounds the claims but not the
counts, and a re-sent budget script takes a second reservation that no handler is told of.
Caps of a campaign and its script argument are fixed during a run, frequency rules vary between the configured bounds.
Ids are UUIDs (no `:`, no `|`, nothing a query must escape); a user id is any string. Ads are pairwise distinct objects,
as `Load` produces them. Day texts are an injective function of day numbers.

## Model

| member | source | states |
|---|---|---|
| Bitset.NewBitset | server/internal/registry/bitset.go:14-19 | nil exactly for no bits, else enough zero words |
| Bitset.Set | server/internal/registry/bitset.go:25 | exactly bit i is added to the set |
| Bitset.Test | server/internal/registry/bitset.go:28 | the shifted-mask test answers membership in the set of listed members |
| Bitset.Clear | server/internal/registry/bitset.go:31-35 | no members remain |
| Bitset.AndInto | server/internal/registry/bitset.go:39-43 | set intersection, also when the destination aliases an operand |
| Bitset.PopCount | server/internal/registry/bitset.go:72-78 | the number of members, hence of ForEach visits |
| Bitset.ForEach | server/internal/registry/bitset.go:83-91 | visits exactly the members, and terminates |
| Bitset.MembersExact | server/internal/registry/bitset.go:80-91 | the visits are strictly ascending and are exactly the indices whose bit is set |
| Bitset.ClearLowest | server/internal/registry/bitset.go:88 | `x & (x-1)` removes the lowest set bit and nothing else |
| Bitset.BelowLowest | server/internal/registry/bitset.go:86 | no bit is set below the count of trailing zeros |
| Bitset.SetBit | server/internal/registry/bitset.go:25 | or-ing a one-bit mask sets that bit of the word alone and stays within 64 bits |
| Registry.Index.Ensure | server/internal/registry/loader.go:170-183 | returns the bucket, creating an empty one of its own storage when new; no bit changes |
| Registry.Index.Mark | server/internal/registry/loader.go:124 | exactly one bit of one bucket is added |
| Registry.Index.File | server/internal/registry/loader.go:126-144 | an ad goes to its listed buckets, or to the wildcard bucket and the wildcard list |
| Registry.Index.FileAd | server/internal/registry/loader.go:117-147 | one turn of the first pass on all three dimensions |
| Registry.Index.Fold | server/internal/registry/loader.go:152-166 | whatever the map order, exactly the wildcard ads join exactly the concrete buckets |
| Registry.Index.FoldAll | server/internal/registry/loader.go:149-166 | after both passes the index is exact |
| Registry.BuildSnapshot | server/internal/registry/loader.go:99-168 | yields an exact index on fresh storage, the last ad per id, and every pacing weight |
| Registry.BucketsExact | server/internal/registry/loader.go:112-168 | on the fields of the ads: bit i of a bucket is on iff the ad's position is the name ("pre" when empty), or it lists the name or lists nothing; no bit beyond the last ad; a bucket per name; no shared storage |
| Registry.LookupsAnswer | server/internal/registry/snapshot.go:37-62 | the three lookups answer the position's bucket and the name's own or the wildcard bucket; nil means no ad there |
| Registry.PacingWeight | server/internal/registry/loader.go:185-198 | the weight is always positive |
| Registry.PacingExact | server/internal/registry/loader.go:185-198 | weight times hours left is the budget (1 when unset), with an hour as the least and no end meaning the budget itself |
| Registry.LastByIdExact | server/internal/registry/loader.go:118 | the id lookup finds the last ad with that id, and only ids that occur |
| Loader.NormaliseCountries | server/internal/registry/loader.go:200-216 | the in-place filter leaves exactly the folded non-empty names, in order |
| Loader.NormaliseDevices | server/internal/registry/loader.go:218-234 | the in-place filter leaves exactly the folded known devices, in order |
| Loader.NormalisedExact | server/internal/registry/loader.go:200-234 | a name survives iff it is kept and some raw name folds to it |
| Loader.KeptNames | server/internal/registry/loader.go:200-234 | countries keep every folded name but "", devices keep mobile, tablet, desktop and ctv |
| Loader.NormalisedInOrder | server/internal/registry/loader.go:200-234 | names keep their order |
| Loader.CountriesExactIff | server/internal/registry/loader.go:200-216 | after loading, the country index agrees with the lists for every request iff no raw country folds to `*` |
| Loader.DevicesExact | server/internal/registry/loader.go:218-234 | after loading, the device index agrees with the lists for every request |
| Loader.UnknownDevicesWiden | server/internal/registry/loader.go:218-234 | the list becomes empty, hence matches any device, iff it names no known device |
| Loader.LoadedSelectionRefinesScan | server/internal/registry/loader.go:200-234 | after loading without `*`, and for mid-roll offsets 2 away from the int32 ends, selection is the naive scan for every request |
| Selection.Scratch.Reset | server/internal/selection/pool.go:25-44 | whatever was left behind: a zeroed intersection, empty runs, capacity for every append |
| Selection.Scratch.Put | server/internal/selection/pool.go:53-59 | lengths trimmed, storage kept |
| Selection.Intersect | server/internal/selection/select.go:55-58 | the scratch intersection holds exactly the ads in all three buckets |
| Selection.Filter | server/internal/selection/select.go:61-72 | appends exactly the visited indices that pass the filters, in order, within capacity |
| Selection.CandidatesExact | server/internal/selection/select.go:61-75 | the candidate list holds exactly the indexed ads the filters admit |
| Selection.TopPriority | server/internal/selection/rank.go:12-30 | the compacted prefix is the top-priority part of the list before |
| Selection.TopExact | server/internal/selection/rank.go:12-30 | it holds exactly the listed ads of maximum priority and is empty only for an empty list |
| Selection.Accumulate | server/internal/selection/select.go:83-92 | the table is the running total of the effective weights |
| Selection.CumulativeIncreases | server/internal/selection/select.go:83-92 | the table is strictly increasing |
| Selection.SearchFloats | server/internal/selection/select.go:104 | the binary search returns the first entry that is at least the pick |
| Selection.Select | server/internal/selection/select.go:37-109 | returns the ad of the definition, a function of ads, weights, request and draw alone, whatever the scratch held |
| SelectionTheorems.WindowExactIff | server/internal/selection/select.go:65-69 | the wrapping int32 test is the ±2 window for every ad iff neither end wraps |
| SelectionTheorems.WindowExact | server/internal/selection/select.go:65-69 | where an end wraps, no ad offset passes at all |
| SelectionTheorems.IndexAgreesIff | server/internal/registry/snapshot.go:37-58 | the consulted bucket agrees with the lists for a name iff the name is listed or no ad lists `*`, with the exact case for "" |
| SelectionTheorems.IndexAgreesAlwaysIff | server/internal/registry/snapshot.go:37-58 | it agrees for every name iff no ad lists "" or `*` |
| SelectionTheorems.SelectRefinesScan | server/internal/selection/select.go:37-109 | nil iff no ad is left whose fields match the request; otherwise such an ad, not excluded, of maximum priority among them |
| SelectionTheorems.SelectDrawsByWeight | server/internal/selection/select.go:77-109 | among the available ads of top priority in index order, the k-th is selected iff the pick lies above the sum of the weights before it and at most at the sum with it |
| SelectionTheorems.DrawPartitions | server/internal/selection/select.go:83-108 | member k is drawn iff the pick lies in its own interval, as long as its weight |
| SelectionTheorems.SearchPartitions | server/internal/selection/select.go:104 | over any increasing table the search lands on k iff the pick is above entry k-1 and at most entry k |
| SelectionTheorems.ClampUnreachable | server/internal/selection/select.go:105-107 | a pick up to the total never needs the clamp |
| SelectionTheorems.UniformPick | server/internal/selection/select.go:98-103 | a draw in [0, 1) gives a pick in [0, total) |
| Delivery.ServeVast | server/internal/delivery/handler.go:139-183 | produces a trace of at most five picks, all but the last rejected, and ends as the last verdict or the lack of a candidate demands |
| Delivery.IndexOf | server/internal/delivery/handler.go:167-173 | the pointer scan finds the only index of the candidate |
| Delivery.TraceDescends | server/internal/delivery/handler.go:139-183 | candidates of one request are pairwise distinct, priorities never increase, at most five |
| Delivery.AtMostOneReservation | server/internal/delivery/handler.go:155-163 | whatever Redis answers, only the last attempt of a request can have reserved budget |
| Delivery.AttemptsExact | server/internal/delivery/handler.go:139-183 | at most five attempts, each on the selection without the candidates before it, all but the last rejected by the frequency rule or an exhausted budget |
| Delivery.EndingExact | server/internal/delivery/handler.go:139-204 | served iff the frequency rule lets through and the budget reserves; a budget error ends the request; retries are spent only after five rejections; a frequency error lets through |
| Delivery.ServedAdIsBest | server/internal/delivery/handler.go:139-183 | the served ad is eligible and of maximum priority among the eligible ads not rejected in this request |
| Delivery.NoFillIsExhaustive | server/internal/delivery/handler.go:143-147 | an error-free no-fill before five rejections means every eligible ad was rejected |
| Redis.BudgetScriptExact | server/internal/capping/budget.go:20-28 | accepts iff below the cap, then adds one; a rejection changes nothing |
| Redis.FreqScriptExact | server/internal/capping/frequency.go:17-28 | accepts iff below the cap; the first call sets the expiry, later ones keep it; a rejection changes nothing |
| Redis.Server.RunBudgetScript | server/internal/capping/budget.go:20-28 | accepted exactly while there is room, then counted once with the expiry kept; a rejection leaves no trace |
| Redis.Server.RunFreqScript | server/internal/capping/frequency.go:17-28 | accepted exactly below the cap; the first call sets the end of the life, a later one keeps it; a rejection leaves no trace |
| Redis.Server.RunReleaseScript | server/internal/worker/lock.go:25-30 | afterwards there is a lock iff another owner had one, unchanged, and so is every other key |
| Capping.TryReserve | server/internal/capping/budget.go:64-89 | over both round trips at most one reservation is taken, granted iff a reply came back and there was room |
| Capping.TryConsume | server/internal/capping/frequency.go:58-80 | no rule asks nothing; else admitted iff below the cap, with the exact new key |
| Keys.NamesNeverCollide | server/internal/worker/drainer.go:78 | two keys have the same text iff they are the same key, over all five families, with any user id |
| Keys.CounterNames | server/internal/tracking/handler.go:89-90 | distinct (ad, event, day) never share a counter |
| Keys.FreqNames | server/internal/capping/frequency.go:62 | not even a user id full of colons reaches another user's or ad's key |
| Keys.KeyTexts | server/internal/tracking/handler.go:74-90 | the text of each family of keys |
| Events.IsTracked | server/internal/tracking/events.go:42-49 | accepts exactly the seven words of the vocabulary |
| Events.AllTracked | server/internal/tracking/events.go:18-26 | the drained list covers every event the reader accepts |
| Events.EventTexts | server/internal/tracking/events.go:6-14 | each event's word, both ways |
| Conservation.RunKeeps | server/internal/worker/drainer.go:66-160 | in every run, however late commands land, INCRs = Redis + held by workers + upserts in flight + daily_stats + lost, per ad, event and day |
| Conservation.NeverOverCounts | server/internal/worker/drainer.go:126-160 | daily_stats never exceeds the INCRs applied |
| Conservation.NothingLost | server/internal/worker/drainer.go:66-160 | without crashes and errors nothing is lost: a drained counter is fully in daily_stats |
| Conservation.OnlyFailuresLose | server/internal/worker/drainer.go:79-160 | while nothing that carries or takes counts is in flight, no step but a failure destroys a count or puts such a command in flight |
| PixelCount.RunClaims | server/internal/tracking/handler.go:62-87 | claims of one pixel lie in its validity, at least one idempotency period apart, and bound its counts |
| PixelCount.ClaimsApart | server/internal/tracking/handler.go:26-87 | claims of one pixel are at least 24 hours apart, between its mint and the end of its last valid second |
| PixelCount.PixelBound | server/internal/tracking/handler.go:29-94 | in every run a pixel is counted at most (ttl + 999 ms + lag) / 24 h + 1 times |
| PixelCount.WholeSecondBound | server/internal/tracking/handler.go:29-94 | with a whole-second ttl and no lag, at most ttl / 24 h + 1 times |
| PixelTight.BoundIsReached | server/internal/tracking/handler.go:29-94 | for every configuration and every event some run counts a pixel exactly that often |
| PixelTight.AtMostOnceIff | server/internal/tracking/handler.go:26-29 | for every configuration and every event: no pixel is ever counted twice iff ttl + 999 ms + lag is below 24 h |
| Frequency.FrequencyHolds | server/internal/capping/frequency.go:17-28 | in every run at most maxCap accepted calls per key life, and the accepted calls in any half-open interval as long as the shortest window number at most 2·maxCap - 1 |
| FrequencyTight.BoundIsReached | server/internal/capping/frequency.go:17-28 | for every positive cap and every window above one millisecond some run reaches 2·maxCap - 1 |
| Frequency.LiveKeyExpires | server/internal/capping/frequency.go:17-28 | in every run a live key carries an expiry and a value between 1 and the largest cap |
| Frequency.ConsumeKeeps | server/internal/capping/frequency.go:17-28 | the script and the log of lives move together |
| Budget.BudgetHolds | server/internal/capping/budget.go:20-28 | in every run inline responses <= reported reservations <= imps_total <= the campaign's limit, and the counter is exactly the reported plus the unheard reservations |
| Budget.GrantedWhileRoom | server/internal/capping/budget.go:20-89 | in every run a heard reservation is granted iff the limit has room; a campaign without a limit is never rejected |
| Budget.CompletedIsFinal | server/internal/worker/drainer.go:167-215 | a completed campaign has a positive limit and is spent to exactly that, and no later step reserves it again |
| Budget.SpentNeverFalls | server/internal/capping/budget.go:20-28 | no step of anyone lowers a budget counter |
| Mutex.MutualExclusionIff | server/cmd/worker/main.go:62-128 | no run has two workers past their acquire and before their deadline iff they take the lock and releases land less than 15 s after their tick's deadline |
| Mutex.RunLock | server/internal/worker/lock.go:60-83 | under those conditions every running tick and every release on its way owns the lock beyond its deadline, and nobody owns it twice |
| Mutex.OnlyOwnerRemoves | server/internal/worker/lock.go:25-30 | in any configuration a lock disappears only by its owner's release or its expiry |
| Mutex.WithLateRelease | server/internal/worker/lock.go:40-83 | with any longer release delay, a run in which a delayed release lets two workers in |
| Pixel.NewSigner | server/internal/tracking/sign.go:35-40 | keeps the key and a positive validity; another one becomes 24 hours |
| Pixel.VerdictExact | server/internal/tracking/sign.go:55-72 | which error is reported, in the order expiry form, signature form, signature, clock; accepted iff none applies |
| Pixel.PassesExact | server/internal/tracking/handler.go:57-70 | a request passes iff nothing is missing, its signature is that of its tuple, and it is in time |
| Text.HexRoundTrip | server/internal/tracking/sign.go:60-83 | decoding the printed signature gives back the MAC |
| Text.HexDecodeExact | server/internal/tracking/sign.go:60-63 | decoding succeeds iff the length is even and all characters are hex digits of either case, and yields two digits a byte |
| Text.HexDigitExact | server/internal/tracking/sign.go:60-63 | the sixteen digits, in either case, and no other character |
| Pixel.MessageBinds | server/internal/tracking/sign.go:74-83 | a tuple with a tracked event and the canonical message of a minted one is that one |
| Pixel.ParseUnix | server/internal/tracking/handler.go:117-129 | the loop with int64 wrap-around computes ParseFrom |
| Pixel.ParseUnixExact | server/internal/tracking/handler.go:117-129 | text that is no number reads as 0; a number is read correctly iff it is at most 2^62 |
| Pixel.ParseUnixAllNumbers | server/internal/tracking/handler.go:117-129 | every number, however long, reads as its value modulo 2^64 if no prefix so wrapped exceeds 2^62, and as 0 otherwise |
| Pixel.ParseUnixOverflow | server/internal/tracking/handler.go:121-127 | with one digit too many the wrapped product is accepted iff it is at most 2^62 |
| Pixel.ParseUnixWraps | server/internal/tracking/handler.go:121-127 | 20000000000000000000 reads as 1553255926290448384 |
| Pixel.UrlRoundTrip | server/internal/delivery/handler.go:304-310 | a minted URL is read back as the tuple that was printed |
| Pixel.UrlText | server/internal/delivery/handler.go:304-310 | the printed URL and the signed message, piece by piece |
| Pixel.UnescapeRules | server/internal/tracking/handler.go:50-55 | percent pairs and plus signs are decoded, a stray percent sign is malformed, other characters stand for themselves |
| Pixel.MintedPassesUntilExpiry | server/internal/tracking/sign.go:48-70 | a minted URL verifies iff the clock has not passed (now + ttl) in seconds |
| Pixel.SignatureBinds | server/internal/tracking/sign.go:55-83 | whatever passes with a minted pixel's signature carries that pixel's ad, impression, event and expiry, in time |
| Tracking.ServeTrack | server/internal/tracking/handler.go:49-97 | invalid requests change nothing; a valid one claims and counts, or is a duplicate and changes nothing |
| Tracking.FiresOnce | server/internal/tracking/handler.go:72-94 | while the claim lives a refire changes nothing; the first fire claims for 24 hours, adds one to one counter and touches no other key |
| Tracking.StepsAreServeTrack | server/internal/tracking/handler.go:72-94 | the protocol's failure-free /track steps have the handler's effect |
| Tracking.VerifyStepExact | server/internal/tracking/handler.go:57-70 | the protocol's verifying step lets through, for every event, exactly a minted pixel up to the end of its last second |
| Tracking.StepsAreRecorded | server/internal/tracking/handler.go:72-94 | each claim and each count is on the record the bounds speak of |
| Tracking.PassesIffSigned | server/internal/tracking/handler.go:57-70 | on a signature /vast printed, the handler passes a request iff it carries exactly the minted pixel in time, which is what the protocol calls signed |
| Drainer.DrainRow | server/internal/worker/drainer.go:77-106 | each event's counter is deleted and added to its own column, column by column |
| Drainer.DrainAds | server/internal/worker/drainer.go:63-108 | the deltas are the visited rows' counters, which are gone; nothing else changes |
| Drainer.UpsertDeltas | server/internal/worker/drainer.go:142-164 | in any map order each non-zero delta is added to its row once, and no other row changes |
| Drainer.Database.Upsert | server/internal/worker/drainer.go:126-140 | each column of the row gains its own count, a missing row counting as zero; every other row is as before |
| Drainer.ReconcileBudgets | server/internal/worker/drainer.go:167-215 | exactly the active campaigns at or over their cap become completed, and a message is published iff there is one |
| Drainer.CapsExact | server/internal/worker/drainer.go:168-180 | with one budget per campaign, the caps looked at are those of the capped campaigns |
| Drainer.CapsOfFirst | server/internal/worker/drainer.go:168-177 | the cap is the budget of the campaign's first ad that has one |
| Drainer.ReconcileExact | server/internal/worker/drainer.go:167-215 | a status becomes completed iff it was active, the campaign's budget is positive and its counter has reached it |
| Drainer.Tick | server/internal/worker/drainer.go:53-124 | drain of today's and yesterday's rows, upsert and reconcile compose; without active ads nothing happens; a message is published iff a status changed |
| Drainer.TickMovesCounts | server/internal/worker/drainer.go:77-160 | each of the seven columns of a visited row gains exactly its event's counter |
| Drainer.TickLeavesTheRest | server/internal/worker/drainer.go:53-160 | exactly the visited rows' counters are gone; every other row and key stays |
| Drainer.RowAppears | server/internal/worker/drainer.go:47-49 | a visited row exists afterwards iff it did before or has something to hold |
| Drainer.SecondTickAddsNothing | server/internal/worker/drainer.go:53-160 | a second tick over the same rows or fewer, with no fetch in between, changes neither Redis nor daily_stats |
| Drainer.TicksCompose | server/internal/worker/drainer.go:53-160 | two ticks over any rows have the effect of one tick over both |
| Worker.TryAcquire | server/internal/worker/lock.go:60-69 | acquires iff the lock is free, with its token and TTL |
| Worker.Release | server/internal/worker/lock.go:74-83 | removes the lock iff it holds this worker's token, and nothing else |
| Worker.RunTick | server/cmd/worker/main.go:96-128 | a held lock leaves everything alone; otherwise the whole tick runs, or nothing without active ads, and the lock is free again |
| Refinement.TickIsARun | server/internal/worker/drainer.go:53-160 | a protocol worker that meets no failure and no interference has the effect of Drainer.Tick: counters, columns and completed campaigns |
| Refinement.AttemptIsARun | server/internal/delivery/handler.go:141-163 | the protocol's steps for one candidate lead on, to rendering or to no-fill as the verdict on the same answers says |
| Refinement.RenderExact | server/internal/delivery/handler.go:241-280 | rendering mints one impression of the held ad now and counts one response |
| Refinement.LockStepsExact | server/cmd/worker/main.go:103-121 | a tick has 45 seconds, the lock lives 60, is taken iff free and given back iff still one's own |
| Refinement.DrainRepliesExact | server/internal/worker/drainer.go:79-86 | a GETDEL with a lost reply has acted, a failed one has not, a late one acts the same when it lands |
| Refinement.UpsertRepliesExact | server/internal/worker/drainer.go:142-159 | the same for an upsert |
| Refinement.PauseRepliesExact | server/internal/worker/drainer.go:196-204 | the same for a status update |
| Refinement.AcquireRepliesExact | server/internal/worker/lock.go:60-69 | the same for taking the lock; without an answer there is no tick |
| Refinement.ReleaseRepliesExact | server/internal/worker/lock.go:74-83 | the same for giving it back |
| Refinement.TrackRepliesExact | server/internal/tracking/handler.go:72-94 | the same for a claim and a count |
| Refinement.VastRepliesExact | server/internal/capping/budget.go:64-89 | the same for the frequency and the budget script |
| Refinement.ForfeitExact | server/cmd/worker/main.go:103-127 | a tick out of time and a dying process lose exactly the counts they hold, and touch nothing else |
| Refinement.NothingRuledOut | server/internal/worker/drainer.go:53-160 | at any moment a process may die, and each command of a tick in time may be answered, lost, failed or late |
| RateLimit.Limiter.Allow | server/internal/httpmw/ratelimit.go:60-92 | answers and changes the map as one legal step, whichever stale visitor the pass hits; CallExact and EvictionExact say in numbers what such a step is |
| RateLimit.CallExact | server/internal/httpmw/ratelimit.go:60-92 | a visitor with b tokens who calls again after d seconds has min(burst, b + rate·d), is admitted iff that is at least 1, and keeps the rest; a new one has the burst |
| RateLimit.EvictionExact | server/internal/httpmw/ratelimit.go:73-83 | eviction only for a new key at the cap, only of a visitor last seen more than 60 seconds ago, and of one if there is one |
| RateLimit.RateBound | server/internal/httpmw/ratelimit.go:60-92 | for burst <= 60·rps, over any interval of length d a visitor is admitted at most burst + rate·d times |
| RateLimit.Limiter.SweepOnce | server/internal/httpmw/ratelimit.go:129-137 | removes exactly the visitors idle beyond 15 minutes and counts them down |
| RateLimit.SweepExact | server/internal/httpmw/ratelimit.go:129-137 | a sweep drops exactly the visitors last seen more than 900 seconds ago |
| RateLimit.LongIdleIsFull | server/internal/httpmw/ratelimit.go:69-79 | a bucket of a visitor stale enough to be evicted has refilled to that of a new visitor |
| RateLimit.EvictionUnobservable | server/internal/httpmw/ratelimit.go:60-92 | for burst <= 60·rps every run answers as an unbounded map would |
| RateLimit.SizeBounded | server/internal/httpmw/ratelimit.go:65-92 | approxSize is exact and never exceeds the larger of the cap and the most distinct keys called with unix-second stamps at most 60 apart |
| RateLimitTight.EvictionUnobservableIff | server/internal/httpmw/ratelimit.go:60-92 | forgetting is unobservable in all runs iff burst <= 60·rps |

## Left out

- Drainer.TickMovesCounts: assumes no negative counter, which Conservation.RunKeeps proves of every reachable store.
- Drainer.Tick: one error-free tick with no concurrent request; failures and interleavings are in module Protocol.
- Mutex.MutualExclusionIff: speaks of the workers, not of commands they gave up on; those may land inside another worker's tick, which Conservation.RunKeeps covers.
- RateLimit.SizeBounded: for atomic `Allow` and sweep steps; two concurrent evictions inside `sync.Map` can decrement twice.
- RateLimit.Limiter.Allow: visitors are values in the map, not shared pointers, and the burst is not negative.
- Frequency.FrequencyHolds: counts script executions of requests still waiting for them; a script that runs after its request gave up is not a separate step.
- Conservation.NothingLost: speaks of drained counters; ads that leave the active set are not drained, so their last counts stay in Redis.
- SelectionTheorems.DrawPartitions: over reals; float rounding and the quality of the random source are not modelled.
- Registry.BuildSnapshot: the maps ByPosition, ByCountry and ByDevice are one map keyed by dimension and name; fields of an ad that play no part in the decision are absent.
- Delivery.ServeVast: starts at the selection loop with a loaded snapshot; parameter parsing, GeoIP, the user id cookie and the `ad_id` test path come before it (module Protocol covers the latter's effect on Redis).
- Tracking.ServeTrack: with a signer and a Redis client configured, and Redis answering; metrics and the GIF body are absent.
- Pixel.UrlRoundTrip: for a base URL without `?` and `#` and ids that need no escaping; XML escaping inside the VAST is the player's business.
- Integer widths of `daily_stats` columns and Redis counters, and the saturation of Go durations.
- Loss of Redis data, Redis failover, and anything else that writes the same tables or keys, such as the dashboard resetting a campaign.
- Calendar arithmetic: days are numbers, yesterday is today minus one.
- VAST rendering, S3 presigning, GeoIP, User-Agent parsing, CIDR parsing, configuration, metrics, migrations, the refresher's ticker and pub/sub, the dashboard.
- `OrInto`, `CopyInto`, `AndAssign`, `OrAssign`, `SelectByID`, `formatDuration`: easy members the proofs do not need.
