# Models and proofs for the easyms platform

This project models the protocols and algorithms of the easyms Go repository in Dafny and proves what
they are for. Redis, the database, the broker, the clock and the network appear as small abstract state
machines; every call that can fail has a nondeterministic outcome, and where callers run concurrently
their commands interleave freely. `dafny verify dfyconfig.toml` checks everything.

| modules | what they model |
|---|---|
| `RedlockProtocol`, `RedlockClient` | the quorum lock: a state machine over single-node commands with lost commands and lost replies, and the client code that drives it |
| `OutboxProtocol`, `OutboxProgress`, `OutboxServices` | the transactional outbox: safety over all runs, bounded delivery, and the order and relay services that produce the runs |
| `LeastConnections`, `WeightedPick` | the weighted and unweighted least-connection balancers and the weighted random pick |
| `TokenBucket`, `SlidingWindow` | the gateway's token bucket and the two sliding-window limiters, with expiring keys |
| `TokenRevocation`, `RefreshRotation` | the three-level revocation lookup and refresh-token rotation (sections 6 and 10.4 of RFC 6749, section 4.1.4 of RFC 7519) |
| `LogPipeline` | the asynchronous logger: entry pool, bounded channel, sampling, batches |
| `CacheAside` | reading through the cache, with a placeholder for absent values and random expirations |
| `StableSort`, `PluginChain`, `Routing` | the gateway's plugin order, its re-entrant chain, and longest-prefix routing |
| `Options`, `Orders`, `Sets` | definitions that several modules share |

Code that changes state step by step is a class with methods, specified by functions and predicates;
the main results are lemmas about those, for all inputs, all runs or all reachable states. A class that
shares Redis or a database with others takes an `env` (or a list of actions) that says what the others
do before each of its statements.

## Where the code does less than it says

Each of these is proved, by a run or an input that shows it, and where the text says so with the exact
condition under which the promise holds.

- `Redlock.Extend` sends GET and EXPIRE as two commands and looks only at the error of the second. If the
  entry expires in between, the reply counts although nothing was extended, or another owner's entry is
  moved. Two handles can then be inside their windows, because an `Extend` counted late replies
  (`LateExpireBreaksExclusion`) or because the entry moved was cut short (`CutShortBreaksExclusion`).
  A counted EXPIRE means what it is taken to mean exactly when it is on time (`CountedExpireBacksIffTimely`).
  Two handles exclude each other as long as each one's successful `Extend`s counted a majority of on-time
  EXPIREs and no EXPIRE of an attempt with a shorter expiration found its entry (`MutualExclusion`). With one
  expiration for all, the second cannot happen (`CommonIsSpared`), and then it is enough that each owner's
  EXPIREs arrive before the deadline that its GET saw, whatever the others do (`PromptIsCareful`,
  `PromptOwnersExclude`). That every EXPIRE of the run is on time is enough as well (`TimelyIsCareful`).
- `Acquire` does not clean up between rounds. Entries of a failed round - too few, or with their replies lost -
  count against its own retries: once half of the nodes hold the call's own value, no undisturbed retry wins
  before such an entry expires (`OwnEntriesBlockRetry`).
- The relay takes a publish without an error for delivered, but the channel is not in confirm mode
  (internal/shared/mq/rabbitmq.go:161-175). A publish that vanishes without an error loses its event
  (`SilentLossLosesEvent`), and no other: an event is safe as long as no publish of that event vanishes
  (`EventIsSafe`). A committed round loses nothing if and only if no counted publish vanished whose
  message was not at the broker before (`RoundLosesNothingIff`, `PublishKeepsIffHonest`). That orders and events
  correspond, and that nothing is made up, needs no such assumption (`OutboxIsSafe`).
- An event that can be published is delivered, in a run long enough, if and only if fewer than a batch of
  always-failing events are older (`DeliveredIff`, for an event with a creation time of its own); behind a batch
  of them it waits for ever (`StarvedForever`). Failing events that come later do not matter. The relay's
  comment names the missing retry count.
- The token bucket's keys live for floor(2 * capacity / rate) seconds. When that is zero, SETEX is an error
  and the plugin lets every request through; the bucket limits if and only if 2 * capacity >= rate
  (`LimitsIffTtlPositive`). Then it lets a request through if and only if that overdraws no stretch of requests
  before it (`RealAllowedIff`), and never refuses a client that keeps a distance of 1 / rate (`SpacedNeverRefused`).
- `FlexibleRateLimiter` records before it tests with `>`, and admits limit + 1 in a window
  (`FlexibleOvershoots`). Because it records refused requests too, a client is locked out for as long as each
  of its requests comes with more than limit recorded ones in the window before it, and no longer
  (`LockedOutIff`). Concurrent requests overshoot `RateLimiter` by exactly the number in flight less one
  (`OvershootIsReached`).
- The weighted pick is proportional if and only if no weight is negative (`ExactIffNonNegative`). With negative
  ones, the entries get their weights heaviest first, as long as the total lasts (`HeaviestFirst`).
- A revocation of a refresh token is cached under the prefix "refresh" but looked up under "access", so
  a token that yielded a pair yields another if and only if the database row was not written
  (`ReplayIffNoRow`). A revocation in a token's last second is kept in Redis without an expiry
  (`RedisKnowsTillLastSecond`). Calls that overlap yield one pair each: the bound is the number of calls that are at
  once between their last lookup and their revocation, and it is reached (`OverlapBoundsUse`,
  `OverlapIsReached`). An access token is accepted by the refresh call as well (`AccessTokenAlsoRefreshes`);
  live refresh tokens outnumber the creations by at most the pairs yielded that way
  (`RefreshTokensConserved`), and so by none while only refresh tokens are refreshed
  (`OnlyRefreshTokensConserve`). At the very instant of its expiry a token can be replayed
  (`ExpiryInstantReplays`).
- A log entry that is dropped or sampled out goes back to the pool with its fields. A record is delivered with
  exactly its own fields if and only if its submission overwrote what was left in the entry it took
  (`DeliveredExactlyIff`), which all do as long as no entry with fields was dropped or sampled out
  (`DeliveredExactly`); once such an entry is in the pool, a later submission can be delivered with its
  fields (`LeakFrom`, `LeakedFields`).
- A placeholder with an expiration that is not positive never expires, so an absence is reported for ever
  (`BoundedIffPositive`, `StaleForever`). A value that json.Marshal rejects is cached as the empty text, and
  every hit is then an error (`StoredAnswerServes`).
- The plugin documentation says that a plugin which does not call Next ends the chain. It does if and only
  if it is last or the plugins before it made no surplus call (`SilentStopsIff`, `SilentPassedOver`).

## Model

| member | source | states |
|---|---|---|
| RedlockProtocol.MutualExclusion | internal/shared/db/redis_lock.go:27-140 | in every interleaved run, two unreleased handles are not both inside their windows if each one's successful Extends counted a majority of on-time EXPIREs and no EXPIRE of an attempt that expires sooner found its entry; for every number of nodes, with lost commands, lost replies, abandoned rounds, and whatever third attempts do to each other |
| RedlockProtocol.TimelyIsCareful | internal/shared/db/redis_lock.go:118-140 | in a run whose EXPIREs all find the entry that their GET saw, every attempt meets that condition |
| RedlockProtocol.PromptIsCareful | internal/shared/db/redis_lock.go:118-140 | an attempt whose EXPIREs are carried out before the deadline of the entry that the GET before them saw, and whose entries no sooner-expiring attempt extends, meets it, whatever else the others do |
| RedlockProtocol.CommonIsSpared | internal/shared/db/redis_lock.go:118-134 | if all attempts use one expiration, no late EXPIRE shortens an entry, so only the owner of a handle has to take care |
| RedlockProtocol.PromptOwnersExclude | internal/shared/db/redis_lock.go:27-140 | with one expiration for all, two owners whose EXPIREs arrive before the deadlines that their GETs saw exclude each other |
| RedlockProtocol.InvStep | internal/shared/db/redis_lock.go:48-140 | every single command that meets the condition for an attempt keeps the invariant that the attempt's count, less its late replies, is backed by that many nodes until its window ends |
| RedlockProtocol.QuorumsMeet | internal/shared/db/redis_lock.go:27-33 | two backed majorities share a node, for odd and even numbers of nodes |
| RedlockProtocol.CountedExpireBacksIffTimely | internal/shared/db/redis_lock.go:118-134 | the EXPIRE reply that Extend counts stands for a node that keeps the value if and only if the entry was still there |
| RedlockProtocol.PromptExpireIsTimely | internal/shared/db/redis_lock.go:122-128 | an EXPIRE that arrives before the deadline of the entry its GET saw is on time, if no sooner-expiring attempt extended that entry in between |
| RedlockProtocol.OthersKeepBacking | internal/shared/db/redis_lock.go:84-108 | in any run of others' commands that extends no entry of this value with a shorter expiration, a node that holds the value goes on holding it until its deadline |
| RedlockProtocol.LateExpireBreaksExclusion | internal/shared/db/redis_lock.go:118-140 | a run on one node, with one expiration for all, in which a late EXPIRE is counted and two handles are inside their windows |
| RedlockProtocol.CutShortBreaksExclusion | internal/shared/db/redis_lock.go:118-140 | a run on one node in which a late EXPIRE cuts another's entry short and two handles are inside their windows that never extended |
| RedlockProtocol.AttemptsSpareOthers | internal/shared/db/redis_lock.go:84-128 | no command of an attempt touches a node that holds another's value, unless it is an EXPIRE that comes late |
| RedlockProtocol.OthersLeaveAttempt | internal/shared/db/redis_lock.go:84-108 | commands of other attempts leave an attempt where it is and never store its value |
| RedlockClient.Redlock.Acquire | internal/shared/db/redis_lock.go:48-81 | at most floor(expires / 5 ms) + 2 rounds; an undisturbed round, first or retry, hands out the lock if and only if a majority of nodes was free and confirmed; the window starts with the round that won; a first round that wins sets exactly the free nodes it reached; after giving up, no node that got the script holds the value |
| RedlockClient.Redlock.OwnEntriesBlockRetry | internal/shared/db/redis_lock.go:57-93 | once half of the nodes hold the value itself, an undisturbed round does not win a majority |
| RedlockClient.Redlock.AcquireInstance | internal/shared/db/redis_lock.go:84-93 | one round over all nodes; undisturbed, it counts exactly the nodes that were free and whose confirmation arrived, and sets exactly the free ones it reached |
| RedlockClient.Redlock.Release | internal/shared/db/redis_lock.go:111-115 | every node that got its script does not hold the value afterwards; undisturbed, exactly those that held it are emptied |
| RedlockClient.Redlock.Extend | internal/shared/db/redis_lock.go:118-140 | on success the window restarts within the call, otherwise the handle is as it was; undisturbed, whichever commands fail, it succeeds if and only if a majority of nodes hold the value and answer their own GET and EXPIRE, and it renews exactly the nodes that hold it, answer the GET and get the EXPIRE |
| RedlockClient.HandlesExclude | internal/shared/db/redis_lock.go:48-140 | the runs that the client methods record are runs of the protocol, so handles that meet the condition exclude each other |
| OutboxProtocol.OutboxIsSafe | internal/platform/outbox_relay/relay_service.go:101-151 | in every reachable state, with crashes, rollbacks and any number of relays, orders and events correspond one to one and nothing is made up; if no publish vanished without an error, every committed event is in the table or at the broker |
| OutboxProtocol.EventIsSafe | internal/platform/outbox_relay/relay_service.go:101-151 | in every run, an event none of whose own publishes vanished without an error is in the table or at the broker, whatever happens to the others |
| OutboxProtocol.DeletedOnlyAfterPublished | internal/platform/outbox_relay/relay_service.go:138-148 | in every run in which no publish of that event vanished without an error, a row that a step removes is already at the broker |
| OutboxProtocol.PublishKeepsIffHonest | internal/platform/outbox_relay/relay_service.go:123-148 | a last publish followed by the commit loses nothing if and only if it failed with an error, arrived, or repeated a message that is at the broker |
| OutboxProtocol.SilentLossLosesEvent | internal/platform/outbox_relay/relay_service.go:116-148 | from any state, a publish that vanishes without an error makes the relay delete an event that is nowhere else |
| OutboxProtocol.OrderAndEventAppearTogether | internal/services/order/internal/service/order_service.go:81-97 | an order becomes visible in the same step as its event, which carries that order |
| OutboxProtocol.OverlappingRelaysDuplicate | internal/platform/outbox_relay/relay_service.go:101-135 | two relays with overlapping batches publish an event twice: delivery is at least once |
| OutboxProgress.DeliveredWithin | internal/platform/outbox_relay/relay_service.go:96-156 | with q publishable and p < BatchSize always-failing events ahead of it, an event is published and deleted within floor(q / (BatchSize - p)) + 1 rounds, whatever fails behind it |
| OutboxProgress.RoundShortensQueue | internal/platform/outbox_relay/relay_service.go:105-148 | a round that does not fetch an event takes at least BatchSize - p publishable ones from ahead of it and leaves the p failing ones |
| OutboxProgress.StarvedForever | internal/platform/outbox_relay/relay_service.go:116-132 | with a batch of always-failing older events, no number of rounds publishes an event |
| OutboxProgress.DeliveredIff | internal/platform/outbox_relay/relay_service.go:96-156 | an event with a creation time of its own is delivered only if fewer than a batch of always-failing events are older, and in a run of more rounds than there are publishable events ahead of it, if and only if |
| OutboxServices.BuildOrder | internal/services/order/internal/service/order_service.go:62-78 | the order has the request's items, the sum of price times quantity, and status PENDING |
| Orders.CostAdds | internal/services/order/internal/service/order_service.go:70-78 | the total is the sum of quantity times price over the items, however they are grouped |
| OutboxServices.CreateAndStoreEvent | internal/shared/events/event_publisher.go:28-46 | the event row carries the order and joins the caller's transaction |
| OutboxServices.CreateOrder | internal/services/order/internal/service/order_service.go:60-105 | an order is returned if and only if all three statements work, and it is then committed with its event, which carries the order and the time of the call; a failed call commits neither, unless only the reply of the commit was lost |
| OutboxServices.SelectOldest | internal/platform/outbox_relay/relay_service.go:105 | the batch is made of the oldest rows in creation order, and all rows if there are no more than the limit |
| OutboxServices.RelayService.PublishAll | internal/platform/outbox_relay/relay_service.go:114-135 | goes on after a failed publish and collects exactly the ids whose publish returned no error |
| OutboxServices.AllArriveInOrder | internal/platform/outbox_relay/relay_service.go:114-135 | with every publish carried out the batch reaches the broker in its order |
| OutboxServices.RelayService.ProcessOutbox | internal/platform/outbox_relay/relay_service.go:96-156 | fetches the oldest events, collects the ids published without an error, and commits their deletion if and only if the fetch and the deletion, if there is one, work and the commit arrives - so always when every statement works; undisturbed, a row goes if and only if the round commits and its publish was answered; a round without a commit deletes nothing, whatever other relays and clients do in between |
| OutboxServices.RelayService.Start | internal/platform/outbox_relay/relay_service.go:72-86 | one round per tick: the ticks follow one another from the table at the start to the table at the end, and each is a round of ProcessOutbox |
| OutboxServices.GoneByOthersCommit | internal/platform/outbox_relay/relay_service.go:96-156 | a row that goes while a relay does not commit was deleted by the commit of another relay |
| OutboxServices.RoundOfService | internal/platform/outbox_relay/relay_service.go:114-148 | an undisturbed round of the service is the round that the delivery bound is about |
| OutboxServices.TicksAreHistory | internal/platform/outbox_relay/relay_service.go:72-86 | the ticks of the running service - each alone, with its database statements working, exactly the always-failing events failing and rows only arriving in between - are a history of the rounds that the delivery bound is about |
| OutboxServices.ServiceDelivers | internal/platform/outbox_relay/relay_service.go:72-156 | over such ticks of the service, an event that can be published, with fewer than a batch of always-failing ones ahead of it, is fetched and gone within the bound of DeliveredWithin |
| OutboxServices.RoundLosesNothingIff | internal/platform/outbox_relay/relay_service.go:114-148 | a committed round over any batch loses no event if and only if every publish of it failed with an error, arrived, or repeated a message that is at the broker |
| LeastConnections.SelectIsProportional | internal/shared/discovery/weighted_loadbalancer.go:157-188 | after any n selections on a fixed list, (c - 1) * W <= n * w and c * W >= (n - instances) * w for every instance, where w is its configured weight if that is positive and else 1, and W is the sum of those |
| LeastConnections.ConfiguredShares | internal/shared/discovery/weighted_loadbalancer.go:147-188 | for positive configured weights these are the shares of the configured weights themselves |
| LeastConnections.UnweightedAgrees | internal/shared/discovery/loadbalancer.go:70-103 | the unweighted balancer makes the choices of the weighted one without weights, for every mix of selections and releases |
| LeastConnections.CountIsOpenIff | internal/shared/discovery/weighted_loadbalancer.go:191-198 | after any mix of selections and releases, an instance's count is at least its selections less its releases, and equal to that if and only if no release came without a connection to release |
| LeastConnections.LeastConnectionWeighted.Select | internal/shared/discovery/weighted_loadbalancer.go:157-188 | returns the first instance of least connections per effective weight and counts it; an empty list gives no instance |
| LeastConnections.LeastConnectionWeighted.SetWeights | internal/shared/discovery/weighted_loadbalancer.go:147-154 | replaces exactly the given weights and keeps all counts |
| LeastConnections.LeastConnectionWeighted.ReleaseConnection | internal/shared/discovery/weighted_loadbalancer.go:191-198 | takes one connection off a positive count and changes nothing else |
| LeastConnections.LeastConnection.Select | internal/shared/discovery/loadbalancer.go:70-93 | returns the first instance of fewest connections and counts it |
| LeastConnections.LeastConnection.ReleaseConnection | internal/shared/discovery/loadbalancer.go:96-103 | takes one connection off a positive count and changes nothing else |
| WeightedPick.SelectIsExact | internal/shared/discovery/weighted_loadbalancer.go:72-116 | for weights that are not negative, the draws that return an address number exactly its total weight, for every order the unstable sort may produce |
| WeightedPick.ConfiguredShares | internal/shared/discovery/weighted_loadbalancer.go:72-116 | of the draws below the total, as many select an address of a list without repetitions as it was configured with, or one if it was not |
| WeightedPick.ExactIffNonNegative | internal/shared/discovery/weighted_loadbalancer.go:52-117 | the pick is exact for all addresses if and only if no weight is negative |
| WeightedPick.HeaviestFirst | internal/shared/discovery/weighted_loadbalancer.go:93-116 | for any weights, each entry of the sorted list gets its weight in draws as long as the total is not used up by those before it, the rest of the total if it is in between, and none if its weight is not positive |
| WeightedPick.SumsOfPermutation | internal/shared/discovery/weighted_loadbalancer.go:93-96 | the total and each address's weight do not depend on the order |
| WeightedPick.Scan | internal/shared/discovery/weighted_loadbalancer.go:105-116 | the scan returns the address whose interval of the cumulated weights holds the draw, and never reaches its fallback |
| WeightedPick.WeightedLoadBalancer.Select | internal/shared/discovery/weighted_loadbalancer.go:52-117 | one draw below the total picks by the cumulated weights of some descending order |
| TokenBucket.AdmissionStretch | internal/platform/gateway/plugins/ratelimit.go:25-61 | over any stretch of requests from any bucket, the number allowed and the tokens left are together at most the capacity plus rate times the rises of the clock |
| TokenBucket.AdmissionBound | internal/platform/gateway/plugins/ratelimit.go:25-61 | from a full bucket it is at most capacity plus rate times the rises of the clock |
| TokenBucket.AllowedIffAffordable | internal/platform/gateway/plugins/ratelimit.go:25-61 | under a steady clock, a request is let through if and only if, for every earlier request, those let through since then and this one are together at most the capacity plus rate times the time since then |
| TokenBucket.RealAllowedIff | internal/platform/gateway/plugins/ratelimit.go:25-61 | so does the running bucket with its expiring keys, unless the script fails |
| TokenBucket.SpacedNeverRefused | internal/platform/gateway/plugins/ratelimit.go:25-61 | with a capacity of at least 1, a client whose requests are at least 1 / rate apart is never refused |
| TokenBucket.UncappedConserves | internal/platform/gateway/plugins/ratelimit.go:44-54 | while no refill is cut off at the capacity, the requests allowed and the tokens left are the tokens at the start plus rate times the rises of the clock |
| TokenBucket.TokensStayWithin | internal/platform/gateway/plugins/ratelimit.go:44-49 | stored tokens stay between 0 and the capacity |
| TokenBucket.ForgettingIsInvisible | internal/platform/gateway/plugins/ratelimit.go:32-56 | a bucket whose keys vanish decides like one that never forgets, on every request sequence |
| TokenBucket.LimitsIffTtlPositive | internal/platform/gateway/plugins/ratelimit.go:33-56 | the gateway's decisions are those of the unforgetting bucket on all sequences if and only if 2 * capacity >= rate |
| TokenBucket.RealAdmissionBound | internal/platform/gateway/plugins/ratelimit.go:25-61 | the running bucket admits at most capacity + rate * elapsed |
| TokenBucket.FailingScriptAllowsAll | internal/platform/gateway/plugins/ratelimit.go:172-189 | when the script fails every request passes |
| TokenBucket.Redis.RunScript | internal/platform/gateway/plugins/ratelimit.go:25-61 | the key-by-key script is one step of the model bucket, or an error once SETEX gets a time to live of zero |
| TokenBucket.RateLimitPlugin.ChooseRule | internal/platform/gateway/plugins/ratelimit.go:140-170 | the first matching user-agent rule, else the first matching address rule, else the default, else none |
| TokenBucket.RateLimitPlugin.IsAllowed | internal/platform/gateway/plugins/ratelimit.go:140-189 | a request is refused only by an answer of the script for the chosen bucket; an answered script admits, after any earlier charges to that bucket, exactly what RealAllowedIff says; without Redis, with an error or with a lost reply the request passes, and in the last case it still costs a token |
| SlidingWindow.LimiterExact | internal/shared/middleware/ratelimit.go:22-54 | a request is admitted if and only if fewer than limit requests with later times than now - window were admitted before it |
| SlidingWindow.FlexibleExact | internal/shared/middleware/ratelimit.go:80-114 | a request is admitted if and only if at most limit requests, refused ones included, came later than now - window before it |
| SlidingWindow.LockedOutIff | internal/shared/middleware/ratelimit.go:80-114 | from some request on the flexible limiter admits nothing if and only if each request comes with more than limit recorded ones, refused included, in the window before it |
| SlidingWindow.CountedIsWindow | internal/shared/middleware/ratelimit.go:32-50 | the sorted set always shows exactly the recorded requests of the current window |
| SlidingWindow.ExpiryIsInvisible | internal/shared/middleware/ratelimit.go:47-50 | the key's time to live never changes a decision |
| SlidingWindow.AdmitsAtMost | internal/shared/middleware/ratelimit.go:22-114 | no window of the given length admits more than limit, or limit + 1 for the flexible limiter |
| SlidingWindow.FlexibleOvershoots | internal/shared/middleware/ratelimit.go:80-114 | the flexible limiter does admit limit + 1 |
| SlidingWindow.BoundedOvershoot | internal/shared/middleware/ratelimit.go:32-50 | with at most m requests between count and insert, entries plus pending ones stay within limit + m - 1 in every interleaving |
| SlidingWindow.OvershootIsReached | internal/shared/middleware/ratelimit.go:32-50 | for every m that bound is reached |
| SlidingWindow.Redis.RateLimiter | internal/shared/middleware/ratelimit.go:22-54 | with all commands carried out they are one step of the specified limiter; whichever fail, a request is refused if and only if the count was answered and at least the limit, and what is recorded is stated |
| SlidingWindow.Redis.FlexibleRateLimiter | internal/shared/middleware/ratelimit.go:80-114 | an answered pipeline is one step of the specified limiter; one that breaks off or whose replies are lost admits, and what it recorded is stated |
| TokenRevocation.LookupAgreesWithDb | internal/services/auth/internal/storage/token_store.go:154-194 | with coherent caches the lookup says exactly whether the database has the row |
| TokenRevocation.LookupIff | internal/services/auth/internal/storage/token_store.go:154-194 | a token is revoked if and only if some tier that is asked and answers remembers it, and a lookup fails only if no cache does and the database is there without answering |
| TokenRevocation.LocalKnowsTillExpiry | internal/services/auth/internal/storage/token_store.go:101-120 | without Redis and the database, the replica that revoked a token knows it exactly until the expiry |
| TokenRevocation.RedisKnowsTillLastSecond | internal/services/auth/internal/storage/token_store.go:109-128 | another replica learns it from Redis at least until a second before the expiry and not after it, or for ever if less than a second was left |
| TokenRevocation.BackfillKnowsFiveMinutes | internal/services/auth/internal/storage/token_store.go:163-190 | a replica that learned it from Redis or the database knows it for five minutes by itself |
| TokenRevocation.RevokeTouchesOnlyToken | internal/services/auth/internal/storage/token_store.go:101-139 | a revocation touches no other cache key and no other row, and nothing if the token does not parse or has expired |
| TokenRevocation.LookupKeepsCoherence | internal/services/auth/internal/storage/token_store.go:154-194 | a lookup with its back-filling keeps the caches coherent |
| TokenRevocation.RevokeKeepsCoherence | internal/services/auth/internal/storage/token_store.go:101-139 | a revocation whose database insert succeeds keeps the caches coherent |
| TokenRevocation.RefreshRevocationSeenIffRow | internal/services/auth/internal/storage/token_store.go:101-194 | a refresh token's revocation is seen by the reading lookup if and only if its row was inserted |
| TokenRevocation.JwtTokenStore.IsTokenRevoked | internal/services/auth/internal/storage/token_store.go:154-194 | local cache, then Redis, then database, with back-filling and the error cases, as the specification function says |
| TokenRevocation.JwtTokenStore.RevokeToken | internal/services/auth/internal/storage/token_store.go:101-139 | the three writes and the cases in which the code writes nothing |
| TokenRevocation.JwtTokenStore.Extract | internal/services/auth/internal/storage/token_store.go:244-282 | a token parses until its expiry |
| RefreshRotation.SingleUse | internal/services/auth/internal/service/token_service.go:102-138 | in every sequential run over any number of replicas, no token value yields more than one new pair |
| RefreshRotation.OverlapBoundsUse | internal/services/auth/internal/service/token_service.go:119-137 | in every interleaving of any calls on any replicas, a token yields at most as many pairs as calls are at once between their last lookup and their revocation |
| RefreshRotation.OverlapIsReached | internal/services/auth/internal/service/token_service.go:119-137 | from any state, m overlapping calls yield m pairs for any live unused token |
| RefreshRotation.RefreshTokensConserved | internal/services/auth/internal/service/token_service.go:52-138 | in every run, live refresh tokens outnumber CreateAccessToken calls at most by the pairs that were yielded for access tokens |
| RefreshRotation.OnlyRefreshTokensConserve | internal/services/auth/internal/service/token_service.go:52-138 | in a run in which no access token yields a pair, live refresh tokens never outnumber the creations |
| RefreshRotation.LiveAfterYield | internal/services/auth/internal/service/token_service.go:102-138 | after a call that yields, the live refresh tokens are those still alive without the one presented, and the new one if it is alive |
| RefreshRotation.RevocationAgreesEverywhere | internal/services/auth/internal/storage/token_store.go:101-194 | in every run, every replica's lookup under either prefix says exactly whether the database has the row, whatever caches have lost |
| RefreshRotation.ReplayIffNoRow | internal/services/auth/internal/service/token_service.go:134-137 | after yielding once, a token yields again within its life if and only if the revocation row was not written |
| RefreshRotation.AccessTokenAlsoRefreshes | internal/services/auth/internal/service/token_service.go:102-112 | a run in which an access token is refreshed and two refresh tokens are live after one creation |
| RefreshRotation.ExpiryInstantReplays | internal/shared/models/token.go:12-15 | at the instant of expiry a token is accepted but not revoked, and yields twice |
| RefreshRotation.TokenService.RefreshAccessToken | internal/services/auth/internal/service/token_service.go:102-138 | yields exactly when both reads pass and the token is not expired, leaves the issued, revoked and cached state that the run model uses, and hands the presented token's two validities on to both new tokens |
| RefreshRotation.YieldsIff | internal/services/auth/internal/service/token_service.go:102-138 | with coherent caches a call yields if and only if the database answers both lookups and has no row, and the token still parses at the last reading |
| RefreshRotation.DescendantsKeepLives | internal/services/auth/internal/service/token_service.go:67-138 | in every run, every token, after whatever chain of refreshes, carries the two validities of the client it goes back to and expires within the last second of the one for its kind, counted from its issue |
| RefreshRotation.AncestryStep | internal/services/auth/internal/service/token_service.go:102-138 | what going back to a client means: a creation starts a line, a yielding refresh hands its token line on to both new tokens, and nothing changes an older one |
| RefreshRotation.NewPairIsGood | internal/services/auth/internal/service/token_service.go:67-99 | the new tokens parse until an expiry within the last second of their validity and carry both validities on, no lookup says that they are revoked, and no older token changes |
| LogPipeline.Pipeline.Take | internal/shared/logger/logger.go:321 | an entry comes from the pool, fields and all, or is new; every entry stays in exactly one place |
| LogPipeline.Pipeline.Fill | internal/shared/logger/logger.go:322-343 | the entry's fields become what was left in it, overlaid by the logger's and the call's |
| LogPipeline.ArgFieldsIff | internal/shared/logger/logger.go:322-343 | a key is among the fields of a call if and only if some pair of its arguments has it as a string key |
| LogPipeline.LastPairGivesValue | internal/shared/logger/logger.go:322-343 | the last such pair gives the value |
| LogPipeline.Pipeline.Offer | internal/shared/logger/logger.go:345-357 | sent if and only if the channel has room, and then accepted with its own fields; otherwise pooled uncleared and written by the fallback logger only at error level |
| LogPipeline.Pipeline.Receive | internal/shared/logger/logger.go:228-255 | the oldest entry gets its trace and request ids, then joins the batch or is pooled uncleared; the tenth sends the batch |
| LogPipeline.InjectedIs | internal/shared/logger/logger.go:228-238 | trace id and request id go under their own keys, if they are there, and nothing else is put in |
| LogPipeline.Pipeline.Flush | internal/shared/logger/logger.go:279-299 | one batch of 1 to 10 records in order, and every entry cleared and pooled; order, conservation and ownership kept |
| LogPipeline.Pipeline.Tick | internal/shared/logger/logger.go:256-261 | a partial batch goes out, an empty one does not |
| LogPipeline.NothingLostIffNothingSampled | internal/shared/logger/logger.go:218-276 | in every pipeline, the accepted records are all there in batches, current batch and channel, whole and in order, if and only if nothing was sampled out |
| LogPipeline.ReceiveConserves | internal/shared/logger/logger.go:228-249 | taking an entry keeps the account of whole records, fields included: batches and batch are the accepted records less exactly the sampled-out ones |
| LogPipeline.ReceiveOwned | internal/shared/logger/logger.go:240-249 | moving an entry from the channel to the batch or the pool leaves every entry in exactly one place |
| LogPipeline.DeliveredExactly | internal/shared/logger/logger.go:218-358 | in every pipeline in which no entry with fields was dropped or sampled out, what is delivered are, in order, the kept submissions with their own fields and no others |
| LogPipeline.DeliveredExactlyIff | internal/shared/logger/logger.go:218-358 | in every pipeline, the records handed to the backend and those of the current batch are, in order, the kept submissions, and each carries exactly its own fields if and only if it overwrote all that was left in the entry that it took |
| LogPipeline.LeakFrom | internal/shared/logger/logger.go:319-357 | whenever the pool holds an entry with fields left in it, a submission of none can be delivered with them |
| LogPipeline.LeakedFields | internal/shared/logger/logger.go:238-244 | a run in which a record carries a field of a sampled-out submission |
| CacheAside.EasyRedis.GetWithRetries | internal/shared/db/redis.go:285-343 | what is returned is what the source said during the call, or what the entry of this very key was stored for, and then no older than that entry's expiration and its own store's delay, for every changing source and any other processes; hits and misses change exactly what they should |
| CacheAside.EasyRedis.GetCacheWithProtection | internal/shared/db/redis.go:285-343 | a value is at most 600 s old if the store of this key's entry followed its answer within a second; an absence is at most that entry's null expiration plus its delay old, whatever happened to other keys |
| CacheAside.EasyRedis.Store | internal/shared/db/redis.go:325-340 | what is stored for an answer and how long it lives |
| CacheAside.StoredAnswerServes | internal/shared/db/redis.go:297-312 | a stored answer reads back as itself, no encoding is taken for the placeholder, and a hit is an error exactly for a value without an encoding |
| CacheAside.BoundedIffPositive | internal/shared/db/redis.go:328-332 | how long a stored absence is served is bounded if and only if its expiration is positive, and then by exactly that |
| CacheAside.StaleForever | internal/shared/db/redis.go:328-332 | without a positive expiration, an absence of one instant is reported at any later time |
| StableSort.SliceStable | internal/platform/gateway/gateway.go:42-45 | sorts in place and keeps elements of equal key in order |
| StableSort.StableSortIsUnique | internal/platform/gateway/gateway.go:42-45 | a sequence has only one stable sort |
| StableSort.SortsCompose | internal/platform/gateway/gateway.go:35-46 | sorting the sorted list with additions is sorting everything at once |
| PluginChain.Gateway.AddPlugin | internal/platform/gateway/gateway.go:35-46 | the list is the stable sort of all registrations so far, smaller orders first |
| PluginChain.GroupingIsIrrelevant | internal/platform/gateway/gateway.go:35-46 | the list depends only on the sequence of registrations, not on how calls grouped them |
| PluginChain.Gateway.ServeHTTP | internal/platform/gateway/gateway.go:50-63 | a request executes positions 0 to k-1 of its copy, in order, each once, and leaves the gateway alone |
| PluginChain.Context.Next | internal/platform/gateway/plugin/context.go:103-108 | every call advances the index, executes the next position if there is one, and terminates however often plugins call it |
| PluginChain.ExecutedIff | internal/platform/gateway/plugin/context.go:99-108 | a position is executed if and only if enough calls are made before each position up to it |
| PluginChain.AllPassOn | internal/platform/gateway/plugin/plugin.go:25-36 | if every plugin but the last calls Next, all are executed |
| PluginChain.SilentStopsIff | internal/platform/gateway/plugin/context.go:99-108 | a plugin that does not call Next ends the chain if and only if it is last or no surplus call was made before it |
| PluginChain.SilentStopsSingleCallers | internal/platform/gateway/plugin/context.go:99-108 | it does when no plugin before it calls Next twice |
| PluginChain.SilentPassedOver | internal/platform/gateway/plugin/context.go:103-108 | a chain of three that a silent second plugin does not end |
| Routing.RoutingPlugin.constructor | internal/platform/gateway/plugins/routing.go:24-32 | the caller's slice becomes the stable sort by falling prefix length |
| Routing.RoutingPlugin.MatchRoute | internal/platform/gateway/plugins/routing.go:85-92 | a matching configured route of maximal prefix length and the earliest of those, or none if and only if none matches |
| Routing.FirstIsBest | internal/platform/gateway/plugins/routing.go:24-32 | the first match in the sorted list is the longest and earliest match in the configured one |
| Routing.RoutingPlugin.Execute | internal/platform/gateway/plugins/routing.go:50-83 | which of 404, 503 and passing on happens, and exactly what is written to the request's context |
| Routing.MarkedIs | internal/platform/gateway/plugins/routing.go:50-83 | key by key, what a chosen route writes to the request's context, and that nothing else changes |
| Routing.StrippingIsUndone | internal/platform/gateway/plugins/routing.go:62-67 | the prefix before the target path, or before it without its added slash, is the original path, and which of the two |
| Routing.KeptUnlessStripped | internal/platform/gateway/plugins/routing.go:60-67 | a route that does not strip hands the path on as it is |
| Routing.TargetsAgreeIff | internal/platform/gateway/plugins/routing.go:62-67 | two paths of a route have the same target if and only if they differ at most by a slash after the prefix |

## Left out

- Redlock, inputs: lock values are fresh and unique, `expires` is a positive whole number of seconds, all nodes share one clock; errors of generateRandomValue are not modelled.
- Redlock, failures: nodes do not restart and lose keys, and a command does not reach its node after its caller has gone on. One handle is used by one caller at a time and not after its release.
- RedlockProtocol.MutualExclusion: it needs care with late EXPIREs, which the code does not ensure; without either half of the condition the statement is false, as LateExpireBreaksExclusion and CutShortBreaksExclusion show.
- OutboxProtocol.EventIsSafe: that an event is not lost assumes that no publish of it vanished without an error, which the publisher does not ensure; SilentLossLosesEvent shows that the assumption is needed.
- Outbox: row locks (FOR UPDATE SKIP LOCKED) are not modelled and no property needs them; the retries inside one publish count as one publish; the JSON encoding of payloads, the exchange and the routing key are left out, and `Start` runs for any given number of ticks instead of until it is stopped; prices are reals instead of floats.
- OutboxProgress.DeliveredWithin: rounds run one after the other and commit; new events are created later than existing ones. Where creation times tie, the database may choose, and DeliveredIff leaves out events with a tie.
- Load balancers: connection counts do not wrap at 32 bits, float ratios are exact, the random source is a parameter; round-robin, random, address-hash and metadata balancers would only add easy members.
- TokenBucket: tokens and times are exact reals and `now` is the clock of Redis as well; regular expressions, address ranges and the client's address are a parameter.
- SlidingWindow: scores are exact integers and requests have strictly increasing times.
- TokenRevocation: SHA-256 is taken as injective and JWT signing as a faithful encoding; user and client details, the cleanup of the local cache and gRPC are left out; revocations are whole operations.
- RefreshRotation.SingleUse: calls run one after the other with the clock advancing in between, and revocation inserts succeed. OverlapIsReached, ExpiryInstantReplays and ReplayIffNoRow show that none of these can be dropped, and OverlapBoundsUse says what holds when calls overlap.
- LogPipeline: entry objects are numbered slots of one map instead of heap objects; a step of the processor is atomic towards submitters; level filtering, the service name and time of an entry, sinks, metrics and shutdown are left out.
- CacheAside: singleflight is left out (its followers share a result that is no older than the leader's); json.Marshal and json.Unmarshal are parameters with the laws of `Lawful`, so the change of Go type on a round trip is not seen.
- PluginChain: a plugin is its name and order, and how often it calls Next is a parameter of the request; the response writer, Set and Get, and calls of Next from other goroutines are left out.
- Routing: service discovery is a parameter; what a proxy does with the upstream address is not modelled.
- Circuit breakers, configuration watching, health checks, the retrying transport, bcrypt, generated code, metrics and tracing are not part of this model.
