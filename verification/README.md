# MAGSAG in Dafny

A model of the self-contained algorithms and state machines of MAGSAG, with proofs of what they
promise over every input, every run and every interleaving. `dafny verify dfyconfig.toml` checks it.

| part | files |
|---|---|
| canonical cache keys | `JsonText`, `CacheKey` |
| semantic cache over a vector index | `TopK`, `SemanticCache` |
| agent registry with dependency loading | `Registry` |
| approval gate | `ApprovalSteps` (atomic updates), `ApprovalProtocol` (interleaved steps), `ApprovalSafety` (what every run keeps), `ApprovalProgress` (what polls, decisions and sweeps get done), `ApprovalGate` (the objects and methods that carry out the steps, and the polling loop) |
| rate limiters | `TokenBucket`, `SlidingWindow` (one key of the Redis limiter), `RedisLimiter` (many callers on one database) |
| circuit breaker and retries | `CircuitBreaker` |
| JSON-RPC over stdio | `JsonRpc` |
| streamed tool calls | `StreamAssembly` |
| durable snapshots | `Snapshots` |
| memory store with expiry | `IsoTime`, `MemoryStore` |
| worktrees | `Porcelain`, `Naming` |
| run summaries, policy gate, costs | `McpLog`, `RunSummary`, `Gate`, `CostTracker` |
| shared | `Sorting` (sorting and permutations), `PyText` (Python string operations) |

Code that updates objects or loops is modelled by classes and methods, each proved equal to a
specification function or to a declarative contract; the claims over many calls are lemmas about
those specifications. Time and cost figures are `real`; clock readings, new ids, scan orders and
the answers of outside systems are parameters, constrained only by what those systems promise:

- SHA-256 is an arbitrary function that does not collide on the two texts compared.
- A Flat index answers with an exact best k; a trained IVF index with any stored ids, each with its
  true similarity. Similarity is an arbitrary real function; the index may pad with `-1` and refuses a
  `k` below one.
- The storage behind the approval gate may fail or suspend at every call, and returns rows that
  carry the times of the tickets written.
- The snapshot backend answers a latest lookup with a row whose creation time ranks highest, for an
  arbitrary monotone ranking: exact times, or whole seconds as in SQLite.
- The catalog of the registry is two maps from directory names to parsed files; the policy of the
  approval gate, glob matching and `str.lower` are arbitrary functions; where it matters `str.lower`
  leaves `[a-z0-9._-]` alone or is right on ASCII.

## What the code does, where it differs from what one might expect

- `registry.py`: the cache is written before the recursion, so a failed load leaves its slug behind
  and the next load of it succeeds (`RepeatSucceedsIff`, `SelfDependencyLoadsTwice`). Success means
  loadable for every slug exactly when the cache is closed (`LoadsAreRightIffClosed`).
- `approval_gate.py`: approved and denied are not final, an expiry sweep or a late poll turns them
  into expired (`StepExpiresIff`, `DecidedThenExpired`); approving does not look at the clock. A ticket
  read back from storage can exist as a second object, which the protocol models. With a clock that
  moves by at least the interval per sleep the number of polls is bounded by ttl / interval rounded
  up, plus one (`PollBound`). When it moves by exactly the interval and nothing is decided, that is
  floor(ttl / interval) + 1 if the interval divides the time to live, and one more if it does not
  (`ExactPolls`, `FourPolls`).
- `rate_limit.py`: a new bucket reads the clock a second time, after `now`, so the first `elapsed`
  can be negative; `SpacedCallsAdmitted` says how much of that the spaced-calls claim bears. The
  Redis limiter keeps a caller's counter under the name of its set with `:seq` behind it, which is the
  name of the set of the caller `key:seq`, and lets every failure through. So two callers interfere
  exactly when one key is the other with `:seq` behind it (`SharedKeyIff`), and a key is held to its
  limit exactly when nobody uses such a key (`BoundedIffApart`, `SeqSuffixIsNotLimited`). Calls that
  Redis does not answer come on top (`WindowBoundInRun`).
- `mcp/client.py`: the call that turns an open breaker half open is not counted, so the budget of an
  episode is `half_open_max_calls + 1`, and `half_open_calls` never goes down. With a success threshold
  above that budget the breaker stays half open and refuses every call until it is reset
  (`WedgedWhenThresholdTooHigh`, `ThreeOfTwo`). With the default configuration an admitted call that is
  cancelled does the same: it uses up budget and records nothing (`CancelledCallWedges`). Retries
  inside one invoke do not ask the breaker again.
- `mcp/server.py`: a reply is recognised by its id alone, so a request that the server itself sends
  with the awaited id is taken for the reply (`RequestTakenForReply`, `PingForInitialize`).
  Section 5 of the JSON-RPC 2.0 specification tells the two apart.
- `runners/durable.py`: the docstring says that saving over an existing step updates it. In a new
  process, before the step is loaded, it is replaced: id and creation time change
  (`SaveKeepsCreationIffCached`, `SavedByNewProcess`). A load by step alone can hide a later snapshot from the latest lookup
  (`StepKeepsAgreementIff`, `OlderStepTakenForLatest`). The text key of a snapshot can stand for two pairs, for run ids of which
  one goes on from the other with a colon (`KeysCollideIff`); the claims over whole runs are for ids
  that do not. The SQLite backend compares creation times by whole seconds, so its latest snapshot is
  the exact one only if the latest second has one moment (`SqliteIsExactIff`).
- `worktree/naming.py`: branch names determine their parts, directory names need not
  (`DirectoryNamesAgree`, `CanCollideIff`).
- `storage/memory_store.py`: deleting expired rows is not always invisible. Creating an id again fails
  while its expired row is kept and succeeds once it is deleted, and updates and deletes of it differ
  too (`EarlyExpiryUnnoticedIff`, `CreatedAgain`). An empty embedding is read back as none
  (`EmptyEmbeddingIsLost`). The full-text rank depends on all indexed rows, expired ones
  included, so the order of the rows found may change, and with a limit the page.
- `summarize_runs.py`: the MCP call and error figures fall back to the steps' figures each on its own,
  so errors can exceed calls (`ErrorsExceedCallsIff`, `TwoErrorsInOneCall`). A line that is JSON but no
  object makes the whole summary raise; so it does in `cost_tracker.py`.
- `governance/gate.py`: of a step's models only the first in the list is checked, on a produced summary
  the least by name (`LeastModelIsChecked`, `SecondModelIsUnseen`). The sums over the steps for missing
  MCP totals are never taken: the schema asks for the totals.

## Model

| member | source | states |
|---|---|---|
| `CacheKey.CanonicalForm` | src/magsag/cache/key.py:35-53 | For all JSON trees, two normal forms are equal exactly when the inputs are equal up to recursively reordering lists and dictionary entries. |
| `CacheKey.NormalFormIsTheReordering` | src/magsag/cache/key.py:16-21 | The normal form is itself a reordering of the input, and among values in normal form it is the only one. |
| `CacheKey.NormalizeIdempotent` | src/magsag/cache/key.py:35-53 | Normalising a normal form changes nothing. |
| `CacheKey.NormalizeIsNormal` | src/magsag/cache/key.py:35-50 | The result has every dictionary in key order and every list in the order of its items' JSON text, at every depth. |
| `CacheKey.NormalAscends` | src/magsag/cache/key.py:43-50 | In such a value the JSON texts of a list's items ascend from left to right, and so do the keys of a dictionary. |
| `CacheKey.NormalTextInjective` | src/magsag/cache/key.py:43-50 | Items with the same sort key are the same item, so sorting a list leaves no choice of order. |
| `CacheKey.HashStableAgrees` | src/magsag/cache/key.py:56-73 | Unless SHA-256 collides on the two texts, stable hashes agree exactly when the values are equal up to the order of dictionary entries; lists count in order. |
| `CacheKey.SortKeysCanonical` | src/magsag/cache/key.py:72-72 | Sorting the keys at every depth decides that relation. |
| `CacheKey.ComputeKeyAgrees` | src/magsag/cache/key.py:76-115 | Unless SHA-256 collides on the two texts, two cache keys agree exactly when the template ids are equal and tools, schema and capabilities are each equal up to reordering. |
| `JsonText.DumpsInjective` | src/magsag/cache/key.py:72 | Compact JSON with sorted keys and ASCII escapes (surrogate pairs included) prints different texts for different key-sorted values. |
| `JsonText.PrintSplit` | src/magsag/cache/key.py:72 | The text of a value can be read off the front of any longer text in one way only. |
| `SemanticCache.FaissCache.Set` | src/magsag/optimization/cache.py:249-295 | After a set the cache denotes the old key map with this key overwritten, and its five pieces of state stay linked (tombstones, key map, buffer, trained flag, index); a vector of the wrong dimension changes nothing. |
| `SemanticCache.FaissCache.EnsureTrained` | src/magsag/optimization/cache.py:210-247 | Training moves exactly the live buffered vectors into the index, empties the buffer and happens once there are enough live keys. |
| `SemanticCache.FaissCache.ActiveRows` | src/magsag/optimization/cache.py:222-236 | The rows trained on are the live entries, one per key, each with its last vector. |
| `SemanticCache.FaissCache.Search` | src/magsag/optimization/cache.py:297-358 | With a Flat index or before training, a search is a best-k answer over what a linear scan of the key map finds at or above the threshold; with a trained IVF index it is a best-k answer over those of them whose ids the index has answered with. For a `k` below one it is the Python slice of the full ranking, unless there is an index to ask, which refuses. |
| `SemanticCache.FaissCache.ScanBuffer` | src/magsag/optimization/cache.py:308-325 | Before training, the buffer scan lists every matching key once, with its last value, and nothing else. |
| `SemanticCache.FaissCache.ScanHits` | src/magsag/optimization/cache.py:327-350 | Index hits become entries exactly when they are live and at or above the threshold; padding ids and tombstones are dropped. |
| `SemanticCache.FaissCache.Clear` | src/magsag/optimization/cache.py:360-382 | Clearing leaves the empty key map and a valid cache. |
| `SemanticCache.FaissCache.Size` | src/magsag/optimization/cache.py:384-389 | The size is the number of keys of the key map, not of ids handed out. |
| `SemanticCache.FaissCache.TrainedExactlyAtNlist` | src/magsag/optimization/cache.py:210-247 | An IVF index is untrained exactly until the size reaches `faiss_nlist`; once trained the index holds the live vectors, one per key, and the buffer is empty. |
| `TopK.FilterOfTopK` | src/magsag/optimization/cache.py:327-350 | Taking the k nearest and then filtering by the threshold gives the k nearest of the filtered entries. |
| `TopK.SortedTakeIsTopK` | src/magsag/optimization/cache.py:352-358 | Sorting candidates that cover the best k by distance and cutting at k is a best-k answer. |
| `TopK.TopKUnique` | src/magsag/optimization/cache.py:352-358 | All best-k answers have the same length and the same distances in the same order: only ties are open. |
| `TopK.TopKRanksAsLinearScan` | src/magsag/optimization/cache.py:297-358 | Any best-k answer ranks exactly as filtering, sorting and cutting a complete linear scan. |
| `Registry.Registry.LoadAgent` | src/magsag/registry.py:127-142 | From a closed cache a load succeeds exactly when everything reachable exists and is acyclic; on success the cache stays closed and holds the slug, and what is newly cached and what is reported is borne out by the files in the two directories. |
| `Registry.Registry.LoadWithAncestry` | src/magsag/registry.py:154-209 | The method that writes the cache before it recurses computes the same outcome and cache as the recursive specification, from any cache and ancestry. |
| `Registry.ExistsInMainOrSub` | src/magsag/registry.py:162-174 | A slug can be read exactly when its file under `main`, or if there is none its file under `sub`, is a mapping, and its references are those of that file. |
| `Registry.LoadReads` | src/magsag/registry.py:154-209 | Whatever a load newly caches under a slug is the descriptor of that file, old entries stay, `NotFound` names a slug in neither directory, and a descriptor is called bad only if its file is no mapping. |
| `Registry.AdvisorIsFoundInSub` | src/magsag/registry.py:162-205 | With the orchestrator under `main` and the advisor it refers to under `sub`, loading the orchestrator caches both. |
| `Registry.LoadSucceedsIff` | src/magsag/registry.py:154-209 | From any cache, a load terminates and succeeds exactly when every slug reachable without passing through a cached one exists on disk and none of those paths revisits a slug. |
| `Registry.ClosedLoadSucceedsIff` | src/magsag/registry.py:127-142 | From a closed cache, stopping at cached slugs misses nothing: success means that all reachable slugs exist and the reachable graph has no cycle, and the cache is closed again. |
| `Registry.ReportedCycleIsReal` | src/magsag/registry.py:155-165 | A reported cycle is a path of dependencies that starts at the requested slug and ends at a slug already on it. |
| `Registry.RepeatSucceedsIff` | src/magsag/registry.py:154-209 | After a failed load from a closed cache, repeating it succeeds if and only if the slug's own file can be read. |
| `Registry.RepeatedLoadSucceeds` | src/magsag/registry.py:160-209 | Then the slug is cached although it is not loadable, and the cache is closed no more. |
| `Registry.LoadsAreRightIffClosed` | src/magsag/registry.py:154-209 | Success means loadable, for every slug, if and only if the cache is closed. |
| `Registry.SelfDependencyLoadsTwice` | src/magsag/registry.py:154-209 | An agent that depends on itself: the first load reports the cycle, the second succeeds. |
| `Registry.RefNamesSlug` | src/magsag/registry.py:144-152 | A reference `magsag://role.slug`, with or without `@version`, names its slug, even when the slug has dots. |
| `Registry.BareRef` | src/magsag/registry.py:144-152 | A bare slug without surrounding white space names itself. |
| `ApprovalSafety.RunStatusMoves` | src/magsag/governance/approval_gate.py:566-602 | Over any stretch of any interleaving, the status of a ticket created here moves only pending to approved, denied or expired, and approved or denied to expired; expired is final and comes only once the clock has reached `expires_at`. |
| `ApprovalSafety.RunOneDecision` | src/magsag/governance/approval_gate.py:393-452 | In every run at most one approve or deny of a ticket created here ever succeeds, whatever storage does. |
| `ApprovalSafety.RunToolSafety` | src/magsag/governance/approval_gate.py:669-745 | Whenever a tool has run, either policy allowed it outright or its own ticket had been approved before, was never denied, and the deciding poll read the clock strictly before `expires_at`; under never it does not run, and no call runs it twice. |
| `ApprovalSafety.RunInv` | src/magsag/governance/approval_gate.py:128-207 | The invariant behind these claims holds in every state of every run. |
| `ApprovalSafety.StepKeepsInv` | src/magsag/governance/approval_gate.py:128-207 | Each single step (create, persist, poll, approve, deny, load from storage, the three parts of a sweep, clock) keeps it. |
| `ApprovalSafety.StepMoves` | src/magsag/governance/approval_gate.py:652-667 | What one step may do to the status of any ticket created here. |
| `ApprovalSafety.StepExpiresIff` | src/magsag/governance/approval_gate.py:296-309 | A ticket that is not expired, decided or not, expires in a step if and only if the step is a poll of the call it was created for at or after `expires_at`, or a sweep that began then comes to an object of it that is not expired. |
| `ApprovalSafety.DecidedThenExpired` | src/magsag/governance/approval_gate.py:652-667 | A run of five steps in which a ticket is approved, or denied, and ends up expired. |
| `ApprovalProgress.PollDecides` | src/magsag/governance/approval_gate.py:296-332 | In every reachable state, a waiting call that polls runs its tool if and only if its ticket is approved and not yet at its expiry, and logs that once; it stops if and only if the ticket is denied or the expiry has come, which also expires it; otherwise it waits on. |
| `ApprovalProgress.StartDecides` | src/magsag/governance/approval_gate.py:704-745 | A call runs at once exactly under `always`, stops at once exactly under `never`, and otherwise gets a pending ticket that expires its timeout after the request. |
| `ApprovalProgress.DecisionIffPending` | src/magsag/governance/approval_gate.py:371-456 | An approve or deny of a ticket created here succeeds if and only if it is pending, at any time; it then has that status and tells who decided and when, and otherwise nothing changes. |
| `ApprovalProgress.ApprovedCallRuns` | src/magsag/governance/approval_gate.py:669-745 | A run of four steps, from the request over an approval in time to the tool being run. |
| `ApprovalProgress.FinishedSweepExpires` | src/magsag/governance/approval_gate.py:504-523 | In every run, when a sweep is done, every ticket that was pending and at or past its expiry when the sweep began is expired, whatever happened in between. |
| `ApprovalProgress.SweepTakesOnAll` | src/magsag/governance/approval_gate.py:458-523 | A sweep takes on every ticket pending in the table when it began and every row storage lists as pending, oldest request first. |
| `ApprovalGate.ApprovalGate.CreateTicket` | src/magsag/governance/approval_gate.py:160-180 | Creating a ticket before storage is awaited is the protocol's step: a new pending object under the new id, nothing else changed. |
| `ApprovalGate.ApprovalGate.ResolveTicket` | src/magsag/governance/approval_gate.py:566-583 | Resolving sets status, time and resolver of one object and makes it the table's entry; every other object is unchanged. |
| `ApprovalGate.ApprovalGate.ExpireTicket` | src/magsag/governance/approval_gate.py:652-667 | Expiry overrides approved and denied, and leaves an expired ticket as it was. |
| `ApprovalGate.ApprovalGate.ApproveTicket` | src/magsag/governance/approval_gate.py:371-412 | Approving checks and sets in one go: accepted exactly for a pending ticket in the table, otherwise nothing changes. |
| `ApprovalGate.ApprovalGate.DenyTicket` | src/magsag/governance/approval_gate.py:414-456 | The same for denying. |
| `ApprovalGate.ApprovalGate.PollTicket` | src/magsag/governance/approval_gate.py:296-329 | One poll: at or after the expiry a timeout, whatever the status, which expires the ticket; before it a go exactly when approved and a refusal exactly when denied. |
| `ApprovalGate.WaitForDecision` | src/magsag/governance/approval_gate.py:296-332 | The wait ends, at the first poll that is not pending, with the outcome of that poll; before it all polls saw a pending ticket in time. |
| `ApprovalGate.FirstDecisivePoll` | src/magsag/governance/approval_gate.py:296-332 | The first poll that comes too late or finds a decision settles the wait: too late is a timeout, else approved is a go and denied a refusal. |
| `ApprovalGate.PollBound` | src/magsag/governance/approval_gate.py:296-332 | No wait takes more polls than the time to live over the interval, rounded up, plus one. |
| `ApprovalGate.ExactPolls` | src/magsag/governance/approval_gate.py:296-332 | With a clock that moves by exactly the interval per sleep, an undecided wait takes floor(ttl / interval) + 1 polls if and only if the interval divides the time to live, and one more if and only if it does not. |
| `ApprovalGate.UndecidedWait` | src/magsag/governance/approval_gate.py:296-332 | Every such wait ends in a timeout after exactly that number of polls. |
| `ApprovalGate.FourPolls` | src/magsag/governance/approval_gate.py:296-332 | A wait for two and a half intervals that takes four polls, one more than floor(ttl / interval) + 1. |
| `TokenBucket.InMemoryRateLimiter.CheckRateLimit` | src/magsag/api/rate_limit.py:42-71 | A check refills, spends and refuses as the bucket function says, for the given key only; a new bucket's clock reading may lie after `now`. |
| `TokenBucket.AdmissionsBounded` | src/magsag/api/rate_limit.py:52-71 | In any closed window of any run with a clock that does not go back, a key is admitted at most qps + qps * length times. |
| `TokenBucket.SpacedCallsAdmitted` | src/magsag/api/rate_limit.py:36-71 | On a key not used before, if its bucket is created at most a second after the first call read the clock, every later call at least 1/qps after its predecessor is admitted, and the first one exactly when the lag leaves it a token. |
| `TokenBucket.AdmittedIffRoom` | src/magsag/api/rate_limit.py:36-71 | In any run from an empty table, whatever the clock does, a call is admitted if and only if one more admission keeps every window that ends with it within qps + qps * length: those that start with a call on the key, and the one that starts with the bucket. |
| `TokenBucket.BurstAdmitsQps` | src/magsag/api/rate_limit.py:36-71 | Of any number of calls at one moment, on a key that is new or has not been used for a second, exactly the first qps are admitted. |
| `TokenBucket.KeysIndependent` | src/magsag/api/rate_limit.py:52-71 | The answers on a key are what they would be had no other key been used. |
| `TokenBucket.NothingAdmittedBelowOne` | src/magsag/api/rate_limit.py:60-63 | With fewer than one request a second to give, nothing is ever admitted. |
| `RedisLimiter.RedisRateLimiter.CheckRateLimit` | src/magsag/api/rate_limit.py:107-171 | A call runs the script on the shared space of Redis keys, unless Redis is not reached; it is refused exactly when the answer arrives and says so, and let through on every failure: not reached, the reply lost after the script ran, or a command that meets a value of the wrong kind. |
| `RedisLimiter.RunScript` | src/magsag/api/rate_limit.py:122-150 | The commands one by one, with the effects they have before an error, give the script's outcome and database. |
| `RedisLimiter.SharedKeyIff` | src/magsag/api/rate_limit.py:117-147 | Two different callers' keys share a Redis key if and only if one is the other with `:seq` behind it. |
| `RedisLimiter.OthersUntouched` | src/magsag/api/rate_limit.py:122-150 | A call changes nothing under a Redis key that is not its own set or counter. |
| `RedisLimiter.EvalIsScript` | src/magsag/api/rate_limit.py:122-150 | Where the set and the counter are a key's own, the script on the shared database does what it does to the window of that key alone. |
| `RedisLimiter.AnswersAreItsOwn` | src/magsag/api/rate_limit.py:107-171 | In a run of many callers without a linked key, the outcomes on a key are those of the run of its own calls. |
| `RedisLimiter.AdmittedIffRoomInRun` | src/magsag/api/rate_limit.py:122-137 | After any such run a call on the key is admitted exactly when fewer than qps of the key's admissions lie less than a second back, and otherwise refused, and its trimmed set is exactly those admissions. |
| `RedisLimiter.WindowBoundInRun` | src/magsag/api/rate_limit.py:122-171 | Over any such run, with a clock that does not go back, every half-open one-second window lets through at most qps calls on the key and those that were not answered. |
| `RedisLimiter.CrowdLetThrough` | src/magsag/api/rate_limit.py:139-171 | After one call on a linked key, any number of calls on the key are let through at the same moment, with Redis answering each. |
| `RedisLimiter.BoundedIffApart` | src/magsag/api/rate_limit.py:122-171 | With Redis answering every call, a key is held to qps calls in every one-second window of every run of the keys in use if and only if no key in use is linked with it. |
| `RedisLimiter.SeqSuffixIsNotLimited` | src/magsag/api/rate_limit.py:141-171 | One call on `a:seq` lets any number of calls on `a` through at once. |
| `SlidingWindow.CallTracks` | src/magsag/api/rate_limit.py:122-150 | For a key whose set and counter no other caller touches: after trimming, the set is exactly the admissions in (now - 1, now], and a call is admitted exactly when there are fewer than qps of them. |
| `SlidingWindow.AdmittedIffRoom` | src/magsag/api/rate_limit.py:122-137 | For such a key, at the end of any run of its calls: admitted exactly when fewer than qps admissions lie less than a second back. |
| `SlidingWindow.WindowBound` | src/magsag/api/rate_limit.py:122-150 | For such a key, over any run of its calls with a clock that does not go back, every half-open one-second window holds at most qps admissions. |
| `SlidingWindow.FreshMember` | src/magsag/api/rate_limit.py:139-143 | A member made with a new counter value is never one the set already has. |
| `SlidingWindow.MemberSeq` | src/magsag/api/rate_limit.py:139-143 | Members with different counter values differ, however Lua prints the time. |
| `SlidingWindow.NothingBelowOne` | src/magsag/api/rate_limit.py:133-137 | With qps below one nothing is admitted. |
| `CircuitBreaker.CountersMeanWhatTheySay` | src/magsag/mcp/client.py:85-137 | While closed the failure counter is the length of the trailing run of failures since the last success, close or reset, and below the threshold; the success counter is zero outside half open. |
| `CircuitBreaker.OpensExactlyAtThreshold` | src/magsag/mcp/client.py:123-137 | A closed breaker opens exactly at the failure that completes a run of `failure_threshold`. |
| `CircuitBreaker.OpenWaitsOutTheTimeout` | src/magsag/mcp/client.py:85-108 | An open breaker admits nothing within the timeout of any recorded failure. |
| `CircuitBreaker.AdmittedIff` | src/magsag/mcp/client.py:85-108 | Over every trace an attempt is admitted if and only if the breaker is closed, or open with the timeout passed since the latest failure, or half open with fewer than `half_open_max_calls + 1` admissions in the episode so far; while closed it changes nothing. |
| `CircuitBreaker.LeavesOpenIff` | src/magsag/mcp/client.py:85-137 | An open breaker turns half open exactly at an admitted attempt and closes exactly at a reset. |
| `CircuitBreaker.EpisodeEndsIff` | src/magsag/mcp/client.py:99-137 | A half-open episode ends in open exactly at a failure, and in closed exactly at a reset or the success that brings the episode's successes to the threshold. |
| `CircuitBreaker.EpisodeBudget` | src/magsag/mcp/client.py:85-108 | Each half-open episode admits at most `half_open_max_calls + 1` attempts, the one that opens it included. |
| `CircuitBreaker.ClosesIffThresholdFits` | src/magsag/mcp/client.py:85-121 | Used sequentially after the timeout, successful invokes close the breaker if and only if `success_threshold` is at most `half_open_max_calls + 1`. |
| `CircuitBreaker.WedgedWhenThresholdTooHigh` | src/magsag/mcp/client.py:99-108 | Otherwise, once the budget is spent, every later attempt is refused for ever. |
| `CircuitBreaker.ThreeOfTwo` | src/magsag/mcp/client.py:99-121 | With a success threshold of three and a budget of two, two successes leave the breaker half open and the third attempt is refused. |
| `CircuitBreaker.SpentUntilRecorded` | src/magsag/mcp/client.py:99-137 | Half open with its budget spent, a breaker refuses every attempt and stays as it is until a success, a failure or a reset is recorded. |
| `CircuitBreaker.CancelledCallWedges` | src/magsag/mcp/client.py:99-121 | With the default configuration, an admitted invoke that is cancelled and one later success leave the breaker half open with its budget spent and a success missing. |
| `CircuitBreaker.LastFailureIsLatest` | src/magsag/mcp/client.py:123-137 | The remembered failure time is that of the latest recorded failure. |
| `CircuitBreaker.CircuitBreaker.CanAttempt` | src/magsag/mcp/client.py:85-108 | The admission check and its effect on state and counters, in every state. |
| `CircuitBreaker.CircuitBreaker.RecordSuccess` | src/magsag/mcp/client.py:110-121 | The effect of a success. |
| `CircuitBreaker.CircuitBreaker.RecordFailure` | src/magsag/mcp/client.py:123-137 | The effect of a failure. |
| `CircuitBreaker.CircuitBreaker.ResetCircuit` | src/magsag/mcp/client.py:626-631 | The manual reset, which leaves `half_open_calls` and the last failure time alone. |
| `CircuitBreaker.AsyncMCPClient.Invoke` | src/magsag/mcp/client.py:365-449 | One admission check, then attempts until one succeeds or is cancelled or they run out; the breaker afterwards has recorded every failed attempt, the success, and nothing for the cancelled one. |
| `CircuitBreaker.FirstInvoke` | src/magsag/mcp/client.py:365-449 | The first invoke of a new client is let through, whatever the configuration, and returns after one attempt if that succeeds. |
| `CircuitBreaker.FailedRunOpens` | src/magsag/mcp/client.py:390-449 | The failures of one invoke add up: from closed, a run of failed attempts leaves the breaker open exactly when, with the failures before it, it reaches the threshold. |
| `CircuitBreaker.RetrySuccessDoesNotClose` | src/magsag/mcp/client.py:390-449 | An invoke let through half open that fails once leaves the breaker open even if a retry succeeds. |
| `JsonRpc.MCPServer.SendRequest` | src/magsag/mcp/server.py:378-413 | The reply is what awaiting the request's own id gives, the id is one more than the last, and exactly the lines up to the reply are consumed; an error leaves a late reply in the stream. |
| `JsonRpc.MCPServer.ReadMessage` | src/magsag/mcp/server.py:356-376 | One arrival is consumed per read; a timeout, a line that is not UTF-8 or longer than the stream reader takes (whose own errors escape; the tail of the latter is the next arrival), one that is not JSON, one that is no object and the end of the stream are told apart. |
| `JsonRpc.GetsFirstOwn` | src/magsag/mcp/server.py:395-413 | A request gets a message exactly when that is the first one carrying its id and nothing went wrong before it; the prefix up to it is consumed. |
| `JsonRpc.AwaitMeets` | src/magsag/mcp/server.py:395-413 | After any lines with other ids or none, the line with the awaited integer id is returned; a timeout, a line that is no JSON or no object, and the end of the stream each end the request with their own error. |
| `JsonRpc.NoSharedReply` | src/magsag/mcp/server.py:341-413 | Over any session with different ids, a message given to one request carries its id and not that of any other, even with ids compared as Python does. |
| `JsonRpc.OneProcessNeverConfuses` | src/magsag/mcp/server.py:341-343 | With the ids one process hands out, no request receives the reply to another. |
| `JsonRpc.StraysAreUnobservable` | src/magsag/mcp/server.py:398-413 | Removing any notifications and late replies anywhere in the stream changes no outcome of any request. |
| `JsonRpc.EveryReplyDelivered` | src/magsag/mcp/server.py:395-413 | If each reply arrives in turn with any strays in between, every request gets its own. |
| `JsonRpc.DeliveredOnceInOrder` | src/magsag/mcp/server.py:395-413 | Each line is handed out at most once, in the order of arrival. |
| `JsonRpc.RequestTakenForReply` | src/magsag/mcp/server.py:395-399 | A request sent by the server is returned as a reply exactly when it carries the awaited id and is first to do so. |
| `JsonRpc.PingForInitialize` | src/magsag/mcp/server.py:395-399 | A server that pings with id 1 before it answers `initialize`: the ping is returned. |
| `StreamAssembly.ChatCompletionsStream` | src/magsag/providers/openai.py:408-493 | The loop yields one response per chunk with a choice; the final one has the concatenated contents of all choices, the last finish reason that is not empty, the last id and model, and the assembled tool calls. |
| `StreamAssembly.TakeFragments` | src/magsag/providers/openai.py:433-463 | After each delta, every dictionary entry is what its index's fragments so far spell, keys in order of first appearance. |
| `StreamAssembly.InOrder` | src/magsag/providers/openai.py:480-482 | The final list is the dictionary read in increasing index order. |
| `StreamAssembly.IndicesAscend` | src/magsag/providers/openai.py:480-482 | The indices of the final list are strictly increasing and are those that occurred. |
| `StreamAssembly.InterleavingIsIrrelevant` | src/magsag/providers/openai.py:433-463 | Two streams that give each index the same fragments in the same order give the same final list. |
| `StreamAssembly.SwapNeighbours` | src/magsag/providers/openai.py:433-463 | Swapping neighbouring fragments of different indices changes nothing. |
| `StreamAssembly.CallsSurvive` | src/magsag/providers/openai.py:408-493 | However tool calls are cut into fragments and interleaved, they come back whole and in index order. |
| `Snapshots.StoredIsExpected` | src/magsag/runners/durable.py:84-142 | In one process that starts with nothing stored, after any operations there is one row per run and step, with the last saved state and the first id and creation time since the run was last deleted. |
| `Snapshots.ResumeStep` | src/magsag/runners/durable.py:169-193 | Then resuming from a step gives what was last saved for it. |
| `Snapshots.ResumeLatest` | src/magsag/runners/durable.py:144-167 | Then resuming a run gives the last state of its latest-created step, or nothing when nothing is saved. |
| `Snapshots.ResumeGivesState` | src/magsag/runners/durable.py:553-593 | The state a resume gives is the one last saved for the named step, or for a latest-created one; it is nothing exactly when nothing is saved. |
| `Snapshots.SaveKeepsCreationIffCached` | src/magsag/runners/durable.py:108-126 | Saving over a stored step keeps its id and creation time exactly when the step is cached. |
| `Snapshots.SavedByNewProcess` | src/magsag/runners/durable.py:108-126 | One stored step saved again: the same process keeps its id and creation time, a new process gives it new ones. |
| `Snapshots.LoadedKeepsCreation` | src/magsag/runners/durable.py:108-220 | A step that was loaded, listed or given as the latest before keeps its id and creation time when it is saved again. |
| `Snapshots.KeysCollideIff` | src/magsag/runners/durable.py:109-109 | Two different run ids have a `run:step` key in common exactly when one of them is the other, a colon, and anything. |
| `Snapshots.KeyInjective` | src/magsag/runners/durable.py:109-109 | For all other runs, colons or not, the key names one pair. |
| `Snapshots.ColonFreeNeverCollide` | src/magsag/runners/durable.py:109-109 | Run ids without a colon are among those. |
| `Snapshots.ColonsCollide` | src/magsag/runners/durable.py:109-126 | Where two keys do meet, saving one pair overwrites the other's state. |
| `Snapshots.LatestIsRightIffAgrees` | src/magsag/runners/durable.py:154-167 | A latest lookup gives a latest stored snapshot exactly when the cached part of the run is empty or has one. |
| `Snapshots.KeepsAgreement` | src/magsag/runners/durable.py:84-251 | Save, latest, list and delete keep that agreement for every run. |
| `Snapshots.StepKeepsAgreementIff` | src/magsag/runners/durable.py:182-193 | A load by step keeps it exactly when some of the run was cached already, or nothing was found, or the step is a latest one. |
| `Snapshots.OlderStepTakenForLatest` | src/magsag/runners/durable.py:154-193 | A new process that loads the older of two steps then takes it for the latest, whatever the backend would answer. |
| `Snapshots.RunAgrees` | src/magsag/runners/durable.py:84-251 | So in a new process, if each run is first looked up by its latest, listed or saved to, every latest lookup stays right. |
| `Snapshots.KeepsCoherent` | src/magsag/runners/durable.py:84-251 | Every cached snapshot is under its own key and equals the stored row, after every operation. |
| `Snapshots.RunAgreesOnSqlite` | src/magsag/storage/backends/sqlite.py:762-780 | In front of SQLite, which compares whole seconds, such a process always gets a snapshot of the run's latest second. |
| `Snapshots.SqliteIsExactIff` | src/magsag/storage/backends/sqlite.py:762-780 | Every answer SQLite may give is an exact latest snapshot if and only if all rows of the run's latest second were created at one moment. |
| `Snapshots.OneSecondIsATie` | src/magsag/storage/backends/sqlite.py:767-776 | Of two snapshots of one second, SQLite may give the older one. |
| `Snapshots.SnapshotStore.SaveSnapshot` | src/magsag/runners/durable.py:84-142 | A save updates the cached snapshot or makes a new one, and writes it to its row. |
| `Snapshots.SnapshotStore.GetLatestSnapshot` | src/magsag/runners/durable.py:144-167 | The cached snapshot with the greatest creation time, else what the backend answers, which is then cached. |
| `Snapshots.SnapshotStore.GetSnapshotByStep` | src/magsag/runners/durable.py:169-193 | The cached snapshot under the key, else the stored row, which is then cached. |
| `Snapshots.SnapshotStore.ListSnapshots` | src/magsag/runners/durable.py:195-220 | All snapshots of the run, oldest first, after caching the stored ones that were not. |
| `Snapshots.ListedAreStored` | src/magsag/runners/durable.py:195-220 | What is listed is exactly what is stored of the run. |
| `Snapshots.SnapshotStore.DeleteSnapshots` | src/magsag/runners/durable.py:222-251 | Cache and table lose exactly the run's snapshots, and the number returned is the number stored. |
| `Snapshots.DurableRunner.Resume` | src/magsag/runners/durable.py:553-593 | The state of the named step, or of the latest one when no step or an empty one is named. |
| `IsoTime.TextOrderIsTimeOrder` | src/magsag/storage/memory_store.py:330 | For UTC instants with four-digit years, comparing `isoformat` texts compares the instants, although zero microseconds are left out. |
| `IsoTime.IsoRoundTrip` | src/magsag/storage/memory_store.py:338-355 | Parsing the printed text gives back the instant. |
| `MemoryStore.ExpiryAgrees` | src/magsag/core/memory.py:126-130 | The SQL comparison of texts and `is_expired` agree on every entry and clock. |
| `MemoryStore.RowRoundTrip` | src/magsag/storage/memory_store.py:319-355 | Reading a stored row gives back the entry if and only if its embedding is not the empty list; everything but the embedding comes back in any case. |
| `MemoryStore.EmptyEmbeddingIsLost` | src/magsag/storage/memory_store.py:333-333 | An entry whose embedding is the empty list is read back with none. |
| `MemoryStore.UpdateRoundTrip` | src/magsag/storage/memory_store.py:409-436 | An updated row is read back as the new entry with the time of the update and the old creation time. |
| `MemoryStore.ExpiryUnobservableInListing` | src/magsag/storage/memory_store.py:457-520 | Whether or not expired rows have been deleted, every later listing without expired entries, page by page, is the same. |
| `MemoryStore.ExpiryUnobservableInSearch` | src/magsag/storage/memory_store.py:522-571 | Full-text search finds the same rows whether or not expired rows have been deleted. |
| `MemoryStore.ExpiryUnobservableInSearchPage` | src/magsag/storage/memory_store.py:555-566 | It returns the same page of them too, for any limit, as long as the index ranks the rows found alike. |
| `MemoryStore.ExpiryUnobservableInGet` | src/magsag/storage/memory_store.py:383-407 | The same for a lookup by id. |
| `MemoryStore.ListingNewestFirst` | src/magsag/storage/memory_store.py:497-520 | A page of a listing is in time order, newest first. |
| `MemoryStore.FullListing` | src/magsag/storage/memory_store.py:457-520 | A listing with a limit that is large enough returns every row that passes the filters, and has not expired unless expired ones are asked for, exactly once, whatever order the table is scanned in. |
| `MemoryStore.PagesJoin` | src/magsag/storage/memory_store.py:502-513 | A page and the one after it make up the page of both lengths. |
| `MemoryStore.FullSearch` | src/magsag/storage/memory_store.py:522-571 | A search with a limit that is large enough returns every live row that matches and passes the filters exactly once, best rank first. |
| `MemoryStore.PutKeepsSync` | src/magsag/storage/memory_store.py:291-310 | Writing a row with its trigger keeps the index equal to the table's (id, key, value) projection. |
| `MemoryStore.EarlyExpiryUnnoticedIff` | src/magsag/storage/memory_store.py:573-589 | Deleting the expired rows early is noticed by the callers of later creates, updates, deletes and expiries if and only if one of them names a deleted id before the next expiry. |
| `MemoryStore.CreatedAgain` | src/magsag/storage/memory_store.py:357-381 | One expired entry whose id is created again: the caller is told of a duplicate, or not if the entry has been deleted. |
| `MemoryStore.EarlyExpiryUnobservable` | src/magsag/storage/memory_store.py:573-589 | Unless that happens, what is live after any such operations, and so all that later reads can return, is the same. |
| `MemoryStore.SQLiteMemoryStore.CreateMemory` | src/magsag/storage/memory_store.py:357-381 | A new id adds its row and index entry; an id that exists changes nothing and is reported. |
| `MemoryStore.SQLiteMemoryStore.UpdateMemory` | src/magsag/storage/memory_store.py:409-436 | The row with the id is rewritten but for its creation time, index included; an unknown id is reported. |
| `MemoryStore.SQLiteMemoryStore.DeleteMemory` | src/magsag/storage/memory_store.py:438-455 | Exactly the row with the id goes, with its index entry; the result says whether there was one. |
| `MemoryStore.SQLiteMemoryStore.ExpireOldMemories` | src/magsag/storage/memory_store.py:573-589 | Exactly the expired rows go, with their index entries, and their number is returned. |
| `MemoryStore.SQLiteMemoryStore.GetMemory` | src/magsag/storage/memory_store.py:383-407 | The entry with the id unless it is missing or expired. |
| `Porcelain.PorcelainRoundTrip` | src/magsag/worktree/git.py:58-122 | For every list of well-formed worktrees, parsing what `git worktree list --porcelain -z` prints gives back every record in order, with paths, reasons and unknown attributes as they were. |
| `Porcelain.ParsePorcelain` | src/magsag/worktree/git.py:58-122 | The loop computes what reading the NUL-separated entries one by one and flushing at the end gives, and fails exactly when that meets a record without a path. |
| `Porcelain.ReadRecord` | src/magsag/worktree/git.py:77-115 | Reading the lines of one record finishes the one before and leaves exactly this one pending. |
| `Naming.SanitizeIsClean` | src/magsag/worktree/naming.py:10-23 | A sanitised segment is never empty, uses only `[a-z0-9._-]`, has no two hyphens in a row and no `-`, `.` or `_` at either end, for every input and whatever lower-casing does outside ASCII. |
| `Naming.SanitizeIdempotent` | src/magsag/worktree/naming.py:10-23 | Sanitising is idempotent; its results are exactly the clean segments. |
| `Naming.LettersSurvive` | src/magsag/worktree/naming.py:10-23 | Of an ASCII segment all letters, in lower case, and all digits survive, in order; without any the result is `x`. |
| `Naming.BranchRoundTrip` | src/magsag/worktree/types.py:32-66 | Run id and task slug read from a branch name are the sanitised pair, with or without `refs/heads/`. |
| `Naming.BranchNameInjective` | src/magsag/worktree/naming.py:26-28 | Two branch names are equal exactly when the sanitised run and task are. |
| `Naming.DirectoryNamesAgree` | src/magsag/worktree/naming.py:31-33 | For one commit, two directory names are equal exactly when the sanitised pairs are, or one sanitised run id goes on from the other with a hyphen and the other task starts with what it goes on with. |
| `Naming.CanCollideIff` | src/magsag/worktree/naming.py:31-33 | Two run ids that sanitise differently share a directory name for some tasks exactly when one of the sanitised ids is the other, a hyphen, and something that does not start with `-`, `.` or `_`. |
| `Naming.CommitIsTold` | src/magsag/worktree/naming.py:31-33 | Commit names without a hyphen can be read off the directory name. |
| `Naming.DirectoryNameAmbiguous` | src/magsag/worktree/naming.py:31-33 | The run `a-b` with task `c` and the run `a` with task `b-c` share their directory name. |
| `RunSummary.Summarize` | src/magsag/observability/summarize_runs.py:253-368 | It raises exactly when a directory with a readable summary has a line that makes it; otherwise the summary reports, for those directories, exactly the figures counted over all their end events and logged calls: every step and every model once, in name order, with rates, tokens and cost, and the totals. |
| `RunSummary.RunMetrics.AccumulateMetrics` | src/magsag/observability/summarize_runs.py:176-226 | It raises exactly when a line is JSON but no object; otherwise after a run's lines the accumulators equal the counts over all events met so far, and the result says whether any of this run failed. |
| `RunSummary.RunMetrics.AggregateMcpLogs` | src/magsag/observability/summarize_runs.py:82-122 | It raises exactly when a line is JSON but no object or has a token figure that `int` refuses; otherwise the call count, the error count and the figures of every model are the sums over all calls logged so far. |
| `RunSummary.StepAddsUp` | src/magsag/observability/summarize_runs.py:200-224 | For every step, runs are successes plus failures, and failures are the sum over the error categories. |
| `RunSummary.TotalsAreSumsOverSteps` | src/magsag/observability/summarize_runs.py:290-318 | Summed over the steps, failures and each category give the overall totals. |
| `RunSummary.EntriesAddUp` | src/magsag/observability/summarize_runs.py:290-318 | The same relations on each entry of every produced summary, which has at least one run. |
| `RunSummary.RatesAreRates` | src/magsag/observability/summarize_runs.py:289-312 | On every produced summary the success rates are successes over runs and the latencies are means, over all timed events and for a step over its runs; without a count they are zero. |
| `RunSummary.SummaryAddsUp` | src/magsag/observability/summarize_runs.py:290-340 | On every produced summary the steps' errors, and the categories, sum to the total. |
| `RunSummary.ModelsAddUp` | src/magsag/observability/summarize_runs.py:320-366 | The models' tokens and cost sum to the totals, and so do their calls and errors where the log has any. |
| `RunSummary.OrderIsIrrelevant` | src/magsag/observability/summarize_runs.py:200-226 | The figures of every step and the error categories depend on which events there are, not on the order they are met in. |
| `RunSummary.RunOrderIsIrrelevant` | src/magsag/observability/summarize_runs.py:253-368 | A summary of some run directories is one of the same directories in any other order, with every figure in it: runs, successes, rates, latencies, errors, MCP figures, tokens, cost, steps and models. |
| `RunSummary.OneSummary` | src/magsag/observability/summarize_runs.py:253-368 | Two summaries of the same directories, met in whatever orders, are equal. |
| `RunSummary.ErrorsExceedCallsIff` | src/magsag/observability/summarize_runs.py:311-315 | The MCP error figure exceeds the call figure exactly when the log has calls and no errors while the steps have more errors than that. |
| `RunSummary.TwoErrorsInOneCall` | src/magsag/observability/summarize_runs.py:311-318 | Two failed MCP steps and one logged call that went well: two errors in one call. |
| `Gate.Evaluate` | src/magsag/governance/gate.py:64-173 | For every summary that satisfies the schema, the gate reports exactly the violations there are, and none exactly when the summary meets every bound of the policy. |
| `Gate.PassesIffNothingViolated` | src/magsag/governance/gate.py:64-173 | Meeting every bound is the same as violating none. |
| `Gate.PassesIffWithin` | src/magsag/governance/gate.py:64-173 | Passing in plain figures: runs and success rate at least, latencies and shares of errors at most their bounds, a missing bound or figure being no failure; every required step is there by name, and the model of every step is on no denied pattern and on an allowed one if any are given. |
| `Gate.GateSeesFailureRate` | src/magsag/governance/gate.py:107-118 | On a produced summary the rate compared for a step is its failures over its runs, is always defined, and is at most one. |
| `Gate.LeastModelIsChecked` | src/magsag/governance/gate.py:131-144 | On a produced summary the one model of a step that is checked is the least by name. |
| `Gate.SecondModelIsUnseen` | src/magsag/governance/gate.py:131-144 | A denied model that comes second in a step's list is not noticed. |
| `Gate.LooserReportsLess` | src/magsag/governance/gate.py:64-173 | Whatever a pointwise looser policy finds wrong with a summary, the stricter one does; of the missing steps it may find fewer. |
| `Gate.LooserPasses` | src/magsag/governance/gate.py:64-173 | So what passes a policy passes every looser one. |
| `CostTracker.SummaryFromJsonl` | src/magsag/observability/cost_tracker.py:358-436 | The one pass over the lines raises exactly when one is JSON but no object; otherwise it computes the sums, the GROUP BY model and the GROUP BY agent that the SQL queries specify, under every filter. |
| `CostTracker.FiguresAddUp` | src/magsag/observability/cost_tracker.py:243-356 | Per-model figures sum to the totals and per-agent figures to the totals over records that name an agent. |
| `CostTracker.ChosenIff` | src/magsag/observability/cost_tracker.py:243-395 | A record is summed if and only if it is in the file and meets every filter that is set: start and end of the period, both included, agent and run. |
| `CostTracker.SumIsByColumn` | src/magsag/observability/cost_tracker.py:243-402 | Each figure is the sum of its own column, and the calls are the records. |

## Left out

- Cache keys: floats, NaN, lone surrogates and keys that are not strings; values are compared as JSON, so `1`, `1.0` and `true` are different (Python's dictionary equality identifies them).
- Semantic cache: the numerics of embeddings and similarity, float rounding, the Redis backend, statistics of the index beyond its answers.
- Registry: parsing of the YAML fields other than `depends_on`, skills, evals, entrypoints and tasks.
- Approval gate: the number a sweep returns, events, masking and restoring of tool arguments, run records, glob rules of the policy; storage writes appear only as failures and suspensions between the steps.
- SemanticCache.FaissCache.Search: which vectors a trained IVF index leaves out of its answer, because that search is approximate.
- ApprovalSafety.RunStatusMoves: stated for tickets this gate created; tickets read from storage only may exist as several objects with different statuses.
- RedisLimiter.RedisRateLimiter.CheckRateLimit: Redis and the caller share one clock in the model, and a set and its counter expire at the same moment; the raising of the 429 is a result.
- TokenBucket.AdmissionsBounded: over `real`; the rounding of double arithmetic is not modelled.
- CircuitBreaker.AsyncMCPClient.Invoke: the length of the backoff and its random jitter are not modelled, only that time passes; invokes on one breaker that overlap in time are not interleaved.
- JSON-RPC: encoding of messages and bytes; each read under a timeout is one arrival. Requests are awaited one at a time under the I/O lock, so a session is a sequence.
- JsonRpc.NoSharedReply: for one process; a restart gets a new stream and counts from one again.
- Streaming: the Responses API variant, moderation and usage figures.
- Snapshots: the file fallback (its latest is by modification time), creation of run records, failures of the backend; snapshots are values, so aliasing of the caller's state dictionary is not captured, nor which of two snapshots with the same creation time is listed first.
- Memory store: the JSON text of the list and dictionary columns, the SQL `LIKE` tag filter, how full-text matches are ranked, `vacuum`, PostgreSQL, timestamps that are not UTC; the number of rows an expiry reports, which depends on earlier expiries.
- Worktrees: decoding of bytes and normalisation by `Path`, the worktree manager's own state.
- Porcelain.PorcelainRoundTrip: for records whose unknown attributes have names the parser does not treat specially, since others are read as what they start with.
- RunSummary.Summarize: the `_summary_success` test of one summary file is a parameter; token figures are taken after their conversion to whole numbers.
- Gate: the texts of the violations, their order, and the validation of the summary against its schema, which `Gate.Evaluate` takes as given.
- Costs: which of several rows with the same cost the queries list first, and failures while appending to either store.
- HTTP, WebSocket and subprocess transport, command line, server, settings, logging and tracing: plumbing.
