# A verified model of the rate limiter

The service answers one question, "may this caller make this request now?", for many clients at
once. A request is matched to one of the client's rules, projected onto the identifier types of that
rule, turned into a Redis key, and counted there by one of five Lua scripts. Operators change rules
and rule groups in Postgres meanwhile, and every instance polls those rows into an in-process cache.
This project models that path in Dafny and proves what it keeps over all inputs and all runs.

| file | models |
|---|---|
| `Timeline.dfy` | the five-field reply, the millisecond clock, counting admissions over stretches of time |
| `TokenBucket.dfy`, `LeakyBucket.dfy`, `FixedWindow.dfy`, `SlidingLog.dfy`, `SlidingCounter.dfy` | one script each: the key as a class the script updates, its step as a function, runs as sequences of steps |
| `BucketSlope.dfy` | what token and leaky buckets admit in the long run when Redis removes their keys |
| `RuleParams.dfy`, `IdentifierTypes.dfy` | params and the configuration they build; identifier types, signatures and the bridge to request types |
| `RuleStore.dfy`, `RuleEffects.dfy`, `RuleOutcomes.dfy`, `RuleServices.dfy` | the rule and group tables as values with nine operations; what success of each means; when each succeeds; the services as a class whose methods perform them |
| `Interleaving.dfy`, `Undisturbed.dfy` | the locking group operations and the creations as concurrent lock, read, decide and commit steps; one of them run without interruption |
| `RulesIndex.dfy`, `RuleSnapshots.dfy`, `Polling.dfy` | the rules cache and resolution; rows loaded from the store; scheduled polling |
| `Json.dfy`, `BucketKeys.dfy` | the hashed payload and its decoder; the choice of limiter, the projection and the key |
| `Service.dfy` | interleaved runs of all requests over one Redis |
| `Deployment.dfy` | the same while rules change and instances boot and poll at moments of their own |
| `Text.dfy`, `Sorting.dfy` | joining with separators, stable sorting |

## How the model is set up

A key carries the deadline of its TTL. A `Tick` says when a request arrives and whether Redis has
removed the key by then, which it may do only from the deadline on; results quantify over every
choice. Parameters are fixed for the life of a key, the clock never goes back, and levels, rates and
weights are exact reals. Each script is a class method on the key's fields, proved equal to a `Step`
function; runs and all results about them are stated on `Step`. The specification of every run is the
list of instants at which requests were admitted.

Three promises of the code hold only in part, and the exact condition is proved for each:

* Token and leaky buckets set the TTL before taking the unit, so a full bucket with one request gets a
  TTL of one second whatever its rate. Expiry is unobservable, and the bound capacity + rate * time
  holds under expiry, if and only if a unit comes back within the life of that key: rate >= 1 when Redis
  removes keys at their deadline tick, rate * 1001 >= 1000 when they survive that tick
  (`TokenBucket.ExpiryUnobservableIff`, `TokenBucket.IntervalBoundIff` and their leaky counterparts).
  What holds for every rate is capacity + max(rate, 1) * time (`BucketSlope.ExpiringBound`).
* The fixed window relies on a key being gone at its deadline tick. If it survives, the NX flag keeps
  the old deadline: a third window gets into a window-length stretch, and a denial's hint can be too long
  (`FixedWindow.PromisedBoundIff`, `FixedWindow.HintsHoldIff`).
* The sliding counter's hint points to the end of the window, although a request may get through
  earlier or be denied then (`SlidingCounter.HintNeverTooLongIff`, `SlidingCounter.RetryHintAtWindowEnd`).

Where code and documentation differ, the code is followed: a matched rule that cannot be built goes to
the static default (services/rate_limiter_service.py:207-223), not to the next step of the resolution
as README.md:619-621 says. `Polling.AnswersFromSnapshot` shows that stored rules never get there.

## Model

| member | source | states |
|---|---|---|
| `TokenBucket.BucketKey.Check` | services/rate_limiter/scripts/token_bucket.lua:12-43 | the script's updates of tokens, refill time and TTL, and its five outputs, are one `Step` on the key as Redis shows it |
| `TokenBucket.AdmittedIff` | services/rate_limiter/scripts/token_bucket.lua:17-43 | in every run a check at t is admitted if and only if, for every s up to t, admissions since s plus one fit in capacity + rate * (t - s): any rate without expiry, and with expiry from the rate at which expiry cannot be seen |
| `TokenBucket.IntervalBound` | services/rate_limiter/scripts/token_bucket.lua:22-37 | every interval of every such run admits at most capacity + rate * length |
| `TokenBucket.IntervalBoundIff` | services/rate_limiter/scripts/token_bucket.lua:27-37 | with keys expiring, that bound holds of all runs if and only if rate >= 1 when keys vanish at their deadline tick, and if and only if rate * 1001 >= 1000 when they survive it |
| `BucketSlope.ExpiringBound` | services/rate_limiter/scripts/token_bucket.lua:22-40 | for every rate, and whenever Redis removes the key, every interval admits at most capacity + max(rate, 1) * length, with 1000/1001 for 1 if keys survive their deadline tick |
| `BucketSlope.SlopeBounds` | services/rate_limiter/scripts/token_bucket.lua:22-40 | for every bucket and both kinds of removal every interval admits at most capacity + slope * length, where a bucket of one token has the slope of one admission per wait for a token or per life of a key, whichever is shorter |
| `BucketSlope.SlopeIff` | services/rate_limiter/scripts/token_bucket.lua:22-40 | a slope bounds all runs if and only if it is at least that one: for one token, for buckets that earn at most capacity - 1 per millisecond, and for those slower than a key's life allows |
| `TokenBucket.ExpiryUnobservableIff` | services/rate_limiter/scripts/token_bucket.lua:27-34 | runs with and without removal of expired keys return the same replies, for all runs, if and only if rate >= 1 (removal at the deadline tick) or rate * 1001 >= 1000 (removal from the tick after it) |
| `TokenBucket.SlowRefillIsObservable` | services/rate_limiter/scripts/token_bucket.lua:27-34 | for every slower rate two requests, at 0 and as soon as the key may be gone, get different replies from a removed key and a live one |
| `TokenBucket.ReachableInv` | services/rate_limiter/scripts/token_bucket.lua:17-40 | in every reachable state the stored level is the least budget over all earlier instants |
| `TokenBucket.RetryHintExact` | services/rate_limiter/scripts/token_bucket.lua:39-43 | after a denial, any number of checks before now + hint are all denied, and the next is admitted if and only if it comes at or after now + hint, whatever Redis removes |
| `TokenBucket.ResetIsExact` | services/rate_limiter/scripts/token_bucket.lua:31-43 | after an admission the bucket, left alone, is full exactly from reset_at on; after a denial, whose reset_at is now + hint, it holds a whole token exactly from then on |
| `TokenBucket.DeadlineIsFill` | services/rate_limiter/scripts/token_bucket.lua:27-34 | the TTL: the bucket as found, before the take, would be full exactly from one second before the deadline on |
| `TokenBucket.RemainingIsHonest` | services/rate_limiter/scripts/token_bucket.lua:31-36 | of n further checks in the same millisecond exactly min(n, remaining) are admitted |
| `LeakyBucket.BucketKey.Check` | services/rate_limiter/scripts/leaky_bucket.lua:12-47 | the script's updates of level, leak time and TTL, and its five outputs, are one `Step` on the key as Redis shows it |
| `LeakyBucket.StepMirrors` | services/rate_limiter/scripts/leaky_bucket.lua:17-47 | one check on a level and one on the mirrored tokens (capacity - level) return the same five outputs, the same deadline, and mirrored contents |
| `LeakyBucket.Bisimilar` | services/rate_limiter/scripts/leaky_bucket.lua:17-47 | the same for every sequence of checks from every state |
| `LeakyBucket.AdmittedIff` | services/rate_limiter/scripts/leaky_bucket.lua:22-41 | the exact admission rule of the token bucket, under the same condition on expiry, for the leaky bucket |
| `LeakyBucket.ExpiryUnobservableIff` | services/rate_limiter/scripts/leaky_bucket.lua:27-38 | expiry never shows in replies under exactly the same condition on the rate, for both kinds of removal |
| `LeakyBucket.IntervalBoundIff` | services/rate_limiter/scripts/leaky_bucket.lua:22-44 | under expiry every interval admits at most capacity + rate * length under exactly that condition |
| `LeakyBucket.ExpiringBound` | services/rate_limiter/scripts/leaky_bucket.lua:22-44 | for every rate and every removal, every interval admits at most capacity + max(rate, 1) * length, with 1000/1001 for 1 if keys survive their deadline tick |
| `LeakyBucket.SlopeIff` | services/rate_limiter/scripts/leaky_bucket.lua:22-44 | the least slope is exactly that of the token bucket |
| `LeakyBucket.RetryHintExact` | services/rate_limiter/scripts/leaky_bucket.lua:43-47 | checks before now + hint are denied, the first from then on is admitted |
| `LeakyBucket.ResetIsExact` | services/rate_limiter/scripts/leaky_bucket.lua:35-47 | after an admission the bucket, left alone, is empty exactly from reset_at on; after a denial it has room for one unit exactly from then on |
| `LeakyBucket.DeadlineIsDrain` | services/rate_limiter/scripts/leaky_bucket.lua:27-38 | the TTL: the bucket as found, before the unit is added, would be empty exactly from one second before the deadline on |
| `LeakyBucket.RemainingIsHonest` | services/rate_limiter/scripts/leaky_bucket.lua:35-40 | of n further checks in the same millisecond exactly min(n, remaining) are admitted |
| `SlidingCounter.CounterKey.Check` | services/rate_limiter/scripts/sliding_window_counter.lua:12-52 | the rollover, the weighted decision, the write and the reply of the script are one `Step` on the key as Redis shows it |
| `SlidingCounter.CountsAreTrue` | services/rate_limiter/scripts/sliding_window_counter.lua:13-30 | in every run, after rolling to the window of now, the two counters are the true admissions of the current and the preceding aligned window, each at most max |
| `SlidingCounter.ReachableInv` | services/rate_limiter/scripts/sliding_window_counter.lua:13-49 | in every reachable state the stored counters are the true counts of their windows |
| `SlidingCounter.ExpiryUnobservable` | services/rate_limiter/scripts/sliding_window_counter.lua:40-49 | runs with and without removal of expired keys are equal: replies, admissions and contents |
| `SlidingCounter.WindowedBound` | services/rate_limiter/scripts/sliding_window_counter.lua:32-45 | at every instant prev + current <= max + ceil(prev * offset / window), and prev <= max |
| `SlidingCounter.StretchBound` | services/rate_limiter/scripts/sliding_window_counter.lua:32-45 | every stretch of one window length admits at most max + ceil(max * (window - 2) / window) (max alone for a window of 1 ms), hence at most 2 * max |
| `SlidingCounter.StretchBoundReached` | services/rate_limiter/scripts/sliding_window_counter.lua:32-45 | for every max and every window a run reaches that bound |
| `SlidingCounter.BoundHoldsIff` | services/rate_limiter/scripts/sliding_window_counter.lua:32-45 | a number bounds every stretch of every run if and only if it is at least that bound |
| `SlidingCounter.ResetIsExact` | services/rate_limiter/scripts/sliding_window_counter.lua:32-52 | an instant from now on lies in the window of now exactly when it is before reset_at, which is where a denial's hint points; the key lives two windows |
| `SlidingCounter.RetryHintAtWindowEnd` | services/rate_limiter/scripts/sliding_window_counter.lua:48-52 | a next check at the hinted instant is admitted if and only if the window just ended was not full; one a millisecond later always is |
| `SlidingCounter.HintNeverTooLongIff` | services/rate_limiter/scripts/sliding_window_counter.lua:32-52 | no next check before the hinted instant is admitted if and only if prev + curr * window >= max * window |
| `SlidingCounter.HintTooLongRun` | services/rate_limiter/scripts/sliding_window_counter.lua:48-52 | for every max and every window of at least 2 ms, a run in which a check is told to wait a whole window and one a millisecond later is admitted |
| `SlidingCounter.RemainingWithinOne` | services/rate_limiter/scripts/sliding_window_counter.lua:34-45 | the true number of further admissions in the same millisecond is remaining or one more, and one more exactly when a fraction was rounded away |
| `FixedWindow.WindowKey.Check` | services/rate_limiter/scripts/fixed_window.lua:12-37 | the script's window reset, count, conditional TTL and reply are one `Step` on the key as Redis shows it |
| `FixedWindow.IntervalBound` | services/rate_limiter/scripts/fixed_window.lua:17-34 | every window-length stretch admits at most 2 * max - 1 if keys vanish at their deadline tick, 3 * max - 1 if they survive it (2 * max for a window of 2 ms), and max for a window of 1 ms |
| `FixedWindow.BoundReached` | services/rate_limiter/scripts/fixed_window.lua:17-34 | for every max, every window and both treatments of the deadline tick a run reaches that bound |
| `FixedWindow.BoundHoldsIff` | services/rate_limiter/scripts/fixed_window.lua:17-34 | a number bounds every window-length stretch of every run if and only if it is at least that bound |
| `FixedWindow.PromisedBoundIff` | services/rate_limiter/scripts/fixed_window.lua:27-34 | 2 * max - 1 holds of all runs if and only if keys vanish at their deadline tick or the window is 1 ms; 2 * max if and only if they vanish, or the window is at most 2 ms, or max is 1 |
| `FixedWindow.AnchoredBound` | services/rate_limiter/scripts/fixed_window.lua:17-30 | the stored count is the true number of admissions since the window opened, at most max, and the window opens at an admission |
| `FixedWindow.RefinesAnchoredWindows` | services/rate_limiter/scripts/fixed_window.lua:17-37 | with keys vanishing at the deadline tick, the replies of every run are those of plain anchored windows that know no keys or TTLs |
| `FixedWindow.StrictHintsExact` | services/rate_limiter/scripts/fixed_window.lua:33-37 | with keys vanishing at the deadline tick, after every denial of every run all checks before now + hint are denied and the first from then on is admitted |
| `FixedWindow.RetryHintExactIff` | services/rate_limiter/scripts/fixed_window.lua:27-37 | in every run, surviving keys included, a denial's hint is exact in that sense if and only if the key found has its deadline at the end of its window (or the window is one millisecond) |
| `FixedWindow.HintsHoldIff` | services/rate_limiter/scripts/fixed_window.lua:27-37 | every hint of every run is exact if and only if keys vanish at their deadline tick or the window is one millisecond |
| `FixedWindow.SurvivedTickHintTooLong` | services/rate_limiter/scripts/fixed_window.lua:27-37 | the run that shows it: a window filled, the next filled at the deadline tick, a check denied there with a hint of a whole window and one a millisecond later admitted |
| `FixedWindow.RemainingIsHonest` | services/rate_limiter/scripts/fixed_window.lua:24-30 | of n further checks in the same millisecond exactly min(n, remaining) are admitted |
| `SlidingLog.LogKey.Check` | services/rate_limiter/scripts/sliding_window_log.lua:16-44 | trimming, counting, adding and re-arming in place, and the reply, are one `Step` on the sorted set as Redis shows it |
| `SlidingLog.AdmittedIff` | services/rate_limiter/scripts/sliding_window_log.lua:17-44 | with unique request ids, a check is admitted if and only if fewer than max requests were admitted in (now - window, now] |
| `SlidingLog.IntervalBound` | services/rate_limiter/scripts/sliding_window_log.lua:17-38 | every window-length interval of every run admits at most max |
| `SlidingLog.ExpiryUnobservable` | services/rate_limiter/scripts/sliding_window_log.lua:33-43 | runs with and without removal of expired keys are equal |
| `SlidingLog.RepeatedIdDefeatsTheLimit` | services/rate_limiter/scripts/sliding_window_log.lua:5-7 | for every limit above one, an id sent again and again in a millisecond is always admitted |
| `SlidingLog.HoldsForAnyIdsIff` | services/rate_limiter/scripts/sliding_window_log.lua:5-7 | the limit holds of all runs with arbitrary ids if and only if it is one: uniqueness of ids is needed exactly for the others |
| `SlidingLog.ReachableOrderly` | services/rate_limiter/scripts/sliding_window_log.lua:19-35 | in every reachable state the set holds at most max members, in time order, none in the future |
| `SlidingLog.RetryHintExact` | services/rate_limiter/scripts/sliding_window_log.lua:40-44 | checks before now + hint are denied, the first from then on is admitted |
| `SlidingLog.ResetIsExact` | services/rate_limiter/scripts/sliding_window_log.lua:25-44 | left alone, the set keeps all its members exactly until reset_at, which is where a denial's hint points; the key lives one window |
| `SlidingLog.RemainingIsHonest` | services/rate_limiter/scripts/sliding_window_log.lua:33-37 | of n further checks with new ids in the same millisecond exactly min(n, remaining) are admitted |
| `RuleParams.BuildConfigIff` | services/rule_algorithm_mapper.py:45-70 | params build a configuration if and only if they name its algorithm and state its limit or capacity and its rate, or seconds whose whole milliseconds are its window, and all of these are positive |
| `RuleParams.MergeInForce` | services/group_params.py:11-13 | for overrides of known keys the merge has the base's keys, with the override's value where there is one and the base's otherwise, and is the only such params |
| `RuleParams.ValidateOverridesIff` | services/group_params.py:16-35 | overrides are accepted exactly when their keys are known and what is then in force builds; unknown keys are reported first |
| `IdentifierTypes.NormalizeIdentifierTypes` | model/rule_identifier_type.py:87-107 | the loop with its seen set returns the canonical types and signature, or the first error |
| `IdentifierTypes.NormalizeMeaning` | model/rule_identifier_type.py:76-107 | it succeeds exactly on one to three known types with global alone, and returns that set without duplicates in the order of names by code point |
| `IdentifierTypes.NormalizeErrors` | model/rule_identifier_type.py:87-104 | each error is raised exactly in its case: the first unknown type, none at all, more than three, global beside another |
| `IdentifierTypes.SignatureSpelled` | model/rule_identifier_type.py:106-107 | the signature is the types joined by plus signs |
| `IdentifierTypes.SignatureIsTypeSet` | model/rule_identifier_type.py:106-107 | stored signatures are equal if and only if the sets of types are |
| `IdentifierTypes.GlobalSignature` | services/rules_loader.py:49-49 | only the rule scoped to global alone carries the signature that marks a rule global |
| `IdentifierTypes.BridgeTypes` | services/rules_loader.py:30-41 | the loop with its early break yields the set of bridged types, or none if one has no mapping |
| `IdentifierTypes.BridgeExhaustive` | model/rule_identifier_type.py:40-67 | every rule type and nothing else is bridged, to its own name except ip and global |
| `IdentifierTypes.RequestTypesBridged` | model/identifier.py:9-33 | the types requests can carry are exactly those rules are bridged to |
| `IdentifierTypes.BridgeFaithful` | model/rule_identifier_type.py:49-67 | every stored non-global rule is mapped, and its bridged types determine its own |
| `RuleServices.Store.CreateOneRule` | services/rule_service.py:65-88 | create_rule as one transaction: checks in order, then the new row, or nothing |
| `RuleServices.Store.UpdateOneRule` | services/rule_service.py:96-157 | update_rule as one transaction with its version, group, override and scope checks |
| `RuleServices.Store.DeleteOneRule` | services/rule_service.py:159-161 | delete_rule as one transaction |
| `RuleServices.Store.CreateOneGroup` | services/rule_group_service.py:109-190 | create_group with all its members, or nothing |
| `RuleServices.Store.UpdateOneGroup` | services/rule_group_service.py:197-236 | update_group: every member recomputed against the new base before any is written |
| `RuleServices.Store.AddGroupMembers` | services/rule_group_service.py:250-305 | add_members: all members, or the conflicting endpoints with the rules and groups in the way and no change |
| `RuleServices.Store.DeleteOneGroup` | services/rule_group_service.py:314-329 | delete_group, removing its members or leaving them standalone |
| `RuleServices.Store.DetachOneRule` | services/rule_group_service.py:342-362 | detach_rule as one transaction |
| `RuleServices.Store.MoveOneRule` | services/rule_group_service.py:364-405 | move_to_group as one transaction |
| `RuleServices.Store.FindDuplicate` | services/rule_group_service.py:254-259 | the pass over the members finds a repeated endpoint exactly when there is one |
| `RuleServices.Store.PrepareMembers` | services/rule_group_service.py:261-280 | the first invalid overrides win over conflicts; otherwise every conflict is collected with the rule and group in the way |
| `RuleServices.Store.Recompute` | services/rule_group_service.py:216-223 | succeeds exactly when every member's overrides fit the new base, with each member's merged params |
| `RuleStore.OperationKeeps` | services/rule_group_service.py:109-405 | every operation of the nine keeps the store invariant, lets rules evolve only as allowed, changes nothing unless it is done, and only create_rule is turned away by an index |
| `RuleStore.RunKeepsInv` | services/group_params.py:11-35 | over every serial run: a member's params have the group's keys, with the override's value where its overrides hold the key and the group's otherwise, and it mirrors the group's algorithm, types, priority and client; standalone rules have no overrides; all rules build; active scopes are unique |
| `RuleStore.VersionsTellStates` | services/rule_service.py:99-152 | between any two moments of a run a rule keeps id, client and endpoint, versions never fall, the same version means the same algorithm, params, types, priority and status, and a removed id never returns |
| `RuleStore.PreChecksComplete` | repositories/rule_repository.py:37-59 | in every serial run no operation but create_rule is ever rejected by a unique index |
| `RuleStore.CreateRuleIndexed` | services/rule_service.py:82-88 | create_rule is rejected by the index exactly when a well-formed request asks for a scope an active rule holds |
| `RuleStore.ConflictsNameTheHolder` | services/rule_group_service.py:148-167 | conflicts are reported for exactly the members whose scope is taken, and each names the one active rule in the way and its group |
| `RuleStore.ConflictsInOrder` | services/rule_group_service.py:148-167 | conflicts are reported in the order of the members |
| `RuleEffects.DoneMeansDone` | services/rule_group_service.py:109-405 | every operation of the nine that reports success has everything asked for in force, everything not asked for as before, and no other rule or group changed, added or removed |
| `RuleOutcomes.CreateRuleAnswer` | services/rule_service.py:65-88 | create_rule: success exactly for a known client and algorithm, params that build, allowed types and a scope no active rule holds, and the error otherwise |
| `RuleOutcomes.UpdateRuleAnswer` | services/rule_service.py:96-157 | update_rule: success and every error stated on the row and the request; a scope conflict arises only when an inactive rule is activated beside an active one of the same client, endpoint and types |
| `RuleOutcomes.CreateGroupAnswer` | services/rule_group_service.py:109-190 | create_group: success and every error; new members answer with a repeated endpoint, then the first complaint about overrides, then conflicts |
| `RuleOutcomes.UpdateGroupAnswer` | services/rule_group_service.py:197-238 | update_group: refused exactly for a missing group, a name another group of the client has, or a member whose overrides do not fit the new base |
| `RuleOutcomes.AddMembersAnswer` | services/rule_group_service.py:250-305 | add_members: success exactly for distinct endpoints, fitting overrides and scopes no active rule holds, and the answer otherwise |
| `RuleOutcomes.DetachRuleAnswer` | services/rule_group_service.py:342-362 | detach_rule: success exactly for a member, a known algorithm and params that build |
| `RuleOutcomes.MoveToGroupAnswer` | services/rule_group_service.py:364-405 | move_to_group: success exactly within one client, with fitting overrides, and with equal types or a scope no other active rule holds |
| `Interleaving.CommitIsSerial` | services/rule_group_service.py:198-236 | whatever others did since the lock was taken, the commit has the effect of running the whole operation at that moment |
| `Interleaving.InsertIsSerial` | services/rule_group_service.py:109-190 | the same for create_group and create_rule, which hold no lock: the unique indexes refuse exactly what the checks would refuse at that moment |
| `Interleaving.OtherGroupsUntouched` | services/rule_group_service.py:250-329 | a locking operation leaves every other group and its members alone, and a creation leaves all of them |
| `Interleaving.StepKeeps` | repositories/rule_group_repository.py:27-32 | every step of every transaction, or its failure, keeps locks, read values, ids and log consistent with the database |
| `Interleaving.Serializable` | services/rule_group_service.py:109-329 | every interleaving of update_group, add_members, delete_group, create_group and create_rule, with failures at any step, ends in the database of the serial run of its successful transactions in commit order, and that keeps the invariant |
| `Undisturbed.AloneIsSerial` | services/rule_group_service.py:109-329 | from any state of any interleaving, a transaction that runs without interruption ends with exactly the answer and the database of its serial operation, its lock free and all others as they were |
| `RulesIndex.SerializeRule` | services/rules_loader.py:30-57 | a row as the cache holds it, with bridged types and the global mark |
| `RulesIndex.RulesCache.LoadAll` | services/rules_cache.py:90-120 | for any rows: the map by id keeps the last row of each id in its first place, the indexes are per scope the usable rows sorted and the last usable global one, and without repeated ids these are the indexes of the map |
| `RulesIndex.RulesCache.Upsert` | services/rules_cache.py:122-131 | the indexes equal one fresh load of the changed id-to-rule map |
| `RulesIndex.RulesCache.Remove` | services/rules_cache.py:133-137 | the indexes equal one fresh load of the reduced id-to-rule map |
| `RulesIndex.RulesCache.Resolve` | services/rate_limiter_service.py:119-137 | the scan of the index returns the resolution defined on the rows |
| `RulesIndex.ResolvesToLeast` | services/rules_cache.py:57-59 | for all rows and requests the answer is the active non-global rule of the scope with the most types among those whose types the request carries, then the highest priority, then the first signature by code point; else the global rule; else none |
| `RulesIndex.RowOrderIrrelevant` | alembic/versions/0013_scope_rules_and_groups_by_client.py:54-61 | with active scopes unique the answer is the same for every order of the rows |
| `RuleSnapshots.LoadRules` | services/rules_loader.py:60-88 | loading serializes every row and replaces the cache as a whole, leaving both indexes valid |
| `RuleSnapshots.StoredRows` | services/rules_loader.py:60-70 | rows of a store that keeps its invariant have unique ids and scopes, correct global marks, mapped types and params that build |
| `RuleSnapshots.ResolvesFromStore` | services/rate_limiter_service.py:139-167 | an answer resolved from stored rows is an active stored rule of the asking client and endpoint whose params build, in whatever order the rows came |
| `RuleSnapshots.ResolvesToStoredRule` | services/rate_limiter_service.py:86-137 | the same read off the stored rules and their own types, priorities and signatures; the answer carries what the stored rule says |
| `Polling.NextKeeps` | core/scheduler.py:22-32 | every event keeps the cache a whole snapshot from within its poll, never an older one, and only a successful load changes it |
| `Polling.NeverBackwards` | core/scheduler.py:62-70 | between any two moments of a run the snapshot in the cache never gets older, and stays the same without a successful load |
| `Polling.PollsRefresh` | services/rules_loader.py:73-88 | after a poll that begins on an idle scheduler, reads the whole database and loads without failing, the cached rows are from then on one database state no older than its beginning, counted in the operations before it |
| `Polling.PollsEnd` | core/scheduler.py:22-32 | a poll that loads or fails leaves the scheduler ready for the next |
| `Polling.AnswersFromSnapshot` | services/rules_loader.py:73-88 | at every moment, answers come from one database state taken during the last successful poll, and a matched rule always builds a limiter |
| `Json.ReadsBack` | core/key_hasher.py:25-27 | for all Python strings the payload decodes back to the pairs it was made from with surrogate pairs joined, with the escapes of section 7 of RFC 8259 |
| `Json.RoundTripIff` | core/key_hasher.py:25-27 | it decodes back to the very pairs if and only if no string has a high surrogate followed by a low one |
| `Json.WriteInjective` | core/key_hasher.py:12-16 | two payloads are the same if and only if the pairs are, but for surrogate pairs joined |
| `Json.CodedInjective` | core/key_hasher.py:12-16 | different pairs of strings of Unicode characters never share a payload |
| `Json.EscapeIsShortest` | core/key_hasher.py:26-26 | every code point is written in the shortest way printable ASCII allows |
| `Json.HexTable` | core/key_hasher.py:26-26 | code units are written with lower-case hexadecimal digits |
| `Json.PayloadPrintable` | core/key_hasher.py:26-27 | the payload is printable ASCII, so its ASCII encoding cannot fail |
| `BucketKeys.PrepareCheck` | services/rate_limiter_service.py:193-227 | the validation loop, resolution, projection and fallback of check_rate_limit give the first invalid position, or the chosen limiter and key |
| `BucketKeys.ValidatedIff` | services/rate_limiter_service.py:193-202 | validation stops at the first refused value and puts each value before it in its normal form, under its type and in its place |
| `BucketKeys.ChosenIff` | services/rate_limiter_service.py:204-225 | the fallback serves exactly the requests that match nothing or a rule that does not build; a global rule and the fallback count by everything the request carries, any other rule by the values of its types |
| `BucketKeys.KeyParts` | services/rate_limiter/token_bucket.py:21-22 | keys are equal if and only if they belong to the same algorithm, namespace and caller identifier, with no assumption on the hash |
| `BucketKeys.KeySpelled` | services/rate_limiter/leaky_bucket.py:21-22 | a key is the prefix, the algorithm's name, the rule or the client's fallback and the identifier, joined by colons |
| `BucketKeys.ChosenSpace` | services/rate_limiter_service.py:64-76 | the namespace is a rule of the asking client and endpoint with the configuration its params build, or the client's own fallback |
| `BucketKeys.ClientsNeverShare` | services/rate_limiter_service.py:119-167 | no two clients produce the same key, for any requests, rules, defaults and hashes, from colon-free ids and rule ownership alone |
| `BucketKeys.ClientsNeverShareOverRuns` | services/rules_cache.py:102-107 | the same between any two moments of any serial run of the rule and group operations |
| `BucketKeys.TypeSetsNeverShare` | model/identifier.py:60-61 | callers with different sets of types never share an identifier, whatever the hash does |
| `BucketKeys.IdentifierIff` | model/identifier.py:54-63 | with no digest collision, callers share an identifier if and only if they carry the same pairs, in any order |
| `BucketKeys.IdentifierSpelled` | model/identifier.py:54-63 | the identifier is the types in the order of their names joined by plus signs, a colon, and the hash of the payload of the pairs in that order |
| `BucketKeys.SameBucketIff` | services/rate_limiter_service.py:211-225 | two requests matched to the same non-global rule share a key if and only if their values agree on the rule's types |
| `BucketKeys.GlobalBucketIff` | services/rate_limiter_service.py:218-221 | two requests matched to one global rule share a key if and only if they carry the same pairs |
| `BucketKeys.FallbackBucketIff` | services/rate_limiter_service.py:64-76 | two requests on a client's fallback, at whatever endpoints, share a key if and only if they carry the same pairs |
| `BucketKeys.KeyFixesConfig` | services/rate_limiter_service.py:139-167 | while the rules stand still, equal keys mean the same client, namespace and configuration |
| `Service.Independent` | services/rate_limiter_service.py:229-230 | a part of an interleaved run that shares no key with the rest sees the replies, and leaves the contents, of a run of its own |
| `Service.KeyWithinLimits` | services/rate_limiter/token_bucket.py:24-29 | in every interleaved run a key whose calls carry one configuration stays within the bound of its algorithm, for all five algorithms, all rates and all removals |
| `Service.ClientUnaffected` | services/rate_limiter_service.py:169-225 | a client's replies in any interleaved run over any instances are those it would get alone |
| `Service.BucketsWithinLimits` | services/rate_limiter_service.py:169-227 | while the rules stand still, every bucket of every interleaved run stays within the bound of its rule or fallback |
| `Deployment.CachedMoment` | services/rules_loader.py:73-88 | what any instance has cached at any moment, whenever it booted and however it polled, is the whole of one state of the serial run |
| `Deployment.ClientUnaffectedByChanges` | services/rate_limiter_service.py:169-225 | while operators change rules and groups and instances boot and poll independently, a client's replies are those it would get alone |
| `Deployment.BucketsWithinLimitsAcrossReloads` | services/rate_limiter_service.py:139-167 | across reloads and unequal caches, every bucket stays within the bound of its rule as long as that rule's version does not change, whatever happens to other rules |

## Left out

- Doubles: rounding of levels, rates and weights, and Redis's conversion of numbers to text; exact reals are used.
- Clocks that step backwards and parameters that change under a live key: no bound of the scripts claims to survive either.
- Deployment.BucketsWithinLimitsAcrossReloads: says nothing of a bucket while the version of its own rule changes, since its parameters may change then.
- Service.ClientUnaffected: each key sees only the algorithm named in it, so a script finding another type of value is not modelled as an error.
- BucketKeys.SameBucketIff: the truncated HMAC is a parameter, assumed not to collide on the two payloads compared; identifier values are strings of Unicode characters, lone surrogates being modelled in `Json` only.
- SlidingLog.LogKey.Check: members with equal scores keep arrival order here, Redis orders them by member; no output depends on it.
- FixedWindow.WindowKey.Check: a key past its deadline is always gone; only the deadline tick itself is left open.
- RulesIndex.RulesCache.LoadAll: `last_loaded_at`, the tie log and the lock are not modelled.
- RulesIndex.SerializeRule: the cached row names its algorithm but does not hold `algorithm_id`.
- RulesIndex.RulesCache.Resolve: the once-per-generation "missing component" warnings and a service without a cache are not modelled; the latter answers like an empty cache.
- BucketKeys.PrepareCheck: per-type validation and normalisation of values, including IP and CIDR forms, is a parameter.
- RuleParams.BuildConfigIff: a param is a number or something else; coercion of strings and booleans by the settings models is not modelled, and infinities do not occur.
- BucketSlope.SlopeIff: leaves open the least slope of a bucket of two or more tokens that earns more than capacity - 1 of them in every millisecond; it overflows between milliseconds and may stay below its rate. `BucketSlope.SlopeBounds` covers it one way.
- RuleServices.Store.UpdateOneGroup: when several members do not fit, the error of the first one read is reported; rows come in no fixed order, so the model has one error for all of them.
- RuleServices.Store.CreateOneGroup: group names are held in lower case, the form in which they are compared and indexed; descriptions and the created_by and updated_by columns are not modelled.
- Interleaving.Serializable: update_rule, detach_rule and move_to_group read before or without the lock, and delete_rule takes none; they are single steps in `RuleStore`, not part of the interleavings.
- Validity of a group's own base params: update_group checks only the merged params of its members, so the invariant states validity for rules.
- Algorithms are identified by their unique names and clients by their keys; the lookups by id and slug are not modelled.
- The clients cache and its poll, authentication, tokens and client secrets.
- Redis outages and the fail-open reply; Postgres and Redis sessions; logging; settings; the HTTP layer; listings and filters.
