# The deployment lock service, in Dafny

The service lets pull-request branches lock a project for deployment. Its state lives in one
distributed map that all requests, on all nodes, share. This project models the parts of the
service in which concurrency or state decide what callers may rely on, and proves what holds of
them over every run.

## How it is laid out

| file | about |
|---|---|
| `Model.dfy` | locks, timestamps |
| `Protocol.dfy` | the lock protocol as one state machine: any number of acquires, releases, gets and storage health checks, interleaved access by access on one map, with failing accesses, passing time and expiring entries; PutIfAbsent is either one step (`Atomic`, the store's contract) or a check and a later Put (`Split`, the store as written) |
| `Linearizability.dfy` | the machine against a sequential map from project to lock |
| `Exclusion.dfy` | when exactly a project has one holder at a time |
| `Reduction.dfy` | when the split protocol is the atomic one |
| `Race.dfy` | what survives the race, and the runs that show it |
| `Contention.dfy` | acquires of one free project among themselves; every call ends |
| `Reordering.dfy` | linearizability over every order of the answers |
| `Isolation.dfy` | projects do not influence each other; what removes a key |
| `Codec.dfy` | the stored text of a lock (RFC 8259, RFC 3339) and its reader |
| `Storage.dfy` | store, lock manager and storage health check as classes, each method shown to be one client of the protocol under arbitrary interference |
| `Names.dfy`, `Handlers.dfy` | name validation, the HTTP handlers, their counters |
| `LazyInit.dfy` | double-checked creation of the map's handle |
| `Join.dfy` | the wait for cluster members |
| `FanIn.dfy`, `Health.dfy`, `HealthCache.dfy` | CheckAll's fan-out and fan-in, the health manager and the startup probe, concurrent checks over the result cache |

A run is a sequence of actions; `Valid` says that it can be executed and `Exec` where it ends. The
main results are statements about every valid run. The classes of `Storage.dfy` let the rest of the
world change the map before each of their accesses and keep a log of the accesses they make;
`Storage.Follows` says that a log is the behaviour of one protocol client, and
`Storage.FollowingIsRunning` that such a client meets with the same answer inside a run of the
machine, `Storage.RunningIsFollowing` that every client of a run has such a log. What an answer means
is then said in terms of what the accesses found (`Storage.AcquireAnswers` and its neighbours). A call
refused for an empty name makes no access. `LazyInit.dfy` ties its class to its
machine in the same way.

## Where code and documentation differ

- The store's interface calls PutIfAbsent atomic (`internal/store/store.go:42-44`); the
  implementation is a Get followed by a Put (`internal/store/olric.go:335-350`). The model follows
  the implementation and proves the difference: with an atomic PutIfAbsent every run is
  linearizable; as written, a run is linearizable, by the order of its deciding steps, if and only
  if no Put hits a key that was meanwhile given to another lock (`Linearizability.Linearizable`). Without
  releases no other order helps, not even one that disregards real time
  (`Reordering.NoOrderIsBetter`); an overlapping release can (`Reordering.AReleaseCanReconcile`).
- So the lock as written does not exclude: in the runs of `Race.BothWin` any two callers are told
  that they hold one project. Exclusion holds of a run if and only if no Put in it replaces the lock of
  another branch or owner (`Exclusion.ExclusionIsExact`); `Race.TheRaceUsurps` places those runs
  on the wrong side of this, and `Reordering.TheRaceHasNoOrder` shows them linearizable in no order.
- The storage health check is meant to keep to itself, but its test key, `health-check-` and the
  clock (`internal/store/health.go:166`), is a name that the handlers accept for a project
  (`Names.TestKeysAreNames`). A check on a locked project's name removes the lock. A project
  stays locked, by whatever lock, through every run without a release of it if and only if no
  health check uses its name (`Isolation.ProjectStaysLockedExactly`). The lock itself stays if and
  only if, besides, no client stands between its check and its Put with another lock
  (`Isolation.LockSurvivesExactly`).
- The comment over the startup check speaks of all checks having passed; a check that is merely
  not ready leaves the status OK and the code 200 (`Health.CodeIgnoresOrder`).
- The status in the startup response depends on the order in which checks finish exactly when one
  is starting and another is in error (`Health.BodyDependsOnOrder`).

## Assumptions

- What is stated of a project is stated of one whose name no health check uses as its test key:
  `LocksOnly` and `NoChecksOn` say so of one project. Statements about all projects at once name a
  set of test keys (`Separated`, `KeepsApart`) and leave out the events on those keys only; a run
  from the empty store always has such a set (`Linearizability.EveryRunKeepsApart`). Lock clients
  may use any key.
- The Olric map is one linearizable map; an access that fails has no effect on it.
- "Key not found" is told apart from other errors in the same way everywhere.
- Clocks are parameters: the stamp of a new lock, and the readings of the health manager. Time does
  not run backwards.

## Model

| member | source | states |
|---|---|---|
| Protocol.WellTypedRun | internal/storage/storage.go:64-159 | over every run, a client's local state fits its request: it only ever stores a lock with its own project, branch and owner, succeeds only with a lock of its own branch and owner, and conflicts only with one of another |
| Protocol.StepIsLocal | internal/storage/storage.go:121 | an access changes no key but the one of the call that makes it |
| Linearizability.Linearizable | internal/store/olric.go:329-357 | the answers of a run, off the keys of its health checks and in the order of the deciding steps, are those of a sequential map from project to lock if and only if no Put in it replaces another lock; the locks left in the store are that map's |
| Linearizability.AtomicLinearizable | internal/store/store.go:42-45 | with PutIfAbsent atomic, every run of any number of calls simulates the sequential map, on all projects that are not its health checks' test keys |
| Linearizability.StepIsLegal | internal/storage/storage.go:81-158 | each step that settles an answer is one legal operation of the sequential map exactly when it is not a clashing Put |
| Linearizability.StepChangesView | internal/storage/storage.go:81-158 | a step changes the stored locks as its operation does, and a step without an answer, or with an error, changes none |
| Linearizability.EveryRunKeepsApart | internal/store/health.go:166 | from the empty store every run fits the two statements above, the keys of its own health checks being the ones left out |
| Linearizability.OneEventPerCall | internal/storage/storage.go:82-158 | every answered call takes effect at exactly one of its own steps, with its own answer; a failed one at none |
| Linearizability.RealTimeOrder | internal/storage/storage.go:64-218 | a call answered before another is invoked takes effect before it |
| Exclusion.LegalHistoriesExclude | internal/storage/storage.go:88-104 | in a legal history two wins of one project by different branches or owners, the first holder included, have a release of that project strictly between them |
| Exclusion.ExclusionIsExact | internal/storage/storage.go:106-150 | the same holds of a run, in either version and from any state, if and only if no Put in it replaces the lock of another branch or owner |
| Exclusion.MutualExclusion | internal/store/store.go:42-45 | so it holds of every run with PutIfAbsent atomic |
| Exclusion.TwoHoldersNeedARelease | internal/storage/storage.go:126-185 | as callers see it: two told that they hold one project imply a third told that it released it, its release falling strictly between the two wins |
| Reduction.Refines | internal/store/olric.go:329-357 | a split run whose Puts overwrite nothing becomes, by dropping the passed checks, an atomic run with the same clients, answers, events and store |
| Reduction.ReductionIsExact | internal/store/olric.go:335-350 | the atomic protocol keeps in step with a split run all along if and only if no Put overwrites |
| Reduction.ClearWindowsNeverOverwrite | internal/store/olric.go:335-350 | if between a client's check and its Put no other Put lands on its key, no Put overwrites; deletes in the window are harmless |
| Reduction.ClearWindowsRefine | internal/storage/storage.go:59-63 | such a run has an atomic counterpart with the same answers and the same store, and is linearizable on all projects that are not its health checks' test keys |
| Reduction.ClearWindowsExclude | internal/storage/storage.go:126-150 | for the store as written, with clear windows: two wins of one project by different holders have a release strictly between them |
| Race.WindowDrains | internal/store/olric.go:335-356 | while a key stays present, the clients between check and Put only leave: their number then equals those left, plus the Puts made, plus the Puts failed |
| Race.HolderIsStable | internal/store/olric.go:335-356 | once no client with another lock is in the window of a held project, its stored lock is unchanged until a release of it, in either version |
| Race.BothWin | internal/storage/storage_test.go:286-289 | for every project and every two callers of different branches or owners, a run of the store as written from the empty store in which both are told that they hold it |
| Race.TheRaceUsurps | internal/store/olric.go:335-350 | each of those runs breaks mutual exclusion, and has a Put that replaces the other caller's lock |
| Reordering.NoOrderIsBetter | internal/store/olric.go:329-357 | for a run without releases, off the keys of its health checks: some order of its answers, even against real time, is one of the sequential map if and only if no Put clashes, and then the order of the deciding steps is |
| Reordering.ClashNeedsARelease | internal/store/olric.go:335-350 | a run with a clashing Put has a project whose answers fit no order at all unless it is released |
| Reordering.RivalsFitNoOrder | internal/storage/storage.go:106-150 | two callers told that they hold one project, with no call to release anything: the answers fit no order |
| Reordering.TheRaceHasNoOrder | internal/storage/storage_test.go:286-289 | the runs of the race are linearizable in no order |
| Reordering.AReleaseCanReconcile | internal/storage/storage.go:163-185 | with releases open beside the race, a run with a clashing Put whose answers do fit an order |
| Contention.ContentionResolves | internal/storage/storage_test.go:247-311 | any interleaving of acquires of one free project, in either version: each ended call is success or conflict, the stored lock was written by a client told it holds it, and a conflict names a lock so written, of another branch or owner |
| Contention.SomeoneWins | internal/storage/storage_test.go:290-299 | as soon as one contender has ended, one has succeeded |
| Contention.CallsEnd | internal/storage/storage.go:82-158 | a call that has not returned can always go on, and all calls together return within a bound on their actions |
| Isolation.Projects | internal/storage/storage.go:121-175 | leaving out all other keys gives a run of one key with the same clients, answers, events and entry |
| Isolation.ProjectRunsAlone | internal/store/health.go:166-205 | for a project that is no test key, that run contains no health check |
| Isolation.OnlyReleaseUnlocks | internal/store/store.go:12-15 | a lock being stored without a time to live, a project stays locked, perhaps by another lock, until a release of it or a health check under its name |
| Isolation.CheckUnlocks | internal/store/health.go:166-202 | a health check under a project's name, going on to its end, leaves that project without a lock and tells no caller |
| Isolation.ProjectStaysLockedExactly | internal/store/health.go:166-205 | with health checks confined to a set of keys, a locked project stays locked, by whatever lock, through every run without a release of it if and only if its name is not in the set and no check under way uses it |
| Isolation.LockSurvivesExactly | internal/store/olric.go:335-356 | the stored lock itself stays through every such run if and only if, besides, no client in the window of the project would put another lock; in either version |
| Isolation.TestKeyExpires | internal/store/health.go:170-208 | five seconds after its Put a test key is gone, whether or not the check cleaned up |
| Isolation.HealthCheckIsInvisible | internal/store/health.go:161-209 | in any run, none of a health check's actions changes any key but its own, whichever of its accesses fail |
| Codec.TimeRoundTrip | internal/model/lock.go:16-17 | a printed timestamp reads back as the same wall-clock reading |
| Codec.StringRoundTrip | internal/storage/storage.go:115 | a string of any characters, written as a JSON string, reads back as itself |
| Codec.LockRoundTrip | internal/storage/storage.go:115-121 | the stored text of a lock reads back as that lock |
| Codec.MarshalLayout | internal/model/lock.go:9-23 | the stored text has the four members under their names, in their order |
| Codec.TimeLayout | internal/model/lock.go:16-17 | a printed timestamp has year, month, day, hour, minute, second and zone, digit by digit, at their places, and a fraction only if it has nanoseconds |
| Codec.FractionLayout | internal/model/lock.go:16-17 | the fraction is the nine digits of the nanoseconds, cut after the last that is not 0 |
| Codec.EscapeTable | internal/storage/storage.go:115 | which characters of a string are written with a short escape, which by four hexadecimal digits, and which as they are |
| Codec.PlainQuote | internal/storage/storage.go:115 | a string without such characters stands in the text as it is |
| Codec.HolderTestIsExact | internal/storage/storage.go:207-217 | after a round trip the branch/owner test decides equality of the original pair; different locks have different texts |
| Storage.FollowingIsRunning | internal/storage/storage.go:64-185 | a client that makes the logged accesses inside any run of the protocol comes to the logged answer and leaves the store the same at each access |
| Storage.RunningIsFollowing | internal/storage/storage.go:64-185 | conversely, in any run the accesses of a client that has ended are those of one call with that answer |
| Storage.AcquireAnswers | internal/storage/storage.go:81-158 | the answer of an acquire, exactly, by what its one to three accesses found: its own pair means success, another's conflict, and an error, an undecodable text or a vanished lock failure; only a Put after a check that found nothing changes the store |
| Storage.AcquireMeans | internal/storage/storage.go:88-158 | success means that the caller's own branch and owner hold the project when the last access is over, conflict that another pair does |
| Storage.ReleaseAnswers | internal/storage/storage.go:163-185 | a release is answered Released exactly if its delete goes through |
| Storage.GetAnswers | internal/storage/storage.go:189-218 | a get finds exactly the lock that is there, nothing if nothing is there, and fails otherwise |
| Storage.HealthyExactly | internal/store/health.go:166-209 | a storage health check is healthy if and only if its Put and its Get go through and the Get finds the test value, which was stored for five seconds; the delete has no say |
| Storage.HealthyInRuns | internal/store/health.go:166-209 | the same of every health check that has ended in a run |
| Storage.WorkingStoreIsHealthy | internal/store/health.go:166-209 | so a check that meets no failure and nobody between its Put and its Get is healthy |
| Storage.OlricStore.Put | internal/store/olric.go:248-258 | stores the value under the key, expiring after the ttl if that is positive, and nothing else; a failed Put changes nothing |
| Storage.OlricStore.Get | internal/store/olric.go:261-279 | reports what is stored, its absence or a failure, and changes nothing |
| Storage.OlricStore.Delete | internal/store/olric.go:294-307 | removes the key and succeeds also when it was absent |
| Storage.OlricStore.PutIfAbsent | internal/store/olric.go:329-357 | stores and reports true only after a check that found nothing, with anything possible between check and Put |
| Storage.OlricLockManager.GetLock | internal/storage/storage.go:189-218 | found, not found or failed, by what is stored under the project; one access, none for an empty name |
| Storage.OlricLockManager.AcquireLock | internal/storage/storage.go:64-159 | makes exactly the accesses of one acquire of the protocol and gives its answer, under arbitrary interference; a success names a lock of the caller's pair, a conflict one of another, and either is in the store after the last access; exactly an empty name makes no access, and fails |
| Storage.OlricLockManager.StoreLock | internal/storage/storage.go:106-158 | the part of it from PutIfAbsent on, with the get after a lost race |
| Storage.OlricLockManager.ReleaseLock | internal/storage/storage.go:163-185 | makes exactly the access of one release of the protocol, whatever branch and owner; Released exactly if the delete went through |
| Storage.StorageHealthChecker.Check | internal/store/health.go:152-210 | makes exactly the accesses of one health check of the protocol; healthy if and only if its Put and its Get went through and the Get found the test value |
| Storage.StorageHealthChecker.ReadBack | internal/store/health.go:177-199 | healthy if and only if the read goes through and finds the test value |
| Storage.Serialize | internal/storage/storage.go:115-118 | the stored text means the lock to its readers |
| Names.TrimSplits | internal/handlers/lock.go:79-80 | trimming removes only white space, from both ends, and all of it |
| Names.SpaceIs | internal/handlers/lock.go:79-80 | the characters that trimming removes, one by one |
| Names.TrimIsIdempotent | internal/handlers/lock.go:50 | the second trim, inside the validation, changes nothing |
| Names.NameIs | internal/handlers/lock.go:18-24 | a name is 1 to 256 characters, each a letter, a digit, `_`, `/` or `-` |
| Names.AcceptedExactly | internal/handlers/lock.go:44-61 | a trimmed input is accepted if and only if it is a name |
| Names.PaddingIsIgnored | internal/handlers/lock.go:78-91 | inputs that differ only in surrounding white space are accepted alike and name one project |
| Names.TestKeysAreNames | internal/store/health.go:166 | a health check's test key is itself a name that the handlers accept |
| Handlers.AcceptedIsNotRefused | internal/storage/storage.go:65-73 | for an accepted request the manager's empty-name errors are unreachable |
| Handlers.LockHandlers.HandleLock | internal/handlers/lock.go:69-117 | a bad request is 400 and does not reach the store; any other is one acquire under the trimmed names: 200 exactly on success, with a lock of the caller's branch and the fixed owner that the last access left in the store, 409 exactly on conflict, with one of another pair, and 500 otherwise; counted as success, conflict and failure |
| Handlers.LockHandlers.HandleUnlock | internal/handlers/lock.go:124-165 | a bad request is 400 and does not reach the store; any other is one release under the trimmed project: 200 exactly if its delete went through, else 500 |
| Handlers.LockHandlers.HandleGetLock | internal/handlers/lock.go:173-203 | a bad name is 400; any other is one get under the trimmed project: 200 with the stored lock, 404 if there is none, and 500 on a failure or an undecodable text, the first two counted as success |
| Handlers.LockHandlers.RecordMetric | internal/handlers/lock.go:232-236 | counts the request under its label and no other, whatever its code, and nothing with metrics off |
| Handlers.LockHandlers.Conserved | internal/handlers/lock.go:69-203 | an operation's counters sum to the number of its requests handled; only locks conflict |
| LazyInit.CreatedOnce | internal/store/olric.go:217-245 | for any number of threads NewDMap succeeds at most once, every call answered with a handle has that one, and until then the field is unset and ended calls have failed |
| LazyInit.FieldIsFinal | internal/store/olric.go:228-239 | the field never changes once set |
| LazyInit.NoRace | internal/store/olric.go:218-239 | no write of the field coincides with a read or another write |
| LazyInit.NoDeadlock | internal/store/olric.go:218-226 | while a call has not returned some thread can go on, though a Lock that waits for readers keeps new readers out |
| LazyInit.Retry | internal/store/olric.go:234-237 | after failed creations a later call can still create the handle and return it |
| LazyInit.LeadingIsRunning | internal/store/olric.go:217-245 | a thread that meets the field as a call's statements did, in any run of the machine, comes to the same end with the same effects |
| LazyInit.FieldStaysInside | internal/store/olric.go:218-226 | while a thread is inside the lock, shared or exclusive, no other changes the field |
| LazyInit.LazyDMap.GetDMap | internal/store/olric.go:217-245 | executes exactly the statements of one thread of the machine, other callers acting outside the lock, and returns what that thread returns: the field, a set field being kept, or none after a failed creation |
| Join.Config.Validate | internal/store/config.go:152-253 | accepts exactly the configurations with usable addresses and ports, known modes and log level, positive intervals and attempts, quorum 1 for a single node, and two replicas with other nodes |
| Join.ErrorIsReal | internal/store/config.go:152-253 | a reported error is one that the configuration has |
| Join.WaitForCluster | internal/store/olric.go:167-214 | ends at the first answer that reaches the quorum, at the first cancellation, or at the last attempt with its count, a failed query counting 0; never later than the attempts allow |
| Join.WaitIsExact | internal/store/olric.go:178-213 | a validated, uncancelled multi-node wait succeeds if and only if some query within the attempts is answered with the quorum, and gives up only after exactly that many queries, with the last answer or 0 |
| Join.WaitIsDetermined | internal/store/olric.go:178-213 | the polls decide the result and the round it comes in |
| Join.SingleNodeAgrees | internal/store/config.go:239-258 | a validated single node needs one member, so its immediate return is what the loop would come to |
| FanIn.SendsNeverBlock | internal/health/manager.go:72-83 | the channel stays within its capacity and no worker waits to send |
| FanIn.NothingSentAfterClose | internal/health/manager.go:87-90 | after the close nothing is sent, and all has been |
| FanIn.SomethingIsEnabled | internal/health/manager.go:76-95 | no deadlock before the collector ends |
| FanIn.CollectsEachOnce | internal/health/manager.go:70-98 | every run ends after exactly 4n + 2 actions with one result of each checker, up to order |
| Health.Manager.RegisterChecker | internal/health/manager.go:40-50 | registers the checker under its name and remembers the two special ones |
| Health.Manager.SetServersRunning | internal/health/manager.go:53-60 | sets the flag in both checkers and leaves the shutdown flag alone |
| Health.Manager.SetShuttingDown | internal/health/manager.go:63-67 | sets the shutdown flag and leaves the other alone |
| Health.Manager.GetCachedResult | internal/health/manager.go:123-134 | the cached result exactly if there is one and it has not expired |
| Health.Manager.CacheResult | internal/health/manager.go:137-145 | replaces the entry of that name, expiring one cache duration from now |
| Health.Manager.RunCheck | internal/health/manager.go:101-120 | an unexpired cached result, with the cache left alone, or else what the checker's flags say, which is then cached |
| Health.Manager.GetReadinessStatus | internal/health/manager.go:189-209 | ready exactly on an OK result: the cached one if it has not expired, else OK exactly if the servers run and the service is not shutting down; ready without a readiness checker |
| Health.ReadinessChecker.Check | internal/health/checker.go:99-124 | OK exactly if the servers run and the service is not shutting down, else not ready |
| Health.ServerChecker.Check | internal/health/checker.go:39-60 | OK exactly if the servers run, else starting |
| Health.GetStartupStatus | internal/health/manager.go:148-177 | the loop's response is the one of which the next two rows speak |
| Health.AlarmIsLast | internal/health/manager.go:159-174 | the status is that of the last check that is starting or in error, OK without one |
| Health.LastUnderName | internal/health/manager.go:159-160 | the entry under a name is the status of the last check of that name, and there is none without one |
| Health.CodeIgnoresOrder | internal/server/routes.go:58-69 | the code is the same for every order of the results, 200 exactly when none is starting or in error and else 503 |
| Health.BodyDependsOnOrder | internal/health/manager.go:159-174 | the body's status is the same for every order if and only if not both starting and error occur |
| Health.ChecksAreTheResults | internal/health/manager.go:154-160 | one entry per check, under its name and with its status |
| Health.ProbeIgnoresScheduling | internal/health/manager.go:148-149 | the same results give the same code under every interleaving of CheckAll |
| Health.ProbeReportsEveryCheck | internal/health/manager.go:148-160 | the entries of the response are exactly the registered names, each with its checker's answer |
| HealthCache.UndisturbedCall | internal/health/manager.go:101-120 | an undisturbed call of the concurrent model is the sequential runCheck |
| HealthCache.CheckFinds | internal/health/checker.go:39-124 | a check finds what the flags say at that moment |
| HealthCache.NotReadyBeforeRunning | internal/health/manager.go:53-60 | in no run is a readiness or server check answered OK before its flag has been set, cache or not |
| HealthCache.StoredIsServedExactly | internal/health/manager.go:122-145 | in any run, with no other store of the name in between, a lookup is answered with a stored result if and only if less than a cache duration has passed since the store, and else the check runs again |
| HealthCache.ReadyEndsInTime | internal/health/manager.go:101-145 | once shutting down, and once every check that found the service ready has stored its result, no lookup one cache duration later leads to Ready |
| HealthCache.ReadyCanLinger | internal/health/manager.go:122-145 | one tick earlier it still can: the bound is tight |
| HealthCache.ProbeIsRecent | internal/health/manager.go:70-160 | CheckAll over the cache, in any interleaving with other calls: the response has exactly the registered names, each status found by the probe's own check or stored less than a cache duration before the probe looked |
| HealthCache.AnswersAreRecent | internal/health/manager.go:100-145 | every answer carries its checker's name and was stored by its own call after the lookup, or by some call less than a cache duration before the lookup; a zero duration never answers from the cache |

## Left out

- Olric itself (replication, partitions, quorum reads, gossip): its map is taken to be one linearizable map.
- Accesses that fail for the caller but take effect in the store: a failed access is taken to have none.
- Codec.LockRoundTrip: the reader accepts the layout that the writer produces; other member orders, white space between tokens, and surrogate escapes, which a JSON decoder also reads, are not modelled.
- Years after 9999, for which serialising a timestamp fails, are outside the timestamp type.
- Storage.OlricStore.PutIfAbsent: getDMap's own failure is one more way for its first access to fail, and `Exists`, `Ping`, `Stats` and `Close` are not modelled.
- Handlers.LockHandlers.HandleLock: reading the request is reduced to a body that decodes or does not, and messages in responses are dropped.
- Join.Config.Validate: what parses as an IP address is a parameter, messages are dropped, and which of several errors is reported first is not stated.
- Health.Manager.RunCheck: check timeouts; a checker that runs into one reports it as its own status.
- The connection and cluster health checks: each is one comparison on an outside answer, here an `External` checker.
- Server start and shutdown: a fixed handful of goroutines; the points where they set the health flags are actions of `HealthCache`, and flags are only ever set to true there.
- HTTP servers, routing, TLS, configuration loading, logging, Prometheus registration and the collectors: wrappers around libraries.
