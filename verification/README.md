# Round-robin load balancer: backend pool and dispatch

This project models the in-memory core of a small round-robin HTTP load
balancer (`LoadBalancerServer` in `src/loadBalancer/lb.ts` and
`BackendServerDetails` in `src/loadBalancer/be-details.ts`) as sequential
state transitions, and proves properties of it in Dafny.

The load balancer has these parts:

- a fixed list of registered backend servers. Each has a URL, a count of
  requests it has served, and a health status (HEALTHY or UNHEALTHY).
- a pool of healthy servers (`healthyServers`).
- a round-robin cursor (`indexOfServer`).
- the `/` handler. It picks `healthyServers[indexOfServer % length]`,
  advances the cursor, forwards the request, and counts it if the forward
  succeeded.
- a periodic health check. It probes every backend, writes the statuses, and
  patches the pool in place: a healthy backend missing from the pool is
  appended with its count reset, and an unhealthy backend is spliced out.
  Both lookups are by URL.
- a simpler initial health check, run once at start-up.

The files:

- `enums.dfy` holds `Health`, `SchedulingAlgorithm` and `Option`.
- `seqs.dfy` holds JavaScript's `indexOf` and `splice(k, 1)` on sequences.
- `cyclic.dfy` holds the cursor arithmetic. `Wrap` reduces a cursor below
  the pool length by repeated subtraction, and `WrapIsMod` proves that this
  is the `%` the source uses.
- `be_details.dfy` holds the backend record, its accessors, `ping`, and the
  counter's history.
- `lb.dfy` holds the load-balancer state, construction, `getBackendServer`,
  the `/` handler, and the two health-check passes. Each pass is written as a
  fold over the probe results, one step per loop iteration.
- `health_check_proofs.dfy` describes what a health-check pass computes. It
  does this without the loop: surviving pool entries, then newcomers. The
  loop invariant is the predicate `Stage`.
- `dispatch_proofs.dfy` holds round-robin fairness over consecutive
  requests. `Schedule` is a reference round-robin, defined without the
  load-balancer state. Runs of requests are proved to follow it, and the
  fairness facts are proved about it.
- `invariants.dfy` holds the state invariant, which says a backend is pooled
  exactly when it is HEALTHY, the pool has no duplicates, and counts are
  non-negative. It also holds pool ordering and start-up.

The pool holds positions in the backend list. In the source it holds
references to the same objects as the backend list. A count reset or status
write is therefore visible through both, exactly as in the source. The source
looks backends up in the pool by URL; the model does the same (`PoolUrls`
and `IndexOf`). `UrlLookup` proves that, when URLs are distinct, this finds
the same position as looking up the backend itself.

## Model

| member | source | states |
|---|---|---|
| BackendDetails.NewBackend | src/loadBalancer/be-details.ts:32-42 | a new backend has the given URL and count 0, and is UNHEALTHY unless a status is supplied |
| BackendDetails.PingUrl | src/loadBalancer/be-details.ts:40 | the probe URL is the backend URL followed by `ping` |
| BackendDetails.PingUrlInjective | src/loadBalancer/be-details.ts:40 | backends with different URLs are probed at different URLs |
| BackendDetails.ResetCount | src/loadBalancer/be-details.ts:44-47 | the count becomes 0; URL and status are unchanged |
| BackendDetails.IncrementCount | src/loadBalancer/be-details.ts:48-51 | the count rises by exactly 1 and the new value is returned; URL and status are unchanged |
| BackendDetails.SetStatus | src/loadBalancer/be-details.ts:62-68 | `getStatus` after `setStatus(s)` returns `s`; URL and count are unchanged |
| BackendDetails.Ping | src/loadBalancer/be-details.ts:52-61 | `ping` is total: a response yields its status code, any rejection (error or abort) yields 500 |
| BackendDetails.PingHealthyIff | src/loadBalancer/be-details.ts:52-61 | a ping reads as 200 exactly when the backend answered 200; a rejection never does |
| BackendDetails.CountHistory | src/loadBalancer/be-details.ts:44-51 | after increments and resets, the count is the number of increments since the last reset, or the old count plus all increments if there was no reset |
| BackendDetails.CountNonNegative | src/loadBalancer/be-details.ts:38-51 | from construction, no sequence of increments and resets makes the count negative |
| LoadBalancer.Register | src/loadBalancer/lb.ts:46-49 | one backend per configured URL, in order, each with count 0 and UNHEALTHY |
| LoadBalancer.Create | src/loadBalancer/lb.ts:20-49 | the constructor registers the three configured URLs with distinct URLs, an empty pool and cursor 0 |
| LoadBalancer.GetBackendServer | src/loadBalancer/lb.ts:94-101 | with a non-empty pool, the choice is the entry at the cursor reduced below the pool length, and it is always a pooled, registered backend; with an empty pool there is no choice |
| LoadBalancer.HttpStatus | src/loadBalancer/lb.ts:56-72 | the handler answers 200 exactly for a successful forward and 500 otherwise |
| LoadBalancer.Dispatch | src/loadBalancer/lb.ts:56-72 | empty pool: 500 and nothing changes. Otherwise the entry at the reduced cursor is chosen and the cursor becomes cursor+1 reduced. Only on a successful forward does the chosen count rise by 1. Pool, URLs and statuses never change |
| Cyclic.WrapIsMod | src/loadBalancer/lb.ts:97-98 | reducing by repeated subtraction gives the same value as the `%` the source writes |
| Cyclic.ModShift | src/loadBalancer/lb.ts:61-62 | reducing the cursor before stepping on does not change where it lands |
| DispatchProofs.NextSelection | src/loadBalancer/lb.ts:56-62 | one request chooses `pool[cursor % length]` and sets the cursor to `(cursor + 1) % length`. That cursor is in bounds and names the next entry, even if the pool shrank before the request |
| DispatchProofs.RunRepliesFollow | src/loadBalancer/lb.ts:56-69 | consecutive requests against an unchanged pool get exactly the replies of the reference round-robin schedule |
| DispatchProofs.RunCursorFollows | src/loadBalancer/lb.ts:61-62 | consecutive requests against an unchanged pool leave the cursor where the reference schedule's position ends |
| DispatchProofs.ScheduleAt | src/loadBalancer/lb.ts:97-98 | in the reference schedule, the k-th request goes to the entry k places after the start, wrapping around |
| DispatchProofs.ScheduleAtMod | src/loadBalancer/lb.ts:56-61 | in the reference schedule, the k-th request goes to `pool[(start + k) % length]` |
| DispatchProofs.AdvanceWraps | src/loadBalancer/lb.ts:61-62 | after k > 0 requests the schedule's position is k places after the start, wrapping around |
| DispatchProofs.RoundRobinOrder | src/loadBalancer/lb.ts:56-62 | the k-th of consecutive requests goes to `pool[(cursor + k) % length]`, and is a successful forward exactly when that forward succeeds; after k requests the cursor is `(cursor + k) % length` |
| DispatchProofs.ScheduleRound | src/loadBalancer/lb.ts:56-62 | a round of the schedule as long as the pool visits the pool rotated to start at the reduced cursor: a permutation of the pool |
| DispatchProofs.RoundRobinRound | src/loadBalancer/lb.ts:56-62 | N consecutive requests on a pool of N serve the pool rotated to start at `cursor % N`, so each entry is served exactly once |
| DispatchProofs.RoundRobinRepeats | src/loadBalancer/lb.ts:56-62 | request N+1 goes to the same backend as the first |
| DispatchProofs.RunCounts | src/loadBalancer/lb.ts:61-69 | over consecutive requests, each count rises by the number of successful forwards to that backend; failed forwards count nothing |
| DispatchProofs.ScheduleEvenLoad | src/loadBalancer/lb.ts:56-66 | in a round of successful requests over a duplicate-free pool, each pooled backend is served once and any other backend never |
| DispatchProofs.EvenLoad | src/loadBalancer/lb.ts:56-66 | N successful requests on a duplicate-free pool of N raise each pooled backend's count by exactly 1 and no other count |
| DispatchProofs.EmptyPoolRun | src/loadBalancer/lb.ts:56-58 | with an empty pool every request gets the 500 reply, and neither the cursor nor any count changes |
| Seqs.IndexOf | src/loadBalancer/lb.ts:150-153 | `indexOf`: -1 exactly when the value is absent; otherwise a position holding the value with no earlier occurrence |
| Seqs.RemoveAt | src/loadBalancer/lb.ts:165-167 | `splice(k, 1)`: one element shorter, entries before `k` kept, entries after it shifted down by one, and exactly one copy of the removed value lost |
| Seqs.RemoveFirstCons | src/loadBalancer/lb.ts:162-167 | removing the first occurrence of a value from a sequence headed by another value removes it from the tail |
| Seqs.RemoveKeepsDuplicate | src/loadBalancer/lb.ts:165-167 | a value that occurs twice still occurs after any one element is spliced out |
| LoadBalancer.PoolUrls | src/loadBalancer/lb.ts:151-152 | `map((server) => server.url)`: one URL per pool entry, the URL of the backend at that entry |
| LoadBalancer.CheckOne | src/loadBalancer/lb.ts:137-168 | one loop iteration keeps the state well-formed: every pool entry names a registered backend and the backend list keeps its length. What it does to the probed backend is stated in `CheckOneEffect`, and what it does to the pool in `CheckOnePoolShape` |
| LoadBalancer.CheckOneEffect | src/loadBalancer/lb.ts:137-168 | one iteration touches only the probed backend: the URL stays, the status follows the probe, and the count is kept or reset to 0. Cursor and algorithm unchanged |
| LoadBalancer.CheckFrom | src/loadBalancer/lb.ts:136-169 | the loop from position i leaves the first i backends alone and gives each later backend the status its probe stands for, keeping its URL. Cursor and algorithm unchanged |
| LoadBalancer.PerformHealthCheck | src/loadBalancer/lb.ts:122-174 | a pass keeps the state well-formed, gives every backend the status its probe stands for, and keeps URLs, cursor and algorithm. Counts and the pool are stated in `HealthCheckOutcome` |
| LoadBalancer.InitialOne | src/loadBalancer/lb.ts:192-198 | one step of the initial check sets the backend's status from its probe, keeps its URL and count, touches no other backend, and appends it to the pool exactly when the probe returned 200 |
| LoadBalancer.InitialFrom | src/loadBalancer/lb.ts:192-199 | the initial check from position i only appends to the pool; cursor and algorithm unchanged |
| LoadBalancer.PerformInitialHealthCheck | src/loadBalancer/lb.ts:186-207 | the initial check keeps the state well-formed and only appends to the pool. Statuses, counts and the appended entries are stated in `InitialHealthCheckOutcome` |
| HealthCheckProofs.UrlLookup | src/loadBalancer/lb.ts:150-164 | with distinct URLs, searching the pool by URL finds the same position as searching it by backend |
| HealthCheckProofs.CheckOnePoolShape | src/loadBalancer/lb.ts:150-167 | with distinct URLs, one iteration appends the probed backend when it answers 200 and is not pooled, splices out its entry when it fails and is pooled, and otherwise leaves the pool alone |
| HealthCheckProofs.SurvivorsDrop | src/loadBalancer/lb.ts:162-167 | a failing probe for a pooled backend splices out exactly that entry |
| HealthCheckProofs.CheckOneStage | src/loadBalancer/lb.ts:136-168 | one loop iteration keeps the loop invariant: reconciled prefix, untouched suffix, pool = survivors followed by newcomers |
| HealthCheckProofs.CheckFromStage | src/loadBalancer/lb.ts:136-169 | the whole loop establishes the invariant at the end |
| HealthCheckProofs.HealthCheckOutcome | src/loadBalancer/lb.ts:122-170 | each status follows its probe; a count is reset exactly when the probe is 200 and the backend was not pooled, and every other count is kept. The new pool is the old entries whose probe is 200, in their old order, then the newly healthy backends in registration order. Cursor unchanged |
| HealthCheckProofs.HealthCheckPool | src/loadBalancer/lb.ts:146-168 | after a check, the pool holds exactly the backends whose probe returned 200, each once, and a backend is HEALTHY exactly when its probe returned 200 |
| HealthCheckProofs.InitialHealthCheckOutcome | src/loadBalancer/lb.ts:186-199 | the initial check writes every status from its probe, leaves counts and URLs alone, and appends the backends whose probe returned 200, in registration order |
| PoolInvariants.CreateInvariant | src/loadBalancer/lb.ts:40-49 | the constructed state satisfies the invariant |
| PoolInvariants.StartupInvariant | src/loadBalancer/lb.ts:186-199 | the initial check on the constructed state pools exactly the backends whose probe returned 200, in registration order, keeps all counts at 0, and establishes the invariant |
| PoolInvariants.InitialCheckDuplicates | src/loadBalancer/lb.ts:192-196 | the initial check does not look at the pool, so run on a pool that already holds a healthy backend, it pools that backend twice |
| PoolInvariants.DuplicateSurvivesFailure | src/loadBalancer/lb.ts:158-167 | when the pool holds a backend twice, a failing probe turns it UNHEALTHY but splices out only one copy, so it stays pooled and can still be chosen |
| PoolInvariants.DispatchInvariant | src/loadBalancer/lb.ts:56-72 | a request keeps the invariant |
| PoolInvariants.HealthCheckInvariant | src/loadBalancer/lb.ts:136-169 | a health check on a duplicate-free pool establishes the invariant, whatever the statuses were before |
| PoolInvariants.ResetOnRecovery | src/loadBalancer/lb.ts:146-157 | under the invariant, a count is zeroed exactly when an UNHEALTHY backend answers 200; a backend that stays HEALTHY keeps its count |
| PoolInvariants.HealthCheckOrder | src/loadBalancer/lb.ts:150-167 | the new pool splits into a prefix and a suffix. The prefix is the old pool's surviving entries in their old relative order, all answering 200. The suffix holds newcomers not previously pooled, in increasing registration order |
| PoolInvariants.AllProbesFail | src/loadBalancer/lb.ts:158-168 | if every probe fails, the pool becomes empty and every later request gets the 500 reply |
| PoolInvariants.PatchedPoolOrder | src/loadBalancer/lb.ts:150-157 | because the pool is patched in place, it need not follow registration order: pool [1] with all probes 200 becomes [1, 0, 2] |

## How the code behaves

- The health check patches the pool in place. It appends newly healthy
  backends and splices out failing ones. The pool after a pass is the old
  survivors followed by the newcomers (`HealthCheckOutcome`). This need not
  be registration order: pool [1] with every probe answering 200 becomes
  [1, 0, 2] (`PatchedPoolOrder`).
- A count is reset when the backend answers 200 and its URL is missing from
  the pool. Under the invariant, pooled and HEALTHY coincide. The reset
  therefore happens exactly when an UNHEALTHY backend answers 200
  (`ResetOnRecovery`). Construction, dispatch and the periodic check keep
  the invariant (`CreateInvariant`, `DispatchInvariant`,
  `HealthCheckInvariant`). The initial check establishes it only from the
  constructed state (`StartupInvariant`). On a pool that already holds a
  backend answering 200, it breaks the invariant (`InitialCheckDuplicates`).
- With an empty pool, the `/` handler answers 500, the same status as a
  failed forward (`HttpStatus`, `Dispatch`, `EmptyPoolRun`).
- The constructor starts every backend UNHEALTHY (`NewBackend`, `Register`).
  Only HEALTHY and UNHEALTHY are ever written.

## Left out

- HTTP I/O: the Express app, the listener and the EADDRINUSE/EACCES port
  fallback. This is transport, not pool logic.
- The axios calls: the outcome of a forward is a boolean input to
  `Dispatch`, and the outcome of a probe is a `ProbeOutcome` input to
  `Ping`. Which HTTP statuses the client delivers and which it rejects is
  the client's decision. The response body that is forwarded is not
  modelled.
- Timers and cancellation (`setInterval`, `clearInterval`, the
  `AbortController`, `closeServer`) and the `Promise.all` fan-out. These
  decide when the steps run, not what they compute. The health checks take
  one precomputed status code per backend.
- Interleaving. In the source, a request awaits its forward between
  choosing a backend and counting it, and a health check may run in that
  gap. The model treats each request and each health-check pass as one
  atomic step.
- The start-up race. The constructor starts the timer (src/loadBalancer/lb.ts:91)
  without awaiting the initial check (src/loadBalancer/lb.ts:73 and :190),
  so a periodic pass (src/loadBalancer/lb.ts:114) can finish first. The initial check
  then appends to a non-empty pool, and a backend that answers 200 sits in
  the pool twice (`InitialCheckDuplicates`). From then on the pool breaks
  the duplicate-free invariant. Each failing probe removes only one copy,
  because the splice removes the first URL match, so the UNHEALTHY backend
  stays pooled (`DuplicateSurvivesFailure`). The model's
  guarantees for later health checks assume a duplicate-free pool, so they
  do not cover this run.
- The `.catch` of the initial check. `ping` never rejects, so it cannot
  run.
- Console logging and `printBackendStats`: output only.
- `src/loadBalancer/be.ts`, `src/loadBalancer/LoadBalancer.js` and
  `src/loadBalancer/lb.index.ts`: echo backends, a logging server and process
  start-up, with no pool logic. The enum file is not part of this model;
  its two enums are written out in `enums.dfy`.
- BackendDetails.IncrementCount: counts are unbounded integers. The source's
  JavaScript numbers are exact only up to 2^53.
- LoadBalancer.Dispatch: the cursor is an unbounded natural. In the source it is a
  JavaScript number. It stays small because it is always stored reduced
  below the pool length at the time of the request.
- HealthCheckProofs.HealthCheckOutcome: the source writes a status only when it differs. In a
  value model, writing the same status again cannot be observed, so the
  contract states the status after the pass, not which writes happened.
