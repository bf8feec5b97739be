/** The backend-pool manager and dispatcher of `LoadBalancerServer`
    (src/loadBalancer/lb.ts), as sequential state transitions.

    The state is the registered backends (`backendServers`), the pool of
    healthy ones (`healthyServers`) and the round-robin cursor
    (`indexOfServer`). In the source both arrays hold references to the same
    backend objects; here the pool holds positions in `backends`, so a change
    made through either array is seen through both. Probe results and the
    outcome of forwarding a request are inputs. */
module LoadBalancer {
  import opened Enums
  import opened Seqs
  import opened BackendDetails
  import opened Cyclic

  /** The backend URLs every load balancer registers. */
  const BackendServerUrls: seq<string> :=
    ["http://localhost:8081/", "http://localhost:8082/", "http://localhost:8083/"]

  datatype LbState = LbState(
    algo: SchedulingAlgorithm,
    backends: seq<Backend>,
    pool: seq<nat>,
    cursor: nat)

  /** Every pool entry refers to a registered backend. */
  predicate Valid(lb: LbState) {
    forall j | 0 <= j < |lb.pool| :: lb.pool[j] < |lb.backends|
  }

  /** No two registered backends share a URL. */
  predicate DistinctUrls(backends: seq<Backend>) {
    forall i, j | 0 <= i < j < |backends| :: backends[i].url != backends[j].url
  }

  /** Backends that keep the URL at every position keep URLs distinct. */
  lemma SameUrlsDistinct(a: seq<Backend>, b: seq<Backend>)
    requires DistinctUrls(a) && |a| == |b|
    requires forall k | 0 <= k < |a| :: b[k].url == a[k].url
    ensures DistinctUrls(b)
  {
    forall i, j | 0 <= i < j < |b| ensures b[i].url != b[j].url {
      assert b[i].url == a[i].url && b[j].url == a[j].url;
    }
  }

  /** One fresh backend per URL, in order. */
  function Register(urls: seq<string>): (bs: seq<Backend>)
    ensures |bs| == |urls|
    ensures forall k | 0 <= k < |urls| :: bs[k] == Backend(urls[k], 0, Unhealthy)
  {
    seq(|urls|, k requires 0 <= k < |urls| => NewBackend(urls[k], None))
  }

  /** The state the constructor sets up before any probe has answered. */
  function Create(algo: SchedulingAlgorithm): (lb: LbState)
    ensures Valid(lb) && DistinctUrls(lb.backends)
    ensures |lb.backends| == |BackendServerUrls| && lb.pool == [] && lb.cursor == 0
    ensures forall k | 0 <= k < |lb.backends| ::
              lb.backends[k].url == BackendServerUrls[k] && lb.backends[k].count == 0 &&
              lb.backends[k].status == Unhealthy
  {
    LbState(algo, Register(BackendServerUrls), [], 0)
  }

  // ---------------------------------------------------------------------------
  // Dispatch

  /** `getBackendServer`: the entry of the pool under the cursor, taken modulo
      the pool's current length (`Wrap`, equal to `%` by `WrapIsMod`). On an
      empty pool the source indexes with NaN and gets `undefined`, modelled
      as `None`. */
  function GetBackendServer(lb: LbState): (r: Option<nat>)
    requires Valid(lb)
    ensures r.None? <==> |lb.pool| == 0
    ensures r.Some? ==> r.value == lb.pool[Wrap(lb.cursor, |lb.pool|)]
    ensures r.Some? ==> r.value in lb.pool && r.value < |lb.backends|
  {
    match lb.algo
    case RoundRobin =>
      if |lb.pool| == 0 then None else Some(lb.pool[Wrap(lb.cursor, |lb.pool|)])
  }

  /** What the `/` handler answers: no healthy backend, a forward that
      failed, or a forward that succeeded; `backend` is the chosen one. */
  datatype Reply = PoolEmpty | ForwardFailed(backend: nat) | Forwarded(backend: nat)

  /** The HTTP status the handler sends for a reply. */
  function HttpStatus(r: Reply): (code: int)
    ensures code == OkStatus <==> r.Forwarded?
    ensures code != OkStatus ==> code == ErrorStatus
  {
    match r
    case PoolEmpty => ErrorStatus
    case ForwardFailed(_) => ErrorStatus
    case Forwarded(_) => OkStatus
  }

  datatype DispatchResult = DispatchResult(state: LbState, reply: Reply)

  /** The `/` handler. `forwardOk` is whether the GET to the chosen backend
      succeeded. The cursor advances before the forward, so it advances
      whatever the forward's outcome; only a successful forward is counted.
      The cursor becomes `(cursor + 1) % length`, written with `Wrap`;
      `NextSelection` restates the step with `%`. */
  function Dispatch(lb: LbState, forwardOk: bool): (r: DispatchResult)
    requires Valid(lb)
    ensures Valid(r.state)
    ensures r.state.pool == lb.pool && r.state.algo == lb.algo
    ensures |r.state.backends| == |lb.backends|
    ensures forall k | 0 <= k < |lb.backends| ::
              r.state.backends[k].url == lb.backends[k].url &&
              r.state.backends[k].status == lb.backends[k].status
    ensures |lb.pool| == 0 ==> r.reply == PoolEmpty && r.state == lb
    ensures |lb.pool| > 0 ==>
              && !r.reply.PoolEmpty?
              && r.reply.backend == lb.pool[Wrap(lb.cursor, |lb.pool|)]
              && r.state.cursor == Wrap(lb.cursor + 1, |lb.pool|)
              && (r.reply.Forwarded? <==> forwardOk)
              && (forall k | 0 <= k < |lb.backends| ::
                    r.state.backends[k].count ==
                      if forwardOk && k == r.reply.backend then lb.backends[k].count + 1
                      else lb.backends[k].count)
  {
    var chosen := GetBackendServer(lb);
    if |lb.pool| == 0 then DispatchResult(lb, PoolEmpty)
    else
      var b := chosen.value;
      var advanced := lb.(cursor := Wrap(lb.cursor + 1, |lb.pool|));
      if forwardOk then
        var served := IncrementCount(lb.backends[b]).0;
        DispatchResult(advanced.(backends := lb.backends[b := served]), Forwarded(b))
      else
        DispatchResult(advanced, ForwardFailed(b))
  }

  // ---------------------------------------------------------------------------
  // Health checks

  /** `healthyServers.map((server) => server.url)` */
  function PoolUrls(backends: seq<Backend>, pool: seq<nat>): (us: seq<string>)
    requires forall j | 0 <= j < |pool| :: pool[j] < |backends|
    ensures |us| == |pool|
    ensures forall j | 0 <= j < |pool| :: us[j] == backends[pool[j]].url
  {
    if pool == [] then [] else [backends[pool[0]].url] + PoolUrls(backends, pool[1..])
  }

  /** The health a probe code stands for. */
  function Verdict(code: int): Health {
    if code == OkStatus then Healthy else Unhealthy
  }

  /** One iteration of the reconciliation loop of `performHealthCheck`, for
      the backend at position `i` whose probe returned `code`. The status is
      written only when it differs; the pool is searched by URL; a backend
      absent from the pool has its count reset and is appended when healthy,
      and a backend present in the pool is spliced out when unhealthy. */
  function CheckOne(lb: LbState, i: nat, code: int): (r: LbState)
    requires Valid(lb) && i < |lb.backends|
    ensures Valid(r) && |r.backends| == |lb.backends|
  {
    var b := lb.backends[i];
    var oldStatus := GetStatus(b);
    if code == OkStatus then
      var b' := if oldStatus != Healthy then SetStatus(b, Healthy) else b;
      if IndexOf(PoolUrls(lb.backends, lb.pool), b'.url) < 0 then
        lb.(backends := lb.backends[i := ResetCount(b')], pool := lb.pool + [i])
      else
        lb.(backends := lb.backends[i := b'])
    else
      var b' := if oldStatus != Unhealthy then SetStatus(b, Unhealthy) else b;
      var index := IndexOf(PoolUrls(lb.backends, lb.pool), b'.url);
      if index >= 0 then
        lb.(backends := lb.backends[i := b'], pool := RemoveAt(lb.pool, index))
      else
        lb.(backends := lb.backends[i := b'])
  }

  /** One iteration touches only the backend it probes: that backend keeps
      its URL, takes the status the probe stands for, and either keeps its
      count or restarts it at zero; the cursor and the algorithm stay. */
  lemma CheckOneEffect(lb: LbState, i: nat, code: int)
    requires Valid(lb) && i < |lb.backends|
    ensures var r := CheckOne(lb, i, code);
      && r.algo == lb.algo && r.cursor == lb.cursor
      && r.backends[i].url == lb.backends[i].url && r.backends[i].status == Verdict(code)
      && (r.backends[i].count == lb.backends[i].count || r.backends[i].count == 0)
      && (forall k | 0 <= k < |lb.backends| && k != i :: r.backends[k] == lb.backends[k])
  {
  }

  /** The reconciliation loop from position `i` on. */
  function CheckFrom(lb: LbState, probes: seq<int>, i: nat): (r: LbState)
    requires Valid(lb) && |probes| == |lb.backends| && i <= |probes|
    ensures Valid(r) && |r.backends| == |lb.backends|
    ensures r.algo == lb.algo && r.cursor == lb.cursor
    ensures forall k | 0 <= k < i :: r.backends[k] == lb.backends[k]
    ensures forall k | i <= k < |probes| ::
              r.backends[k].url == lb.backends[k].url && r.backends[k].status == Verdict(probes[k])
    decreases |probes| - i
  {
    if i == |probes| then lb
    else
      CheckOneEffect(lb, i, probes[i]);
      CheckFrom(CheckOne(lb, i, probes[i]), probes, i + 1)
  }

  /** `performHealthCheck`: `probes[i]` is what `ping` returned for the
      backend at position `i`. */
  function PerformHealthCheck(lb: LbState, probes: seq<int>): (r: LbState)
    requires Valid(lb) && |probes| == |lb.backends|
    ensures Valid(r) && |r.backends| == |lb.backends|
    ensures r.algo == lb.algo && r.cursor == lb.cursor
    ensures forall k | 0 <= k < |probes| ::
              r.backends[k].url == lb.backends[k].url && r.backends[k].status == Verdict(probes[k])
  {
    CheckFrom(lb, probes, 0)
  }

  /** One step of `performInitialHealthCheck`: the status is always written
      and a healthy backend is appended without looking at the pool. */
  function InitialOne(lb: LbState, i: nat, code: int): (r: LbState)
    requires Valid(lb) && i < |lb.backends|
    ensures Valid(r) && |r.backends| == |lb.backends|
    ensures r.algo == lb.algo && r.cursor == lb.cursor
    ensures r.backends[i].url == lb.backends[i].url && r.backends[i].count == lb.backends[i].count
    ensures r.backends[i].status == Verdict(code)
    ensures forall k | 0 <= k < |lb.backends| && k != i :: r.backends[k] == lb.backends[k]
    ensures code == OkStatus ==> r.pool == lb.pool + [i]
    ensures code != OkStatus ==> r.pool == lb.pool
  {
    if code == OkStatus then
      lb.(backends := lb.backends[i := SetStatus(lb.backends[i], Healthy)], pool := lb.pool + [i])
    else
      lb.(backends := lb.backends[i := SetStatus(lb.backends[i], Unhealthy)])
  }

  /** The loop of `performInitialHealthCheck` from position `i` on. */
  function InitialFrom(lb: LbState, probes: seq<int>, i: nat): (r: LbState)
    requires Valid(lb) && |probes| == |lb.backends| && i <= |probes|
    ensures Valid(r) && |r.backends| == |lb.backends|
    ensures r.algo == lb.algo && r.cursor == lb.cursor
    ensures |r.pool| >= |lb.pool| && r.pool[..|lb.pool|] == lb.pool
    decreases |probes| - i
  {
    if i == |probes| then lb
    else InitialFrom(InitialOne(lb, i, probes[i]), probes, i + 1)
  }

  /** `performInitialHealthCheck`: `probes[i]` is what `ping` returned for the
      backend at position `i`. */
  function PerformInitialHealthCheck(lb: LbState, probes: seq<int>): (r: LbState)
    requires Valid(lb) && |probes| == |lb.backends|
    ensures Valid(r) && |r.backends| == |lb.backends|
    ensures r.algo == lb.algo && r.cursor == lb.cursor
    ensures |r.pool| >= |lb.pool| && r.pool[..|lb.pool|] == lb.pool
  {
    InitialFrom(lb, probes, 0)
  }
}
