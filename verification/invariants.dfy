/** The state invariant the load balancer keeps between operations, and the
    consequences for counters and ordering. */
module PoolInvariants {
  import opened Enums
  import opened Seqs
  import opened BackendDetails
  import opened LoadBalancer
  import opened HealthCheckProofs
  import opened DispatchProofs

  /** A backend is pooled exactly when its status is HEALTHY. */
  predicate Consistent(lb: LbState) {
    forall k | 0 <= k < |lb.backends| :: lb.backends[k].status == Healthy <==> k in lb.pool
  }

  /** Pool entries are registered backends, each at most once and each
      healthy; URLs are distinct; no count is negative. */
  predicate Invariant(lb: LbState) {
    && Valid(lb)
    && DistinctUrls(lb.backends)
    && NoDup(lb.pool)
    && Consistent(lb)
    && forall k | 0 <= k < |lb.backends| :: lb.backends[k].count >= 0
  }

  /** `s` keeps some of the elements of `t`, in the order `t` has them. */
  ghost predicate Subsequence(s: seq<nat>, t: seq<nat>)
    decreases |t|
  {
    if s == [] then true
    else if t == [] then false
    else if s[0] == t[0] then Subsequence(s[1..], t[1..])
    else Subsequence(s, t[1..])
  }

  lemma {:induction false} SurvivorsSubsequence(pool0: seq<nat>, probes: seq<int>, i: nat)
    requires i <= |probes|
    ensures Subsequence(Survivors(pool0, probes, i), pool0)
  {
    if pool0 != [] {
      SurvivorsSubsequence(pool0[1..], probes, i);
      var rest := Survivors(pool0[1..], probes, i);
      if Survives(pool0[0], probes, i) {
        assert ([pool0[0]] + rest)[1..] == rest;
      } else if rest != [] {
        assert rest[0] in rest;
      }
    }
  }

  /** The construction state, before any probe has answered, is consistent:
      nobody is healthy and the pool is empty. */
  lemma CreateInvariant(algo: SchedulingAlgorithm)
    ensures Invariant(Create(algo))
  {
  }

  /** Start-up: the initial health check on the freshly constructed state
      pools the backends whose probe returned 200, in registration order,
      and leaves the invariant holding. */
  lemma StartupInvariant(algo: SchedulingAlgorithm, probes: seq<int>)
    requires |probes| == |BackendServerUrls|
    ensures var r := PerformInitialHealthCheck(Create(algo), probes);
      && Invariant(r)
      && r.pool == Newcomers([], probes, |probes|)
      && (forall k | 0 <= k < |r.backends| ::
            r.backends[k].count == 0 && r.backends[k].url == BackendServerUrls[k])
  {
    var lb := Create(algo);
    InitialHealthCheckOutcome(lb, probes);
    var r := PerformInitialHealthCheck(lb, probes);
    assert r.pool == Newcomers([], probes, |probes|);
    SameUrlsDistinct(lb.backends, r.backends);
  }

  /** On a pool that is not empty the initial health check appends without
      looking, so a backend already pooled and answering 200 is pooled twice. */
  lemma InitialCheckDuplicates(lb: LbState, probes: seq<int>, k: nat)
    requires Valid(lb) && |probes| == |lb.backends|
    requires k in lb.pool && probes[k] == OkStatus
    ensures !NoDup(PerformInitialHealthCheck(lb, probes).pool)
  {
    InitialHealthCheckOutcome(lb, probes);
    var r := PerformInitialHealthCheck(lb, probes);
    var N := Newcomers([], probes, |probes|);
    var a := IndexOf(lb.pool, k);
    var b := IndexOf(N, k);
    assert r.pool[a] == k && r.pool[|lb.pool| + b] == k;
  }

  /** Once the pool holds a backend twice, a failing probe splices out only
      the first URL match: the backend turns UNHEALTHY yet stays pooled, so
      requests still reach it. */
  lemma DuplicateSurvivesFailure(lb: LbState, k: nat, code: int, a: nat, b: nat)
    requires Valid(lb) && DistinctUrls(lb.backends) && k < |lb.backends| && code != OkStatus
    requires a < b < |lb.pool| && lb.pool[a] == k && lb.pool[b] == k
    ensures var r := CheckOne(lb, k, code);
      && r.backends[k].status == Unhealthy
      && k in r.pool
      && |r.pool| == |lb.pool| - 1
  {
    CheckOneEffect(lb, k, code);
    CheckOnePoolShape(lb, k, code);
    RemoveKeepsDuplicate(lb.pool, IndexOf(lb.pool, k), a, b);
  }

  /** A dispatch keeps the invariant: it touches only the cursor and one count. */
  lemma DispatchInvariant(lb: LbState, forwardOk: bool)
    requires Invariant(lb)
    ensures Invariant(Dispatch(lb, forwardOk).state)
  {
    var r := Dispatch(lb, forwardOk).state;
    SameUrlsDistinct(lb.backends, r.backends);
  }

  /** A health-check pass restores consistency whatever the statuses were,
      as long as the pool had no duplicates. */
  lemma HealthCheckInvariant(lb: LbState, probes: seq<int>)
    requires Valid(lb) && |probes| == |lb.backends|
    requires DistinctUrls(lb.backends) && NoDup(lb.pool)
    requires forall k | 0 <= k < |lb.backends| :: lb.backends[k].count >= 0
    ensures Invariant(PerformHealthCheck(lb, probes))
  {
    HealthCheckOutcome(lb, probes);
    HealthCheckPool(lb, probes);
    var r := PerformHealthCheck(lb, probes);
    SameUrlsDistinct(lb.backends, r.backends);
    assert forall k | 0 <= k < |r.backends| :: r.backends[k] == Reconciled(lb.backends[k], probes[k], k in lb.pool);
  }

  /** Under the invariant the source's test (URL absent from the pool) is the
      status transition: a health check zeroes a count exactly when an
      UNHEALTHY backend answers 200, and a backend that stays HEALTHY keeps
      its count. */
  lemma ResetOnRecovery(lb: LbState, probes: seq<int>)
    requires Invariant(lb) && |probes| == |lb.backends|
    ensures var r := PerformHealthCheck(lb, probes);
      forall k | 0 <= k < |lb.backends| ::
        && r.backends[k].status == Verdict(probes[k])
        && r.backends[k].count ==
             if lb.backends[k].status == Unhealthy && probes[k] == OkStatus then 0
             else lb.backends[k].count
  {
    HealthCheckOutcome(lb, probes);
  }

  /** The pool after a health check keeps the surviving entries in their
      old relative order, and the backends that joined come after them in
      registration order, none of them previously pooled. */
  lemma HealthCheckOrder(lb: LbState, probes: seq<int>)
    requires Valid(lb) && |probes| == |lb.backends|
    requires DistinctUrls(lb.backends) && NoDup(lb.pool)
    ensures var r := PerformHealthCheck(lb, probes);
      exists cut | 0 <= cut <= |r.pool| ::
        && Subsequence(r.pool[..cut], lb.pool)
        && (forall j | 0 <= j < cut :: r.pool[j] < |probes| && probes[r.pool[j]] == OkStatus)
        && (forall j | cut <= j < |r.pool| :: r.pool[j] !in lb.pool)
        && (forall a, b | cut <= a < b < |r.pool| :: r.pool[a] < r.pool[b])
  {
    HealthCheckOutcome(lb, probes);
    SurvivorsThenNewcomers(lb.pool, probes);
  }

  /** The pool after a pass splits into the survivors, a subsequence of the
      old pool answering 200, followed by the newcomers. */
  lemma SurvivorsThenNewcomers(pool0: seq<nat>, probes: seq<int>)
    requires forall j | 0 <= j < |pool0| :: pool0[j] < |probes|
    ensures var S := Survivors(pool0, probes, |probes|);
      var pool := S + Newcomers(pool0, probes, |probes|);
      && Subsequence(pool[..|S|], pool0)
      && (forall j | 0 <= j < |S| :: pool[j] < |probes| && probes[pool[j]] == OkStatus)
      && (forall j | |S| <= j < |pool| :: pool[j] !in pool0)
      && (forall a, b | |S| <= a < b < |pool| :: pool[a] < pool[b])
  {
    var S := Survivors(pool0, probes, |probes|);
    var N := Newcomers(pool0, probes, |probes|);
    SurvivorsSubsequence(pool0, probes, |probes|);
    SurvivorsHealthy(pool0, probes);
    PrefixSuffix(S, N);
  }

  /** Positions of a concatenation: the front part, then the back part. */
  lemma PrefixSuffix(S: seq<nat>, N: seq<nat>)
    ensures (S + N)[..|S|] == S
    ensures forall j | 0 <= j < |S| :: (S + N)[j] == S[j]
    ensures forall j | |S| <= j < |S + N| :: (S + N)[j] == N[j - |S|]
  {
  }

  /** Every survivor of a whole pass answered 200. */
  lemma SurvivorsHealthy(pool0: seq<nat>, probes: seq<int>)
    requires forall j | 0 <= j < |pool0| :: pool0[j] < |probes|
    ensures var S := Survivors(pool0, probes, |probes|);
      forall j | 0 <= j < |S| :: S[j] < |probes| && probes[S[j]] == OkStatus
  {
    var S := Survivors(pool0, probes, |probes|);
    forall j | 0 <= j < |S| ensures S[j] < |probes| && probes[S[j]] == OkStatus {
      assert S[j] in S;
      assert S[j] in pool0;
    }
  }

  /** Every backend failing its probe empties the pool, and
      every request then gets the 500 reply with nothing changing. */
  lemma AllProbesFail(lb: LbState, probes: seq<int>, forwards: seq<bool>)
    requires Valid(lb) && |probes| == |lb.backends|
    requires DistinctUrls(lb.backends) && NoDup(lb.pool)
    requires forall k | 0 <= k < |probes| :: probes[k] != OkStatus
    ensures var r := PerformHealthCheck(lb, probes);
      && r.pool == []
      && forall k | 0 <= k < |forwards| :: DispatchRun(r, forwards).replies[k] == PoolEmpty
  {
    HealthCheckPool(lb, probes);
    HealthCheckOutcome(lb, probes);
    var r := PerformHealthCheck(lb, probes);
    NoSurvivors(lb.pool, probes);
    NoNewcomers(lb.pool, probes, |probes|);
    EmptyPoolRun(r, forwards);
  }

  /** When every probe fails, no pool entry survives. */
  lemma {:induction false} NoSurvivors(pool0: seq<nat>, probes: seq<int>)
    requires forall j | 0 <= j < |pool0| :: pool0[j] < |probes|
    requires forall k | 0 <= k < |probes| :: probes[k] != OkStatus
    ensures Survivors(pool0, probes, |probes|) == []
  {
    if pool0 != [] {
      NoSurvivors(pool0[1..], probes);
    }
  }

  /** When every probe fails, no backend joins the pool. */
  lemma {:induction false} NoNewcomers(pool0: seq<nat>, probes: seq<int>, i: nat)
    requires i <= |probes|
    requires forall k | 0 <= k < |probes| :: probes[k] != OkStatus
    ensures Newcomers(pool0, probes, i) == []
  {
    if i > 0 {
      NoNewcomers(pool0, probes, i - 1);
    }
  }

  /** The pool is patched in place rather than rebuilt, so it need not follow
      registration order: with only the second backend pooled and every probe
      answering 200, the first and third are appended after it. */
  lemma PatchedPoolOrder()
    ensures var lb := LbState(RoundRobin,
                              [Backend(BackendServerUrls[0], 0, Unhealthy),
                               Backend(BackendServerUrls[1], 4, Healthy),
                               Backend(BackendServerUrls[2], 0, Unhealthy)],
                              [1], 0);
      PerformHealthCheck(lb, [200, 200, 200]).pool == [1, 0, 2]
  {
    var lb := LbState(RoundRobin,
                      [Backend(BackendServerUrls[0], 0, Unhealthy),
                       Backend(BackendServerUrls[1], 4, Healthy),
                       Backend(BackendServerUrls[2], 0, Unhealthy)],
                      [1], 0);
    var probes := [200, 200, 200];
    HealthCheckOutcome(lb, probes);
    PatchedSequences(probes);
  }

  lemma PatchedSequences(probes: seq<int>)
    requires probes == [200, 200, 200]
    ensures Survivors([1], probes, 3) == [1]
    ensures Newcomers([1], probes, 3) == [0, 2]
  {
    assert Survivors([1], probes, 3) == [1];
    assert Newcomers([1], probes, 1) == [0];
    assert Newcomers([1], probes, 2) == [0];
  }
}
