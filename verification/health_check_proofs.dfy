/** What one pass of `performHealthCheck` and of `performInitialHealthCheck`
    computes, stated independently of the loop that computes it. */
module HealthCheckProofs {
  import opened Enums
  import opened Seqs
  import opened BackendDetails
  import opened LoadBalancer

  /** A pool entry is still present after the first `i` probes have been
      reconciled when its own probe is yet to come or returned 200. */
  predicate Survives(p: nat, probes: seq<int>, i: nat)
    requires i <= |probes|
  {
    p >= i || probes[p] == OkStatus
  }

  /** The entries of `pool0`, in their original order, that survive the
      first `i` probes. */
  function Survivors(pool0: seq<nat>, probes: seq<int>, i: nat): (s: seq<nat>)
    requires i <= |probes|
    ensures forall x :: x in s <==> x in pool0 && Survives(x, probes, i)
  {
    if pool0 == [] then []
    else
      var rest := Survivors(pool0[1..], probes, i);
      assert forall x :: x in pool0 <==> x == pool0[0] || x in pool0[1..];
      if Survives(pool0[0], probes, i) then [pool0[0]] + rest else rest
  }

  /** The backends among the first `i` whose probe returned 200 and that
      were not in `pool0`, in registration order. */
  function Newcomers(pool0: seq<nat>, probes: seq<int>, i: nat): (s: seq<nat>)
    requires i <= |probes|
    ensures forall x: nat :: x in s <==> x < i && probes[x] == OkStatus && x !in pool0
    ensures forall a, b | 0 <= a < b < |s| :: s[a] < s[b]
  {
    if i == 0 then []
    else
      var prev := Newcomers(pool0, probes, i - 1);
      assert forall a | 0 <= a < |prev| :: prev[a] in prev;
      if probes[i - 1] == OkStatus && i - 1 !in pool0 then prev + [i - 1] else prev
  }

  /** What reconciliation makes of one backend: its status follows the probe,
      and its count is reset when it was healthy but not pooled. */
  function Reconciled(b: Backend, code: int, pooled: bool): Backend {
    Backend(b.url, if code == OkStatus && !pooled then 0 else b.count, Verdict(code))
  }

  /** The loop invariant of the reconciliation loop: the first `i` backends
      are reconciled, the rest untouched, and the pool is the survivors
      followed by the newcomers so far. */
  ghost predicate Stage(lb0: LbState, lb: LbState, probes: seq<int>, i: nat) {
    && i <= |probes| == |lb0.backends| == |lb.backends|
    && Valid(lb)
    && lb.algo == lb0.algo && lb.cursor == lb0.cursor
    && (forall k | 0 <= k < i :: lb.backends[k] == Reconciled(lb0.backends[k], probes[k], k in lb0.pool))
    && (forall k | i <= k < |lb.backends| :: lb.backends[k] == lb0.backends[k])
    && lb.pool == Survivors(lb0.pool, probes, i) + Newcomers(lb0.pool, probes, i)
  }

  /** Searching the pool by URL finds the same position as searching it by
      backend, when URLs are distinct. */
  lemma {:induction false} UrlLookup(backends: seq<Backend>, pool: seq<nat>, k: nat)
    requires DistinctUrls(backends) && k < |backends|
    requires forall j | 0 <= j < |pool| :: pool[j] < |backends|
    ensures IndexOf(PoolUrls(backends, pool), backends[k].url) == IndexOf(pool, k)
  {
    if pool != [] {
      UrlLookup(backends, pool[1..], k);
      assert PoolUrls(backends, pool)[1..] == PoolUrls(backends, pool[1..]);
    }
  }

  /** A probe that cannot remove entry `i` leaves the survivors as they were. */
  lemma {:induction false} SurvivorsStable(pool0: seq<nat>, probes: seq<int>, i: nat)
    requires i < |probes|
    requires probes[i] == OkStatus || i !in pool0
    ensures Survivors(pool0, probes, i + 1) == Survivors(pool0, probes, i)
  {
    if pool0 != [] {
      SurvivorsStable(pool0[1..], probes, i);
    }
  }

  /** A failing probe for pooled entry `i` splices exactly that entry out. */
  lemma {:induction false} SurvivorsDrop(pool0: seq<nat>, probes: seq<int>, i: nat)
    requires i < |probes| && probes[i] != OkStatus
    requires NoDup(pool0) && i in pool0
    ensures i in Survivors(pool0, probes, i)
    ensures Survivors(pool0, probes, i + 1) ==
            RemoveAt(Survivors(pool0, probes, i), IndexOf(Survivors(pool0, probes, i), i))
  {
    var s := Survivors(pool0, probes, i);
    var rest := pool0[1..];
    if pool0[0] == i {
      assert i !in rest;
      SurvivorsStable(rest, probes, i);
    } else {
      NoDupTail(pool0);
      SurvivorsDrop(rest, probes, i);
      var t := Survivors(rest, probes, i);
      if Survives(pool0[0], probes, i) {
        assert s == [pool0[0]] + t;
        RemoveFirstCons(pool0[0], t, i);
      }
    }
  }

  /** The backend part of one loop iteration: only position `i` changes, and
      it becomes its reconciled form. */
  lemma CheckOneBackends(lb0: LbState, lb: LbState, probes: seq<int>, i: nat)
    requires Valid(lb0) && DistinctUrls(lb0.backends)
    requires Stage(lb0, lb, probes, i) && i < |probes|
    requires i in lb.pool <==> i in lb0.pool
    ensures var r := CheckOne(lb, i, probes[i]);
      r.backends == lb.backends[i := Reconciled(lb0.backends[i], probes[i], i in lb0.pool)]
  {
    SameUrlsDistinct(lb0.backends, lb.backends);
    UrlLookup(lb.backends, lb.pool, i);
  }

  /** One loop iteration, as far as the pool is concerned, appends `i` or
      splices it out by position. */
  lemma CheckOnePoolShape(lb: LbState, i: nat, code: int)
    requires Valid(lb) && DistinctUrls(lb.backends) && i < |lb.backends|
    ensures CheckOne(lb, i, code).pool ==
      if code == OkStatus then (if i in lb.pool then lb.pool else lb.pool + [i])
      else if i in lb.pool then RemoveAt(lb.pool, IndexOf(lb.pool, i))
      else lb.pool
  {
    var urls := PoolUrls(lb.backends, lb.pool);
    var url := lb.backends[i].url;
    UrlLookup(lb.backends, lb.pool, i);
    assert IndexOf(urls, url) < 0 <==> i !in lb.pool;
    if code == OkStatus {
      var b' := if GetStatus(lb.backends[i]) != Healthy then SetStatus(lb.backends[i], Healthy) else lb.backends[i];
      assert b'.url == url;
    } else {
      var b' := if GetStatus(lb.backends[i]) != Unhealthy then SetStatus(lb.backends[i], Unhealthy) else lb.backends[i];
      assert b'.url == url;
    }
  }

  /** The pool part of one loop iteration. */
  lemma CheckOnePool(pool0: seq<nat>, pool: seq<nat>, probes: seq<int>, i: nat)
    requires NoDup(pool0) && i < |probes|
    requires pool == Survivors(pool0, probes, i) + Newcomers(pool0, probes, i)
    ensures (if probes[i] == OkStatus then (if i in pool then pool else pool + [i])
             else if i in pool then RemoveAt(pool, IndexOf(pool, i))
             else pool)
            == Survivors(pool0, probes, i + 1) + Newcomers(pool0, probes, i + 1)
  {
    var S := Survivors(pool0, probes, i);
    var N := Newcomers(pool0, probes, i);
    assert i in pool <==> i in pool0;
    if probes[i] == OkStatus {
      SurvivorsStable(pool0, probes, i);
    } else if i in pool0 {
      SurvivorsDrop(pool0, probes, i);
      assert i !in N;
      assert IndexOf(pool, i) == IndexOf(S, i);
      RemoveAtAppend(S, N, IndexOf(S, i));
    } else {
      SurvivorsStable(pool0, probes, i);
    }
  }

  /** One loop iteration moves the invariant from `i` to `i + 1`. */
  lemma CheckOneStage(lb0: LbState, lb: LbState, probes: seq<int>, i: nat)
    requires Valid(lb0) && DistinctUrls(lb0.backends) && NoDup(lb0.pool)
    requires Stage(lb0, lb, probes, i) && i < |probes|
    ensures Stage(lb0, CheckOne(lb, i, probes[i]), probes, i + 1)
  {
    assert i in lb.pool <==> i in lb0.pool;
    CheckOneBackends(lb0, lb, probes, i);
    SameUrlsDistinct(lb0.backends, lb.backends);
    var r := CheckOne(lb, i, probes[i]);
    assert forall k | 0 <= k <= i :: r.backends[k] == Reconciled(lb0.backends[k], probes[k], k in lb0.pool);
    assert forall k | i < k < |r.backends| :: r.backends[k] == lb0.backends[k];
    CheckOnePoolShape(lb, i, probes[i]);
    CheckOnePool(lb0.pool, lb.pool, probes, i);
    assert r.pool == Survivors(lb0.pool, probes, i + 1) + Newcomers(lb0.pool, probes, i + 1);
  }

  /** The rest of the loop carries the invariant through to the end. */
  lemma {:induction false} CheckFromStage(lb0: LbState, lb: LbState, probes: seq<int>, i: nat)
    requires Valid(lb0) && DistinctUrls(lb0.backends) && NoDup(lb0.pool)
    requires Stage(lb0, lb, probes, i)
    ensures Stage(lb0, CheckFrom(lb, probes, i), probes, |probes|)
    decreases |probes| - i
  {
    if i < |probes| {
      CheckOneStage(lb0, lb, probes, i);
      CheckFromStage(lb0, CheckOne(lb, i, probes[i]), probes, i + 1);
    }
  }

  /** The outcome of a health-check pass. Each backend's status follows its
      probe and its count is reset exactly when the probe returned 200 and the
      backend was not pooled. The new pool is the old pool's entries whose
      probe returned 200, in their old order, followed by the backends that
      newly returned 200, in registration order. */
  lemma HealthCheckOutcome(lb: LbState, probes: seq<int>)
    requires Valid(lb) && |probes| == |lb.backends|
    requires DistinctUrls(lb.backends) && NoDup(lb.pool)
    ensures var r := PerformHealthCheck(lb, probes);
      && r.algo == lb.algo && r.cursor == lb.cursor
      && (forall k | 0 <= k < |lb.backends| ::
            r.backends[k] == Reconciled(lb.backends[k], probes[k], k in lb.pool))
      && r.pool == Survivors(lb.pool, probes, |probes|) + Newcomers(lb.pool, probes, |probes|)
  {
    assert Survivors(lb.pool, probes, 0) == lb.pool by {
      SurvivorsAll(lb.pool, probes);
    }
    CheckFromStage(lb, lb, probes, 0);
  }

  /** Before any probe is reconciled every entry survives. */
  lemma {:induction false} SurvivorsAll(pool0: seq<nat>, probes: seq<int>)
    ensures Survivors(pool0, probes, 0) == pool0
  {
    if pool0 != [] {
      SurvivorsAll(pool0[1..], probes);
    }
  }

  /** After a health-check pass the pool holds exactly the backends whose probe
      returned 200, each once, and a backend is healthy exactly when its probe
      returned 200. */
  lemma HealthCheckPool(lb: LbState, probes: seq<int>)
    requires Valid(lb) && |probes| == |lb.backends|
    requires DistinctUrls(lb.backends) && NoDup(lb.pool)
    ensures var r := PerformHealthCheck(lb, probes);
      && NoDup(r.pool)
      && (forall x: nat :: x in r.pool <==> x < |probes| && probes[x] == OkStatus)
      && (forall k | 0 <= k < |r.backends| ::
            (r.backends[k].status == Healthy <==> probes[k] == OkStatus) &&
            r.backends[k].url == lb.backends[k].url)
  {
    HealthCheckOutcome(lb, probes);
    var S := Survivors(lb.pool, probes, |probes|);
    var N := Newcomers(lb.pool, probes, |probes|);
    SurvivorsNoDup(lb.pool, probes, |probes|);
    assert NoDup(S + N) by {
      forall a, b | 0 <= a < b < |S + N| ensures (S + N)[a] != (S + N)[b] {
        if b < |S| {
        } else if a >= |S| {
          assert N[a - |S|] < N[b - |S|];
        } else {
          assert (S + N)[a] in S && (S + N)[b] in N;
        }
      }
    }
  }

  lemma {:induction false} SurvivorsNoDup(pool0: seq<nat>, probes: seq<int>, i: nat)
    requires i <= |probes| && NoDup(pool0)
    ensures NoDup(Survivors(pool0, probes, i))
  {
    if pool0 != [] {
      var rest := pool0[1..];
      NoDupTail(pool0);
      SurvivorsNoDup(rest, probes, i);
    }
  }

  /** `performInitialHealthCheck` writes every status from its probe, leaves
      every count alone, and appends the backends whose probe returned 200 in
      registration order, without looking at what the pool already holds. */
  lemma {:induction false} InitialFromOutcome(lb0: LbState, lb: LbState, probes: seq<int>, i: nat)
    requires Valid(lb) && |probes| == |lb.backends| == |lb0.backends| && i <= |probes|
    requires lb.algo == lb0.algo && lb.cursor == lb0.cursor
    requires forall k | 0 <= k < i :: lb.backends[k] == lb0.backends[k].(status := Verdict(probes[k]))
    requires forall k | i <= k < |lb.backends| :: lb.backends[k] == lb0.backends[k]
    requires lb.pool == lb0.pool + Newcomers([], probes, i)
    ensures var r := InitialFrom(lb, probes, i);
      && r.algo == lb0.algo && r.cursor == lb0.cursor
      && (forall k | 0 <= k < |r.backends| :: r.backends[k] == lb0.backends[k].(status := Verdict(probes[k])))
      && r.pool == lb0.pool + Newcomers([], probes, |probes|)
    decreases |probes| - i
  {
    if i < |probes| {
      var next := InitialOne(lb, i, probes[i]);
      assert next.pool == lb0.pool + Newcomers([], probes, i + 1);
      InitialFromOutcome(lb0, next, probes, i + 1);
    }
  }

  /** The outcome of the initial check: statuses follow the probes, counts
      and URLs stay, and the backends answering 200 are appended. */
  lemma InitialHealthCheckOutcome(lb: LbState, probes: seq<int>)
    requires Valid(lb) && |probes| == |lb.backends|
    ensures var r := PerformInitialHealthCheck(lb, probes);
      && r.algo == lb.algo && r.cursor == lb.cursor
      && (forall k | 0 <= k < |r.backends| ::
            r.backends[k].url == lb.backends[k].url &&
            r.backends[k].count == lb.backends[k].count &&
            r.backends[k].status == Verdict(probes[k]))
      && r.pool == lb.pool + Newcomers([], probes, |probes|)
  {
    InitialFromOutcome(lb, lb, probes, 0);
  }
}
