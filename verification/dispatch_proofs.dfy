/** Round-robin fairness of the `/` handler: consecutive requests against an
    unchanged pool walk the pool in order from the cursor, and a full round
    serves every pooled backend once. */
module DispatchProofs {
  import opened Enums
  import opened Seqs
  import opened BackendDetails
  import opened LoadBalancer
  import opened Cyclic

  datatype RunResult = RunResult(state: LbState, replies: seq<Reply>)

  /** Consecutive requests with no health check in between; the k-th forward
      succeeds when `forwards[k]` holds. */
  function DispatchRun(lb: LbState, forwards: seq<bool>): (r: RunResult)
    requires Valid(lb)
    ensures Valid(r.state) && r.state.pool == lb.pool && |r.replies| == |forwards|
    ensures |r.state.backends| == |lb.backends|
    decreases |forwards|
  {
    if forwards == [] then RunResult(lb, [])
    else
      var d := Dispatch(lb, forwards[0]);
      var rest := DispatchRun(d.state, forwards[1..]);
      RunResult(rest.state, [d.reply] + rest.replies)
  }

  /** The backends chosen by a series of replies (an empty pool chooses none). */
  function Selections(replies: seq<Reply>): seq<nat> {
    if replies == [] then []
    else if replies[0].PoolEmpty? then Selections(replies[1..])
    else [replies[0].backend] + Selections(replies[1..])
  }

  /** How many of the replies were successful forwards to backend `b`. */
  function ServedBy(replies: seq<Reply>, b: nat): nat {
    if replies == [] then 0
    else (if replies[0] == Forwarded(b) then 1 else 0) + ServedBy(replies[1..], b)
  }

  /** One request in terms of `%`, as the source writes it: the entry at the
      cursor modulo the pool length is chosen, and the cursor becomes the
      next position modulo the length. The new cursor is in bounds and names
      the entry after the one just chosen, whatever the cursor was before, so
      the selection stays in bounds even after the pool has shrunk. */
  lemma NextSelection(lb: LbState, forwardOk: bool)
    requires Valid(lb) && |lb.pool| > 0
    ensures var n := |lb.pool|;
      var d := Dispatch(lb, forwardOk);
      && !d.reply.PoolEmpty?
      && d.reply.backend == lb.pool[lb.cursor % n]
      && d.state.cursor == (lb.cursor + 1) % n
      && d.state.cursor < n && d.state.cursor == (lb.cursor % n + 1) % n
  {
    WrapIsMod(lb.cursor, |lb.pool|);
    WrapIsMod(lb.cursor + 1, |lb.pool|);
    ModShift(lb.cursor, 1, |lb.pool|);
  }

  // ---------------------------------------------------------------------------
  // Order of selection

  /** The reply a request gets when it goes to backend `b`. */
  function ReplyFor(b: nat, forwardOk: bool): Reply {
    if forwardOk then Forwarded(b) else ForwardFailed(b)
  }

  /** Round robin written independently of the load balancer's state: the
      requests are served in turn from position `c` of the pool on, each one
      moving the position one place on, wrapping around. */
  function Schedule(pool: seq<nat>, c: nat, forwards: seq<bool>): (r: seq<Reply>)
    requires |pool| > 0
    ensures |r| == |forwards|
    decreases |forwards|
  {
    if forwards == [] then []
    else
      [ReplyFor(pool[Wrap(c, |pool|)], forwards[0])]
        + Schedule(pool, Wrap(c + 1, |pool|), forwards[1..])
  }

  /** Where the position of `Schedule` is after `k` requests. */
  function Advance(c: nat, n: nat, k: nat): nat
    requires n > 0
    decreases k
  {
    if k == 0 then c else Advance(Wrap(c + 1, n), n, k - 1)
  }

  /** Consecutive requests against an unchanged pool get the replies of the
      schedule. */
  lemma {:induction false} RunRepliesFollow(lb: LbState, forwards: seq<bool>)
    requires Valid(lb) && |lb.pool| > 0
    ensures DispatchRun(lb, forwards).replies == Schedule(lb.pool, lb.cursor, forwards)
    decreases |forwards|
  {
    if forwards != [] {
      RunRepliesFollow(Dispatch(lb, forwards[0]).state, forwards[1..]);
    }
  }

  /** Consecutive requests against an unchanged pool leave the cursor where
      the schedule's position ends. */
  lemma {:induction false} RunCursorFollows(lb: LbState, forwards: seq<bool>)
    requires Valid(lb) && |lb.pool| > 0
    ensures DispatchRun(lb, forwards).state.cursor == Advance(lb.cursor, |lb.pool|, |forwards|)
    decreases |forwards|
  {
    if forwards != [] {
      RunCursorFollows(Dispatch(lb, forwards[0]).state, forwards[1..]);
    }
  }

  /** A run of requests gives the reference schedule's replies and cursor. */
  lemma RunFollowsSchedule(lb: LbState, forwards: seq<bool>)
    requires Valid(lb) && |lb.pool| > 0
    ensures var r := DispatchRun(lb, forwards);
      && r.replies == Schedule(lb.pool, lb.cursor, forwards)
      && r.state.cursor == Advance(lb.cursor, |lb.pool|, |forwards|)
  {
    RunRepliesFollow(lb, forwards);
    RunCursorFollows(lb, forwards);
  }

  /** The k-th scheduled request goes to the entry k places after `c`. */
  lemma {:induction false} ScheduleAt(pool: seq<nat>, c: nat, forwards: seq<bool>, k: nat)
    requires |pool| > 0 && k < |forwards|
    ensures Schedule(pool, c, forwards)[k] == ReplyFor(pool[Wrap(c + k, |pool|)], forwards[k])
    decreases k
  {
    if k > 0 {
      var n := |pool|;
      ScheduleAt(pool, Wrap(c + 1, n), forwards[1..], k - 1);
      WrapStep(c, k, n);
    }
  }

  /** After k > 0 requests the schedule's position is k places on. */
  lemma {:induction false} AdvanceWraps(c: nat, n: nat, k: nat)
    requires n > 0 && k > 0
    ensures Advance(c, n, k) == Wrap(c + k, n)
    decreases k
  {
    if k > 1 {
      AdvanceWraps(Wrap(c + 1, n), n, k - 1);
      WrapStep(c, k, n);
    }
  }

  /** The same two facts with the remainder written as the source writes it. */
  lemma ScheduleAtMod(pool: seq<nat>, c: nat, forwards: seq<bool>, k: nat)
    requires |pool| > 0 && k < |forwards|
    ensures Schedule(pool, c, forwards)[k] == ReplyFor(pool[(c + k) % |pool|], forwards[k])
  {
    ScheduleAt(pool, c, forwards, k);
    WrapIsMod(c + k, |pool|);
  }

  /** The schedule's position after k > 0 requests, written with `%`. */
  lemma AdvanceMod(c: nat, n: nat, k: nat)
    requires n > 0 && k > 0
    ensures Advance(c, n, k) == (c + k) % n
  {
    AdvanceWraps(c, n, k);
    WrapIsMod(c + k, n);
  }

  /** The k-th of consecutive requests goes to the pool entry k places after
      the cursor, wrapping around, and the cursor ends as many places on. */
  lemma RoundRobinOrder(lb: LbState, forwards: seq<bool>)
    requires Valid(lb) && |lb.pool| > 0
    ensures var r := DispatchRun(lb, forwards);
      && (forall k | 0 <= k < |forwards| ::
            && !r.replies[k].PoolEmpty?
            && r.replies[k].backend == lb.pool[(lb.cursor + k) % |lb.pool|]
            && (r.replies[k].Forwarded? <==> forwards[k]))
      && (|forwards| > 0 ==> r.state.cursor == (lb.cursor + |forwards|) % |lb.pool|)
  {
    RunFollowsSchedule(lb, forwards);
    forall k | 0 <= k < |forwards| {
      ScheduleAtMod(lb.pool, lb.cursor, forwards, k);
    }
    if |forwards| > 0 {
      AdvanceMod(lb.cursor, |lb.pool|, |forwards|);
    }
  }

  /** The backends a schedule visits, in order. */
  lemma {:induction false} SelectionsOfSchedule(pool: seq<nat>, c: nat, forwards: seq<bool>)
    requires |pool| > 0
    ensures var sel := Selections(Schedule(pool, c, forwards));
      && |sel| == |forwards|
      && forall k | 0 <= k < |forwards| :: sel[k] == pool[Wrap(c + k, |pool|)]
    decreases |forwards|
  {
    if forwards != [] {
      var n := |pool|;
      var sch := Schedule(pool, c, forwards);
      var rest := Schedule(pool, Wrap(c + 1, n), forwards[1..]);
      SelectionsOfSchedule(pool, Wrap(c + 1, n), forwards[1..]);
      assert sch[1..] == rest;
      var sel := Selections(sch);
      assert sel == [pool[Wrap(c, n)]] + Selections(rest);
      forall k | 1 <= k < |forwards| ensures sel[k] == pool[Wrap(c + k, n)] {
        WrapStep(c, k, n);
      }
    }
  }

  /** Position `k` of the pool rotated to start at `s` is the entry `k`
      places after `s`. */
  lemma RotationIndex(pool: seq<nat>, c: nat, k: nat)
    requires 0 <= k < |pool|
    ensures var s := Wrap(c, |pool|);
      (pool[s..] + pool[..s])[k] == pool[Wrap(c + k, |pool|)]
  {
    var n := |pool|;
    var s := Wrap(c, n);
    WrapShift(c, k, n);
    if s + k >= n {
      assert Wrap(s + k, n) == Wrap(s + k - n, n);
    }
  }

  lemma RotationMultiset(pool: seq<nat>, s: nat)
    requires s <= |pool|
    ensures multiset(pool[s..] + pool[..s]) == multiset(pool)
  {
    assert pool == pool[..s] + pool[s..];
  }

  /** A round of the schedule as long as the pool visits the pool rotated to
      start at `c`. */
  lemma ScheduleRound(pool: seq<nat>, c: nat, forwards: seq<bool>)
    requires |pool| > 0 && |forwards| == |pool|
    ensures var s := Wrap(c, |pool|);
      var sel := Selections(Schedule(pool, c, forwards));
      && sel == pool[s..] + pool[..s]
      && multiset(sel) == multiset(pool)
  {
    var s := Wrap(c, |pool|);
    var sel := Selections(Schedule(pool, c, forwards));
    SelectionsOfSchedule(pool, c, forwards);
    forall k | 0 <= k < |sel| ensures sel[k] == (pool[s..] + pool[..s])[k] {
      RotationIndex(pool, c, k);
    }
    RotationMultiset(pool, s);
  }

  /** A round of as many requests as the pool is long serves the pool
      rotated to start at the cursor: every pooled entry exactly once. */
  lemma RoundRobinRound(lb: LbState, forwards: seq<bool>)
    requires Valid(lb) && |lb.pool| > 0 && |forwards| == |lb.pool|
    ensures var s := lb.cursor % |lb.pool|;
      var sel := Selections(DispatchRun(lb, forwards).replies);
      && sel == lb.pool[s..] + lb.pool[..s]
      && multiset(sel) == multiset(lb.pool)
  {
    RunFollowsSchedule(lb, forwards);
    ScheduleRound(lb.pool, lb.cursor, forwards);
    WrapIsMod(lb.cursor, |lb.pool|);
  }

  /** The request after a full round goes where the round started. */
  lemma RoundRobinRepeats(lb: LbState, forwards: seq<bool>)
    requires Valid(lb) && |lb.pool| > 0 && |forwards| == |lb.pool| + 1
    ensures var sel := Selections(DispatchRun(lb, forwards).replies);
      |sel| == |forwards| && sel[|lb.pool|] == sel[0]
  {
    var n := |lb.pool|;
    RunFollowsSchedule(lb, forwards);
    SelectionsOfSchedule(lb.pool, lb.cursor, forwards);
    WrapLap(lb.cursor, n);
  }

  /** Over consecutive requests a backend's count grows by the number of
      successful forwards to it; URLs and statuses do not change. */
  lemma {:induction false} RunCounts(lb: LbState, forwards: seq<bool>)
    requires Valid(lb)
    ensures var r := DispatchRun(lb, forwards);
      forall k | 0 <= k < |lb.backends| ::
        && r.state.backends[k].count == lb.backends[k].count + ServedBy(r.replies, k)
        && r.state.backends[k].url == lb.backends[k].url
        && r.state.backends[k].status == lb.backends[k].status
    decreases |forwards|
  {
    if forwards != [] {
      var d := Dispatch(lb, forwards[0]);
      RunCounts(d.state, forwards[1..]);
      var r := DispatchRun(lb, forwards);
      assert r.replies[1..] == DispatchRun(d.state, forwards[1..]).replies;
    }
  }

  /** When every request of a round succeeds, each pooled backend is served
      once and no other backend at all, provided the pool has no duplicates. */
  lemma ScheduleEvenLoad(pool: seq<nat>, c: nat, forwards: seq<bool>, b: nat)
    requires NoDup(pool) && |pool| > 0 && |forwards| == |pool|
    requires forall k | 0 <= k < |forwards| :: forwards[k]
    ensures ServedBy(Schedule(pool, c, forwards), b) == if b in pool then 1 else 0
  {
    var sch := Schedule(pool, c, forwards);
    forall k | 0 <= k < |sch| ensures sch[k].Forwarded? {
      ScheduleAt(pool, c, forwards, k);
    }
    ServedBySelections(sch, b);
    ScheduleRound(pool, c, forwards);
    NoDupMultiplicity(pool, b);
  }

  /** When every reply is a successful forward, the number served by a
      backend is the number of times it was chosen. */
  lemma {:induction false} ServedBySelections(replies: seq<Reply>, b: nat)
    requires forall k | 0 <= k < |replies| :: replies[k].Forwarded?
    ensures ServedBy(replies, b) == multiset(Selections(replies))[b]
  {
    if replies != [] {
      ServedBySelections(replies[1..], b);
      assert Selections(replies) == [replies[0].backend] + Selections(replies[1..]);
    }
  }

  lemma {:induction false} NoDupMultiplicity(s: seq<nat>, x: nat)
    requires NoDup(s)
    ensures multiset(s)[x] == if x in s then 1 else 0
  {
    if s != [] {
      NoDupTail(s);
      NoDupMultiplicity(s[1..], x);
      assert s == [s[0]] + s[1..];
    }
  }

  /** A full round of successful requests over a pool without duplicates
      raises each pooled backend's count by exactly one and leaves every
      other count alone. */
  lemma EvenLoad(lb: LbState, forwards: seq<bool>)
    requires Valid(lb) && NoDup(lb.pool) && |lb.pool| > 0 && |forwards| == |lb.pool|
    requires forall k | 0 <= k < |forwards| :: forwards[k]
    ensures var r := DispatchRun(lb, forwards).state;
      forall k | 0 <= k < |lb.backends| ::
        r.backends[k].count == lb.backends[k].count + (if k in lb.pool then 1 else 0)
  {
    RunFollowsSchedule(lb, forwards);
    RunCounts(lb, forwards);
    forall k | 0 <= k < |lb.backends| {
      ScheduleEvenLoad(lb.pool, lb.cursor, forwards, k);
    }
  }

  /** With no healthy backend every request fails with the 500 reply and
      nothing changes: neither the cursor nor any count. */
  lemma EmptyPoolRun(lb: LbState, forwards: seq<bool>)
    requires Valid(lb) && lb.pool == []
    ensures var r := DispatchRun(lb, forwards);
      r.state == lb && forall k | 0 <= k < |forwards| :: r.replies[k] == PoolEmpty
    decreases |forwards|
  {
    if forwards != [] {
      EmptyPoolRun(lb, forwards[1..]);
    }
  }
}
