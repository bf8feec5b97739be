/** One backend server as the load balancer sees it (`BackendServerDetails`
    in src/loadBalancer/be-details.ts): its URL, the number of requests it has
    served and its last known health. The object is mutable in the source; here
    every mutator returns the updated record. */
module BackendDetails {
  import opened Enums

  /** Status code of a successful liveness response. */
  const OkStatus: int := 200
  /** Status code `ping` reports for any failure. */
  const ErrorStatus: int := 500
  /** Path appended to a backend URL to reach its liveness endpoint. */
  const PingPath: string := "ping"

  datatype Backend = Backend(url: string, count: int, status: Health)

  /** The constructor: no request served yet, UNHEALTHY unless told otherwise. */
  function NewBackend(url: string, status: Option<Health>): (b: Backend)
    ensures b.url == url && b.count == 0
    ensures status.None? ==> b.status == Unhealthy
    ensures status.Some? ==> b.status == status.value
  {
    Backend(url, 0, match status case Some(s) => s case None => Unhealthy)
  }

  /** The URL the liveness probe is sent to. */
  function PingUrl(b: Backend): (u: string)
    ensures |u| == |b.url| + |PingPath|
    ensures u[..|b.url|] == b.url && u[|b.url|..] == PingPath
  {
    b.url + PingPath
  }

  /** Distinct backends are probed at distinct URLs. */
  lemma PingUrlInjective(a: Backend, b: Backend)
    requires a.url != b.url
    ensures PingUrl(a) != PingUrl(b)
  {
  }

  function ResetCount(b: Backend): (r: Backend)
    ensures r.count == 0
    ensures r.url == b.url && r.status == b.status
  {
    b.(count := 0)
  }

  /** Returns the updated record together with the new count. */
  function IncrementCount(b: Backend): (r: (Backend, int))
    ensures r.0.count == b.count + 1 && r.1 == r.0.count
    ensures r.0.url == b.url && r.0.status == b.status
  {
    var b' := b.(count := b.count + 1);
    (b', b'.count)
  }

  function GetStatus(b: Backend): Health {
    b.status
  }

  function SetStatus(b: Backend, s: Health): (r: Backend)
    ensures GetStatus(r) == s
    ensures r.url == b.url && r.count == b.count
  {
    b.(status := s)
  }

  /** What came back from the GET on the ping URL: a response with a status
      code, or a rejection (network error, abort, or a status the HTTP client
      refuses). */
  datatype ProbeOutcome = Responded(code: int) | Rejected

  /** `ping`: never fails; every rejection becomes 500. */
  function Ping(o: ProbeOutcome): (code: int)
    ensures o.Responded? ==> code == o.code
    ensures o.Rejected? ==> code == ErrorStatus
  {
    match o
    case Responded(c) => c
    case Rejected => ErrorStatus
  }

  /** A probe counts as healthy exactly when the backend really answered 200;
      a rejected probe is never mistaken for a healthy one. */
  lemma PingHealthyIff(o: ProbeOutcome)
    ensures Ping(o) == OkStatus <==> o == Responded(OkStatus)
  {
  }

  /** The two operations that change a counter. */
  datatype CounterOp = Increment | Reset

  /** Applies counter operations in order. */
  function ApplyCounterOps(b: Backend, ops: seq<CounterOp>): (r: Backend)
    ensures r.url == b.url && r.status == b.status
    decreases |ops|
  {
    if ops == [] then b
    else
      var b' := match ops[0] case Increment => IncrementCount(b).0 case Reset => ResetCount(b);
      ApplyCounterOps(b', ops[1..])
  }

  /** The count is the number of increments since the last reset, or the
      starting count plus all increments when nothing reset it. */
  lemma {:induction false} CountHistory(b: Backend, ops: seq<CounterOp>)
    ensures (forall k | 0 <= k < |ops| :: ops[k] == Increment) ==>
              ApplyCounterOps(b, ops).count == b.count + |ops|
    ensures forall k | 0 <= k < |ops| && ops[k] == Reset &&
                       (forall m | k < m < |ops| :: ops[m] == Increment) ::
              ApplyCounterOps(b, ops).count == |ops| - k - 1
    decreases |ops|
  {
    if ops != [] {
      var b' := match ops[0] case Increment => IncrementCount(b).0 case Reset => ResetCount(b);
      CountHistory(b', ops[1..]);
      assert ApplyCounterOps(b, ops) == ApplyCounterOps(b', ops[1..]);
      forall k | 0 <= k < |ops| && ops[k] == Reset && (forall m | k < m < |ops| :: ops[m] == Increment)
        ensures ApplyCounterOps(b, ops).count == |ops| - k - 1
      {
        if k > 0 {
          assert ops[1..][k - 1] == Reset;
          assert forall m | k - 1 < m < |ops| - 1 :: ops[1..][m] == ops[m + 1];
        } else {
          assert forall m | 0 <= m < |ops| - 1 :: ops[1..][m] == ops[m + 1];
        }
      }
    }
  }

  /** Starting from construction, no sequence of increments and resets makes
      the count negative. */
  lemma {:induction false} CountNonNegative(url: string, status: Option<Health>, ops: seq<CounterOp>)
    ensures ApplyCounterOps(NewBackend(url, status), ops).count >= 0
  {
    var b := NewBackend(url, status);
    CountHistory(b, ops);
    if k :| 0 <= k < |ops| && ops[k] == Reset {
      LastReset(ops, k);
    }
  }

  /** If some operation is a reset, there is a last one. */
  lemma {:induction false} LastReset(ops: seq<CounterOp>, k: nat)
    requires k < |ops| && ops[k] == Reset
    ensures exists j | k <= j < |ops| :: ops[j] == Reset && forall m | j < m < |ops| :: ops[m] == Increment
    decreases |ops| - k
  {
    if !forall m | k < m < |ops| :: ops[m] == Increment {
      var m :| k < m < |ops| && ops[m] != Increment;
      LastReset(ops, m);
    }
  }
}
