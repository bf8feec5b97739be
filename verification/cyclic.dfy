/** Arithmetic of the round-robin cursor. The source reduces the cursor with
    JavaScript's `%`; the cursor and the pool length are never negative, so
    that is the Euclidean remainder. The model computes it by repeated
    subtraction (`Wrap`), which the verifier reasons about without
    multiplication, and `WrapIsMod` proves the two agree. */
module Cyclic {

  /** `x` reduced below `n` by repeated subtraction. */
  function Wrap(x: nat, n: nat): (r: nat)
    requires n > 0
    ensures r < n
    ensures x < n ==> r == x
    decreases x
  {
    if x < n then x else Wrap(x - n, n)
  }

  lemma {:induction false} MulAtLeast(d: nat, n: nat)
    requires d >= 1
    ensures d * n >= n
  {
    if d > 1 {
      MulAtLeast(d - 1, n);
      assert d * n == (d - 1) * n + n;
    }
  }

  /** Euclidean division has one remainder. */
  lemma ModUnique(a: int, q: int, r: int, n: int)
    requires n > 0 && 0 <= r < n && a == q * n + r
    ensures a % n == r
  {
    var q', r' := a / n, a % n;
    assert a == q' * n + r';
    if q' < q {
      MulAtLeast(q - q', n);
    } else if q < q' {
      MulAtLeast(q' - q, n);
    }
  }

  /** Repeated subtraction computes the remainder. */
  lemma {:induction false} WrapIsMod(x: nat, n: nat)
    requires n > 0
    ensures Wrap(x, n) == x % n
    decreases x
  {
    if x < n {
      ModUnique(x, 0, x, n);
    } else {
      WrapIsMod(x - n, n);
      ModUnique(x, (x - n) / n + 1, (x - n) % n, n);
    }
  }

  /** Reducing first and then stepping on lands where stepping on first lands. */
  lemma {:induction false} WrapShift(a: nat, k: nat, n: nat)
    requires n > 0
    ensures Wrap(Wrap(a, n) + k, n) == Wrap(a + k, n)
    decreases a
  {
    if a >= n {
      WrapShift(a - n, k, n);
    }
  }

  /** One step, then `m - 1` more, is `m` steps. */
  lemma WrapStep(c: nat, m: nat, n: nat)
    requires n > 0 && m >= 1
    ensures Wrap(Wrap(c + 1, n) + (m - 1), n) == Wrap(c + m, n)
  {
    WrapShift(c + 1, m - 1, n);
  }

  /** A whole lap brings the cursor back where it was. */
  lemma WrapLap(a: nat, n: nat)
    requires n > 0
    ensures Wrap(a + n, n) == Wrap(a, n)
  {
  }

  /** The same for `%`: reducing the cursor first changes nothing. */
  lemma ModShift(a: nat, k: nat, n: nat)
    requires n > 0
    ensures (a % n + k) % n == (a + k) % n
  {
    WrapIsMod(a, n);
    WrapIsMod(a % n + k, n);
    WrapIsMod(a + k, n);
    WrapShift(a, k, n);
  }
}
