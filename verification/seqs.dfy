/** Sequence helpers mirroring the JavaScript array operations the load
    balancer relies on: `indexOf` (first position or -1) and `splice(k, 1)`. */
module Seqs {

  /** No element occurs twice. */
  predicate NoDup<T(==)>(s: seq<T>) {
    forall i, j | 0 <= i < j < |s| :: s[i] != s[j]
  }

  /** Dropping the first element keeps a duplicate-free sequence
      duplicate-free, and the dropped element does not occur in the rest. */
  lemma NoDupTail<T>(s: seq<T>)
    requires NoDup(s) && s != []
    ensures NoDup(s[1..]) && s[0] !in s[1..]
  {
    forall a, b | 0 <= a < b < |s| - 1 ensures s[1..][a] != s[1..][b] {
      assert s[1..][a] == s[a + 1] && s[1..][b] == s[b + 1];
    }
  }

  /** `Array.prototype.indexOf`: the first position of `x` in `s`, or -1. */
  function IndexOf<T(==)>(s: seq<T>, x: T): (r: int)
    ensures -1 <= r < |s|
    ensures r < 0 <==> x !in s
    ensures 0 <= r ==> s[r] == x && x !in s[..r]
  {
    if |s| == 0 then -1
    else if s[0] == x then 0
    else
      var k := IndexOf(s[1..], x);
      assert s[1..][..if k < 0 then 0 else k] == s[1..if k < 0 then 1 else k + 1];
      if k < 0 then -1 else k + 1
  }

  /** `Array.prototype.splice(k, 1)`: drops the element at position `k`. */
  function RemoveAt<T>(s: seq<T>, k: nat): (r: seq<T>)
    requires k < |s|
    ensures |r| == |s| - 1
    ensures forall j | 0 <= j < k :: r[j] == s[j]
    ensures forall j | k <= j < |r| :: r[j] == s[j + 1]
    ensures multiset(r) == multiset(s) - multiset{s[k]}
  {
    assert s == s[..k] + [s[k]] + s[k + 1..];
    s[..k] + s[k + 1..]
  }

  /** Removing the first occurrence of `x` from a sequence that starts with
      some other element removes it from the tail. */
  lemma RemoveFirstCons<T>(y: T, t: seq<T>, x: T)
    requires x in t && y != x
    ensures IndexOf([y] + t, x) == IndexOf(t, x) + 1
    ensures RemoveAt([y] + t, IndexOf([y] + t, x)) == [y] + RemoveAt(t, IndexOf(t, x))
  {
    assert ([y] + t)[1..] == t;
  }

  /** Removing from the front part of a concatenation leaves the back part alone. */
  lemma RemoveAtAppend<T>(a: seq<T>, b: seq<T>, k: nat)
    requires k < |a|
    ensures RemoveAt(a + b, k) == RemoveAt(a, k) + b
  {
  }

  /** A value that occurs twice still occurs after removing any one element. */
  lemma RemoveKeepsDuplicate<T>(s: seq<T>, i: nat, a: nat, b: nat)
    requires i < |s| && a < b < |s| && s[a] == s[b]
    ensures s[a] in RemoveAt(s, i)
  {
    var r := RemoveAt(s, i);
    if i == a {
      assert r[b - 1] == s[b];
    } else if i < a {
      assert r[a - 1] == s[a];
    } else {
      assert r[a] == s[a];
    }
  }
}
