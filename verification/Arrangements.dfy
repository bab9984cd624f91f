/** Sequences that hold the same elements in different orders. */
module Arrangements {
  /** The last element of one arrangement, found in another. */
  lemma SameLast<T>(a: seq<T>, b: seq<T>) returns (k: nat)
    requires a != [] && multiset(a) == multiset(b)
    ensures k < |b| && b[k] == a[|a| - 1] && b == b[..k] + [b[k]] + b[k + 1..]
    ensures multiset(a[..|a| - 1]) == multiset(b[..k] + b[k + 1..])
  {
    var x := a[|a| - 1];
    assert a == a[..|a| - 1] + [x] + a[|a|..];
    TakenOut(a, |a| - 1);
    assert a[..|a| - 1] + a[|a|..] == a[..|a| - 1];
    InMultiset(a, b, x);
    k :| 0 <= k < |b| && b[k] == x;
    TakenOut(b, k);
    Cancel(multiset(a[..|a| - 1]), multiset(b[..k] + b[k + 1..]), x);
  }

  lemma InMultiset<T>(a: seq<T>, b: seq<T>, x: T)
    requires x in a && multiset(a) == multiset(b)
    ensures x in b
  {
    assert x in multiset(a);
    assert x in multiset(b);
  }

  lemma TakenOut<T>(b: seq<T>, k: nat)
    requires k < |b|
    ensures b == b[..k] + [b[k]] + b[k + 1..]
    ensures multiset(b) == multiset(b[..k] + b[k + 1..]) + multiset{b[k]}
  {
    var left, right := b[..k], b[k + 1..];
    assert b == left + [b[k]] + right;
    calc {
      multiset(b);
      multiset(left) + multiset{b[k]} + multiset(right);
      multiset(left + right) + multiset{b[k]};
    }
  }

  lemma Cancel<T>(a: multiset<T>, b: multiset<T>, x: T)
    requires a + multiset{x} == b + multiset{x}
    ensures a == b
  {
    assert a == a + multiset{x} - multiset{x};
    assert b == b + multiset{x} - multiset{x};
  }
}
