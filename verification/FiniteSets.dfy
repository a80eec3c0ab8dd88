/** Sizes of finite sets. */
module FiniteSets {

  lemma SubsetSize<T>(a: set<T>, b: set<T>)
    requires a <= b
    ensures |a| <= |b|
    ensures |a| == |b| ==> a == b
  {
    assert b == a + (b - a);
  }

  /** A set has a subset of every smaller size. */
  lemma {:induction false} SubsetOfSize<T>(s: set<T>, k: nat) returns (r: set<T>)
    requires k <= |s|
    ensures r <= s && |r| == k
  {
    if k == 0 {
      r := {};
    } else {
      var x :| x in s;
      var rest := SubsetOfSize(s - {x}, k - 1);
      r := rest + {x};
    }
  }

  /** Sets that a function pairs off are of one size. */
  lemma {:induction false} PairedSize<A(!new), B(!new)>(a: set<A>, b: set<B>, f: A -> B)
    requires forall x :: x in a ==> f(x) in b
    requires forall x, y :: x in a && y in a && f(x) == f(y) ==> x == y
    requires forall y :: y in b ==> exists x :: x in a && f(x) == y
    ensures |a| == |b|
  {
    if a == {} {
      assert b == {};
    } else {
      var x :| x in a;
      PairedSize(a - {x}, b - {f(x)}, f);
    }
  }
}
