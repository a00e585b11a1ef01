/** Sizes of finite sets. */
module Sets {

  ghost function Below(n: nat): (s: set<nat>)
    ensures |s| == n && forall e :: e in s <==> 0 <= e < n
  {
    if n == 0 then {} else Below(n - 1) + {n - 1}
  }

  lemma SubsetSize<T>(a: set<T>, b: set<T>)
    requires a <= b
    ensures |a| <= |b| && (|a| == |b| ==> a == b)
  {
    assert b == a + (b - a);
  }
}
