/** Finite sets of indices. */
module NatSets {

  ghost predicate Below(s: set<nat>, n: nat) { forall x | x in s :: x < n }

  ghost predicate HasUpto(s: set<nat>, n: nat) { forall x | 0 <= x < n :: x in s }

  /** The inputs 0..n-1. */
  ghost function Upto(n: nat): (r: set<nat>)
    ensures forall x :: x in r <==> 0 <= x < n
    ensures |r| == n
  {
    if n == 0 then {} else Upto(n - 1) + {n - 1}
  }

  function Elements(d: seq<nat>): set<nat> { set x | x in d }

  lemma SingletonMember<T>(s: set<T>, x: T)
    requires |s| == 1 && x in s
    ensures s == {x}
  {
    assert |s - {x}| == 0;
  }

  ghost function Only(s: set<nat>): (x: nat)
    requires |s| == 1
    ensures s == {x}
  {
    var x :| x in s;
    SingletonMember(s, x);
    x
  }

  lemma SubsetSize<T>(a: set<T>, b: set<T>)
    requires a <= b
    ensures |a| <= |b|
  {
    assert |b| == |a| + |b - a| by { assert a + (b - a) == b; }
  }

  lemma UnionSize<T>(a: set<T>, b: set<T>)
    ensures |a + b| <= |a| + |b|
  {
    SubsetSize(b - a, b);
    assert a + b == a + (b - a);
  }

  lemma EqualSizes<T>(a: set<T>, b: set<T>)
    requires a <= b && |a| == |b|
    ensures a == b
  {
    assert |b| == |a| + |b - a| by { assert a + (b - a) == b; }
  }

  lemma BoundedSize(s: set<nat>, n: nat)
    requires Below(s, n)
    ensures |s| <= n
    ensures |s| == n <==> s == Upto(n)
  {
    SubsetSize(s, Upto(n));
    if |s| == n { EqualSizes(s, Upto(n)); }
  }
}
