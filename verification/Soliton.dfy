/** Neighbour selection (crates/orbit-fountain/src/soliton.rs, and the sampling
    loop of hdpc_neighbors in precode.rs).

    The seeded generator is a parameter: for each seed an endless stream of
    draws.  Everything the codec relies on about neighbours is proved here from
    one assumption, that a stream stays in range and eventually draws every
    index. */
module Soliton {
  import opened NatSets

  /** A generator's draws, up to a point by which every index has come up. */
  type Draws = seq<nat>

  // ---- Lists of inputs ----

  /** Every entry exceeds all entries before it. */
  ghost predicate StrictlyIncreasing(ns: seq<nat>) {
    ns == [] || (StrictlyIncreasing(ns[..|ns| - 1]) && Below(Elements(ns[..|ns| - 1]), ns[|ns| - 1]))
  }

  lemma OneIncreases(x: nat)
    ensures StrictlyIncreasing([x])
  {
    assert [x][..0] == [];
  }

  lemma {:induction false} PrefixIncreases(ns: seq<nat>, j: nat)
    requires StrictlyIncreasing(ns) && j <= |ns|
    ensures StrictlyIncreasing(ns[..j])
  {
    if j < |ns| {
      PrefixIncreases(ns[..|ns| - 1], j);
      assert ns[..|ns| - 1][..j] == ns[..j];
    } else {
      assert ns[..j] == ns;
    }
  }

  /** `ns` lists the members of `s` in increasing order. */
  ghost predicate Enumerates(ns: seq<nat>, s: set<nat>) {
    StrictlyIncreasing(ns) && Elements(ns) == s
  }

  /** The members of `s` below `n`, in increasing order: what sorting and
      removing duplicates leaves of any list of them. */
  function Ascending(s: set<nat>, n: nat): seq<nat> {
    if n == 0 then []
    else if n - 1 in s then Ascending(s, n - 1) + [n - 1]
    else Ascending(s, n - 1)
  }

  lemma {:induction false} AscendingEnumerates(s: set<nat>, n: nat)
    requires Below(s, n)
    ensures Enumerates(Ascending(s, n), s)
  {
    if n == 0 {
      assert s == {};
    } else if n - 1 in s {
      var below := Ascending(s, n - 1);
      AscendingEnumerates(s - {n - 1}, n - 1);
      AscendingIgnores(s, s - {n - 1}, n - 1);
      assert (below + [n - 1])[..|below|] == below;
      assert Elements(below + [n - 1]) == Elements(below) + {n - 1};
    } else {
      AscendingEnumerates(s, n - 1);
    }
  }

  lemma {:induction false} AscendingLength(s: set<nat>, n: nat)
    requires forall x | x in s :: x < n
    ensures |Ascending(s, n)| == |s|
  {
    if n == 0 {
      assert s == {};
    } else if n - 1 in s {
      AscendingLength(s - {n - 1}, n - 1);
      AscendingIgnores(s, s - {n - 1}, n - 1);
    } else {
      AscendingLength(s, n - 1);
    }
  }

  lemma {:induction false} AscendingIgnores(s: set<nat>, t: set<nat>, n: nat)
    requires forall x | 0 <= x < n :: x in s <==> x in t
    ensures Ascending(s, n) == Ascending(t, n)
  {
    if n > 0 { AscendingIgnores(s, t, n - 1); }
  }

  /** An increasing enumeration is unique. */
  lemma {:induction false} EnumerationIsAscending(ns: seq<nat>, s: set<nat>, n: nat)
    requires Enumerates(ns, s) && Below(s, n)
    ensures ns == Ascending(s, n)
    ensures |ns| == |s|
  {
    AscendingLength(s, n);
    if ns == [] {
      AscendingIgnores(s, {}, n);
      AscendingLength({}, n);
    } else {
      var rest, x := ns[..|ns| - 1], ns[|ns| - 1];
      assert ns == rest + [x];
      assert x in Elements(ns);
      assert Elements(rest) == s - {x};
      assert forall y | y in s :: y == x || y in Elements(rest);
      EnumerationIsAscending(rest, s - {x}, x);
      AscendingTrim(s, x, n);
      AscendingIgnores(s, s - {x}, x);
    }
  }

  /** Nothing is listed above the largest member. */
  lemma {:induction false} AscendingTrim(s: set<nat>, x: nat, n: nat)
    requires x in s && x < n && Below(s, x + 1)
    ensures Ascending(s, n) == Ascending(s, x) + [x]
  {
    if n - 1 != x { AscendingTrim(s, x, n - 1); }
  }

  // ---- Rejection sampling ----

  /** The distinct values among the first `m` draws. */
  ghost function Seen(draws: Draws, m: nat): set<nat>
    requires m <= |draws|
  {
    Elements(draws[..m])
  }

  /** The first `m` draws hold `target` distinct values. */
  ghost predicate ReachedAt(draws: Draws, target: nat, m: nat) { m <= |draws| && |Seen(draws, m)| == target }

  /** Draws stay below `n` and every index below `n` comes up. */
  ghost predicate Fair(draws: Draws, n: nat) {
    Below(Elements(draws), n) && |Elements(draws)| == n
  }

  lemma SeenStep(draws: Draws, m: nat)
    requires m < |draws|
    ensures Seen(draws, m + 1) == Seen(draws, m) + {draws[m]}
  {
    assert draws[..m + 1] == draws[..m] + [draws[m]];
  }

  lemma {:induction false} TargetIsReached(draws: Draws, target: nat, m: nat)
    requires m <= |draws| && target <= |Seen(draws, m)|
    ensures exists k: nat :: ReachedAt(draws, target, k)
  {
    assert Seen(draws, 0) == {};
    if |Seen(draws, m)| == target {
      assert ReachedAt(draws, target, m);
    } else {
      SeenStep(draws, m - 1);
      TargetIsReached(draws, target, m - 1);
    }
  }

  lemma SeenGrows(draws: Draws, a: nat, b: nat)
    requires a <= b <= |draws|
    ensures Seen(draws, a) <= Seen(draws, b)
  {
    assert draws[..a] == draws[..b][..a];
  }

  /** Any two prefixes with the same number of distinct values hold the same values. */
  lemma ReachedOnce(draws: Draws, target: nat, j: nat, k: nat)
    requires ReachedAt(draws, target, j) && ReachedAt(draws, target, k)
    ensures Seen(draws, j) == Seen(draws, k)
  {
    if j <= k {
      SeenGrows(draws, j, k);
      EqualSizes(Seen(draws, j), Seen(draws, k));
    } else {
      SeenGrows(draws, k, j);
      EqualSizes(Seen(draws, k), Seen(draws, j));
    }
  }

  lemma FairReaches(draws: Draws, n: nat, target: nat)
    requires Fair(draws, n) && target <= n
    ensures exists k: nat :: ReachedAt(draws, target, k)
  {
    assert draws[..|draws|] == draws;
    TargetIsReached(draws, target, |draws|);
  }

  /** The first `target` distinct draws. */
  ghost function Picked(draws: Draws, n: nat, target: nat): (s: set<nat>)
    requires Fair(draws, n) && target <= n
    ensures |s| == target && Below(s, n)
  {
    FairReaches(draws, n, target);
    var k: nat :| ReachedAt(draws, target, k);
    assert Seen(draws, k) <= Elements(draws);
    Seen(draws, k)
  }

  lemma SeenIsPicked(draws: Draws, n: nat, target: nat, k: nat)
    requires Fair(draws, n) && target <= n && ReachedAt(draws, target, k)
    ensures Seen(draws, k) == Picked(draws, n, target)
  {
    FairReaches(draws, n, target);
    var j: nat :| ReachedAt(draws, target, j) && Picked(draws, n, target) == Seen(draws, j);
    ReachedOnce(draws, target, j, k);
  }

  ghost function Marked(selected: seq<bool>): set<nat> { set j | 0 <= j < |selected| && selected[j] }

  lemma MarkOne(selected: seq<bool>, idx: nat)
    requires idx < |selected|
    ensures Marked(selected[idx := true]) == Marked(selected) + {idx}
    ensures |Marked(selected[idx := true])| == |Marked(selected)| + if selected[idx] then 0 else 1
  {
    assert Marked(selected[idx := true]) == Marked(selected) + {idx};
  }

  /** The rejection loop: draws until `target` distinct indices are selected. */
  method DrawDistinct(draws: Draws, n: nat, target: nat) returns (selected: seq<bool>)
    requires Fair(draws, n) && target <= n
    ensures |selected| == n
    ensures Marked(selected) == Picked(draws, n, target)
  {
    selected := seq(n, _ => false);
    var count, i := 0, 0;
    while count < target
      invariant |selected| == n && i <= |draws|
      invariant count == |Marked(selected)| <= target
      invariant Marked(selected) == Seen(draws, i)
      decreases |draws| - i
    {
      StillDrawing(draws, n, target, i);
      var idx := draws[i];
      assert idx in Elements(draws);
      MarkOne(selected, idx);
      SeenStep(draws, i);
      i := i + 1;
      if !selected[idx] {
        selected := selected[idx := true];
        count := count + 1;
      }
    }
    SeenIsPicked(draws, n, target, i);
  }

  lemma StillDrawing(draws: Draws, n: nat, target: nat, i: nat)
    requires Fair(draws, n) && target <= n && i <= |draws| && |Seen(draws, i)| < target
    ensures i < |draws|
  {
    assert draws[..|draws|] == draws;
  }

  /** The selected positions, in increasing order. */
  method Positions(selected: seq<bool>) returns (ns: seq<nat>)
    ensures Enumerates(ns, Marked(selected)) && |ns| == |Marked(selected)|
  {
    ghost var s := Marked(selected);
    ns := [];
    for j := 0 to |selected|
      invariant ns == Ascending(s, j)
    {
      if selected[j] { ns := ns + [j]; }
    }
    AscendingLength(s, |selected|);
    AscendingEnumerates(s, |selected|);
  }

  // ---- The sampler ----

  /** The seeded generators and the degree tables. */
  datatype Randomness = Randomness(
    unit: imap<nat, real>,             // first draw for an ESI, the degree deviate
    fountain: imap<(nat, nat), Draws>, // index draws for l inputs and an ESI
    dense: imap<(nat, nat), Draws>,    // index draws for n inputs and an HDPC check
    cdf: imap<nat, seq<real>>          // cumulative degree table for l inputs
  )

  /** Every generator and table is there; every generator is fair. */
  ghost predicate Lawful(r: Randomness) {
    && (forall esi: nat :: esi in r.unit)
    && (forall l: nat, esi: nat :: (l, esi) in r.fountain && Fair(r.fountain[(l, esi)], l))
    && (forall n: nat, i: nat :: (n, i) in r.dense && Fair(r.dense[(n, i)], n))
    && (forall l: nat :: l in r.cdf && |r.cdf[l]| == l + 1)
  }

  ghost function Counting(n: nat): (d: Draws)
    ensures |d| == n && forall i | 0 <= i < n :: d[i] == i
  {
    seq(n, i => i)
  }

  lemma CountingIsFair(n: nat)
    ensures Fair(Counting(n), n)
  {
    forall x | 0 <= x < n ensures x in Elements(Counting(n)) { assert Counting(n)[x] == x; }
    BoundedSize(Elements(Counting(n)), n);
    assert Elements(Counting(n)) == Upto(n);
  }

  function Even(l: nat): seq<real> { seq(l + 1, _ => 1.0) }

  ghost function CountingGenerators(): Randomness {
    Randomness(
      imap esi: nat | 0 <= esi :: Even(esi)[0],
      imap p: (nat, nat) | 0 <= p.0 :: Counting(p.0),
      imap p: (nat, nat) | 0 <= p.0 :: Counting(p.0),
      imap l: nat | 0 <= l :: Even(l))
  }

  /** The assumption can be met, by generators that count. */
  lemma LawfulExists()
    ensures Lawful(CountingGenerators())
  {
    var r := CountingGenerators();
    forall l: nat, esi: nat
      ensures (l, esi) in r.fountain && Fair(r.fountain[(l, esi)], l)
      ensures (l, esi) in r.dense && Fair(r.dense[(l, esi)], l)
    {
      CountingIsFair((l, esi).0);
    }
  }

  /** First degree from `d` on whose cumulative probability covers `u`, or 1. */
  function DegreeFrom(cdf: seq<real>, u: real, d: nat): (degree: nat)
    requires |cdf| >= 2 && 1 <= d
    ensures 1 <= degree < |cdf|
    decreases |cdf| - d
  {
    if d >= |cdf| then 1
    else if u <= cdf[d] then d
    else DegreeFrom(cdf, u, d + 1)
  }

  /** `degree` inverts the cumulative table at `u`: the first degree whose
      cumulative probability is not below `u`, or 1 if there is none. */
  ghost predicate Inverts(cdf: seq<real>, u: real, degree: nat) {
    && 1 <= degree < |cdf|
    && (|| (u <= cdf[degree] && forall d | 1 <= d < degree :: cdf[d] < u)
        || (degree == 1 && forall d | 1 <= d < |cdf| :: cdf[d] < u))
  }

  lemma {:induction false} DegreeInverts(cdf: seq<real>, u: real, d: nat)
    requires |cdf| >= 2 && 1 <= d <= |cdf| && forall i | 1 <= i < d :: cdf[i] < u
    ensures Inverts(cdf, u, DegreeFrom(cdf, u, d))
    decreases |cdf| - d
  {
    if d < |cdf| && cdf[d] < u { DegreeInverts(cdf, u, d + 1); }
  }

  /** No other degree does. */
  lemma InversionIsUnique(cdf: seq<real>, u: real, a: nat, b: nat)
    requires Inverts(cdf, u, a) && Inverts(cdf, u, b)
    ensures a == b
  {}

  /** The inputs combined in encoding symbol `esi` over `l` inputs. */
  ghost function Chosen(r: Randomness, l: nat, esi: nat): (s: set<nat>)
    requires Lawful(r) && l >= 1
    ensures s != {} && Below(s, l)
    ensures esi < l ==> s == {esi}
  {
    if l <= 1 then {0}
    else if esi < l then {esi}
    else Picked(r.fountain[(l, esi)], l, DegreeFrom(r.cdf[l], r.unit[esi], 1))
  }

  method GetNeighbors(r: Randomness, l: nat, esi: nat) returns (degree: nat, ns: seq<nat>)
    requires Lawful(r) && l >= 1
    ensures Enumerates(ns, Chosen(r, l, esi))
    ensures |ns| == degree
    ensures l > 1 && esi < l ==> ns == [esi]
    ensures l > 1 && esi >= l ==> Inverts(r.cdf[l], r.unit[esi], degree)
  {
    if l <= 1 {
      OneIncreases(0);
      return 1, [0];
    }
    if esi < l {
      OneIncreases(esi);
      return 1, [esi];
    }
    var u, cdf := r.unit[esi], r.cdf[l];
    degree := 1;
    var d := 1;
    while d <= l
      invariant 1 <= d <= l + 1
      invariant DegreeFrom(cdf, u, 1) == DegreeFrom(cdf, u, d)
      invariant degree == 1
    {
      if u <= cdf[d] { degree := d; break; }
      d := d + 1;
    }
    DegreeInverts(cdf, u, 1);
    var selected := DrawDistinct(r.fountain[(l, esi)], l, degree);
    ns := Positions(selected);
  }

  /** The inputs of dense check `i` over `n` inputs: about half of them. */
  ghost function DenseInputs(r: Randomness, n: nat, i: nat): (s: set<nat>)
    requires Lawful(r) && n >= 2
    ensures Below(s, n) && |s| == n / 2 + 1
  {
    Picked(r.dense[(n, i)], n, n / 2 + 1)
  }

  method HdpcNeighbors(r: Randomness, k: nat, s: nat, i: nat) returns (ns: seq<nat>)
    requires Lawful(r) && k + s >= 2
    ensures Enumerates(ns, DenseInputs(r, k + s, i)) && |ns| == (k + s) / 2 + 1
  {
    var l := k + s;
    var target := l / 2 + 1;
    var selected := DrawDistinct(r.dense[(l, i)], l, target);
    ns := Positions(selected);
  }
}
