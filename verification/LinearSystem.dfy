/** XOR equations over numbered blocks: GF(2)-linear systems whose unknowns
    are the inputs of the fountain code. */
module LinearSystem {
  import opened NatSets
  import opened XorKernel

  /** The XOR of the blocks named by `inputs` is `data`. */
  datatype Equation = Equation(inputs: set<nat>, data: Block)

  /** One block of `size` bytes for each of `l` inputs. */
  ghost predicate Assignment(p: seq<Block>, l: nat, size: nat) {
    |p| == l && forall i | 0 <= i < l :: |p[i]| == size
  }

  /** XOR of the blocks `p[i]`, i in `s`, i below `n`. */
  ghost function SumBelow(p: seq<Block>, s: set<nat>, n: nat, size: nat): (r: Block)
    requires n <= |p| && Assignment(p, |p|, size)
    ensures |r| == size
  {
    if n == 0 then Zeros(size)
    else if n - 1 in s then XorBlock(SumBelow(p, s, n - 1, size), p[n - 1])
    else SumBelow(p, s, n - 1, size)
  }

  ghost function Sum(p: seq<Block>, s: set<nat>, size: nat): (r: Block)
    requires Assignment(p, |p|, size)
    ensures |r| == size
  {
    SumBelow(p, s, |p|, size)
  }

  ghost predicate Holds(p: seq<Block>, e: Equation, size: nat)
    requires Assignment(p, |p|, size)
  {
    e.data == Sum(p, e.inputs, size)
  }

  /** `p` solves every equation of `sys`. */
  ghost predicate Solves(p: seq<Block>, sys: set<Equation>, l: nat, size: nat) {
    && Assignment(p, l, size)
    && forall e | e in sys :: Holds(p, e, size)
  }

  /** `p` extends the partial assignment `known`. */
  ghost predicate Agrees(p: seq<Block>, known: map<nat, Block>) {
    forall x | x in known :: x < |p| && p[x] == known[x]
  }

  // ---- Sums over sets ----

  lemma {:induction false} SumBelowNone(p: seq<Block>, s: set<nat>, n: nat, size: nat)
    requires n <= |p| && Assignment(p, |p|, size)
    requires forall x | x in s :: x >= n
    ensures SumBelow(p, s, n, size) == Zeros(size)
  {
    if n > 0 { SumBelowNone(p, s, n - 1, size); }
  }

  /** The sum only looks at the blocks it names. */
  lemma {:induction false} SumBelowAgrees(p: seq<Block>, q: seq<Block>, s: set<nat>, t: set<nat>, n: nat, size: nat)
    requires n <= |p| && n <= |q| && Assignment(p, |p|, size) && Assignment(q, |q|, size)
    requires forall x | 0 <= x < n :: (x in s <==> x in t) && (x in s ==> p[x] == q[x])
    ensures SumBelow(p, s, n, size) == SumBelow(q, t, n, size)
  {
    if n > 0 { SumBelowAgrees(p, q, s, t, n - 1, size); }
  }

  /** Nothing is added above the largest member. */
  lemma {:induction false} SumBelowTrim(p: seq<Block>, s: set<nat>, m: nat, n: nat, size: nat)
    requires m <= n <= |p| && Assignment(p, |p|, size) && Below(s, m)
    ensures SumBelow(p, s, n, size) == SumBelow(p, s, m, size)
  {
    if m < n { SumBelowTrim(p, s, m, n - 1, size); }
  }

  /** Removing one member removes one summand. */
  lemma {:induction false} SumBelowRemove(p: seq<Block>, s: set<nat>, x: nat, n: nat, size: nat)
    requires n <= |p| && Assignment(p, |p|, size) && x in s && x < n
    ensures SumBelow(p, s, n, size) == XorBlock(SumBelow(p, s - {x}, n, size), p[x])
  {
    var t := s - {x};
    if x == n - 1 {
      SumBelowAgrees(p, p, s, t, n - 1, size);
    } else {
      SumBelowRemove(p, s, x, n - 1, size);
      if n - 1 in s {
        XorSwap(SumBelow(p, t, n - 1, size), p[x], p[n - 1]);
      }
    }
  }

  lemma SumRemove(p: seq<Block>, s: set<nat>, x: nat, size: nat)
    requires Assignment(p, |p|, size) && x in s && x < |p|
    ensures Sum(p, s, size) == XorBlock(Sum(p, s - {x}, size), p[x])
    ensures XorBlock(Sum(p, s, size), p[x]) == Sum(p, s - {x}, size)
  {
    SumBelowRemove(p, s, x, |p|, size);
    XorCancels(Sum(p, s - {x}, size), p[x]);
  }

  lemma SumAdd(p: seq<Block>, s: set<nat>, x: nat, size: nat)
    requires Assignment(p, |p|, size) && x !in s && x < |p|
    ensures Sum(p, s + {x}, size) == XorBlock(Sum(p, s, size), p[x])
  {
    SumRemove(p, s + {x}, x, size);
    assert s + {x} - {x} == s;
  }

  lemma SumEmpty(p: seq<Block>, size: nat)
    requires Assignment(p, |p|, size)
    ensures Sum(p, {}, size) == Zeros(size)
  {
    SumBelowNone(p, {}, |p|, size);
  }

  lemma SumSingleton(p: seq<Block>, x: nat, size: nat)
    requires Assignment(p, |p|, size) && x < |p|
    ensures Sum(p, {x}, size) == p[x]
  {
    SumEmpty(p, size);
    SumAdd(p, {}, x, size);
    assert {} + {x} == {x};
    XorCancels(p[x], p[x]);
  }

  /** A sum over members of a prefix may be taken in the prefix. */
  lemma SumOfPrefix(p: seq<Block>, q: seq<Block>, s: set<nat>, size: nat)
    requires p <= q && Assignment(q, |q|, size) && Below(s, |p|)
    ensures Assignment(p, |p|, size)
    ensures Sum(p, s, size) == Sum(q, s, size)
  {
    assert forall i | 0 <= i < |p| :: p[i] == q[i];
    SumBelowTrim(q, s, |p|, |q|, size);
    SumBelowAgrees(p, q, s, s, |p|, size);
  }

  /** A block defined as a sum of earlier ones cancels against that sum. */
  lemma DefinedBlockCancels(q: seq<Block>, p: seq<Block>, s: set<nat>, x: nat, size: nat)
    requires Assignment(p, |p|, size) && q <= p && x == |q| < |p| && Below(s, x)
    requires Assignment(q, |q|, size) && p[x] == Sum(q, s, size)
    ensures Sum(p, s + {x}, size) == Zeros(size)
  {
    SumOfPrefix(q, p, s, size);
    SumAdd(p, s, x, size);
    XorCancels(p[x], p[x]);
  }

  // ---- Substituting a known block ----

  /** `e` and `o` have the same solutions among the assignments that extend `known`. */
  ghost predicate SameMeaning(known: map<nat, Block>, e: Equation, o: Equation, l: nat, size: nat) {
    forall p: seq<Block> | Assignment(p, l, size) && Agrees(p, known) :: Holds(p, e, size) <==> Holds(p, o, size)
  }

  /** `e` with the known input `r` moved to its right-hand side. */
  ghost function Substitute(e: Equation, r: nat, block: Block): Equation {
    Equation(e.inputs - {r}, XorBlock(e.data, block))
  }

  lemma SubstituteKeepsMeaning(known: map<nat, Block>, e: Equation, o: Equation, r: nat, l: nat, size: nat)
    requires SameMeaning(known, e, o, l, size)
    requires r in known && r in e.inputs && |e.data| == size && |known[r]| == size
    ensures SameMeaning(known, Substitute(e, r, known[r]), o, l, size)
  {
    var e' := Substitute(e, r, known[r]);
    forall p: seq<Block> | Assignment(p, l, size) && Agrees(p, known)
      ensures Holds(p, e', size) <==> Holds(p, o, size)
    {
      assert Holds(p, e, size) <==> Holds(p, o, size);
      SumRemove(p, e.inputs, r, size);
      XorCancels(e.data, p[r]);
      XorCancels(Sum(p, e'.inputs, size), p[r]);
    }
  }

  lemma MeaningSurvivesGrowth(known: map<nat, Block>, more: map<nat, Block>, e: Equation, o: Equation, l: nat, size: nat)
    requires SameMeaning(known, e, o, l, size)
    requires forall x | x in known :: x in more && more[x] == known[x]
    ensures SameMeaning(more, e, o, l, size)
  {
    forall p: seq<Block> | Assignment(p, l, size) && Agrees(p, more)
      ensures Holds(p, e, size) <==> Holds(p, o, size)
    {
      assert Agrees(p, known);
    }
  }

  /** Every solution of `sys` extends `known`. */
  ghost predicate Forced(known: map<nat, Block>, sys: set<Equation>, l: nat, size: nat) {
    forall p: seq<Block> | Solves(p, sys, l, size) :: Agrees(p, known)
  }

  /** An equation left with a single input forces that input's block. */
  lemma LastInputIsForced(known: map<nat, Block>, sys: set<Equation>, e: Equation, o: Equation, x: nat, l: nat, size: nat)
    requires Forced(known, sys, l, size) && o in sys && SameMeaning(known, e, o, l, size)
    requires e.inputs == {x} && x < l
    ensures Forced(known[x := e.data], sys, l, size)
  {
    forall p: seq<Block> | Solves(p, sys, l, size)
      ensures Agrees(p, known[x := e.data])
    {
      assert Agrees(p, known) && Holds(p, o, size);
      SumSingleton(p, x, size);
    }
  }

  lemma ForcedByMore(known: map<nat, Block>, sys: set<Equation>, more: set<Equation>, l: nat, size: nat)
    requires Forced(known, sys, l, size) && sys <= more
    ensures Forced(known, more, l, size)
  {
    forall p: seq<Block> | Solves(p, more, l, size)
      ensures Agrees(p, known)
    {
      assert Solves(p, sys, l, size);
    }
  }
}
