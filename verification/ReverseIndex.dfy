/** The reverse index of the decoder (crates/orbit-fountain/src/decoder.rs, field
    `rev`): which equation slots still mention an input.  Visiting only the
    indexed slots reaches the same state as scanning all of them. */
module ReverseIndex {
  import opened NatSets
  import opened XorKernel
  import opened LinearSystem
  import opened PeelingSpec

  type Index = map<nat, seq<nat>>

  ghost predicate Ascends(slots: seq<nat>, n: nat) {
    && (forall a, b | 0 <= a < b < |slots| :: slots[a] < slots[b])
    && (forall a | 0 <= a < |slots| :: slots[a] < n)
  }

  ghost predicate Lists(rev: Index, x: nat, i: nat) { x in rev && i in rev[x] }

  /** Every active equation is listed under each of its inputs. */
  ghost predicate Covers(rev: Index, active: seq<Slot>) {
    && (forall i, x | 0 <= i < |active| && Mentions(active[i], x) :: Lists(rev, x, i))
    && (forall x | x in rev :: Ascends(rev[x], |active|))
  }

  ghost predicate UnlistedBetween(active: seq<Slot>, p: nat, q: nat, r: nat) {
    p <= q <= |active| && forall i | p <= i < q :: !Mentions(active[i], r)
  }

  /** Slots that do not mention the input are untouched by a scan. */
  lemma {:induction false} ScanSkips(w: Work, p: nat, q: nat, r: nat, l: nat, size: nat)
    requires r in w.resolved && Fits(w, l, size) && UnlistedBetween(w.active, p, q, r)
    ensures ScanUpto(w, q, r, l, size) == ScanUpto(w, p, r, l, size)
    decreases q - p
  {
    if p < q {
      ScanSkips(w, p, q - 1, r, l, size);
      ScanUnfolds(w, q - 1, r, l, size);
    }
  }

  lemma ScanUnfolds(w: Work, n: nat, r: nat, l: nat, size: nat)
    requires r in w.resolved && Fits(w, l, size) && n < |w.active|
    ensures ScanUpto(w, n, r, l, size).active[n] == w.active[n] && ScanUpto(w, n, r, l, size).resolved[r] == w.resolved[r]
    ensures ScanUpto(w, n + 1, r, l, size) == Touch(ScanUpto(w, n, r, l, size), n, r)
    ensures !Mentions(w.active[n], r) ==> ScanUpto(w, n + 1, r, l, size) == ScanUpto(w, n, r, l, size)
  {
    ScanLeaves(w, n, r, l, size);
  }

  /** From slot `p` on, the slots that mention `r` are all among `slots[j..]`. */
  ghost predicate Pending(active: seq<Slot>, slots: seq<nat>, j: nat, p: nat, r: nat) {
    && j <= |slots| && p <= |active|
    && (forall a | j <= a < |slots| :: p <= slots[a])
    && (forall i | p <= i < |active| && Mentions(active[i], r) :: ListedFrom(slots, j, i))
  }

  ghost predicate ListedFrom(slots: seq<nat>, j: nat, i: nat) { exists a | j <= a < |slots| :: slots[a] == i }

  lemma PendingStarts(active: seq<Slot>, slots: seq<nat>, r: nat)
    requires forall i | 0 <= i < |active| && Mentions(active[i], r) :: i in slots
    ensures Pending(active, slots, 0, 0, r)
  {}

  lemma PendingStep(active: seq<Slot>, slots: seq<nat>, j: nat, p: nat, r: nat)
    requires Pending(active, slots, j, p, r) && Ascends(slots, |active|) && j < |slots|
    ensures UnlistedBetween(active, p, slots[j], r)
    ensures Pending(active, slots, j + 1, slots[j] + 1, r)
  {
    forall i | p <= i < slots[j]
      ensures !Mentions(active[i], r)
    {
      assert !ListedFrom(slots, j, i);
    }
    forall i | slots[j] + 1 <= i < |active| && Mentions(active[i], r)
      ensures ListedFrom(slots, j + 1, i)
    {
      var a :| j <= a < |slots| && slots[a] == i;
      assert a != j;
    }
  }

  lemma PendingEnds(active: seq<Slot>, slots: seq<nat>, p: nat, r: nat)
    requires Pending(active, slots, |slots|, p, r)
    ensures UnlistedBetween(active, p, |active|, r)
  {
    forall i | p <= i < |active|
      ensures !Mentions(active[i], r)
    {
      assert !ListedFrom(slots, |slots|, i);
    }
  }

  /** A scan only removes inputs, the scanned one among them. */
  ghost predicate Shrunk(before: Slot, after: Slot, r: nat) {
    after.Active? ==> before.Active? && after.eq.inputs <= before.eq.inputs - {r}
  }

  lemma {:induction false} ScanShrinks(w: Work, n: nat, r: nat, l: nat, size: nat)
    requires r in w.resolved && Fits(w, l, size) && n <= |w.active|
    ensures forall i | 0 <= i < n :: Shrunk(w.active[i], ScanUpto(w, n, r, l, size).active[i], r)
  {
    if n > 0 {
      ScanShrinks(w, n - 1, r, l, size);
      var v := ScanUpto(w, n - 1, r, l, size);
      ScanLeaves(w, n - 1, r, l, size);
      TouchShrinks(v, n - 1, r);
    }
  }

  lemma TouchShrinks(w: Work, i: nat, r: nat)
    requires i < |w.active| && r in w.resolved
    ensures Shrunk(w.active[i], Touch(w, i, r).active[i], r)
  {}

  /** Dropping the scanned input's entry leaves an index for what the scan leaves. */
  lemma CoversAfterScan(rev: Index, active: seq<Slot>, after: seq<Slot>, r: nat)
    requires Covers(rev, active) && |after| == |active|
    requires forall i | 0 <= i < |active| :: Shrunk(active[i], after[i], r)
    ensures Covers(rev - {r}, after)
  {
    var rest := rev - {r};
    forall i, x | 0 <= i < |after| && Mentions(after[i], x)
      ensures Lists(rest, x, i)
    {
      assert Shrunk(active[i], after[i], r);
      assert Mentions(active[i], x) && x != r;
      assert Lists(rev, x, i);
    }
    forall x | x in rest
      ensures Ascends(rest[x], |after|)
    {
      assert rest[x] == rev[x];
    }
  }

  /** Lists the new slot `|active|` under one input. */
  function ListUnder(rev: Index, x: nat, slot: nat): Index {
    rev[x := (if x in rev then rev[x] else []) + [slot]]
  }

  /** The index while slot `slot` is being listed: done for all inputs but `todo`. */
  ghost predicate Listing(rev: Index, active: seq<Slot>, inputs: set<nat>, todo: set<nat>) {
    && todo <= inputs
    && (forall i, x | 0 <= i < |active| && Mentions(active[i], x) :: Lists(rev, x, i))
    && (forall x | x in inputs && x !in todo :: Lists(rev, x, |active|))
    && (forall x | x in rev :: Ascends(rev[x], if x in inputs && x !in todo then |active| + 1 else |active|))
  }

  lemma ListingStep(rev: Index, active: seq<Slot>, inputs: set<nat>, todo: set<nat>, x: nat)
    requires Listing(rev, active, inputs, todo) && x in todo
    ensures Listing(ListUnder(rev, x, |active|), active, inputs, todo - {x})
  {
    var more := ListUnder(rev, x, |active|);
    assert more[x][|more[x]| - 1] == |active|;
    forall i, y | 0 <= i < |active| && Mentions(active[i], y)
      ensures Lists(more, y, i)
    {
      assert Lists(rev, y, i);
      if y == x {
        var a :| 0 <= a < |rev[x]| && rev[x][a] == i;
        assert more[x][a] == i;
      }
    }
    forall y | y in inputs && y !in todo - {x}
      ensures Lists(more, y, |active|)
    {
      if y != x { assert Lists(rev, y, |active|); }
    }
    forall y | y in more
      ensures Ascends(more[y], if y in inputs && y !in todo - {x} then |active| + 1 else |active|)
    {
      if y == x {
        if x in rev { assert Ascends(rev[x], |active|); }
      } else {
        assert more[y] == rev[y];
      }
    }
  }

  lemma ListingDone(rev: Index, active: seq<Slot>, e: Equation)
    requires Listing(rev, active, e.inputs, {})
    ensures Covers(rev, active + [Active(e)])
  {
    var more := active + [Active(e)];
    forall i, x | 0 <= i < |more| && Mentions(more[i], x)
      ensures Lists(rev, x, i)
    {
      if i < |active| { assert more[i] == active[i]; }
    }
    forall x | x in rev
      ensures Ascends(rev[x], |more|)
    {}
  }

  lemma ListingStarts(rev: Index, active: seq<Slot>, inputs: set<nat>)
    requires Covers(rev, active)
    ensures Listing(rev, active, inputs, inputs)
  {}
}
