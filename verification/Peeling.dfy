/** What peeling can resolve, stated without an algorithm.

    A shape is the set of inputs of an equation.  A set of inputs is closed
    when no shape has exactly one input outside it; peeling can resolve
    precisely the inputs that belong to every closed set. */
module Peeling {
  import opened NatSets

  type Shape = set<nat>

  /** All inputs of `e` except possibly `x` are in `c`. */
  ghost predicate LastOf(e: Shape, x: nat, c: set<nat>) {
    x in e && forall y | y in e && y != x :: y in c
  }

  ghost predicate Closed(shapes: set<Shape>, c: set<nat>) {
    forall e, x {:trigger LastOf(e, x, c)} | e in shapes && LastOf(e, x, c) :: x in c
  }

  ghost predicate AllBelow(shapes: set<Shape>, l: nat) {
    forall e | e in shapes :: Below(e, l)
  }

  ghost predicate InEveryClosed(shapes: set<Shape>, x: nat) {
    forall c: set<nat> | Closed(shapes, c) :: x in c
  }

  /** The least fixpoint of peeling. */
  ghost function Peelable(shapes: set<Shape>, l: nat): set<nat> {
    set x: nat | x < l && InEveryClosed(shapes, x)
  }

  ghost predicate BelowEveryClosed(shapes: set<Shape>, r: set<nat>) {
    forall c: set<nat> | Closed(shapes, c) :: r <= c
  }

  lemma PeelableIsClosed(shapes: set<Shape>, l: nat)
    requires AllBelow(shapes, l)
    ensures Closed(shapes, Peelable(shapes, l))
  {
    var r := Peelable(shapes, l);
    forall e, x | e in shapes && LastOf(e, x, r)
      ensures x in r
    {
      forall c: set<nat> | Closed(shapes, c)
        ensures x in c
      {
        assert r <= c;
        assert LastOf(e, x, c);
      }
    }
  }

  /** A set that is closed and lies in every closed set is the fixpoint. */
  lemma PeelableIsUnique(shapes: set<Shape>, r: set<nat>, l: nat)
    requires Below(r, l) && Closed(shapes, r) && BelowEveryClosed(shapes, r)
    ensures r == Peelable(shapes, l)
  {
    assert forall x | x in Peelable(shapes, l) :: x in r;
  }

  lemma PeelableMonotone(shapes: set<Shape>, more: set<Shape>, l: nat)
    requires shapes <= more
    ensures Peelable(shapes, l) <= Peelable(more, l)
  {
    forall x | x in Peelable(shapes, l)
      ensures x in Peelable(more, l)
    {
      forall c: set<nat> | Closed(more, c)
        ensures x in c
      {
        assert Closed(shapes, c);
      }
    }
  }

  /** A shape whose other inputs are peelable makes its last input peelable. */
  lemma PeelOne(shapes: set<Shape>, e: Shape, x: nat, l: nat)
    requires e in shapes && AllBelow(shapes, l) && LastOf(e, x, Peelable(shapes, l))
    ensures x in Peelable(shapes, l)
  {
    PeelableIsClosed(shapes, l);
  }

  // ---- Derivations: the fixpoint, step by step ----

  /** Each entry is the last unresolved input of some shape, given the entries before it. */
  ghost predicate Derivation(shapes: set<Shape>, d: seq<nat>) {
    forall i | 0 <= i < |d| :: Justified(shapes, d, i)
  }

  ghost predicate Justified(shapes: set<Shape>, d: seq<nat>, i: nat)
    requires i < |d|
  {
    exists e | e in shapes :: LastOf(e, d[i], Elements(d[..i]))
  }

  lemma {:induction false} DerivationInEveryClosed(shapes: set<Shape>, d: seq<nat>, i: nat, c: set<nat>)
    requires Derivation(shapes, d) && i <= |d| && Closed(shapes, c)
    ensures forall y | y in d[..i] :: y in c
  {
    if i > 0 {
      DerivationInEveryClosed(shapes, d, i - 1, c);
      assert Justified(shapes, d, i - 1);
      var e :| e in shapes && LastOf(e, d[i - 1], Elements(d[..i - 1]));
      assert LastOf(e, d[i - 1], c);
      assert d[..i] == d[..i - 1] + [d[i - 1]];
    }
  }

  lemma ExtendDerivation(shapes: set<Shape>, d: seq<nat>, e: Shape, x: nat)
    requires Derivation(shapes, d) && e in shapes && LastOf(e, x, Elements(d))
    ensures Derivation(shapes, d + [x])
    ensures Elements(d + [x]) == Elements(d) + {x}
  {
    var d' := d + [x];
    forall i | 0 <= i < |d'|
      ensures Justified(shapes, d', i)
    {
      if i < |d| {
        assert Justified(shapes, d, i) && d'[..i] == d[..i] && d'[i] == d[i];
      } else {
        assert d'[..i] == d;
        assert LastOf(e, d'[i], Elements(d'[..i]));
      }
    }
  }

  lemma DerivedLiesInEveryClosed(shapes: set<Shape>, d: seq<nat>)
    requires Derivation(shapes, d)
    ensures BelowEveryClosed(shapes, Elements(d))
  {
    forall c: set<nat> | Closed(shapes, c)
      ensures Elements(d) <= c
    {
      DerivationInEveryClosed(shapes, d, |d|, c);
      assert d[..|d|] == d;
    }
  }

  /** Peels until nothing is left to peel, spending a different shape on each
      input: hence the count. */
  lemma {:induction false} Exhaust(shapes: set<Shape>, l: nat, d: seq<nat>, spent: set<Shape>) returns (full: seq<nat>)
    requires AllBelow(shapes, l) && Derivation(shapes, d) && Below(Elements(d), l)
    requires spent <= shapes && |Elements(d)| <= |spent| && forall e | e in spent :: e <= Elements(d)
    ensures Derivation(shapes, full)
    ensures Elements(full) == Peelable(shapes, l)
    ensures |Peelable(shapes, l)| <= |shapes|
    decreases l - |Elements(d)|
  {
    var r := Elements(d);
    BoundedSize(r, l);
    if e, x :| e in shapes && LastOf(e, x, r) && x !in r {
      ExtendDerivation(shapes, d, e, x);
      assert |r + {x}| == |r| + 1;
      BoundedSize(r + {x}, l);
      assert e !in spent;
      assert |spent + {e}| == |spent| + 1;
      full := Exhaust(shapes, l, d + [x], spent + {e});
    } else {
      DerivedLiesInEveryClosed(shapes, d);
      PeelableIsUnique(shapes, r, l);
      SubsetSize(spent, shapes);
      full := d;
    }
  }

  /** An input is peelable exactly when some derivation reaches it. */
  lemma PeelableIffDerivable(shapes: set<Shape>, x: nat, l: nat)
    requires AllBelow(shapes, l) && x < l
    ensures x in Peelable(shapes, l) <==> exists d :: Derivation(shapes, d) && x in d
  {
    if x in Peelable(shapes, l) {
      var d := Exhaust(shapes, l, [], {});
      assert x in Elements(d);
    }
    if d :| Derivation(shapes, d) && x in d {
      forall c: set<nat> | Closed(shapes, c)
        ensures x in c
      {
        DerivationInEveryClosed(shapes, d, |d|, c);
        assert d[..|d|] == d;
      }
    }
  }

  /** Peeling never resolves more inputs than there are shapes. */
  lemma PeelableCount(shapes: set<Shape>, l: nat)
    requires AllBelow(shapes, l)
    ensures |Peelable(shapes, l)| <= |shapes|
  {
    var _ := Exhaust(shapes, l, [], {});
  }
}
