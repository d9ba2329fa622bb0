/** The peeling decoder as a function on values: the plain form, in which every
    ripple step scans all equations.  The class FountainDecoder reaches the same
    states through a reverse index. */
module PeelingSpec {
  import opened NatSets
  import opened XorKernel
  import opened LinearSystem
  import opened Peeling

  /** An equation slot: emptied, or still active. */
  datatype Slot = Removed | Active(eq: Equation)

  /** Decoder state inside a ripple; `queue` holds resolved inputs not yet
      substituted into the equations. */
  datatype Work = Work(resolved: map<nat, Block>, active: seq<Slot>, queue: seq<nat>)

  ghost predicate SlotFits(sl: Slot, l: nat, size: nat) {
    sl.Active? ==> Below(sl.eq.inputs, l) && |sl.eq.data| == size
  }

  ghost predicate Fits(w: Work, l: nat, size: nat) {
    && Below(w.resolved.Keys, l)
    && (forall x | x in w.resolved :: |w.resolved[x]| == size)
    && (forall i | 0 <= i < |w.active| :: SlotFits(w.active[i], l, size))
    && (forall x | x in w.queue :: x in w.resolved)
  }

  ghost predicate Mentions(sl: Slot, r: nat) { sl.Active? && r in sl.eq.inputs }

  /** Substitutes the resolved input `r` into the equation in slot `i`; an
      equation left with one unresolved input resolves it, an equation left
      with none is dropped unchecked. */
  ghost function Touch(w: Work, i: nat, r: nat): (w': Work)
    requires i < |w.active| && r in w.resolved
    ensures |w'.active| == |w.active|
    ensures forall x | x in w.resolved :: x in w'.resolved && w'.resolved[x] == w.resolved[x]
    ensures forall j | 0 <= j < |w.active| && j != i :: w'.active[j] == w.active[j]
  {
    if !Mentions(w.active[i], r) then w
    else
      var e := Substitute(w.active[i].eq, r, w.resolved[r]);
      if |e.inputs| == 1 && Only(e.inputs) !in w.resolved then
        var x := Only(e.inputs);
        Work(w.resolved[x := e.data], w.active[i := Removed], w.queue + [x])
      else if e.inputs == {} then w.(active := w.active[i := Removed])
      else w.(active := w.active[i := Active(e)])
  }

  lemma TouchFits(w: Work, i: nat, r: nat, l: nat, size: nat)
    requires i < |w.active| && r in w.resolved && Fits(w, l, size)
    ensures Fits(Touch(w, i, r), l, size)
    ensures |Touch(w, i, r).resolved| + |w.queue| == |w.resolved| + |Touch(w, i, r).queue|
  {
    if Mentions(w.active[i], r) {
      var e := Substitute(w.active[i].eq, r, w.resolved[r]);
      if |e.inputs| == 1 && Only(e.inputs) !in w.resolved {
        var x := Only(e.inputs);
        assert x in e.inputs;
        assert w.resolved[x := e.data].Keys == w.resolved.Keys + {x};
      }
    }
  }

  /** Substitutes `r` into slots 0..n-1, in order. */
  ghost function ScanUpto(w: Work, n: nat, r: nat, l: nat, size: nat): (w': Work)
    requires n <= |w.active| && r in w.resolved && Fits(w, l, size)
    ensures |w'.active| == |w.active| && r in w'.resolved
    ensures Fits(w', l, size)
    ensures |w'.resolved| + |w.queue| == |w.resolved| + |w'.queue|
  {
    if n == 0 then w
    else
      var v := ScanUpto(w, n - 1, r, l, size);
      TouchFits(v, n - 1, r, l, size);
      Touch(v, n - 1, r)
  }

  /** A scan resolves more, never less or otherwise, and leaves the later slots alone. */
  lemma {:induction false} ScanLeaves(w: Work, n: nat, r: nat, l: nat, size: nat)
    requires n <= |w.active| && r in w.resolved && Fits(w, l, size)
    ensures ScanUpto(w, n, r, l, size).resolved[r] == w.resolved[r]
    ensures forall i | n <= i < |w.active| :: ScanUpto(w, n, r, l, size).active[i] == w.active[i]
  {
    if n > 0 { ScanLeaves(w, n - 1, r, l, size); }
  }

  /** Takes the next resolved input and substitutes it everywhere. */
  ghost function RippleStep(w: Work, l: nat, size: nat): (w': Work)
    requires w.queue != [] && Fits(w, l, size)
    ensures Fits(w', l, size)
    ensures |w'.resolved| + |w.queue| == |w.resolved| + |w'.queue| + 1
  {
    ScanUpto(w.(queue := w.queue[1..]), |w.active|, w.queue[0], l, size)
  }

  /** What is left to do: inputs to resolve plus inputs to substitute. */
  ghost function Remaining(w: Work, l: nat, size: nat): nat
    requires Fits(w, l, size)
  {
    BoundedSize(w.resolved.Keys, l);
    l - |w.resolved| + |w.queue|
  }

  /** Runs until the queue is empty. */
  ghost function Ripple(w: Work, l: nat, size: nat): (w': Work)
    requires Fits(w, l, size)
    ensures w'.queue == [] && Fits(w', l, size)
    decreases Remaining(w, l, size)
  {
    if w.queue == [] then w else Ripple(RippleStep(w, l, size), l, size)
  }

  // ---- Invariant of the ripple ----

  ghost function ShapesOf(sys: set<Equation>): set<Shape> { set e | e in sys :: e.inputs }

  /** What slot `sl` has become, from the equation `o` that was put in it,
      once the inputs `gone` have been substituted. */
  ghost predicate Tracks(sl: Slot, o: Equation, gone: set<nat>, known: map<nat, Block>, l: nat, size: nat) {
    match sl
    case Removed => o.inputs <= known.Keys
    case Active(e) =>
      && e.inputs == o.inputs - gone && e.inputs != {}
      && (|e.inputs| == 1 ==> e.inputs <= known.Keys)
      && SameMeaning(known, e, o, l, size)
  }

  /** Every equation received still counts: it sits in a slot or is used up. */
  ghost predicate Accounted(known: map<nat, Block>, orig: seq<Equation>, sys: set<Equation>, l: nat) {
    && (forall i | 0 <= i < |orig| :: orig[i] in sys)
    && forall e | e in sys :: Below(e.inputs, l) && (e.inputs <= known.Keys || e in orig)
  }

  /** Facts about the resolved blocks: forced by the received equations, and no
      more than peeling can reach. */
  ghost predicate Sound(known: map<nat, Block>, sys: set<Equation>, l: nat, size: nat) {
    && Forced(known, sys, l, size)
    && BelowEveryClosed(ShapesOf(sys), known.Keys)
  }

  /** The slots below `n` have had `after` substituted, the others `before`. */
  ghost predicate SlotsTrack(w: Work, orig: seq<Equation>, n: nat, before: set<nat>, after: set<nat>, l: nat, size: nat) {
    && |orig| == |w.active|
    && forall i | 0 <= i < |orig| ::
         Tracks(w.active[i], orig[i], if i < n then after else before, w.resolved, l, size)
  }

  ghost predicate Invariant(w: Work, orig: seq<Equation>, sys: set<Equation>, n: nat,
                            before: set<nat>, after: set<nat>, l: nat, size: nat) {
    && Fits(w, l, size)
    && SlotsTrack(w, orig, n, before, after, l, size)
    && Accounted(w.resolved, orig, sys, l)
    && Sound(w.resolved, sys, l, size)
    && after + Elements(w.queue) == w.resolved.Keys
  }

  lemma TracksSurvivesGrowth(sl: Slot, o: Equation, gone: set<nat>, known: map<nat, Block>, more: map<nat, Block>, l: nat, size: nat)
    requires Tracks(sl, o, gone, known, l, size)
    requires forall x | x in known :: x in more && more[x] == known[x]
    ensures Tracks(sl, o, gone, more, l, size)
  {
    if sl.Active? { MeaningSurvivesGrowth(known, more, sl.eq, o, l, size); }
  }

  /** An equation with one input left resolves it soundly. */
  lemma ResolveIsSound(known: map<nat, Block>, sys: set<Equation>, e: Equation, o: Equation, x: nat, gone: set<nat>, l: nat, size: nat)
    requires Sound(known, sys, l, size) && o in sys && SameMeaning(known, e, o, l, size)
    requires e.inputs == {x} && e.inputs == o.inputs - gone && gone <= known.Keys && x < l
    ensures Sound(known[x := e.data], sys, l, size)
  {
    LastInputIsForced(known, sys, e, o, x, l, size);
    assert o.inputs in ShapesOf(sys);
    forall c: set<nat> | Closed(ShapesOf(sys), c)
      ensures known[x := e.data].Keys <= c
    {
      assert known.Keys <= c;
      assert x in e.inputs && forall y | y in o.inputs && y != x :: y in gone by {
        assert forall y | y in o.inputs && y !in gone :: y in e.inputs;
      }
      assert LastOf(o.inputs, x, c);
    }
  }

  /** The slot that is touched. */
  lemma TouchedSlotTracks(w: Work, o: Equation, i: nat, r: nat, gone: set<nat>, l: nat, size: nat)
    requires i < |w.active| && r in w.resolved && Fits(w, l, size)
    requires Tracks(w.active[i], o, gone, w.resolved, l, size) && gone <= w.resolved.Keys
    ensures Tracks(Touch(w, i, r).active[i], o, gone + {r}, Touch(w, i, r).resolved, l, size)
  {
    var sl := w.active[i];
    if Mentions(sl, r) {
      var e := Substitute(sl.eq, r, w.resolved[r]);
      SubstituteKeepsMeaning(w.resolved, sl.eq, o, r, l, size);
      assert e.inputs == o.inputs - (gone + {r});
      assert forall x | x in o.inputs :: x in w.resolved || x in e.inputs;
      if |e.inputs| == 1 {
        var x := Only(e.inputs);
        assert x in e.inputs;
      }
    } else if sl.Active? {
      assert sl.eq.inputs == o.inputs - (gone + {r});
    }
  }

  lemma TouchIsSound(w: Work, orig: seq<Equation>, sys: set<Equation>, i: nat, r: nat, gone: set<nat>, l: nat, size: nat)
    requires i < |w.active| && r in w.resolved && Fits(w, l, size) && |orig| == |w.active|
    requires Tracks(w.active[i], orig[i], gone, w.resolved, l, size) && gone + {r} <= w.resolved.Keys
    requires Accounted(w.resolved, orig, sys, l) && Sound(w.resolved, sys, l, size)
    ensures Accounted(Touch(w, i, r).resolved, orig, sys, l)
    ensures Sound(Touch(w, i, r).resolved, sys, l, size)
  {
    var sl := w.active[i];
    if Mentions(sl, r) {
      var e := Substitute(sl.eq, r, w.resolved[r]);
      SubstituteKeepsMeaning(w.resolved, sl.eq, orig[i], r, l, size);
      assert e.inputs == orig[i].inputs - (gone + {r});
      if |e.inputs| == 1 && Only(e.inputs) !in w.resolved {
        var x := Only(e.inputs);
        assert x in e.inputs && x in sl.eq.inputs;
        ResolveIsSound(w.resolved, sys, e, orig[i], x, gone + {r}, l, size);
      }
    }
  }

  /** One touch keeps the invariant and moves its boundary past the slot. */
  lemma TouchKeeps(w: Work, orig: seq<Equation>, sys: set<Equation>, i: nat, r: nat, gone: set<nat>, l: nat, size: nat)
    requires i < |w.active| && r in w.resolved
    requires Invariant(w, orig, sys, i, gone, gone + {r}, l, size)
    ensures Invariant(Touch(w, i, r), orig, sys, i + 1, gone, gone + {r}, l, size)
  {
    var w' := Touch(w, i, r);
    TouchFits(w, i, r, l, size);
    TouchedSlotTracks(w, orig[i], i, r, gone, l, size);
    TouchIsSound(w, orig, sys, i, r, gone, l, size);
    forall j | 0 <= j < |orig|
      ensures Tracks(w'.active[j], orig[j], if j < i + 1 then gone + {r} else gone, w'.resolved, l, size)
    {
      if j != i {
        TracksSurvivesGrowth(w.active[j], orig[j], if j < i then gone + {r} else gone, w.resolved, w'.resolved, l, size);
      }
    }
  }

  lemma {:induction false} ScanKeeps(w: Work, orig: seq<Equation>, sys: set<Equation>, n: nat, r: nat, gone: set<nat>, l: nat, size: nat)
    requires n <= |w.active| && r in w.resolved
    requires Invariant(w, orig, sys, 0, gone, gone + {r}, l, size)
    ensures Invariant(ScanUpto(w, n, r, l, size), orig, sys, n, gone, gone + {r}, l, size)
  {
    if n > 0 {
      ScanKeeps(w, orig, sys, n - 1, r, gone, l, size);
      TouchKeeps(ScanUpto(w, n - 1, r, l, size), orig, sys, n - 1, r, gone, l, size);
    }
  }

  /** Nothing left to substitute: all resolved inputs are gone from all equations. */
  ghost predicate Settled(w: Work, orig: seq<Equation>, sys: set<Equation>, l: nat, size: nat) {
    w.queue == [] && Invariant(w, orig, sys, 0, w.resolved.Keys, w.resolved.Keys, l, size)
  }

  lemma StepKeeps(w: Work, orig: seq<Equation>, sys: set<Equation>, gone: set<nat>, l: nat, size: nat)
    requires w.queue != [] && Invariant(w, orig, sys, 0, gone, gone, l, size)
    ensures Invariant(RippleStep(w, l, size), orig, sys, 0, gone + {w.queue[0]}, gone + {w.queue[0]}, l, size)
  {
    var r := w.queue[0];
    var v := w.(queue := w.queue[1..]);
    assert w.queue == [r] + v.queue;
    assert r in w.resolved;
    assert gone + {r} + Elements(v.queue) == w.resolved.Keys;
    assert Invariant(v, orig, sys, 0, gone, gone + {r}, l, size);
    ScanKeeps(v, orig, sys, |v.active|, r, gone, l, size);
  }

  lemma {:induction false} RippleSettles(w: Work, orig: seq<Equation>, sys: set<Equation>, gone: set<nat>, l: nat, size: nat)
    requires Invariant(w, orig, sys, 0, gone, gone, l, size)
    ensures Settled(Ripple(w, l, size), orig, sys, l, size)
    decreases Remaining(w, l, size)
  {
    if w.queue == [] {
      assert gone == w.resolved.Keys;
    } else {
      StepKeeps(w, orig, sys, gone, l, size);
      RippleSettles(RippleStep(w, l, size), orig, sys, gone + {w.queue[0]}, l, size);
    }
  }

  // ---- Taking in an equation ----

  lemma ShapesOfAdd(sys: set<Equation>, e: Equation)
    ensures ShapesOf(sys + {e}) == ShapesOf(sys) + {e.inputs}
  {
    assert e in sys + {e};
  }

  lemma SoundByMore(known: map<nat, Block>, sys: set<Equation>, o: Equation, l: nat, size: nat)
    requires Sound(known, sys, l, size)
    ensures Sound(known, sys + {o}, l, size)
  {
    ForcedByMore(known, sys, sys + {o}, l, size);
    ShapesOfAdd(sys, o);
    forall s: set<nat> | Closed(ShapesOf(sys + {o}), s)
      ensures known.Keys <= s
    {
      assert Closed(ShapesOf(sys), s);
    }
  }

  /** `e` is what is left of the arriving equation `o` over the resolved inputs. */
  ghost predicate Arrives(e: Equation, o: Equation, known: map<nat, Block>, l: nat, size: nat) {
    && Below(o.inputs, l) && |e.data| == size
    && e.inputs == o.inputs - known.Keys
    && SameMeaning(known, e, o, l, size)
  }

  lemma AccountedWithUsedUp(known: map<nat, Block>, more: map<nat, Block>, orig: seq<Equation>, sys: set<Equation>, o: Equation, l: nat)
    requires Accounted(known, orig, sys, l) && known.Keys <= more.Keys
    requires Below(o.inputs, l) && o.inputs <= more.Keys
    ensures Accounted(more, orig, sys + {o}, l)
  {}

  lemma AccountedWithStored(known: map<nat, Block>, orig: seq<Equation>, sys: set<Equation>, o: Equation, l: nat)
    requires Accounted(known, orig, sys, l) && Below(o.inputs, l)
    ensures Accounted(known, orig + [o], sys + {o}, l)
  {
    var more := orig + [o];
    assert more[|orig|] == o;
    assert forall q | q in orig :: q in more;
  }

  /** An equation with one unresolved input left seeds a ripple. */
  ghost function Seeded(w: Work, e: Equation): Work
    requires |e.inputs| == 1
  {
    Work(w.resolved[Only(e.inputs) := e.data], w.active, [Only(e.inputs)])
  }

  lemma SeededFits(w: Work, e: Equation, l: nat, size: nat)
    requires Fits(w, l, size) && |e.inputs| == 1 && Below(e.inputs, l) && |e.data| == size
    ensures Fits(Seeded(w, e), l, size)
  {
    var x := Only(e.inputs);
    assert x in e.inputs;
  }

  lemma SeedKeeps(w: Work, orig: seq<Equation>, sys: set<Equation>, e: Equation, o: Equation, l: nat, size: nat)
    requires Settled(w, orig, sys, l, size) && Arrives(e, o, w.resolved, l, size)
    requires |e.inputs| == 1
    ensures Invariant(Seeded(w, e), orig, sys + {o}, 0, w.resolved.Keys, w.resolved.Keys, l, size)
  {
    var w' := Seeded(w, e);
    var x := Only(e.inputs);
    assert x in e.inputs;
    SeededFits(w, e, l, size);
    SoundByMore(w.resolved, sys, o, l, size);
    ResolveIsSound(w.resolved, sys + {o}, e, o, x, w.resolved.Keys, l, size);
    assert forall y | y in o.inputs :: y in w.resolved || y in e.inputs;
    AccountedWithUsedUp(w.resolved, w'.resolved, orig, sys, o, l);
    forall i | 0 <= i < |orig|
      ensures Tracks(w'.active[i], orig[i], w.resolved.Keys, w'.resolved, l, size)
    {
      TracksSurvivesGrowth(w.active[i], orig[i], w.resolved.Keys, w.resolved, w'.resolved, l, size);
    }
    assert Elements(w'.queue) == {x};
  }

  /** An equation with several unresolved inputs gets a slot of its own. */
  ghost function Stored(w: Work, e: Equation): Work { w.(active := w.active + [Active(e)]) }

  lemma StoreKeeps(w: Work, orig: seq<Equation>, sys: set<Equation>, e: Equation, o: Equation, l: nat, size: nat)
    requires Settled(w, orig, sys, l, size) && Arrives(e, o, w.resolved, l, size)
    requires |e.inputs| != 1 && e.inputs != {}
    ensures Settled(Stored(w, e), orig + [o], sys + {o}, l, size)
  {
    SoundByMore(w.resolved, sys, o, l, size);
    AccountedWithStored(w.resolved, orig, sys, o, l);
    var w', more := Stored(w, e), orig + [o];
    forall i | 0 <= i < |more|
      ensures Tracks(w'.active[i], more[i], w.resolved.Keys, w.resolved, l, size)
      ensures SlotFits(w'.active[i], l, size)
    {
      if i < |orig| { assert w'.active[i] == w.active[i] && more[i] == orig[i]; }
    }
  }

  /** An equation with no unresolved input is dropped unchecked. */
  lemma DropKeeps(w: Work, orig: seq<Equation>, sys: set<Equation>, e: Equation, o: Equation, l: nat, size: nat)
    requires Settled(w, orig, sys, l, size) && Arrives(e, o, w.resolved, l, size)
    requires e.inputs == {}
    ensures Settled(w, orig, sys + {o}, l, size)
  {
    SoundByMore(w.resolved, sys, o, l, size);
    assert forall y | y in o.inputs :: y in w.resolved || y in e.inputs;
    AccountedWithUsedUp(w.resolved, w.resolved, orig, sys, o, l);
  }

  // ---- What a settled decoder knows ----

  lemma OnlyTheLast(e: Shape, x: nat, known: set<nat>)
    requires LastOf(e, x, known) && e - known != {}
    ensures e - known == {x} && |e - known| == 1
  {
    assert forall y | y in e - known :: y == x;
    var y :| y in e - known;
    assert y == x;
    assert e - known == {x};
  }

  /** An equation with one input outside the resolved ones would have been peeled. */
  lemma TrackedIsPeeled(sl: Slot, o: Equation, known: set<nat>, resolved: map<nat, Block>, x: nat, l: nat, size: nat)
    requires Tracks(sl, o, known, resolved, l, size) && known == resolved.Keys && LastOf(o.inputs, x, known)
    ensures x in known
  {
    if sl.Active? { OnlyTheLast(o.inputs, x, known); }
  }

  lemma SettledIsClosed(w: Work, orig: seq<Equation>, sys: set<Equation>, l: nat, size: nat)
    requires Settled(w, orig, sys, l, size)
    ensures Closed(ShapesOf(sys), w.resolved.Keys)
    ensures forall i | 0 <= i < |w.active| && w.active[i].Active? ::
              |w.active[i].eq.inputs| >= 2 && w.active[i].eq.inputs !! w.resolved.Keys
  {
    var known := w.resolved.Keys;
    forall i | 0 <= i < |w.active| && w.active[i].Active?
      ensures |w.active[i].eq.inputs| >= 2 && w.active[i].eq.inputs !! known
    {
      assert Tracks(w.active[i], orig[i], known, w.resolved, l, size);
    }
    forall s, x | s in ShapesOf(sys) && LastOf(s, x, known)
      ensures x in known
    {
      var e :| e in sys && s == e.inputs;
      if !(e.inputs <= known) {
        var i :| 0 <= i < |orig| && orig[i] == e;
        assert Tracks(w.active[i], orig[i], known, w.resolved, l, size);
        TrackedIsPeeled(w.active[i], e, known, w.resolved, x, l, size);
      }
    }
  }

  /** The resolved inputs are exactly the least fixpoint of peeling. */
  lemma SettledIsLeastFixpoint(w: Work, orig: seq<Equation>, sys: set<Equation>, l: nat, size: nat)
    requires Settled(w, orig, sys, l, size)
    ensures w.resolved.Keys == Peelable(ShapesOf(sys), l)
  {
    SettledIsClosed(w, orig, sys, l, size);
    PeelableIsUnique(ShapesOf(sys), w.resolved.Keys, l);
  }

  /** `p` extends the resolved blocks and satisfies every active equation. */
  ghost predicate SolvesState(p: seq<Block>, w: Work, l: nat, size: nat) {
    && Assignment(p, l, size)
    && Agrees(p, w.resolved)
    && forall i | 0 <= i < |w.active| && w.active[i].Active? :: Holds(p, w.active[i].eq, size)
  }

  /** Every solution of what was received solves the state, at any point of a ripple. */
  lemma ReceivedImpliesState(w: Work, orig: seq<Equation>, sys: set<Equation>, n: nat, before: set<nat>, after: set<nat>,
                             l: nat, size: nat, p: seq<Block>)
    requires Invariant(w, orig, sys, n, before, after, l, size)
    requires Solves(p, sys, l, size)
    ensures SolvesState(p, w, l, size)
  {
    assert Agrees(p, w.resolved);
    forall i | 0 <= i < |w.active| && w.active[i].Active?
      ensures Holds(p, w.active[i].eq, size)
    {
      assert Tracks(w.active[i], orig[i], if i < n then after else before, w.resolved, l, size);
      assert orig[i] in sys;
    }
  }

  /** Conversely, if what was received has a solution `q` at all, every solution
      of the state solves it: dropping exhausted equations loses nothing. */
  lemma StateImpliesReceived(w: Work, orig: seq<Equation>, sys: set<Equation>, n: nat, before: set<nat>, after: set<nat>,
                             l: nat, size: nat, p: seq<Block>, q: seq<Block>)
    requires Invariant(w, orig, sys, n, before, after, l, size)
    requires Solves(q, sys, l, size)
    requires SolvesState(p, w, l, size)
    ensures Solves(p, sys, l, size)
  {
    assert Agrees(q, w.resolved);
    forall e | e in sys
      ensures Holds(p, e, size)
    {
      if e.inputs <= w.resolved.Keys {
        UsedUpHolds(w.resolved, e, p, q, l, size);
      } else {
        var i :| 0 <= i < |orig| && orig[i] == e;
        assert Tracks(w.active[i], orig[i], if i < n then after else before, w.resolved, l, size);
      }
    }
  }

  /** Two extensions of the resolved blocks agree on an equation among resolved inputs. */
  lemma UsedUpHolds(known: map<nat, Block>, e: Equation, p: seq<Block>, q: seq<Block>, l: nat, size: nat)
    requires Assignment(p, l, size) && Assignment(q, l, size) && Agrees(p, known) && Agrees(q, known)
    requires e.inputs <= known.Keys && Holds(q, e, size)
    ensures Holds(p, e, size)
  {
    forall x | 0 <= x < l && x in e.inputs
      ensures p[x] == q[x]
    {
      assert x in known;
    }
    SumBelowAgrees(p, q, e.inputs, e.inputs, l, size);
  }
}
