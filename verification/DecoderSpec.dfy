/** The decoder as a function of the symbols fed to it, and its theorems:
    confluence, meaning preservation, exact-K completion and genuine values
    (crates/orbit-fountain/src/decoder.rs). */
module DecoderSpec {
  import opened NatSets
  import opened XorKernel
  import opened LinearSystem
  import opened Peeling
  import opened Soliton
  import opened FountainCode
  import opened PeelingSpec

  /** Decoder state between calls.  `orig` and `sys` are history: the equation
      first stored in each slot, and every equation taken in so far. */
  datatype Decoder = Decoder(
    resolved: map<nat, Block>,
    active: seq<Slot>,
    received: set<nat>,
    orig: seq<Equation>,
    sys: set<Equation>)

  ghost predicate Complete(c: Code, d: Decoder) { |d.resolved| >= c.L() }

  ghost function Resting(d: Decoder): Work { Work(d.resolved, d.active, []) }

  /** Between calls: settled, over exactly the checks and the received symbols. */
  ghost predicate Good(c: Code, size: nat, d: Decoder)
    requires c.Valid()
  {
    && Settled(Resting(d), d.orig, d.sys, c.L(), size)
    && ShapesOf(d.sys) == Shapes(c, d.received)
  }

  // ---- Start ----

  ghost function CheckList(c: Code, size: nat): (r: seq<Equation>)
    requires c.Valid()
    ensures |r| == |c.checks| && forall i | 0 <= i < |r| :: r[i] == Check(c, i, size)
  {
    seq(|c.checks|, i requires 0 <= i < |c.checks| => Check(c, i, size))
  }

  ghost function Actives(es: seq<Equation>): (r: seq<Slot>)
    ensures |r| == |es| && forall i | 0 <= i < |es| :: r[i] == Active(es[i])
  {
    seq(|es|, i requires 0 <= i < |es| => Active(es[i]))
  }

  ghost function Start(c: Code, size: nat): Decoder
    requires c.Valid()
  {
    Decoder(map[], Actives(CheckList(c, size)), {}, CheckList(c, size), Checks(c, size))
  }

  lemma {:induction false} ChecksMembers(c: Code, n: nat, size: nat, e: Equation)
    requires c.Valid() && n <= |c.checks| && e in ChecksUpto(c, n, size)
    ensures exists i :: 0 <= i < n && e == Check(c, i, size)
  {
    if e in ChecksUpto(c, n - 1, size) {
      ChecksMembers(c, n - 1, size, e);
    } else {
      assert e == Check(c, n - 1, size);
    }
  }

  lemma {:induction false} ChecksShapes(c: Code, n: nat, size: nat)
    requires c.Valid() && n <= |c.checks|
    ensures ShapesOf(ChecksUpto(c, n, size)) == CheckShapesUpto(c, n)
  {
    if n > 0 {
      ChecksShapes(c, n - 1, size);
      ShapesOfAdd(ChecksUpto(c, n - 1, size), Check(c, n - 1, size));
    }
  }

  lemma CheckHasTwoInputs(c: Code, i: nat)
    requires c.Valid() && i < |c.checks|
    ensures |CheckShape(c, i)| >= 2
  {
    var x :| x in c.checks[i];
    SubsetSize({x, c.k + i}, CheckShape(c, i));
  }

  lemma StartTracks(c: Code, size: nat, i: nat)
    requires c.Valid() && i < |c.checks|
    ensures Tracks(Active(Check(c, i, size)), Check(c, i, size), {}, map[], c.L(), size)
    ensures SlotFits(Active(Check(c, i, size)), c.L(), size)
  {
    CheckHasTwoInputs(c, i);
    assert CheckShape(c, i) - {} == CheckShape(c, i);
  }

  lemma StartAccounts(c: Code, size: nat)
    requires c.Valid()
    ensures Accounted(map[], CheckList(c, size), Checks(c, size), c.L())
  {
    forall e | e in Checks(c, size)
      ensures Below(e.inputs, c.L()) && e in CheckList(c, size)
    {
      ChecksMembers(c, |c.checks|, size, e);
      var i :| 0 <= i < |c.checks| && e == Check(c, i, size);
      assert CheckList(c, size)[i] == e;
    }
  }

  lemma NothingIsSound(sys: set<Equation>, l: nat, size: nat)
    ensures Sound(map[], sys, l, size)
  {
    var none: map<nat, Block> := map[];
    assert none.Keys == {};
  }

  lemma StartSettles(c: Code, size: nat)
    requires c.Valid()
    ensures Settled(Resting(Start(c, size)), CheckList(c, size), Checks(c, size), c.L(), size)
  {
    var w := Resting(Start(c, size));
    assert w.resolved.Keys == {};
    forall i | 0 <= i < |c.checks|
      ensures Tracks(w.active[i], CheckList(c, size)[i], {}, map[], c.L(), size)
      ensures SlotFits(w.active[i], c.L(), size)
    {
      StartTracks(c, size, i);
    }
    StartAccounts(c, size);
    NothingIsSound(Checks(c, size), c.L(), size);
    assert Elements(w.queue) == {};
  }

  lemma StartIsGood(c: Code, size: nat)
    requires c.Valid()
    ensures Good(c, size, Start(c, size))
  {
    StartSettles(c, size);
    ChecksShapes(c, |c.checks|, size);
    assert SymbolShapes(c, {}) == {};
  }

  // ---- One symbol ----

  /** `o` with every already resolved input in the list moved to its right-hand side. */
  ghost function Cancelled(o: Equation, ns: seq<nat>, known: map<nat, Block>): (e: Equation)
    ensures |e.data| == |o.data|
  {
    if ns == [] then o
    else
      var e := Cancelled(o, ns[..|ns| - 1], known);
      var n := ns[|ns| - 1];
      if n in known then Substitute(e, n, known[n]) else e
  }

  lemma {:induction false} CancelledInputs(o: Equation, ns: seq<nat>, known: map<nat, Block>)
    ensures Cancelled(o, ns, known).inputs == o.inputs - (Elements(ns) * known.Keys)
  {
    if ns != [] {
      var rest, n := ns[..|ns| - 1], ns[|ns| - 1];
      CancelledInputs(o, rest, known);
      assert ns == rest + [n];
      assert Elements(ns) == Elements(rest) + {n};
    }
  }

  lemma {:induction false} CancelledMeaning(o: Equation, ns: seq<nat>, known: map<nat, Block>, l: nat, size: nat)
    requires StrictlyIncreasing(ns) && Elements(ns) <= o.inputs && |o.data| == size
    requires forall x | x in known :: |known[x]| == size
    ensures SameMeaning(known, Cancelled(o, ns, known), o, l, size)
  {
    if ns != [] {
      var rest, n := ns[..|ns| - 1], ns[|ns| - 1];
      assert forall x | x in Elements(rest) :: x in Elements(ns);
      CancelledMeaning(o, rest, known, l, size);
      if n in known {
        CancelledInputs(o, rest, known);
        assert n in Elements(ns) && n !in Elements(rest);
        SubstituteKeepsMeaning(known, Cancelled(o, rest, known), o, n, l, size);
      }
    }
  }

  ghost function EquationOf(c: Code, sym: EncodedSymbol): Equation {
    Equation(c.Symbol(sym.esi), sym.data)
  }

  /** The symbol's equation once the resolved inputs are cancelled out. */
  ghost function Arriving(c: Code, d: Decoder, sym: EncodedSymbol): Equation {
    Cancelled(EquationOf(c, sym), Ascending(c.Symbol(sym.esi), c.L()), d.resolved)
  }

  lemma ArrivingArrives(c: Code, size: nat, d: Decoder, sym: EncodedSymbol)
    requires c.Valid() && Fits(Resting(d), c.L(), size) && |sym.data| == size
    ensures Arrives(Arriving(c, d, sym), EquationOf(c, sym), d.resolved, c.L(), size)
  {
    var ns := Ascending(c.Symbol(sym.esi), c.L());
    AscendingEnumerates(c.Symbol(sym.esi), c.L());
    CancelledInputs(EquationOf(c, sym), ns, d.resolved);
    CancelledMeaning(EquationOf(c, sym), ns, d.resolved, c.L(), size);
  }

  /** The ripple state after one arrival. */
  ghost function Absorb(w: Work, e: Equation, l: nat, size: nat): (w': Work)
    requires Fits(w, l, size) && Below(e.inputs, l) && |e.data| == size
    ensures Fits(w', l, size)
    ensures w.queue == [] ==> w'.queue == []
  {
    if |e.inputs| == 1 then
      SeededFits(w, e, l, size);
      Ripple(Seeded(w, e), l, size)
    else if e.inputs != {} then Stored(w, e)
    else w
  }

  lemma AbsorbSettles(w: Work, orig: seq<Equation>, sys: set<Equation>, e: Equation, o: Equation, l: nat, size: nat)
    requires Settled(w, orig, sys, l, size) && Arrives(e, o, w.resolved, l, size)
    ensures Settled(Absorb(w, e, l, size), if |e.inputs| >= 2 then orig + [o] else orig, sys + {o}, l, size)
  {
    if |e.inputs| == 1 {
      SeedKeeps(w, orig, sys, e, o, l, size);
      RippleSettles(Seeded(w, e), orig, sys + {o}, w.resolved.Keys, l, size);
    } else if e.inputs != {} {
      StoreKeeps(w, orig, sys, e, o, l, size);
    } else {
      DropKeeps(w, orig, sys, e, o, l, size);
    }
  }

  /** Takes in one symbol: ignored if decoding is complete or its ESI was seen. */
  ghost function Ingest(c: Code, size: nat, d: Decoder, sym: EncodedSymbol): Decoder
    requires c.Valid() && Fits(Resting(d), c.L(), size) && |sym.data| == size
  {
    if Complete(c, d) || sym.esi in d.received then d
    else
      ArrivingArrives(c, size, d, sym);
      var e, o := Arriving(c, d, sym), EquationOf(c, sym);
      var w := Absorb(Resting(d), e, c.L(), size);
      Decoder(w.resolved, w.active, d.received + {sym.esi},
              if |e.inputs| >= 2 then d.orig + [o] else d.orig, d.sys + {o})
  }

  lemma IngestFits(c: Code, size: nat, d: Decoder, sym: EncodedSymbol)
    requires c.Valid() && Fits(Resting(d), c.L(), size) && |sym.data| == size
    ensures Fits(Resting(Ingest(c, size, d, sym)), c.L(), size)
  {
    if !(Complete(c, d) || sym.esi in d.received) {
      ArrivingArrives(c, size, d, sym);
      var w := Absorb(Resting(d), Arriving(c, d, sym), c.L(), size);
      assert Resting(Ingest(c, size, d, sym)) == w;
    }
  }

  lemma ShapesGrow(c: Code, esis: set<nat>, esi: nat)
    requires c.Valid()
    ensures Shapes(c, esis + {esi}) == Shapes(c, esis) + {c.Symbol(esi)}
  {
    assert SymbolShape(c, esi) in SymbolShapes(c, esis + {esi});
    assert SymbolShapes(c, esis + {esi}) == SymbolShapes(c, esis) + {SymbolShape(c, esi)};
  }

  lemma IngestIsGood(c: Code, size: nat, d: Decoder, sym: EncodedSymbol)
    requires c.Valid() && Good(c, size, d) && |sym.data| == size
    ensures Good(c, size, Ingest(c, size, d, sym))
  {
    if !(Complete(c, d) || sym.esi in d.received) {
      var e, o := Arriving(c, d, sym), EquationOf(c, sym);
      ArrivingArrives(c, size, d, sym);
      ShapesOfAdd(d.sys, o);
      ShapesGrow(c, d.received, sym.esi);
      var w := Absorb(Resting(d), e, c.L(), size);
      AbsorbSettles(Resting(d), d.orig, d.sys, e, o, c.L(), size);
      assert w.queue == [];
      assert Resting(Ingest(c, size, d, sym)) == w;
    }
  }

  // ---- Runs ----

  ghost predicate Sized(syms: seq<EncodedSymbol>, size: nat) {
    forall i | 0 <= i < |syms| :: |syms[i].data| == size
  }

  /** The decoder after a whole sequence of symbols. */
  ghost function Feed(c: Code, size: nat, syms: seq<EncodedSymbol>): (d: Decoder)
    requires c.Valid() && Sized(syms, size)
    ensures Fits(Resting(d), c.L(), size)
  {
    if syms == [] then
      StartIsGood(c, size);
      Start(c, size)
    else
      var d := Feed(c, size, syms[..|syms| - 1]);
      IngestFits(c, size, d, syms[|syms| - 1]);
      Ingest(c, size, d, syms[|syms| - 1])
  }

  /** Every state a run reaches is settled over exactly what was received. */
  lemma {:induction false} FeedIsGood(c: Code, size: nat, syms: seq<EncodedSymbol>)
    requires c.Valid() && Sized(syms, size)
    ensures Good(c, size, Feed(c, size, syms))
  {
    if syms == [] {
      StartIsGood(c, size);
    } else {
      FeedIsGood(c, size, syms[..|syms| - 1]);
      IngestIsGood(c, size, Feed(c, size, syms[..|syms| - 1]), syms[|syms| - 1]);
    }
  }

  lemma FeedNext(c: Code, size: nat, syms: seq<EncodedSymbol>, sym: EncodedSymbol)
    requires c.Valid() && Sized(syms, size) && |sym.data| == size
    ensures Sized(syms + [sym], size)
    ensures Fits(Resting(Feed(c, size, syms)), c.L(), size)
    ensures Feed(c, size, syms + [sym]) == Ingest(c, size, Feed(c, size, syms), sym)
  {
    assert (syms + [sym])[..|syms|] == syms;
  }

  /** The distinct ESIs of a sequence. */
  ghost function Esis(syms: seq<EncodedSymbol>): set<nat> {
    if syms == [] then {} else Esis(syms[..|syms| - 1]) + {syms[|syms| - 1].esi}
  }

  lemma GoodResolves(c: Code, size: nat, d: Decoder)
    requires c.Valid() && Good(c, size, d)
    ensures d.resolved.Keys == Resolvable(c, d.received)
    ensures Below(d.resolved.Keys, c.L())
  {
    SettledIsLeastFixpoint(Resting(d), d.orig, d.sys, c.L(), size);
  }

  lemma CompleteIffAll(c: Code, size: nat, d: Decoder)
    requires c.Valid() && Good(c, size, d)
    ensures Complete(c, d) <==> d.resolved.Keys == Upto(c.L())
  {
    BoundedSize(d.resolved.Keys, c.L());
  }

  /** ESIs are only skipped once decoding is complete. */
  lemma {:induction false} FeedReceives(c: Code, size: nat, syms: seq<EncodedSymbol>)
    requires c.Valid() && Sized(syms, size)
    ensures Feed(c, size, syms).received <= Esis(syms)
    ensures Complete(c, Feed(c, size, syms)) || Feed(c, size, syms).received == Esis(syms)
  {
    if syms != [] { FeedReceives(c, size, syms[..|syms| - 1]); }
  }

  /** Confluence: whatever the order and the duplicates, the resolved inputs are
      the least fixpoint of peeling over the checks and the received ESIs. */
  lemma Confluence(c: Code, size: nat, syms: seq<EncodedSymbol>)
    requires c.Valid() && Sized(syms, size)
    ensures Feed(c, size, syms).resolved.Keys == Resolvable(c, Esis(syms))
  {
    var d := Feed(c, size, syms);
    FeedIsGood(c, size, syms);
    FeedReceives(c, size, syms);
    GoodResolves(c, size, d);
    if Complete(c, d) {
      CompleteIffAll(c, size, d);
      ResolvableMonotone(c, d.received, Esis(syms));
      ResolvableBelow(c, Esis(syms));
    }
  }

  lemma ResolvableBelow(c: Code, esis: set<nat>)
    requires c.Valid()
    ensures Resolvable(c, esis) <= Upto(c.L())
  {}

  /** Receiving more ESIs, in any order, never resolves less; the same ESIs resolve the same. */
  lemma OrderAndDuplicatesDoNotMatter(c: Code, size: nat, syms: seq<EncodedSymbol>, more: seq<EncodedSymbol>)
    requires c.Valid() && Sized(syms, size) && Sized(more, size) && Esis(syms) <= Esis(more)
    ensures Feed(c, size, syms).resolved.Keys <= Feed(c, size, more).resolved.Keys
    ensures Esis(syms) == Esis(more) ==> Feed(c, size, syms).resolved.Keys == Feed(c, size, more).resolved.Keys
  {
    Confluence(c, size, syms);
    Confluence(c, size, more);
    ResolvableMonotone(c, Esis(syms), Esis(more));
  }

  /** Completion is a property of the set of ESIs. */
  lemma CompleteIffDecodable(c: Code, size: nat, syms: seq<EncodedSymbol>)
    requires c.Valid() && Sized(syms, size)
    ensures Complete(c, Feed(c, size, syms)) <==> Decodable(c, Esis(syms))
  {
    FeedIsGood(c, size, syms);
    Confluence(c, size, syms);
    CompleteIffAll(c, size, Feed(c, size, syms));
  }

  /** No run completes on fewer than K distinct symbols, and every run that has
      seen the K sources is complete. */
  lemma BetweenKAndSources(c: Code, size: nat, syms: seq<EncodedSymbol>)
    requires c.Valid() && Sized(syms, size)
    ensures Complete(c, Feed(c, size, syms)) ==> |Esis(syms)| >= c.k
    ensures HasUpto(Esis(syms), c.k) ==> Complete(c, Feed(c, size, syms))
  {
    CompleteIffDecodable(c, size, syms);
    if Decodable(c, Esis(syms)) { NeedsKSymbols(c, Esis(syms)); }
    if HasUpto(Esis(syms), c.k) { SourcesSuffice(c, Esis(syms)); }
  }

  /** Fed sources only, in any order and with any repetition, the decoder is
      complete exactly from the K-th distinct one on. */
  lemma CompletesExactlyAtK(c: Code, size: nat, syms: seq<EncodedSymbol>)
    requires c.Valid() && Sized(syms, size) && Below(Esis(syms), c.k)
    ensures Complete(c, Feed(c, size, syms)) <==> |Esis(syms)| == c.k
  {
    CompleteIffDecodable(c, size, syms);
    SourcesDecodeAtK(c, Esis(syms));
  }

  // ---- Meaning ----

  /** The checks and every symbol of the sequence, as equations. */
  ghost function AllEquations(c: Code, size: nat, syms: seq<EncodedSymbol>): set<Equation>
    requires c.Valid()
  {
    if syms == [] then Checks(c, size)
    else AllEquations(c, size, syms[..|syms| - 1]) + {EquationOf(c, syms[|syms| - 1])}
  }

  lemma {:induction false} FeedTakesIn(c: Code, size: nat, syms: seq<EncodedSymbol>)
    requires c.Valid() && Sized(syms, size)
    ensures Feed(c, size, syms).sys <= AllEquations(c, size, syms)
  {
    if syms != [] { FeedTakesIn(c, size, syms[..|syms| - 1]); }
  }

  /** Every solution of what was sent extends the resolved blocks and satisfies
      every equation still active. */
  lemma SolutionsSurvive(c: Code, size: nat, syms: seq<EncodedSymbol>, p: seq<Block>)
    requires c.Valid() && Sized(syms, size)
    requires Solves(p, AllEquations(c, size, syms), c.L(), size)
    ensures SolvesState(p, Resting(Feed(c, size, syms)), c.L(), size)
  {
    var d := Feed(c, size, syms);
    FeedIsGood(c, size, syms);
    FeedTakesIn(c, size, syms);
    ReceivedImpliesState(Resting(d), d.orig, d.sys, 0, d.resolved.Keys, d.resolved.Keys, c.L(), size, p);
  }

  /** A received ESI has its equation in the system. */
  lemma ReceivedEquation(c: Code, size: nat, d: Decoder, esi: nat) returns (e: Equation)
    requires c.Valid() && Good(c, size, d) && esi in d.received
    ensures e in d.sys && e.inputs == c.Symbol(esi)
  {
    assert SymbolShape(c, esi) in SymbolShapes(c, d.received);
    assert c.Symbol(esi) in ShapesOf(d.sys);
    e :| e in d.sys && e.inputs == c.Symbol(esi);
  }

  /** Solutions of the state that solve what was taken in satisfy the ignored
      symbols as well, as soon as all symbols have a common solution `q`. */
  lemma IgnoredSymbolHolds(c: Code, size: nat, syms: seq<EncodedSymbol>, i: nat, p: seq<Block>, q: seq<Block>)
    requires c.Valid() && Sized(syms, size) && i < |syms|
    requires Solves(q, AllEquations(c, size, syms), c.L(), size)
    requires SolvesState(p, Resting(Feed(c, size, syms)), c.L(), size)
    requires Solves(p, Feed(c, size, syms).sys, c.L(), size)
    requires Holds(q, EquationOf(c, syms[i]), size)
    ensures Holds(p, EquationOf(c, syms[i]), size)
  {
    var d := Feed(c, size, syms);
    FeedIsGood(c, size, syms);
    var e := EquationOf(c, syms[i]);
    if Complete(c, d) {
      CompleteIffAll(c, size, d);
      SolutionsSurvive(c, size, syms, q);
      UsedUpHolds(d.resolved, e, p, q, c.L(), size);
    } else {
      FeedReceives(c, size, syms);
      EsiOf(syms, i);
      var taken := ReceivedEquation(c, size, d, syms[i].esi);
      FeedTakesIn(c, size, syms);
      assert Holds(q, taken, size);
      assert taken == e;
    }
  }

  lemma {:induction false} StateMeetsAll(c: Code, size: nat, syms: seq<EncodedSymbol>, n: nat, p: seq<Block>, q: seq<Block>)
    requires c.Valid() && Sized(syms, size) && n <= |syms|
    requires Solves(q, AllEquations(c, size, syms), c.L(), size)
    requires SolvesState(p, Resting(Feed(c, size, syms)), c.L(), size)
    requires Solves(p, Feed(c, size, syms).sys, c.L(), size)
    ensures Solves(p, AllEquations(c, size, syms[..n]), c.L(), size)
  {
    if n == 0 {
      ChecksStay(c, size, syms);
    } else {
      StateMeetsAll(c, size, syms, n - 1, p, q);
      assert syms[..n][..n - 1] == syms[..n - 1];
      AllEquationsGrow(c, size, syms, n);
      IgnoredSymbolHolds(c, size, syms, n - 1, p, q);
    }
  }

  lemma {:induction false} AllEquationsGrow(c: Code, size: nat, syms: seq<EncodedSymbol>, n: nat)
    requires c.Valid() && n <= |syms|
    ensures AllEquations(c, size, syms[..n]) <= AllEquations(c, size, syms)
  {
    if n == |syms| {
      assert syms[..n] == syms;
    } else {
      AllEquationsGrow(c, size, syms[..|syms| - 1], n);
      assert syms[..|syms| - 1][..n] == syms[..n];
    }
  }

  lemma {:induction false} ChecksStay(c: Code, size: nat, syms: seq<EncodedSymbol>)
    requires c.Valid() && Sized(syms, size)
    ensures Checks(c, size) <= Feed(c, size, syms).sys
  {
    if syms != [] { ChecksStay(c, size, syms[..|syms| - 1]); }
  }

  lemma {:induction false} EsiOf(syms: seq<EncodedSymbol>, i: nat)
    requires i < |syms|
    ensures syms[i].esi in Esis(syms)
  {
    if i < |syms| - 1 { EsiOf(syms[..|syms| - 1], i); }
  }

  /** Meaning preservation over whole runs: if the symbols have a common solution,
      the assignments that satisfy the checks and all symbols are exactly those
      that satisfy the decoder's state. */
  lemma MeaningPreserved(c: Code, size: nat, syms: seq<EncodedSymbol>, p: seq<Block>, q: seq<Block>)
    requires c.Valid() && Sized(syms, size)
    requires Solves(q, AllEquations(c, size, syms), c.L(), size)
    ensures Solves(p, AllEquations(c, size, syms), c.L(), size)
       <==> SolvesState(p, Resting(Feed(c, size, syms)), c.L(), size)
  {
    var d := Feed(c, size, syms);
    FeedIsGood(c, size, syms);
    if Solves(p, AllEquations(c, size, syms), c.L(), size) {
      SolutionsSurvive(c, size, syms, p);
    }
    if SolvesState(p, Resting(d), c.L(), size) {
      FeedTakesIn(c, size, syms);
      StateImpliesReceived(Resting(d), d.orig, d.sys, 0, d.resolved.Keys, d.resolved.Keys, c.L(), size, p, q);
      StateMeetsAll(c, size, syms, |syms|, p, q);
      assert syms[..|syms|] == syms;
    }
  }

  /** A complete state has a solution: the resolved blocks, with no equation left to contradict them. */
  lemma CompleteStateIsSolvable(c: Code, size: nat, d: Decoder) returns (p: seq<Block>)
    requires c.Valid() && Good(c, size, d) && Complete(c, d)
    ensures SolvesState(p, Resting(d), c.L(), size)
  {
    CompleteIffAll(c, size, d);
    p := seq(c.L(), i requires 0 <= i < c.L() => if i in d.resolved then d.resolved[i] else Zeros(size));
    forall i | 0 <= i < c.L() ensures |p[i]| == size { assert i in Upto(c.L()); }
    SettledIsClosed(Resting(d), d.orig, d.sys, c.L(), size);
    forall i | 0 <= i < |d.active|
      ensures d.active[i].Removed?
    {
      NoInputLeft(d.active[i], d.resolved.Keys, c.L(), size);
    }
  }

  lemma NoInputLeft(sl: Slot, known: set<nat>, l: nat, size: nat)
    requires SlotFits(sl, l, size) && known == Upto(l)
    ensures !(sl.Active? && |sl.eq.inputs| >= 2 && sl.eq.inputs !! known)
  {
    if sl.Active? && |sl.eq.inputs| >= 2 {
      var x :| x in sl.eq.inputs;
      assert x in known;
    }
  }

  /** Whether an assignment solves the symbols exactly if it solves the state. */
  ghost predicate MeansTheSame(c: Code, size: nat, syms: seq<EncodedSymbol>)
    requires c.Valid() && Sized(syms, size)
  {
    forall p {:trigger Solves(p, AllEquations(c, size, syms), c.L(), size)} ::
      Solves(p, AllEquations(c, size, syms), c.L(), size) <==> SolvesState(p, Resting(Feed(c, size, syms)), c.L(), size)
  }

  ghost predicate Consistent(c: Code, size: nat, syms: seq<EncodedSymbol>)
    requires c.Valid()
  {
    exists q :: Solves(q, AllEquations(c, size, syms), c.L(), size)
  }

  lemma ConsistentMeansTheSame(c: Code, size: nat, syms: seq<EncodedSymbol>)
    requires c.Valid() && Sized(syms, size) && Consistent(c, size, syms)
    ensures MeansTheSame(c, size, syms)
  {
    var q :| Solves(q, AllEquations(c, size, syms), c.L(), size);
    forall p
      ensures Solves(p, AllEquations(c, size, syms), c.L(), size)
         <==> SolvesState(p, Resting(Feed(c, size, syms)), c.L(), size)
    {
      MeaningPreserved(c, size, syms, p, q);
    }
  }

  /** On a decodable set of ESIs the decoder's state means the same as the symbols
      exactly when the symbols have a common solution. */
  lemma MeaningPreservedIffConsistent(c: Code, size: nat, syms: seq<EncodedSymbol>)
    requires c.Valid() && Sized(syms, size) && Decodable(c, Esis(syms))
    ensures MeansTheSame(c, size, syms) <==> Consistent(c, size, syms)
  {
    CompleteIffDecodable(c, size, syms);
    FeedIsGood(c, size, syms);
    var p := CompleteStateIsSolvable(c, size, Feed(c, size, syms));
    if MeansTheSame(c, size, syms) {
      assert Solves(p, AllEquations(c, size, syms), c.L(), size);
    }
    if Consistent(c, size, syms) { ConsistentMeansTheSame(c, size, syms); }
  }

  ghost function AllZero(l: nat, size: nat): (p: seq<Block>)
    ensures Assignment(p, l, size) && forall i | 0 <= i < l :: p[i] == Zeros(size)
  {
    seq(l, _ => Zeros(size))
  }

  lemma {:induction false} ZeroSums(l: nat, size: nat, s: set<nat>, n: nat)
    requires n <= l
    ensures SumBelow(AllZero(l, size), s, n, size) == Zeros(size)
  {
    if n > 0 {
      ZeroSums(l, size, s, n - 1);
      XorCancels(Zeros(size), Zeros(size));
    }
  }

  lemma ZeroSolves(c: Code, size: nat, one: EncodedSymbol)
    requires c.Valid() && one.data == Zeros(size)
    ensures Solves(AllZero(c.L(), size), AllEquations(c, size, [one]), c.L(), size)
  {
    assert [one][..|[one]| - 1] == [];
    assert AllEquations(c, size, [one]) == AllEquations(c, size, []) + {EquationOf(c, one)};
    forall e | e in AllEquations(c, size, [one])
      ensures Holds(AllZero(c.L(), size), e, size)
    {
      if e != EquationOf(c, one) { ChecksMembers(c, |c.checks|, size, e); }
      ZeroSums(c.L(), size, e.inputs, c.L());
    }
  }

  lemma DuplicateIsIgnored(c: Code, size: nat, one: EncodedSymbol, two: EncodedSymbol)
    requires c.Valid() && |one.data| == |two.data| == size && one.esi == two.esi
    ensures Feed(c, size, [one] + [two]) == Feed(c, size, [one])
  {
    FeedReceives(c, size, [one]);
    assert one.esi in Esis([one]);
    FeedNext(c, size, [one], two);
  }

  /** A contradiction goes unnoticed: two different blocks for ESI 0 have no
      common solution, but the decoder ignores the second one. */
  lemma ContradictionGoesUnnoticed(c: Code, size: nat, b: Block)
    requires c.Valid() && |b| == size && b != Zeros(size)
    ensures var syms := [EncodedSymbol(0, size, Zeros(size))] + [EncodedSymbol(0, size, b)];
            && !(exists p :: Solves(p, AllEquations(c, size, syms), c.L(), size))
            && (exists p :: SolvesState(p, Resting(Feed(c, size, syms)), c.L(), size))
  {
    var one, two := EncodedSymbol(0, size, Zeros(size)), EncodedSymbol(0, size, b);
    ZeroSolves(c, size, one);
    SolutionsSurvive(c, size, [one], AllZero(c.L(), size));
    DuplicateIsIgnored(c, size, one, two);
    assert ([one] + [two])[..1] == [one];
    assert EquationOf(c, one) in AllEquations(c, size, [one]);
    assert EquationOf(c, one) in AllEquations(c, size, [one] + [two]) && EquationOf(c, two) in AllEquations(c, size, [one] + [two]);
  }

  // ---- Genuine symbols ----

  /** `sym` is what the encoder with blocks `p` sends for its ESI. */
  ghost predicate Genuine(c: Code, size: nat, p: seq<Block>, sym: EncodedSymbol)
    requires c.Valid() && Assignment(p, c.L(), size)
  {
    sym.data == Encoded(c, p, sym.esi, size)
  }

  ghost predicate AllGenuine(c: Code, size: nat, p: seq<Block>, syms: seq<EncodedSymbol>)
    requires c.Valid() && Assignment(p, c.L(), size)
  {
    forall i | 0 <= i < |syms| :: Genuine(c, size, p, syms[i])
  }

  lemma {:induction false} GenuineSolves(c: Code, size: nat, p: seq<Block>, syms: seq<EncodedSymbol>)
    requires c.Valid() && Solves(p, Checks(c, size), c.L(), size) && AllGenuine(c, size, p, syms)
    ensures Sized(syms, size)
    ensures Solves(p, AllEquations(c, size, syms), c.L(), size)
  {
    if syms != [] {
      GenuineSolves(c, size, p, syms[..|syms| - 1]);
      assert Genuine(c, size, p, syms[|syms| - 1]);
    }
  }

  /** With symbols of one encoder every resolved block is the encoder's block, and
      every active equation's data is the XOR of the encoder's blocks at the
      inputs it still names. */
  lemma ResolvedAreTheEncoders(c: Code, size: nat, p: seq<Block>, syms: seq<EncodedSymbol>)
    requires c.Valid() && Solves(p, Checks(c, size), c.L(), size) && AllGenuine(c, size, p, syms)
    ensures Sized(syms, size)
    ensures forall x | x in Feed(c, size, syms).resolved :: x < c.L() && Feed(c, size, syms).resolved[x] == p[x]
    ensures forall i | 0 <= i < |Feed(c, size, syms).active| && Feed(c, size, syms).active[i].Active? ::
              var e := Feed(c, size, syms).active[i].eq; e.data == Sum(p, e.inputs, size) && |e.inputs| >= 2
  {
    GenuineSolves(c, size, p, syms);
    SolutionsSurvive(c, size, syms, p);
    var d := Feed(c, size, syms);
    FeedIsGood(c, size, syms);
    SettledIsClosed(Resting(d), d.orig, d.sys, c.L(), size);
    forall i | 0 <= i < |d.active| && d.active[i].Active?
      ensures Holds(p, d.active[i].eq, size)
    {
      assert Resting(d).active[i] == d.active[i];
    }
  }
}
