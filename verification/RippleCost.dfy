/** What peeling costs: block XORs over a whole run, against the degrees of the
    equations taken in (crates/orbit-fountain/src/decoder.rs lines 139-190). */
module RippleCost {
  import opened NatSets
  import opened XorKernel
  import opened LinearSystem
  import opened FountainCode
  import opened PeelingSpec
  import opened DecoderSpec
  import opened ReverseIndex

  ghost function Degree(sl: Slot): nat { if sl.Active? then |sl.eq.inputs| else 0 }

  /** Inputs still named by active equations, counted with multiplicity. */
  ghost function TotalDegree(active: seq<Slot>): nat {
    if active == [] then 0 else TotalDegree(active[..|active| - 1]) + Degree(active[|active| - 1])
  }

  lemma {:induction false} TotalDegreeUpdate(active: seq<Slot>, i: nat, sl: Slot)
    requires i < |active|
    ensures TotalDegree(active[i := sl]) + Degree(active[i]) == TotalDegree(active) + Degree(sl)
  {
    var n := |active| - 1;
    if i < n {
      TotalDegreeUpdate(active[..n], i, sl);
      assert active[i := sl][..n] == active[..n][i := sl];
    } else {
      assert active[i := sl][..n] == active[..n];
    }
  }

  lemma TotalDegreeAppend(active: seq<Slot>, sl: Slot)
    ensures TotalDegree(active + [sl]) == TotalDegree(active) + Degree(sl)
  {
    assert (active + [sl])[..|active|] == active;
  }

  /** One XOR for each equation that mentions the input. */
  ghost function TouchCost(w: Work, i: nat, r: nat): nat
    requires i < |w.active|
  {
    if Mentions(w.active[i], r) then 1 else 0
  }

  ghost function ScanCost(w: Work, n: nat, r: nat, l: nat, size: nat): nat
    requires n <= |w.active| && r in w.resolved && Fits(w, l, size)
  {
    if n == 0 then 0
    else ScanCost(w, n - 1, r, l, size) + TouchCost(ScanUpto(w, n - 1, r, l, size), n - 1, r)
  }

  ghost function RunCost(w: Work, l: nat, size: nat): nat
    requires Fits(w, l, size)
    decreases Remaining(w, l, size)
  {
    if w.queue == [] then 0
    else ScanCost(w.(queue := w.queue[1..]), |w.active|, w.queue[0], l, size) + RunCost(RippleStep(w, l, size), l, size)
  }

  lemma TouchPays(w: Work, i: nat, r: nat)
    requires i < |w.active| && r in w.resolved
    ensures TouchCost(w, i, r) + TotalDegree(Touch(w, i, r).active) <= TotalDegree(w.active)
  {
    if Mentions(w.active[i], r) {
      TotalDegreeUpdate(w.active, i, Touch(w, i, r).active[i]);
      assert Touch(w, i, r).active == w.active[i := Touch(w, i, r).active[i]];
    }
  }

  lemma {:induction false} ScanPays(w: Work, n: nat, r: nat, l: nat, size: nat)
    requires n <= |w.active| && r in w.resolved && Fits(w, l, size)
    ensures ScanCost(w, n, r, l, size) + TotalDegree(ScanUpto(w, n, r, l, size).active) <= TotalDegree(w.active)
  {
    if n > 0 {
      ScanPays(w, n - 1, r, l, size);
      TouchPays(ScanUpto(w, n - 1, r, l, size), n - 1, r);
    }
  }

  /** Slots that do not mention the input cost nothing. */
  lemma {:induction false} CostSkips(w: Work, p: nat, q: nat, r: nat, l: nat, size: nat)
    requires r in w.resolved && Fits(w, l, size) && UnlistedBetween(w.active, p, q, r)
    ensures ScanCost(w, q, r, l, size) == ScanCost(w, p, r, l, size)
    decreases q - p
  {
    if p < q {
      CostSkips(w, p, q - 1, r, l, size);
      ScanUnfolds(w, q - 1, r, l, size);
    }
  }

  /** Every XOR of a ripple uses up a mention of an input in an equation. */
  lemma {:induction false} RipplePays(w: Work, l: nat, size: nat)
    requires Fits(w, l, size)
    ensures RunCost(w, l, size) + TotalDegree(Ripple(w, l, size).active) <= TotalDegree(w.active)
    decreases Remaining(w, l, size)
  {
    if w.queue != [] {
      ScanPays(w.(queue := w.queue[1..]), |w.active|, w.queue[0], l, size);
      RipplePays(RippleStep(w, l, size), l, size);
    }
  }

  /** The degree a symbol brings, if it is not ignored. */
  ghost function Brought(c: Code, d: Decoder, sym: EncodedSymbol): nat {
    if Complete(c, d) || sym.esi in d.received then 0 else |c.Symbol(sym.esi)|
  }

  /** XORs spent on one symbol: cancelling what is known, then the ripple. */
  ghost function IngestCost(c: Code, size: nat, d: Decoder, sym: EncodedSymbol): nat
    requires c.Valid() && Fits(Resting(d), c.L(), size) && |sym.data| == size
  {
    if Complete(c, d) || sym.esi in d.received then 0
    else
      ArrivingArrives(c, size, d, sym);
      var e := Arriving(c, d, sym);
      |c.Symbol(sym.esi) * d.resolved.Keys| + AbsorbCost(Resting(d), e, c.L(), size)
  }

  ghost function AbsorbCost(w: Work, e: Equation, l: nat, size: nat): nat
    requires Fits(w, l, size) && Below(e.inputs, l) && |e.data| == size
  {
    if |e.inputs| == 1 then
      SeededFits(w, e, l, size);
      RunCost(Seeded(w, e), l, size)
    else 0
  }

  lemma AbsorbPays(w: Work, e: Equation, l: nat, size: nat)
    requires Fits(w, l, size) && Below(e.inputs, l) && |e.data| == size
    ensures AbsorbCost(w, e, l, size) + TotalDegree(Absorb(w, e, l, size).active) <= TotalDegree(w.active) + |e.inputs|
  {
    if |e.inputs| == 1 {
      SeededFits(w, e, l, size);
      RipplePays(Seeded(w, e), l, size);
    } else if e.inputs != {} {
      TotalDegreeAppend(w.active, Active(e));
    }
  }

  lemma IngestPays(c: Code, size: nat, d: Decoder, sym: EncodedSymbol)
    requires c.Valid() && Fits(Resting(d), c.L(), size) && |sym.data| == size
    ensures IngestCost(c, size, d, sym) + TotalDegree(Ingest(c, size, d, sym).active)
         <= TotalDegree(d.active) + if Ingest(c, size, d, sym) == d then 0 else |c.Symbol(sym.esi)|
  {
    if !(Complete(c, d) || sym.esi in d.received) {
      ArrivingArrives(c, size, d, sym);
      var s, known := c.Symbol(sym.esi), d.resolved.Keys;
      assert |s| == |s * known| + |s - known| by { assert s == s * known + (s - known); }
      AbsorbPays(Resting(d), Arriving(c, d, sym), c.L(), size);
      assert sym.esi in Ingest(c, size, d, sym).received;
    }
  }

  ghost function FeedCost(c: Code, size: nat, syms: seq<EncodedSymbol>): nat
    requires c.Valid() && Sized(syms, size)
  {
    if syms == [] then 0
    else FeedCost(c, size, syms[..|syms| - 1])
         + IngestCost(c, size, Feed(c, size, syms[..|syms| - 1]), syms[|syms| - 1])
  }

  /** Degrees of the symbols of a run, each ESI counted once. */
  ghost function SymbolDegrees(c: Code, syms: seq<EncodedSymbol>): nat {
    if syms == [] then 0
    else
      var rest, last := syms[..|syms| - 1], syms[|syms| - 1];
      SymbolDegrees(c, rest) + if last.esi in Esis(rest) then 0 else |c.Symbol(last.esi)|
  }

  /** Over a whole run the decoder spends no more block XORs than the degrees of
      the checks and of the distinct symbols add up to. */
  lemma {:induction false} TotalWorkIsLinear(c: Code, size: nat, syms: seq<EncodedSymbol>)
    requires c.Valid() && Sized(syms, size)
    ensures FeedCost(c, size, syms) + TotalDegree(Feed(c, size, syms).active)
         <= TotalDegree(Start(c, size).active) + SymbolDegrees(c, syms)
  {
    if syms != [] {
      var rest, last := syms[..|syms| - 1], syms[|syms| - 1];
      TotalWorkIsLinear(c, size, rest);
      IngestPays(c, size, Feed(c, size, rest), last);
      FeedReceives(c, size, rest);
    }
  }

  /** One more symbol: what it costs, and that it brings no more than its degree. */
  lemma FeedCostsOneMore(c: Code, size: nat, syms: seq<EncodedSymbol>, sym: EncodedSymbol)
    requires c.Valid() && Sized(syms, size) && |sym.data| == size
    ensures Sized(syms + [sym], size)
    ensures FeedCost(c, size, syms + [sym]) == FeedCost(c, size, syms) + IngestCost(c, size, Feed(c, size, syms), sym)
    ensures SymbolDegrees(c, syms) + Brought(c, Feed(c, size, syms), sym) <= SymbolDegrees(c, syms + [sym])
  {
    assert (syms + [sym])[..|syms|] == syms;
    FeedReceives(c, size, syms);
  }
}
