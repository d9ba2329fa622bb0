/** The linear system shared by encoder and decoder: which inputs each check and
    each encoding symbol covers, the precoded blocks, and what peeling can do
    with them.  Everything here holds of any code that meets `Valid`; the code
    of crates/orbit-fountain is one (module OrbitCode). */
module FountainCode {
  import opened NatSets
  import opened XorKernel
  import opened LinearSystem
  import opened Peeling

  /** `k` source inputs; one further input for each check, defined by the
      earlier inputs the check covers; and the inputs each encoding symbol
      combines. */
  datatype Code = Code(k: nat, checks: seq<set<nat>>, symbol: imap<nat, set<nat>>) {
    /** Total number of inputs. */
    function L(): nat { k + |checks| }

    /** Inputs combined in encoding symbol `esi`. */
    ghost function Symbol(esi: nat): set<nat> { if esi in symbol then symbol[esi] else {} }

    /** The contract of neighbour selection: in range, no check on its own,
        and systematic below L. */
    ghost predicate Valid() {
      && k >= 1
      && (forall i | 0 <= i < |checks| :: checks[i] != {} && Below(checks[i], k + i))
      && (forall esi: nat :: Below(Symbol(esi), L()) && (esi < L() ==> Symbol(esi) == {esi}))
    }
  }

  /** An encoding symbol as it travels (encoder.rs, EncodedSymbol). */
  datatype EncodedSymbol = EncodedSymbol(esi: nat, symbolSize: nat, data: Block)

  ghost function CheckShape(c: Code, i: nat): (r: Shape)
    requires c.Valid() && i < |c.checks|
    ensures Below(r, c.L())
  {
    c.checks[i] + {c.k + i}
  }

  /** Shapes of the first `n` checks. */
  ghost function CheckShapesUpto(c: Code, n: nat): (r: set<Shape>)
    requires c.Valid() && n <= |c.checks|
    ensures AllBelow(r, c.L()) && |r| <= n
    ensures forall i | 0 <= i < n :: CheckShape(c, i) in r
  {
    if n == 0 then {} else CheckShapesUpto(c, n - 1) + {CheckShape(c, n - 1)}
  }

  ghost function CheckShapes(c: Code): (r: set<Shape>)
    requires c.Valid()
    ensures AllBelow(r, c.L())
  {
    CheckShapesUpto(c, |c.checks|)
  }

  /** Inputs combined in encoding symbol `esi`. */
  ghost function SymbolShape(c: Code, esi: nat): (r: Shape)
    requires c.Valid()
    ensures Below(r, c.L())
    ensures esi < c.L() ==> r == {esi}
  {
    c.Symbol(esi)
  }

  ghost function SymbolShapes(c: Code, esis: set<nat>): (r: set<Shape>)
    requires c.Valid()
    ensures AllBelow(r, c.L())
  {
    set e | e in esis :: SymbolShape(c, e)
  }

  /** Everything the decoder can peel with after receiving `esis`. */
  ghost function Shapes(c: Code, esis: set<nat>): (r: set<Shape>)
    requires c.Valid()
    ensures AllBelow(r, c.L())
  {
    CheckShapes(c) + SymbolShapes(c, esis)
  }

  /** The inputs the decoder must have resolved after receiving `esis`. */
  ghost function Resolvable(c: Code, esis: set<nat>): set<nat>
    requires c.Valid()
  {
    Peelable(Shapes(c, esis), c.L())
  }

  ghost predicate Decodable(c: Code, esis: set<nat>)
    requires c.Valid()
  {
    Resolvable(c, esis) == Upto(c.L())
  }

  lemma ResolvableMonotone(c: Code, a: set<nat>, b: set<nat>)
    requires c.Valid() && a <= b
    ensures Resolvable(c, a) <= Resolvable(c, b)
    ensures Decodable(c, a) ==> Decodable(c, b)
  {
    PeelableMonotone(Shapes(c, a), Shapes(c, b), c.L());
  }

  // ---- How many symbols decoding takes ----

  lemma {:induction false} SymbolShapesCount(c: Code, esis: set<nat>)
    requires c.Valid()
    ensures |SymbolShapes(c, esis)| <= |esis|
  {
    if e :| e in esis {
      var rest := esis - {e};
      SymbolShapesCount(c, rest);
      assert SymbolShapes(c, esis) == SymbolShapes(c, rest) + {SymbolShape(c, e)};
    } else {
      assert SymbolShapes(c, esis) == {};
    }
  }

  /** Resolved inputs never outnumber checks plus distinct symbols. */
  lemma ResolvableCount(c: Code, esis: set<nat>)
    requires c.Valid()
    ensures |Resolvable(c, esis)| <= |c.checks| + |esis|
  {
    SymbolShapesCount(c, esis);
    UnionSize(CheckShapes(c), SymbolShapes(c, esis));
    PeelableCount(Shapes(c, esis), c.L());
  }

  /** Fewer than K distinct symbols never suffice. */
  lemma NeedsKSymbols(c: Code, esis: set<nat>)
    requires c.Valid() && Decodable(c, esis)
    ensures |esis| >= c.k
  {
    ResolvableCount(c, esis);
  }

  /** The K source symbols always suffice: the checks then resolve one by one. */
  lemma SourcesSuffice(c: Code, esis: set<nat>)
    requires c.Valid() && HasUpto(esis, c.k)
    ensures Decodable(c, esis)
  {
    forall x | 0 <= x < c.L()
      ensures x in Resolvable(c, esis)
    {
      ResolvesEach(c, esis, x);
    }
  }

  /** Among source symbols alone, exactly all K of them decode. */
  lemma SourcesDecodeAtK(c: Code, esis: set<nat>)
    requires c.Valid() && Below(esis, c.k)
    ensures Decodable(c, esis) <==> |esis| == c.k
  {
    BoundedSize(esis, c.k);
    if Decodable(c, esis) { NeedsKSymbols(c, esis); }
    if |esis| == c.k { SourcesSuffice(c, esis); }
  }

  /** With the inputs below it resolved, each input is the last of some shape:
      a source of its own symbol, a check input of its own check. */
  lemma ResolveNext(c: Code, esis: set<nat>, x: nat)
    requires c.Valid() && HasUpto(esis, c.k) && x < c.L()
    requires HasUpto(Resolvable(c, esis), x)
    ensures x in Resolvable(c, esis)
  {
    if x < c.k {
      var e := SymbolShape(c, x);
      assert x in esis && e in SymbolShapes(c, esis);
      assert e - {x} == {};
      PeelOne(Shapes(c, esis), e, x, c.L());
    } else {
      var e := CheckShape(c, x - c.k);
      assert e in CheckShapes(c);
      PeelOne(Shapes(c, esis), e, x, c.L());
    }
  }

  lemma {:induction false} ResolvesEach(c: Code, esis: set<nat>, x: nat)
    requires c.Valid() && HasUpto(esis, c.k) && x < c.L()
    ensures x in Resolvable(c, esis)
  {
    forall y | 0 <= y < x
      ensures y in Resolvable(c, esis)
    {
      ResolvesEach(c, esis, y);
    }
    ResolveNext(c, esis, x);
  }

  // ---- Precoded blocks ----

  /** Sources followed by the first `n` check blocks. */
  ghost function PrecodedUpto(c: Code, source: seq<Block>, n: nat, size: nat): (p: seq<Block>)
    requires c.Valid() && Assignment(source, c.k, size) && n <= |c.checks|
    ensures Assignment(p, c.k + n, size)
    ensures source <= p
  {
    if n == 0 then source
    else
      var p := PrecodedUpto(c, source, n - 1, size);
      p + [Sum(p, c.checks[n - 1], size)]
  }

  ghost function Precoded(c: Code, source: seq<Block>, size: nat): (p: seq<Block>)
    requires c.Valid() && Assignment(source, c.k, size)
    ensures Assignment(p, c.L(), size)
    ensures source <= p
  {
    PrecodedUpto(c, source, |c.checks|, size)
  }

  ghost function Check(c: Code, i: nat, size: nat): Equation
    requires c.Valid() && i < |c.checks|
  {
    Equation(CheckShape(c, i), Zeros(size))
  }

  /** The first `n` constraint equations. */
  ghost function ChecksUpto(c: Code, n: nat, size: nat): (r: set<Equation>)
    requires c.Valid() && n <= |c.checks|
    ensures forall i | 0 <= i < n :: Check(c, i, size) in r
  {
    if n == 0 then {} else ChecksUpto(c, n - 1, size) + {Check(c, n - 1, size)}
  }

  /** The constraint equations the decoder starts from. */
  ghost function Checks(c: Code, size: nat): set<Equation>
    requires c.Valid()
  {
    ChecksUpto(c, |c.checks|, size)
  }

  lemma {:induction false} PrecodedPrefix(c: Code, source: seq<Block>, m: nat, n: nat, size: nat)
    requires c.Valid() && Assignment(source, c.k, size) && m <= n <= |c.checks|
    ensures PrecodedUpto(c, source, m, size) <= PrecodedUpto(c, source, n, size)
    decreases n - m
  {
    if m < n { PrecodedPrefix(c, source, m, n - 1, size); }
  }

  lemma PrecodedMeetsCheck(c: Code, source: seq<Block>, i: nat, size: nat)
    requires c.Valid() && Assignment(source, c.k, size) && i < |c.checks|
    ensures Holds(Precoded(c, source, size), Check(c, i, size), size)
  {
    var q := PrecodedUpto(c, source, i, size);
    PrecodedPrefix(c, source, i + 1, |c.checks|, size);
    DefinedBlockCancels(q, Precoded(c, source, size), c.checks[i], c.k + i, size);
  }

  /** The encoder's blocks satisfy every check the decoder assumes. */
  lemma {:induction false} PrecodedSolvesUpto(c: Code, source: seq<Block>, n: nat, size: nat)
    requires c.Valid() && Assignment(source, c.k, size) && n <= |c.checks|
    ensures Solves(Precoded(c, source, size), ChecksUpto(c, n, size), c.L(), size)
  {
    if n > 0 {
      PrecodedSolvesUpto(c, source, n - 1, size);
      PrecodedMeetsCheck(c, source, n - 1, size);
    }
  }

  lemma PrecodedSolvesChecks(c: Code, source: seq<Block>, size: nat)
    requires c.Valid() && Assignment(source, c.k, size)
    ensures Solves(Precoded(c, source, size), Checks(c, size), c.L(), size)
  {
    PrecodedSolvesUpto(c, source, |c.checks|, size);
  }

  /** The data of encoding symbol `esi`. */
  ghost function Encoded(c: Code, p: seq<Block>, esi: nat, size: nat): Block
    requires c.Valid() && Assignment(p, c.L(), size)
  {
    Sum(p, SymbolShape(c, esi), size)
  }
}
