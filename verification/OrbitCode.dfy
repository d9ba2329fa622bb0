/** The code Orbit uses: strided LDPC checks, dense pseudo-random HDPC checks and
    soliton encoding symbols (crates/orbit-fountain/src/precode.rs). */
module OrbitCode {
  import opened NatSets
  import opened XorKernel
  import opened LinearSystem
  import opened Soliton
  import opened FountainCode
  import Precode

  ghost predicate OnStride(i: nat, s: nat, x: nat)
    requires s >= 1
  {
    i <= x && (x - i) % s == 0
  }

  ghost predicate InStride(k: nat, s: nat, i: nat, j: nat)
    requires k >= 1 && s >= 1
  {
    OnStride(i, s, j) || j == i % k || j == (i + 1) % k
  }

  /** Sources covered by LDPC check `i`. */
  ghost function LdpcInputs(k: nat, s: nat, i: nat): (r: set<nat>)
    requires k >= 1 && s >= 1
    ensures Below(r, k)
  {
    set j: nat | j < k && InStride(k, s, i, j)
  }

  /** LDPC check `i` covers the sources that leave `i` when divided by `s`, and two
      more: the `i`-th and the next, counted round. */
  lemma LdpcCovers(k: nat, s: nat, i: nat, x: nat)
    requires k >= 1 && i < s && x < k
    ensures x in LdpcInputs(k, s, i) <==> x % s == i || x == i % k || x == (i + 1) % k
  {
    if i <= x { StrideIsRemainder(s, i, x); } else { SmallRemainder(x, s); }
  }

  lemma SmallRemainder(x: nat, s: nat)
    requires x < s
    ensures x % s == x
  {}

  lemma StrideIsRemainder(s: nat, i: nat, x: nat)
    requires i < s && i <= x
    ensures (x - i) % s == 0 <==> x % s == i
  {
    var q, r := (x - i) / s, (x - i) % s;
    assert x - i == q * s + r;
    if r == 0 { MultipleMod(q, s, i); }
    var d := x / s;
    assert x == d * s + x % s;
    if x % s == i { MultipleMod(d, s, 0); }
  }

  /** Every source is in the LDPC check of its remainder, and neighbouring checks
      share the source between them. */
  lemma LdpcOverlaps(k: nat, s: nat, i: nat)
    requires k >= 1 && i < s
    ensures (i + 1) % k in LdpcInputs(k, s, i) && (i + 1 < s ==> (i + 1) % k in LdpcInputs(k, s, i + 1))
    ensures forall x | 0 <= x < k && x % s == i :: x in LdpcInputs(k, s, i)
  {
    forall x | 0 <= x < k && x % s == i
      ensures x in LdpcInputs(k, s, i)
    {
      LdpcCovers(k, s, i, x);
    }
  }

  /** Inputs covered by check `i`: LDPC checks first, then HDPC. */
  ghost function CheckInputs(rand: Randomness, k: nat, s: nat, i: nat): (r: set<nat>)
    requires k >= 1 && s >= 2 && Lawful(rand)
    ensures r != {} && Below(r, k + i)
  {
    if i < s then
      assert i % k in LdpcInputs(k, s, i);
      LdpcInputs(k, s, i)
    else DenseInputs(rand, k + s, i - s)
  }

  ghost function CheckList(rand: Randomness, k: nat, s: nat, h: nat): seq<set<nat>>
    requires k >= 1 && s >= 2 && Lawful(rand)
  {
    seq(s + h, i requires 0 <= i < s + h => CheckInputs(rand, k, s, i))
  }

  ghost function SymbolTable(rand: Randomness, l: nat): imap<nat, set<nat>>
    requires Lawful(rand) && l > 1
  {
    imap esi: nat | 0 <= esi :: Chosen(rand, l, esi)
  }

  lemma MeetsContract(rand: Randomness, k: nat, s: nat, h: nat)
    requires k >= 1 && s >= 2 && Lawful(rand)
    ensures Code(k, CheckList(rand, k, s, h), SymbolTable(rand, k + s + h)).Valid()
  {
    var c := Code(k, CheckList(rand, k, s, h), SymbolTable(rand, k + s + h));
    forall i | 0 <= i < |c.checks|
      ensures c.checks[i] != {} && Below(c.checks[i], c.k + i)
    {
      assert c.checks[i] == CheckInputs(rand, k, s, i);
    }
    forall esi: nat
      ensures Below(c.Symbol(esi), c.L()) && (esi < c.L() ==> c.Symbol(esi) == {esi})
    {
      assert c.Symbol(esi) == Chosen(rand, c.L(), esi);
    }
  }

  /** The code both ends derive from K alone. */
  ghost function CodeFor(k: nat, rand: Randomness): (c: Code)
    requires k >= 1 && Lawful(rand)
    ensures c.Valid() && c.k == k && c.L() > 1
  {
    var s, h := Precode.SFor(k), Precode.HFor(k);
    MeetsContract(rand, k, s, h);
    Code(k, CheckList(rand, k, s, h), SymbolTable(rand, k + s + h))
  }

  /** The first `s` checks are the strided ones, the other `h` the dense ones. */
  ghost predicate ChecksAre(c: Code, rand: Randomness, s: nat, h: nat)
    requires c.k >= 1 && s >= 2 && Lawful(rand)
  {
    && |c.checks| == s + h
    && (forall i: nat | i < s :: c.checks[i] == LdpcInputs(c.k, s, i))
    && (forall i: nat | s <= i < s + h :: c.checks[i] == DenseInputs(rand, c.k + s, i - s))
  }

  lemma ListedChecks(k: nat, s: nat, h: nat, rand: Randomness)
    requires k >= 1 && s >= 2 && Lawful(rand)
    ensures ChecksAre(Code(k, CheckList(rand, k, s, h), SymbolTable(rand, k + s + h)), rand, s, h)
  {
    var checks := CheckList(rand, k, s, h);
    forall i: nat | i < s + h
      ensures checks[i] == CheckInputs(rand, k, s, i)
    {}
  }

  lemma CodeChecks(k: nat, rand: Randomness)
    requires k >= 1 && Lawful(rand)
    ensures ChecksAre(CodeFor(k, rand), rand, Precode.SFor(k), Precode.HFor(k))
    ensures CodeFor(k, rand).L() == k + Precode.SFor(k) + Precode.HFor(k)
  {
    ListedChecks(k, Precode.SFor(k), Precode.HFor(k), rand);
  }

  /** Each symbol of the code combines the sampler's choice. */
  lemma CodeSymbol(k: nat, rand: Randomness, esi: nat)
    requires k >= 1 && Lawful(rand)
    ensures CodeFor(k, rand).Symbol(esi) == Chosen(rand, CodeFor(k, rand).L(), esi)
  {}

  // ---- The source's own computations ----

  /** Between two members of the stride there is no third. */
  lemma StrideStep(i: nat, s: nat, t: nat, x: nat)
    requires s >= 1 && i + t * s <= x < i + t * s + s
    ensures OnStride(i, s, x) <==> x == i + t * s
  {
    MultipleMod(t, s, x - i - t * s);
  }

  /** The vector before sorting: a stride of `s` from `i`, then two wrapped positions. */
  method PrecodeNeighbors(k: nat, s: nat, i: nat) returns (ns: seq<nat>)
    requires k >= 1 && s >= 1
    ensures Enumerates(ns, LdpcInputs(k, s, i))
  {
    var n: seq<nat> := [];
    var j := i;
    ghost var t := 0;
    while j < k
      invariant i <= j && j == i + t * s
      invariant forall x | x in n :: x < k && OnStride(i, s, x)
      invariant forall x | i <= x < j && x < k && OnStride(i, s, x) :: x in n
      decreases k - j
    {
      forall x | j <= x < j + s ensures OnStride(i, s, x) <==> x == j { StrideStep(i, s, t, x); }
      Precode.Distribute(t, 1, s);
      n := n + [j];
      j, t := j + s, t + 1;
    }
    n := n + [i % k];
    n := n + [(i + 1) % k];
    ns := Ascending(Elements(n), k);
    AscendingEnumerates(Elements(n), k);
    assert Elements(ns) == LdpcInputs(k, s, i);
  }

  lemma MultipleMod(t: nat, s: nat, r: nat)
    requires r < s
    ensures (t * s + r) % s == r
  {
    var m := t * s + r;
    var q := m / s;
    assert m == q * s + m % s;
    if q < t {
      Precode.MulMonotone(q + 1, t, s);
      Precode.Distribute(q, 1, s);
      assert false;
    }
    if q > t {
      Precode.MulMonotone(t + 1, q, s);
      Precode.Distribute(t, 1, s);
      assert false;
    }
  }

  /** XOR of the listed blocks. */
  method XorOver(blocks: seq<Block>, ns: seq<nat>, size: nat) returns (data: Block)
    requires Assignment(blocks, |blocks|, size) && StrictlyIncreasing(ns)
    requires Below(Elements(ns), |blocks|)
    ensures data == Sum(blocks, Elements(ns), size)
  {
    data := Zeros(size);
    SumEmpty(blocks, size);
    assert Elements(ns[..0]) == {};
    for j := 0 to |ns|
      invariant data == Sum(blocks, Elements(ns[..j]), size)
    {
      NextElement(ns, j);
      assert ns[j] in Elements(ns);
      SumAdd(blocks, Elements(ns[..j]), ns[j], size);
      data := XorBlocks(data, blocks[ns[j]]);
    }
    assert ns[..|ns|] == ns;
  }

  lemma NextElement(ns: seq<nat>, j: nat)
    requires StrictlyIncreasing(ns) && j < |ns|
    ensures ns[j] !in Elements(ns[..j])
    ensures Elements(ns[..j + 1]) == Elements(ns[..j]) + {ns[j]}
  {
    PrefixIncreases(ns, j + 1);
    assert ns[..j + 1][..j] == ns[..j];
    assert ns[..j + 1] == ns[..j] + [ns[j]];
  }

  /** Appending the XOR over check `n`'s inputs extends the precoded list by one. */
  lemma PrecodedNext(c: Code, source: seq<Block>, n: nat, size: nat, data: Block)
    requires c.Valid() && Assignment(source, c.k, size) && n < |c.checks|
    requires data == Sum(PrecodedUpto(c, source, n, size), c.checks[n], size)
    ensures PrecodedUpto(c, source, n, size) + [data] == PrecodedUpto(c, source, n + 1, size)
  {}

  /** The block of LDPC check `i`: over the sources. */
  method LdpcBlock(source: seq<Block>, s: nat, i: nat, size: nat, ghost precoded: seq<Block>) returns (data: Block)
    requires |source| >= 1 && i < s && source <= precoded && Assignment(precoded, |precoded|, size)
    ensures data == Sum(precoded, LdpcInputs(|source|, s, i), size)
  {
    var ns := PrecodeNeighbors(|source|, s, i);
    SumOfPrefix(source, precoded, LdpcInputs(|source|, s, i), size);
    data := XorOver(source, ns, size);
  }

  /** The block of HDPC check `n - s`: over the K + S blocks before the HDPC layer. */
  method HdpcBlock(precoded: seq<Block>, s: nat, h: nat, n: nat, size: nat, rand: Randomness, ghost c: Code)
    returns (data: Block)
    requires c.k >= 1 && s >= 2 && Lawful(rand) && ChecksAre(c, rand, s, h)
    requires s <= n < s + h && |precoded| == c.k + n && Assignment(precoded, |precoded|, size)
    ensures data == Sum(precoded, c.checks[n], size)
  {
    var k := |precoded| - n;
    var ns := HdpcNeighbors(rand, k, s, n - s);
    data := XorOver(precoded, ns, size);
  }

  /** The precoded block list: sources, then LDPC blocks, then HDPC blocks. */
  method BuildPrecoded(source: seq<Block>, s: nat, h: nat, size: nat, rand: Randomness, ghost c: Code)
    returns (precoded: seq<Block>)
    requires |source| >= 1 && Assignment(source, |source|, size) && Lawful(rand) && s >= 2
    requires c.Valid() && c.k == |source| && ChecksAre(c, rand, s, h)
    ensures precoded == Precoded(c, source, size)
  {
    precoded := LdpcLayer(source, s, h, size, rand, c);
    precoded := HdpcLayer(source, precoded, s, h, size, rand, c);
  }

  method LdpcLayer(source: seq<Block>, s: nat, h: nat, size: nat, rand: Randomness, ghost c: Code)
    returns (precoded: seq<Block>)
    requires |source| >= 1 && Assignment(source, |source|, size) && Lawful(rand) && s >= 2
    requires c.Valid() && c.k == |source| && ChecksAre(c, rand, s, h)
    ensures precoded == PrecodedUpto(c, source, s, size)
  {
    precoded := source;
    for i := 0 to s
      invariant precoded == PrecodedUpto(c, source, i, size)
    {
      var data := LdpcBlock(source, s, i, size, precoded);
      PrecodedNext(c, source, i, size, data);
      precoded := precoded + [data];
    }
  }

  method HdpcLayer(source: seq<Block>, before: seq<Block>, s: nat, h: nat, size: nat, rand: Randomness, ghost c: Code)
    returns (precoded: seq<Block>)
    requires |source| >= 1 && Assignment(source, |source|, size) && Lawful(rand) && s >= 2
    requires c.Valid() && c.k == |source| && ChecksAre(c, rand, s, h)
    requires before == PrecodedUpto(c, source, s, size)
    ensures precoded == Precoded(c, source, size)
  {
    precoded := before;
    var n := s;
    while n < s + h
      invariant s <= n <= s + h
      invariant precoded == PrecodedUpto(c, source, n, size)
    {
      var data := HdpcBlock(precoded, s, h, n, size, rand, c);
      PrecodedNext(c, source, n, size, data);
      precoded := precoded + [data];
      n := n + 1;
    }
  }
}
