/** The fountain encoder (crates/orbit-fountain/src/encoder.rs). */
module Encoder {
  import opened NatSets
  import opened XorKernel
  import opened LinearSystem
  import opened Soliton
  import opened FountainCode
  import opened OrbitCode
  import Precode

  /** Number of source symbols: one at least, the last possibly padded. */
  function SourceCount(len: nat, size: nat): (k: nat)
    requires size > 0
    ensures k >= 1
  {
    var k := (len + size - 1) / size;
    if k == 0 then 1 else k
  }

  /** The source symbols cover the payload and no whole symbol is padding, except for the empty payload. */
  lemma SourceCountCovers(len: nat, size: nat)
    requires size > 0
    ensures SourceCount(len, size) * size >= len
    ensures len > 0 ==> (SourceCount(len, size) - 1) * size < len
    ensures len == 0 ==> SourceCount(len, size) == 1
  {
    var n := len + size - 1;
    var q := n / size;
    assert n == q * size + n % size;
    if q == 0 {
      assert len == 0;
    } else {
      Precode.Distribute(q - 1, 1, size);
    }
  }

  /** Source symbol `i`: its stretch of the payload, padded with zeros. */
  function SourceBlock(payload: Block, size: nat, i: nat): (b: Block)
    ensures |b| == size
  {
    var start := i * size;
    var end := if start + size < |payload| then start + size else |payload|;
    if start < |payload| then payload[start..end] + Zeros(start + size - end) else Zeros(size)
  }

  function SourceBlocks(payload: Block, size: nat): (bs: seq<Block>)
    requires size > 0
    ensures |bs| == SourceCount(|payload|, size)
    ensures Assignment(bs, |bs|, size)
  {
    seq(SourceCount(|payload|, size), i requires 0 <= i => SourceBlock(payload, size, i))
  }

  /** Byte `j` of source symbol `i`: the payload's byte there, or zero behind its end. */
  function SourceByte(payload: Block, size: nat, i: nat, j: nat): bv8 {
    if i * size + j < |payload| then payload[i * size + j] else 0
  }

  lemma SourceBytes(payload: Block, size: nat, i: nat)
    ensures forall j | 0 <= j < size :: SourceBlock(payload, size, i)[j] == SourceByte(payload, size, i, j)
  {
    SourceBytesFrom(payload, size, i, i * size);
  }

  lemma SourceBytesFrom(payload: Block, size: nat, i: nat, start: nat)
    requires start == i * size
    ensures forall j | 0 <= j < size :: SourceBlock(payload, size, i)[j] == if start + j < |payload| then payload[start + j] else 0
  {}

  class FountainEncoder {
    const payloadLen: nat
    const symbolSize: nat
    const k: nat
    const l: nat
    const precoded: seq<Block>
    const rand: Randomness
    const checksum: nat
    ghost const payload: Block

    /** The blocks are the precoded source symbols of the payload. */
    ghost predicate Valid() {
      && symbolSize > 0 && Lawful(rand)
      && payloadLen == |payload|
      && k == SourceCount(payloadLen, symbolSize)
      && l == CodeFor(k, rand).L()
      && precoded == Precoded(CodeFor(k, rand), SourceBlocks(payload, symbolSize), symbolSize)
    }

    ghost function Code(): (c: FountainCode.Code)
      requires Valid()
      ensures c.Valid()
    {
      CodeFor(k, rand)
    }

    constructor (data: Block, size: nat, generators: Randomness, hash: Block -> nat)
      requires size > 0 && Lawful(generators)
      requires SourceCount(|data|, size) + Precode.SFor(SourceCount(|data|, size)) < Precode.U64_LIMIT
      ensures Valid()
      ensures payload == data && symbolSize == size && rand == generators
      ensures checksum == hash(data)
    {
      var count := (|data| + size - 1) / size;
      if count == 0 { count := 1; }
      var blocks := SplitAndPad(data, size, count);
      var s := Precode.SFor(count);
      var h := Precode.HForSearch(count);
      CodeChecks(count, generators);
      var p := BuildPrecoded(blocks, s, h, size, generators, CodeFor(count, generators));
      payloadLen, symbolSize, k, l := |data|, size, count, count + s + h;
      precoded, rand, checksum := p, generators, hash(data);
      payload := data;
    }

    static method SplitAndPad(data: Block, size: nat, count: nat) returns (blocks: seq<Block>)
      requires size > 0 && count == SourceCount(|data|, size)
      ensures blocks == SourceBlocks(data, size)
      ensures forall i, j | 0 <= i < count && 0 <= j < size :: blocks[i][j] == SourceByte(data, size, i, j)
    {
      blocks := [];
      for i := 0 to count
        invariant blocks == SourceBlocks(data, size)[..i]
      {
        var start := i * size;
        var end := if start + size < |data| then start + size else |data|;
        var symbol := new bv8[size](_ => 0);
        if start < |data| {
          forall j | 0 <= j < end - start { symbol[j] := data[start + j]; }
        }
        assert symbol[..] == SourceBlock(data, size, i);
        blocks := blocks + [symbol[..]];
      }
      forall i, j | 0 <= i < count && 0 <= j < size
        ensures blocks[i][j] == SourceByte(data, size, i, j)
      {
        SourceBytes(data, size, i);
      }
    }

    /** One symbol: a copy, a pairwise XOR, or a pairwise XOR extended in place. */
    method EncodeSymbol(esi: nat) returns (symbol: EncodedSymbol)
      requires Valid()
      ensures symbol.esi == esi && symbol.symbolSize == symbolSize
      ensures symbol.data == Encoded(Code(), precoded, esi, symbolSize)
      ensures |symbol.data| == symbolSize
      ensures esi < k ==> forall j | 0 <= j < symbolSize :: symbol.data[j] == SourceByte(payload, symbolSize, esi, j)
    {
      var degree, ns := GetNeighbors(rand, l, esi);
      var data := Zeros(symbolSize);
      SymbolList(CodeFor(k, rand), rand, esi, ns);
      if |ns| == 1 {
        data := precoded[ns[0]];
        SumSingleton(precoded, ns[0], symbolSize);
        assert ns == [ns[0]];
        assert Elements(ns) == {ns[0]};
      } else {
        data := Pair(precoded, ns, symbolSize);
        var j := 2;
        while j < |ns|
          invariant 2 <= j <= |ns|
          invariant data == Sum(precoded, Elements(ns[..j]), symbolSize)
        {
          NextElement(ns, j);
          assert ns[j] in Elements(ns);
          SumAdd(precoded, Elements(ns[..j]), ns[j], symbolSize);
          data := XorBlocks(data, precoded[ns[j]]);
          j := j + 1;
        }
        assert ns[..|ns|] == ns;
      }
      symbol := EncodedSymbol(esi, symbolSize, data);
      if esi < k { SystematicBytes(esi); }
    }

    /** The first K symbols are the source symbols, byte by byte. */
    lemma SystematicBytes(esi: nat)
      requires Valid() && esi < k
      ensures var data := Encoded(Code(), precoded, esi, symbolSize);
              |data| == symbolSize && forall j | 0 <= j < symbolSize :: data[j] == SourceByte(payload, symbolSize, esi, j)
    {
      SumSingleton(precoded, esi, symbolSize);
      assert precoded[esi] == SourceBlocks(payload, symbolSize)[esi];
      SourceBytes(payload, symbolSize, esi);
    }
  }

  lemma SymbolList(c: FountainCode.Code, rand: Randomness, esi: nat, ns: seq<nat>)
    requires Lawful(rand) && c.k >= 1 && c == CodeFor(c.k, rand) && Enumerates(ns, Chosen(rand, c.L(), esi))
    ensures ns != [] && StrictlyIncreasing(ns)
    ensures Elements(ns) == SymbolShape(c, esi)
    ensures Below(Elements(ns), c.L())
  {
    CodeSymbol(c.k, rand, esi);
  }

  /** The XOR of the first two listed blocks. */
  method Pair(blocks: seq<Block>, ns: seq<nat>, size: nat) returns (data: Block)
    requires Assignment(blocks, |blocks|, size) && |ns| >= 2 && StrictlyIncreasing(ns)
    requires Below(Elements(ns), |blocks|)
    ensures data == Sum(blocks, Elements(ns[..2]), size)
  {
    assert ns[0] in Elements(ns) && ns[1] in Elements(ns);
    NextElement(ns, 0);
    NextElement(ns, 1);
    assert Elements(ns[..0]) == {};
    assert Elements(ns[..1]) == {ns[0]};
    SumSingleton(blocks, ns[0], size);
    SumAdd(blocks, {ns[0]}, ns[1], size);
    data := XorTwo(blocks[ns[0]], blocks[ns[1]]);
  }
}
