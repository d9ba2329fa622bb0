/** Encoder and decoder together: what goes in comes out. */
module Codec {
  import opened NatSets
  import opened XorKernel
  import opened LinearSystem
  import opened Soliton
  import opened FountainCode
  import opened OrbitCode
  import opened PeelingSpec
  import opened DecoderSpec
  import opened Encoder
  import D = Decoder
  import Meter = DecoderMeter
  import Cost = RippleCost
  import Precode

  /** The code for a payload split into blocks of `size`. */
  ghost function PayloadCode(payload: Block, size: nat, rand: Randomness): (c: Code)
    requires size > 0 && Lawful(rand)
    ensures c.Valid() && c.k == SourceCount(|payload|, size)
  {
    CodeFor(SourceCount(|payload|, size), rand)
  }

  ghost function PayloadBlocks(payload: Block, size: nat, rand: Randomness): (p: seq<Block>)
    requires size > 0 && Lawful(rand)
    ensures Assignment(p, PayloadCode(payload, size, rand).L(), size)
    ensures SourceBlocks(payload, size) <= p
  {
    Precoded(PayloadCode(payload, size, rand), SourceBlocks(payload, size), size)
  }

  function Min(a: nat, b: nat): nat { if a < b then a else b }

  /** The next block, cut at the payload's end, continues the payload. */
  lemma NextBlockContinues(payload: Block, size: nat, i: nat, start: nat)
    requires start == i * size
    ensures var len, at := |payload|, Min(start, |payload|);
            payload[..at] + SourceBlock(payload, size, i)[..if len - at < size then len - at else size]
            == payload[..Min(start + size, len)]
  {
    if start < |payload| {
      var end := Min(start + size, |payload|);
      assert SourceBlock(payload, size, i)[..end - start] == payload[start..end];
      assert payload[..end] == payload[..start] + payload[start..end];
    }
  }

  /** Where block `i` begins. */
  ghost function Offset(i: nat, size: nat): nat { if i == 0 then 0 else Offset(i - 1, size) + size }

  lemma {:induction false} OffsetIsProduct(i: nat, size: nat)
    ensures Offset(i, size) == i * size
  {
    if i > 0 {
      OffsetIsProduct(i - 1, size);
      Precode.Distribute(i - 1, 1, size);
    }
  }

  /** Blocks that are the first source blocks of the payload. */
  ghost predicate HoldsSources(resolved: map<nat, Block>, payload: Block, n: nat, size: nat) {
    forall i | 0 <= i < n :: i in resolved && |resolved[i]| == size && resolved[i] == SourceBlock(payload, size, i)
  }

  lemma JoinOneMore(resolved: map<nat, Block>, payload: Block, n: nat, k: nat, size: nat)
    requires HoldsSources(resolved, payload, k, size) && n < k
    requires D.JoinUpto(resolved, n, size, |payload|) == payload[..Min(Offset(n, size), |payload|)]
    ensures D.JoinUpto(resolved, n + 1, size, |payload|) == payload[..Min(Offset(n + 1, size), |payload|)]
  {
    OffsetIsProduct(n, size);
    NextBlockContinues(payload, size, n, Offset(n, size));
  }

  /** Joining the first `n` source blocks gives back the payload up to there: padding never shows. */
  lemma {:induction false} JoinGivesPrefix(resolved: map<nat, Block>, payload: Block, n: nat, k: nat, size: nat)
    requires HoldsSources(resolved, payload, k, size) && n <= k
    ensures D.JoinUpto(resolved, n, size, |payload|) == payload[..Min(Offset(n, size), |payload|)]
  {
    if n > 0 {
      JoinGivesPrefix(resolved, payload, n - 1, k, size);
      JoinOneMore(resolved, payload, n - 1, k, size);
    }
  }

  lemma SourcesJoin(resolved: map<nat, Block>, payload: Block, size: nat)
    requires size > 0 && HoldsSources(resolved, payload, SourceCount(|payload|, size), size)
    ensures D.JoinUpto(resolved, SourceCount(|payload|, size), size, |payload|) == payload
  {
    var k := SourceCount(|payload|, size);
    SourceCountCovers(|payload|, size);
    JoinGivesPrefix(resolved, payload, k, k, size);
    OffsetIsProduct(k, size);
    assert payload[..|payload|] == payload;
  }

  /** Round trip: whatever genuine symbols arrived, in whatever order, a complete
      decoder joins its blocks to exactly the payload. */
  lemma RoundTrip(payload: Block, size: nat, rand: Randomness, syms: seq<EncodedSymbol>)
    requires size > 0 && Lawful(rand)
    requires AllGenuine(PayloadCode(payload, size, rand), size, PayloadBlocks(payload, size, rand), syms)
    ensures Sized(syms, size)
    ensures var c := PayloadCode(payload, size, rand);
            var d := Feed(c, size, syms);
            Complete(c, d) ==>
              && (forall i | 0 <= i < c.k :: i in d.resolved && |d.resolved[i]| == size)
              && D.JoinUpto(d.resolved, c.k, size, |payload|) == payload
  {
    var c, p := PayloadCode(payload, size, rand), PayloadBlocks(payload, size, rand);
    PrecodedSolvesChecks(c, SourceBlocks(payload, size), size);
    ResolvedAreTheEncoders(c, size, p, syms);
    var d := Feed(c, size, syms);
    if Complete(c, d) {
      D.AllResolved(d.resolved, c.k, c.L(), size);
      forall i | 0 <= i < c.k
        ensures d.resolved[i] == SourceBlock(payload, size, i)
      {
        assert p[i] == SourceBlocks(payload, size)[i];
      }
      SourcesJoin(d.resolved, payload, size);
    }
  }

  /** An encoder over the blocks `p`. */
  ghost predicate Encodes(e: FountainEncoder, c: Code, p: seq<Block>, size: nat) {
    e.Valid() && e.symbolSize == size && e.Code() == c && e.precoded == p
  }

  /** A decoder that was fed `syms`, all of them symbols over the blocks `p`. */
  ghost predicate Decodes(d: D.FountainDecoder, c: Code, p: seq<Block>, size: nat, syms: seq<EncodedSymbol>)
    requires c.Valid() && Assignment(p, c.L(), size)
    reads d
  {
    && d.Valid() && d.symbolSize == size && d.code == c
    && Sized(syms, size) && AllGenuine(c, size, p, syms)
    && d.state == Feed(c, size, syms)
  }

  /** What the decoder's counters may show after `syms`: one index entry per input
      of a check or of a distinct symbol, and the XORs of the plain decoder. */
  ghost predicate Metered(d: D.FountainDecoder, c: Code, size: nat, syms: seq<EncodedSymbol>)
    requires c.Valid() && Sized(syms, size)
    reads d
  {
    && d.Paid() && d.xors == Cost.FeedCost(c, size, syms)
    && |d.ledger.listed| <= WorkBound(c, size, syms)
  }

  /** The degrees of the checks and of the distinct symbols. */
  ghost function WorkBound(c: Code, size: nat, syms: seq<EncodedSymbol>): nat
    requires c.Valid()
  {
    Cost.TotalDegree(Start(c, size).active) + Cost.SymbolDegrees(c, syms)
  }

  /** Linear work: over a run the decoder visits no index entry twice, visits and
      XORs stay within the degrees taken in, and no input is queued twice. */
  lemma WorkIsLinear(d: D.FountainDecoder, c: Code, size: nat, syms: seq<EncodedSymbol>)
    requires c.Valid() && Sized(syms, size) && Metered(d, c, size, syms)
    ensures d.visits == |d.ledger.visited| <= WorkBound(c, size, syms)
    ensures d.xors <= WorkBound(c, size, syms)
    ensures |d.queued| == |d.resolved| && forall i, j | 0 <= i < j < |d.queued| :: d.queued[i] != d.queued[j]
  {
    SubsetSize(d.ledger.visited, d.ledger.listed);
    Cost.TotalWorkIsLinear(c, size, syms);
    Meter.NoRepeats(d.queued);
  }

  lemma FedOneMore(c: Code, p: seq<Block>, size: nat, syms: seq<EncodedSymbol>, sym: EncodedSymbol)
    requires c.Valid() && Assignment(p, c.L(), size) && Sized(syms, size)
    requires AllGenuine(c, size, p, syms) && Genuine(c, size, p, sym)
    ensures Sized(syms + [sym], size) && AllGenuine(c, size, p, syms + [sym])
    ensures Feed(c, size, syms + [sym]) == Ingest(c, size, Feed(c, size, syms), sym)
    ensures Esis(syms + [sym]) == Esis(syms) + {sym.esi}
  {
    assert (syms + [sym])[..|syms|] == syms;
    FeedNext(c, size, syms, sym);
  }

  /** Sends one symbol across. */
  method SendOne(e: FountainEncoder, d: D.FountainDecoder, esi: nat,
                 ghost c: Code, ghost p: seq<Block>, ghost size: nat, ghost syms: seq<EncodedSymbol>)
    returns (complete: bool, ghost more: seq<EncodedSymbol>)
    requires c.Valid() && Assignment(p, c.L(), size)
    requires Encodes(e, c, p, size) && Decodes(d, c, p, size, syms) && Metered(d, c, size, syms)
    modifies d
    ensures Decodes(d, c, p, size, more)
    ensures Metered(d, c, size, more)
    ensures Esis(more) == Esis(syms) + {esi}
    ensures complete <==> Complete(c, Feed(c, size, more))
  {
    var symbol := e.EncodeSymbol(esi);
    more := syms + [symbol];
    complete := TakeOne(d, symbol, c, p, size, syms);
  }

  /** Gives the decoder one genuine symbol. */
  method TakeOne(d: D.FountainDecoder, symbol: EncodedSymbol, ghost c: Code, ghost p: seq<Block>, ghost size: nat,
                 ghost syms: seq<EncodedSymbol>) returns (complete: bool)
    requires c.Valid() && Assignment(p, c.L(), size) && Genuine(c, size, p, symbol)
    requires Decodes(d, c, p, size, syms) && Metered(d, c, size, syms)
    modifies d
    ensures Decodes(d, c, p, size, syms + [symbol]) && Metered(d, c, size, syms + [symbol])
    ensures Esis(syms + [symbol]) == Esis(syms) + {symbol.esi}
    ensures complete <==> Complete(c, Feed(c, size, syms + [symbol]))
  {
    FedOneMore(c, p, size, syms, symbol);
    Cost.FeedCostsOneMore(c, size, syms, symbol);
    complete := d.AddSymbol(symbol);
  }

  lemma ElementsNext(esis: seq<nat>, i: nat)
    requires i < |esis|
    ensures Elements(esis[..i + 1]) == Elements(esis[..i]) + {esis[i]}
  {
    assert esis[..i + 1] == esis[..i] + [esis[i]];
  }

  /** Both ends of one transfer. */
  method Connect(payload: Block, size: nat, rand: Randomness, hash: Block -> nat)
    returns (e: FountainEncoder, d: D.FountainDecoder)
    requires size > 0 && Lawful(rand)
    requires SourceCount(|payload|, size) + Precode.SFor(SourceCount(|payload|, size)) < Precode.U64_LIMIT
    ensures fresh(e) && fresh(d)
    ensures Encodes(e, PayloadCode(payload, size, rand), PayloadBlocks(payload, size, rand), size)
    ensures Decodes(d, PayloadCode(payload, size, rand), PayloadBlocks(payload, size, rand), size, [])
    ensures Metered(d, PayloadCode(payload, size, rand), size, [])
    ensures d.payloadLen == |payload| && d.expectedChecksum == hash(payload)
  {
    e := new FountainEncoder(payload, size, rand, hash);
    d := new D.FountainDecoder(|payload|, size, e.k, e.checksum, rand);
  }

  /** Every complete run over the blocks `p` joins to the payload. */
  ghost predicate Recovers(c: Code, p: seq<Block>, size: nat, payload: Block)
    requires c.Valid() && Assignment(p, c.L(), size)
  {
    forall syms: seq<EncodedSymbol> | Sized(syms, size) && AllGenuine(c, size, p, syms) && Complete(c, Feed(c, size, syms)) ::
      var known := Feed(c, size, syms).resolved;
      (forall i | 0 <= i < c.k :: i in known && |known[i]| == size) && D.JoinUpto(known, c.k, size, |payload|) == payload
  }

  lemma PayloadRecovers(payload: Block, size: nat, rand: Randomness)
    requires size > 0 && Lawful(rand)
    ensures Recovers(PayloadCode(payload, size, rand), PayloadBlocks(payload, size, rand), size, payload)
  {
    var c, p := PayloadCode(payload, size, rand), PayloadBlocks(payload, size, rand);
    forall syms: seq<EncodedSymbol> | Sized(syms, size) && AllGenuine(c, size, p, syms) && Complete(c, Feed(c, size, syms))
      ensures var known := Feed(c, size, syms).resolved;
              (forall i | 0 <= i < c.k :: i in known && |known[i]| == size) && D.JoinUpto(known, c.k, size, |payload|) == payload
    {
      RoundTrip(payload, size, rand, syms);
    }
  }

  /** Reconstruction at the end of a transfer of genuine symbols. */
  method Finish(d: D.FountainDecoder, hash: Block -> nat, ghost payload: Block, ghost c: Code, ghost p: seq<Block>, ghost size: nat,
                ghost syms: seq<EncodedSymbol>) returns (outcome: D.Outcome)
    requires c.Valid() && Assignment(p, c.L(), size) && Recovers(c, p, size, payload)
    requires Decodes(d, c, p, size, syms)
    requires d.payloadLen == |payload| && d.expectedChecksum == hash(payload)
    ensures if |d.resolved| >= d.l then outcome == D.Ok(payload) else outcome.Incomplete?
  {
    outcome := d.Reconstruct(hash);
  }

  /** The ESIs a decoder saw of a list it was sent: all of them, unless it completed early. */
  ghost predicate SawOf(c: Code, size: nat, syms: seq<EncodedSymbol>, esis: seq<nat>)
    requires c.Valid() && Sized(syms, size)
  {
    && Esis(syms) <= Elements(esis)
    && (Complete(c, Feed(c, size, syms)) || Esis(syms) == Elements(esis))
  }

  lemma SawPrefix(c: Code, size: nat, syms: seq<EncodedSymbol>, esis: seq<nat>, i: nat)
    requires c.Valid() && Sized(syms, size) && i <= |esis| && Esis(syms) == Elements(esis[..i])
    requires i < |esis| ==> Complete(c, Feed(c, size, syms))
    ensures SawOf(c, size, syms, esis)
  {
    assert i == |esis| ==> esis[..i] == esis;
  }

  /** Sends symbols until the decoder is complete or there are none left. */
  method SendAll(e: FountainEncoder, d: D.FountainDecoder, esis: seq<nat>, ghost c: Code, ghost p: seq<Block>, ghost size: nat)
    returns (ghost syms: seq<EncodedSymbol>)
    requires c.Valid() && Assignment(p, c.L(), size)
    requires Encodes(e, c, p, size) && Decodes(d, c, p, size, []) && Metered(d, c, size, [])
    modifies d
    ensures Decodes(d, c, p, size, syms) && SawOf(c, size, syms, esis)
    ensures Metered(d, c, size, syms)
  {
    syms := [];
    var complete := false;
    var i := 0;
    assert esis[..0] == [];
    while i < |esis| && !complete
      invariant 0 <= i <= |esis|
      invariant Decodes(d, c, p, size, syms)
      invariant Metered(d, c, size, syms)
      invariant Esis(syms) == Elements(esis[..i])
      invariant complete ==> Complete(c, Feed(c, size, syms))
    {
      ElementsNext(esis, i);
      complete, syms := SendOne(e, d, esis[i], c, p, size, syms);
      i := i + 1;
    }
    SawPrefix(c, size, syms, esis, i);
  }

  /** Whether a run completes is decided by the list of ESIs, early stop or not. */
  lemma VerdictOfList(c: Code, size: nat, syms: seq<EncodedSymbol>, esis: seq<nat>)
    requires c.Valid() && Sized(syms, size) && SawOf(c, size, syms, esis)
    ensures Complete(c, Feed(c, size, syms)) <==> Decodable(c, Elements(esis))
  {
    CompleteIffDecodable(c, size, syms);
    ResolvableMonotone(c, Esis(syms), Elements(esis));
  }

  /** Sends the given ESIs from one end to the other and reconstructs. */
  method Deliver(e: FountainEncoder, d: D.FountainDecoder, esis: seq<nat>, hash: Block -> nat,
                 ghost payload: Block, ghost c: Code, ghost p: seq<Block>, ghost size: nat)
    returns (outcome: D.Outcome, ghost syms: seq<EncodedSymbol>)
    requires c.Valid() && Assignment(p, c.L(), size) && Recovers(c, p, size, payload)
    requires Encodes(e, c, p, size) && Decodes(d, c, p, size, []) && Metered(d, c, size, [])
    requires d.payloadLen == |payload| && d.expectedChecksum == hash(payload)
    modifies d
    ensures Sized(syms, size) && SawOf(c, size, syms, esis)
    ensures if Complete(c, Feed(c, size, syms)) then outcome == D.Ok(payload) else outcome.Incomplete?
  {
    syms := SendAll(e, d, esis, c, p, size);
    outcome := Finish(d, hash, payload, c, p, size, syms);
  }

  /** Encodes a payload, sends the given ESIs through a decoder until it is
      complete, and reconstructs.  The payload comes back exactly when the ESIs
      allow decoding. */
  method EncodeAndDecode(payload: Block, size: nat, rand: Randomness, hash: Block -> nat, esis: seq<nat>)
    returns (outcome: D.Outcome)
    requires size > 0 && Lawful(rand)
    requires SourceCount(|payload|, size) + Precode.SFor(SourceCount(|payload|, size)) < Precode.U64_LIMIT
    ensures if Decodable(PayloadCode(payload, size, rand), Elements(esis))
            then outcome == D.Ok(payload) else outcome.Incomplete?
  {
    var e, d := Connect(payload, size, rand, hash);
    PayloadRecovers(payload, size, rand);
    ghost var c := PayloadCode(payload, size, rand);
    ghost var syms;
    outcome, syms := Deliver(e, d, esis, hash, payload, c, PayloadBlocks(payload, size, rand), size);
    VerdictOfList(c, size, syms, esis);
  }
}
