/** The receiver session with its decoder (crates/orbit-transport/src/session.rs
    lines 503-673).  Arrivals of the merged channel are inputs. */
module Receiver {
  import opened Options
  import opened NatSets
  import opened XorKernel
  import opened LinearSystem
  import opened Soliton
  import opened FountainCode
  import opened OrbitCode
  import opened Wire
  import opened ReceiverSpec
  import opened DecoderSpec
  import PeelingSpec
  import D = Decoder
  import Precode
  import opened Origin
  import Codec

  /** How a session ends: with the payload, a hash mismatch, a sink that refused
      Ready or Close, or a verdict of the loop. */
  datatype Outcome =
    | Received(payload: Block)
    | Corrupt(expected: nat, got: nat)
    | ReadyRefused(relay: nat)
    | CloseRefused(relay: nat)
    | Failed(reason: Status)
    | Waiting

  /** Index of the first refusal, or the number of sinks. */
  function FirstRefusal(accepted: seq<bool>): (n: nat)
    ensures n <= |accepted|
    ensures n < |accepted| ==> !accepted[n]
    ensures forall i | 0 <= i < n :: accepted[i]
  {
    if accepted == [] || !accepted[0] then 0 else 1 + FirstRefusal(accepted[1..])
  }

  /** What a session with a good payload returns, given what its sinks accept. */
  function Ending(payload: Block, ready: seq<bool>, close: seq<bool>): (o: Outcome)
    ensures o == Received(payload) <==> (forall i | 0 <= i < |ready| :: ready[i]) && (forall i | 0 <= i < |close| :: close[i])
    ensures o.ReadyRefused? ==> o.relay < |ready| && !ready[o.relay]
  {
    if FirstRefusal(ready) < |ready| then ReadyRefused(FirstRefusal(ready))
    else if FirstRefusal(close) < |close| then CloseRefused(FirstRefusal(close))
    else Received(payload)
  }

  // ---- When the decoder is complete ----

  /** The sets of ESIs on which a decoder for K source symbols completes. */
  ghost function GoalsOf(rand: Randomness): Goals
    requires Lawful(rand)
  {
    imap k: nat | 1 <= k :: iset esis: set<nat> | Decodable(CodeFor(k, rand), esis)
  }

  lemma GoalsMonotone(rand: Randomness)
    requires Lawful(rand)
    ensures Monotone(GoalsOf(rand))
  {
    forall k, a, b | Enough(GoalsOf(rand), k, a) && a <= b
      ensures Enough(GoalsOf(rand), k, b)
    {
      ResolvableMonotone(CodeFor(k, rand), a, b);
    }
    forall k | Enough(GoalsOf(rand), k, {})
      ensures false
    {
      NeedsKSymbols(CodeFor(k, rand), {});
    }
  }

  function Symbols(ps: seq<Packet>, size: nat): (r: seq<EncodedSymbol>)
    ensures |r| == |ps| && forall i | 0 <= i < |r| :: r[i] == EncodedSymbol(ps[i].esi, size, ps[i].data)
  {
    seq(|ps|, i requires 0 <= i < |ps| => EncodedSymbol(ps[i].esi, size, ps[i].data))
  }

  lemma {:induction false} SymbolsEsis(ps: seq<Packet>, size: nat)
    ensures Esis(Symbols(ps, size)) == EsisOf(ps)
  {
    if ps != [] {
      SymbolsEsis(ps[..|ps| - 1], size);
      assert Symbols(ps, size)[..|ps| - 1] == Symbols(ps[..|ps| - 1], size);
    }
  }

  // ---- What callers must respect ----

  /** One symbol size throughout, and K at least one in 32 bits. */
  ghost predicate Regular(a: Arrival, size: nat) {
    && (forall p | p in PacketOf(a) :: |p.data| == size)
    && (IsMeta(a) ==> a.msg.symbolSize == size && 1 <= a.msg.k < Precode.U32_LIMIT)
  }

  ghost predicate SizedPackets(ps: seq<Packet>, size: nat) {
    forall i | 0 <= i < |ps| :: |ps[i].data| == size
  }

  /** The plain decoder for K source symbols after the packets. */
  ghost function Fed(rand: Randomness, k: nat, size: nat, fed: seq<Packet>): Decoder
    requires k >= 1 && Lawful(rand) && SizedPackets(fed, size)
  {
    Feed(CodeFor(k, rand), size, Symbols(fed, size))
  }

  lemma SymbolsOneMore(fed: seq<Packet>, p: Packet, size: nat)
    ensures Symbols(fed + [p], size) == Symbols(fed, size) + [EncodedSymbol(p.esi, size, p.data)]
  {}

  lemma FedVerdict(rand: Randomness, k: nat, size: nat, fed: seq<Packet>)
    requires k >= 1 && Lawful(rand) && SizedPackets(fed, size)
    ensures Complete(CodeFor(k, rand), Fed(rand, k, size, fed)) <==> Enough(GoalsOf(rand), k, EsisOf(fed))
  {
    CompleteIffDecodable(CodeFor(k, rand), size, Symbols(fed, size));
    SymbolsEsis(fed, size);
  }

  lemma FedGrows(rand: Randomness, k: nat, size: nat, fed: seq<Packet>, p: Packet)
    requires k >= 1 && Lawful(rand) && SizedPackets(fed, size) && |p.data| == size && SizedPackets(fed + [p], size)
    ensures PeelingSpec.Fits(Resting(Fed(rand, k, size, fed)), CodeFor(k, rand).L(), size)
    ensures Fed(rand, k, size, fed + [p]) == Ingest(CodeFor(k, rand), size, Fed(rand, k, size, fed), EncodedSymbol(p.esi, size, p.data))
  {
    SymbolsOneMore(fed, p, size);
    FeedNext(CodeFor(k, rand), size, Symbols(fed, size), EncodedSymbol(p.esi, size, p.data));
  }

  lemma FedOneMore(rand: Randomness, k: nat, size: nat, fed: seq<Packet>, p: Packet)
    requires k >= 1 && Lawful(rand) && SizedPackets(fed, size) && |p.data| == size
    ensures SizedPackets(fed + [p], size)
    ensures PeelingSpec.Fits(Resting(Fed(rand, k, size, fed)), CodeFor(k, rand).L(), size)
    ensures Fed(rand, k, size, fed + [p]) == Ingest(CodeFor(k, rand), size, Fed(rand, k, size, fed), EncodedSymbol(p.esi, size, p.data))
    ensures Complete(CodeFor(k, rand), Fed(rand, k, size, fed + [p])) <==> Enough(GoalsOf(rand), k, EsisOf(fed + [p]))
  {
    FedGrows(rand, k, size, fed, p);
    FedVerdict(rand, k, size, fed + [p]);
  }

  /** The packets that were the first with their ESI. */
  function Firsts(ps: seq<Packet>): seq<Packet> {
    if ps == [] then []
    else
      var before, last := ps[..|ps| - 1], ps[|ps| - 1];
      Firsts(before) + if last.esi in EsisOf(before) then [] else [last]
  }

  lemma {:induction false} FirstsAreOfThem(ps: seq<Packet>)
    ensures EsisOf(Firsts(ps)) == EsisOf(ps)
    ensures forall p | p in Firsts(ps) :: p in ps
  {
    if ps != [] {
      var before, last := ps[..|ps| - 1], ps[|ps| - 1];
      FirstsAreOfThem(before);
      assert ps == before + [last];
      assert Firsts(before) + [] == Firsts(before);
      assert (Firsts(before) + [last])[..|Firsts(before)|] == Firsts(before);
    }
  }

  lemma RepeatIsIgnored(rand: Randomness, k: nat, size: nat, fed: seq<Packet>, p: Packet)
    requires k >= 1 && Lawful(rand) && SizedPackets(fed, size) && |p.data| == size && p.esi in EsisOf(fed)
    ensures SizedPackets(fed + [p], size) && Fed(rand, k, size, fed + [p]) == Fed(rand, k, size, fed)
  {
    FedOneMore(rand, k, size, fed, p);
    SymbolsEsis(fed, size);
    FeedReceives(CodeFor(k, rand), size, Symbols(fed, size));
  }

  /** Later packets with an ESI already received make no difference. */
  lemma {:induction false} RepeatsMakeNoDifference(rand: Randomness, k: nat, size: nat, fed: seq<Packet>)
    requires k >= 1 && Lawful(rand) && SizedPackets(fed, size)
    ensures SizedPackets(Firsts(fed), size) && Fed(rand, k, size, Firsts(fed)) == Fed(rand, k, size, fed)
  {
    if fed != [] {
      var before, last := fed[..|fed| - 1], fed[|fed| - 1];
      LastApart(fed);
      RepeatsMakeNoDifference(rand, k, size, before);
      OneMoreFirst(rand, k, size, before, last);
    }
  }

  lemma LastApart(fed: seq<Packet>)
    requires fed != []
    ensures fed[..|fed| - 1] + [fed[|fed| - 1]] == fed
  {}

  lemma OneMoreFirst(rand: Randomness, k: nat, size: nat, fed: seq<Packet>, p: Packet)
    requires k >= 1 && Lawful(rand) && SizedPackets(fed, size) && |p.data| == size
    requires SizedPackets(Firsts(fed), size) && Fed(rand, k, size, Firsts(fed)) == Fed(rand, k, size, fed)
    ensures SizedPackets(fed + [p], size) && SizedPackets(Firsts(fed + [p]), size)
    ensures Fed(rand, k, size, Firsts(fed + [p])) == Fed(rand, k, size, fed + [p])
  {
    NextFirst(fed, p);
    if p.esi in EsisOf(fed) {
      RepeatIsIgnored(rand, k, size, fed, p);
    } else {
      FedGrows(rand, k, size, fed, p);
      FedGrows(rand, k, size, Firsts(fed), p);
    }
  }

  lemma NextFirst(fed: seq<Packet>, p: Packet)
    ensures Firsts(fed + [p]) == if p.esi in EsisOf(fed) then Firsts(fed) else Firsts(fed) + [p]
  {
    assert (fed + [p])[..|fed|] == fed;
    assert Firsts(fed) + [] == Firsts(fed);
  }

  /** A decoder in a given state with given parameters. */
  ghost predicate Runs(d: D.FountainDecoder, rand: Randomness, job: Job, state: Decoder)
    reads d
  {
    && d.Valid() && d.payloadLen == job.len && d.symbolSize == job.size && d.k == job.k
    && d.expectedChecksum == job.checksum && d.rand == rand && d.state == state
  }

  /** What arrives is the sender `o`'s.  A Symbol on the direct link counts by its
      data alone: the loop does not look at the session it names. */
  ghost predicate Honest(o: Origin, a: Arrival)
    requires o.Valid()
  {
    match a
    case FromRelay(m) => m.Meta? || m.Symbol? ==> o.Made(m)
    case FromDirect(m) => m.Symbol? ==> m.data == o.Data(m.esi)
    case _ => true
  }

  ghost predicate GenuinePackets(o: Origin, ps: seq<Packet>)
    requires o.Valid()
  {
    forall i | 0 <= i < |ps| :: ps[i].data == o.Data(ps[i].esi)
  }

  lemma FirstsAreGenuine(o: Origin, ps: seq<Packet>)
    requires o.Valid() && GenuinePackets(o, ps)
    ensures GenuinePackets(o, Firsts(ps))
  {
    FirstsAreOfThem(ps);
    forall i | 0 <= i < |Firsts(ps)|
      ensures Firsts(ps)[i].data == o.Data(Firsts(ps)[i].esi)
    {
      assert Firsts(ps)[i] in ps;
    }
  }

  lemma {:induction false} HonestPackets(o: Origin, arrivals: seq<Arrival>)
    requires o.Valid() && forall i | 0 <= i < |arrivals| :: Honest(o, arrivals[i])
    ensures GenuinePackets(o, PacketsOf(arrivals))
  {
    if arrivals != [] {
      HonestPackets(o, arrivals[..|arrivals| - 1]);
      assert Honest(o, arrivals[|arrivals| - 1]);
    }
  }

  lemma {:induction false} HonestMeta(o: Origin, arrivals: seq<Arrival>)
    requires o.Valid() && forall i | 0 <= i < |arrivals| :: Honest(o, arrivals[i])
    ensures FirstMeta(arrivals).Some? ==> FirstMeta(arrivals).value == JobOf(o.MetaMessage())
  {
    if arrivals != [] {
      HonestMeta(o, arrivals[..|arrivals| - 1]);
      assert Honest(o, arrivals[|arrivals| - 1]);
    }
  }

  /** Whatever the arrivals, if the sender made them the decoder is set up for
      the sender's payload and fed genuine symbols only. */
  lemma HonestRx(o: Origin, direct: bool, nRelays: nat, arrivals: seq<Arrival>)
    requires o.Valid() && forall i | 0 <= i < |arrivals| :: Honest(o, arrivals[i])
    ensures var rx := Receive(Fresh(direct), GoalsOf(o.rand), nRelays, arrivals);
            && GenuinePackets(o, rx.fed)
            && (rx.job.Some? ==> rx.job.value == JobOf(o.MetaMessage()))
            && (rx.status == Decoded ==> rx.job.Some? && Enough(GoalsOf(o.rand), rx.job.value.k, EsisOf(rx.fed)))
  {
    var goals := GoalsOf(o.rand);
    var n := Taken(Fresh(direct), goals, nRelays, arrivals);
    GoalsMonotone(o.rand);
    ReceiveOk(direct, goals, nRelays, arrivals);
    JobIsFirstMeta(direct, goals, nRelays, arrivals);
    HonestPackets(o, arrivals[..n]);
    HonestMeta(o, arrivals[..n]);
    var rx := Receive(Fresh(direct), goals, nRelays, arrivals);
    forall i | 0 <= i < |rx.fed|
      ensures rx.fed[i].data == o.Data(rx.fed[i].esi)
    {
      assert (rx.fed + rx.pending)[i] == rx.fed[i];
    }
  }

  /** Enough genuine packets decode to the payload itself. */
  lemma FedIsPayload(o: Origin, fed: seq<Packet>)
    requires o.Valid() && GenuinePackets(o, fed) && Enough(GoalsOf(o.rand), o.K(), EsisOf(fed))
    ensures SizedPackets(fed, o.size)
    ensures var d := Fed(o.rand, o.K(), o.size, fed);
            && (forall i | 0 <= i < o.K() :: i in d.resolved && |d.resolved[i]| == o.size)
            && D.JoinUpto(d.resolved, o.K(), o.size, |o.payload|) == o.payload
  {
    var syms := Symbols(fed, o.size);
    assert forall i | 0 <= i < |fed| :: |o.Data(fed[i].esi)| == o.size;
    Codec.RoundTrip(o.payload, o.size, o.rand, syms);
    SymbolsEsis(fed, o.size);
    CompleteIffDecodable(CodeFor(o.K(), o.rand), o.size, syms);
  }

  /** The first packets of each ESI are enough for that. */
  lemma FirstsArePayload(o: Origin, fed: seq<Packet>)
    requires o.Valid() && GenuinePackets(o, fed) && Enough(GoalsOf(o.rand), o.K(), EsisOf(fed))
    ensures SizedPackets(Firsts(fed), o.size)
    ensures var d := Fed(o.rand, o.K(), o.size, Firsts(fed));
            && (forall i | 0 <= i < o.K() :: i in d.resolved && |d.resolved[i]| == o.size)
            && D.JoinUpto(d.resolved, o.K(), o.size, |o.payload|) == o.payload
  {
    FirstsAreOfThem(fed);
    FirstsAreGenuine(o, fed);
    FedIsPayload(o, Firsts(fed));
  }

  /** A session that only got source symbols of one sender, over any paths and in
      any order, has decoded exactly when it has Meta and all K of them. */
  lemma SessionDecodesAtK(o: Origin, direct: bool, nRelays: nat, arrivals: seq<Arrival>, taken: seq<Arrival>)
    requires o.Valid() && forall i | 0 <= i < |arrivals| :: Honest(o, arrivals[i])
    requires Receive(Fresh(direct), GoalsOf(o.rand), nRelays, arrivals).status in {Receiving, Decoded}
    requires taken == arrivals[..Taken(Fresh(direct), GoalsOf(o.rand), nRelays, arrivals)]
    requires Below(EsisOf(PacketsOf(taken)), o.K())
    ensures && (Receive(Fresh(direct), GoalsOf(o.rand), nRelays, arrivals).status == Decoded
                <==> FirstMeta(taken).Some? && |EsisOf(PacketsOf(taken))| == o.K())
  {
    HonestVerdict(o, direct, nRelays, arrivals, taken);
    KSourcesAreEnough(o, EsisOf(PacketsOf(taken)));
  }

  lemma HonestVerdict(o: Origin, direct: bool, nRelays: nat, arrivals: seq<Arrival>, taken: seq<Arrival>)
    requires o.Valid() && forall i | 0 <= i < |arrivals| :: Honest(o, arrivals[i])
    requires Receive(Fresh(direct), GoalsOf(o.rand), nRelays, arrivals).status in {Receiving, Decoded}
    requires taken == arrivals[..Taken(Fresh(direct), GoalsOf(o.rand), nRelays, arrivals)]
    ensures Receive(Fresh(direct), GoalsOf(o.rand), nRelays, arrivals).status == Decoded
            <==> FirstMeta(taken).Some? && Enough(GoalsOf(o.rand), o.K(), EsisOf(PacketsOf(taken)))
  {
    GoalsMonotone(o.rand);
    VerdictDependsOnEsis(direct, GoalsOf(o.rand), nRelays, arrivals);
    HonestMeta(o, taken);
  }

  lemma KSourcesAreEnough(o: Origin, esis: set<nat>)
    requires o.Valid() && Below(esis, o.K())
    ensures Enough(GoalsOf(o.rand), o.K(), esis) <==> |esis| == o.K()
  {
    SourcesDecodeAtK(CodeFor(o.K(), o.rand), esis);
  }

  /** A session that has not failed decodes as soon as it has Meta and the sources it asks for. */
  lemma SourcesComplete(rand: Randomness, direct: bool, nRelays: nat, arrivals: seq<Arrival>)
    requires Lawful(rand) && Receive(Fresh(direct), GoalsOf(rand), nRelays, arrivals).status in {Receiving, Decoded}
    requires FirstMeta(arrivals).Some? && FirstMeta(arrivals).value.k >= 1
    requires HasUpto(EsisOf(PacketsOf(arrivals)), FirstMeta(arrivals).value.k)
    ensures Receive(Fresh(direct), GoalsOf(rand), nRelays, arrivals).status == Decoded
  {
    if Receive(Fresh(direct), GoalsOf(rand), nRelays, arrivals).status == Receiving {
      StillShort(rand, direct, nRelays, arrivals);
      SourcesAreEnough(rand, FirstMeta(arrivals).value.k, EsisOf(PacketsOf(arrivals)));
    }
  }

  /** Whatever else arrives, unless the sender aborts or the relays close. */
  lemma MetaAndSourcesDecode(rand: Randomness, direct: bool, nRelays: nat, arrivals: seq<Arrival>)
    requires Lawful(rand) && forall i | 0 <= i < |arrivals| :: Harmless(arrivals[i])
    requires ClosedCount(arrivals) < nRelays
    requires FirstMeta(arrivals).Some? && FirstMeta(arrivals).value.k >= 1
    requires HasUpto(EsisOf(PacketsOf(arrivals)), FirstMeta(arrivals).value.k)
    ensures Receive(Fresh(direct), GoalsOf(rand), nRelays, arrivals).status == Decoded
  {
    NeverFails(direct, GoalsOf(rand), nRelays, arrivals);
    SourcesComplete(rand, direct, nRelays, arrivals);
  }

  /** Even when every relay is gone after Meta, as long as the direct link stays open. */
  lemma OpenLinkDecodes(rand: Randomness, nRelays: nat, arrivals: seq<Arrival>)
    requires Lawful(rand) && DirectLasts(arrivals)
    requires FirstMeta(arrivals).Some? && FirstMeta(arrivals).value.k >= 1
    requires HasUpto(EsisOf(PacketsOf(arrivals)), FirstMeta(arrivals).value.k)
    ensures Receive(Fresh(true), GoalsOf(rand), nRelays, arrivals).status == Decoded
  {
    OpenLinkKeepsSession(GoalsOf(rand), nRelays, arrivals);
    SourcesComplete(rand, true, nRelays, arrivals);
  }

  lemma StillShort(rand: Randomness, direct: bool, nRelays: nat, arrivals: seq<Arrival>)
    requires Lawful(rand) && Receive(Fresh(direct), GoalsOf(rand), nRelays, arrivals).status == Receiving
    ensures FirstMeta(arrivals).Some? ==> !Enough(GoalsOf(rand), FirstMeta(arrivals).value.k, EsisOf(PacketsOf(arrivals)))
  {
    GoalsMonotone(rand);
    NotYetEnough(direct, GoalsOf(rand), nRelays, arrivals);
  }

  lemma SourcesAreEnough(rand: Randomness, k: nat, esis: set<nat>)
    requires Lawful(rand) && k >= 1 && HasUpto(esis, k)
    ensures Enough(GoalsOf(rand), k, esis)
  {
    SourcesSuffice(CodeFor(k, rand), esis);
  }

  lemma SourcesDecodeSession(o: Origin, direct: bool, nRelays: nat, arrivals: seq<Arrival>)
    requires o.Valid() && forall i | 0 <= i < |arrivals| :: Honest(o, arrivals[i]) && Harmless(arrivals[i])
    requires ClosedCount(arrivals) < nRelays
    requires FirstMeta(arrivals).Some? && HasUpto(EsisOf(PacketsOf(arrivals)), o.K())
    ensures Receive(Fresh(direct), GoalsOf(o.rand), nRelays, arrivals).status == Decoded
  {
    HonestMeta(o, arrivals);
    MetaAndSourcesDecode(o.rand, direct, nRelays, arrivals);
  }

  /** The sender's source symbols. */
  ghost function Sources(o: Origin): (r: seq<Message>)
    requires o.Valid()
    ensures |r| == o.K() && forall i | 0 <= i < |r| :: r[i] == Symbol(o.sessionId, i, o.Data(i))
  {
    seq(o.K(), i requires 0 <= i => Symbol(o.sessionId, i, o.Data(i)))
  }

  /** Decoding is not yet success: with one of two relays down, a receiver that got
      Meta and all sources has decoded, and if the dead relay refuses Ready the
      session returns an error, with no Ready sent on the live one either. */
  lemma DeadRelayLosesPayload(o: Origin, direct: bool, close: seq<bool>)
    requires o.Valid()
    ensures Receive(Fresh(direct), GoalsOf(o.rand), 2, OneRelayDown(o.MetaMessage(), Sources(o))).status == Decoded
    ensures Ending(o.payload, [false, true], close) == ReadyRefused(0)
    ensures Acks(o.sessionId, FirstRefusal([false, true])) == []
  {
    var l := OneRelayDown(o.MetaMessage(), Sources(o));
    OneRelayDownIsHonest(o, l);
    OneRelayDownArrives(o.MetaMessage(), Sources(o));
    SourcesDecodeSession(o, direct, 2, l);
  }

  lemma OneRelayDownIsHonest(o: Origin, l: seq<Arrival>)
    requires o.Valid() && l == OneRelayDown(o.MetaMessage(), Sources(o))
    ensures forall i | 0 <= i < |l| :: Honest(o, l[i]) && Harmless(l[i])
  {
    OneRelayDownBrings(o.MetaMessage(), Sources(o));
    forall i | 0 <= i < |l|
      ensures Honest(o, l[i]) && Harmless(l[i])
    {
      assert l[i] in l;
    }
  }

  /** A sender with the parameters of `o` and the payload of `f`. */
  ghost function Posed(o: Origin, f: Origin): Origin { o.(payload := f.payload) }

  ghost predicate SameShape(o: Origin, f: Origin) {
    o.Valid() && f.Valid() && |f.payload| == |o.payload| && f.size == o.size && f.rand == o.rand
  }

  lemma PosedIsHonest(o: Origin, f: Origin, l: seq<Arrival>)
    requires SameShape(o, f) && l == MetaThenDirect(o.MetaMessage(), Sources(f))
    ensures Posed(o, f).Valid() && forall i | 0 <= i < |l| :: Honest(Posed(o, f), l[i]) && Harmless(l[i])
  {
    MetaThenDirectBrings(o.MetaMessage(), Sources(f));
    forall i | 0 <= i < |l|
      ensures Honest(Posed(o, f), l[i]) && Harmless(l[i])
    {
      assert l[i] in l;
    }
  }

  /** After the Meta of `o`, the K sources of another payload of its shape coming
      over the direct link, under any session identifier, complete the decoder. */
  lemma ForeignSourcesDecode(o: Origin, f: Origin, direct: bool, nRelays: nat)
    requires SameShape(o, f) && nRelays >= 1
    ensures Posed(o, f).Valid()
    ensures var rx := Receive(Fresh(direct), GoalsOf(o.rand), nRelays, MetaThenDirect(o.MetaMessage(), Sources(f)));
            && rx.status == Decoded && rx.job == Some(JobOf(o.MetaMessage()))
            && GenuinePackets(Posed(o, f), rx.fed) && Enough(GoalsOf(o.rand), o.K(), EsisOf(rx.fed))
  {
    var l := MetaThenDirect(o.MetaMessage(), Sources(f));
    PosedIsHonest(o, f, l);
    MetaThenDirectArrives(o.MetaMessage(), Sources(f));
    MetaAndSourcesDecode(o.rand, direct, nRelays, l);
    HonestRx(Posed(o, f), direct, nRelays, l);
    DecodedHasJob(o, direct, nRelays, l);
  }

  lemma DecodedHasJob(o: Origin, direct: bool, nRelays: nat, arrivals: seq<Arrival>)
    requires o.Valid() && Receive(Fresh(direct), GoalsOf(o.rand), nRelays, arrivals).status == Decoded
    ensures Receive(Fresh(direct), GoalsOf(o.rand), nRelays, arrivals).job.Some?
  {
    GoalsMonotone(o.rand);
    ReceiveOk(direct, GoalsOf(o.rand), nRelays, arrivals);
  }

  lemma FedNothing(rand: Randomness, k: nat, size: nat)
    requires k >= 1 && Lawful(rand)
    ensures Fed(rand, k, size, []) == Start(CodeFor(k, rand), size)
  {
    assert Symbols([], size) == [];
  }

  /** There is a decoder exactly once Meta came, and it was fed what the specification feeds. */
  ghost predicate Matches(d: D.FountainDecoder?, rand: Randomness, size: nat, x: Rx)
    requires Lawful(rand)
    reads d
  {
    if x.job.None? then d == null && x.fed == []
    else
      && d != null
      && x.job.value.k >= 1 && x.job.value.size == size && SizedPackets(x.fed, size)
      && Runs(d, rand, x.job.value, Fed(rand, x.job.value.k, size, x.fed))
  }

  /** Feeds one packet to the decoder of a session in state `x`. */
  method AddPacket(d: D.FountainDecoder, p: Packet, ghost rand: Randomness, ghost size: nat, ghost x: Rx) returns (complete: bool)
    requires Lawful(rand) && x.job.Some? && x.status == Receiving && |p.data| == size && Matches(d, rand, size, x)
    modifies d
    ensures Matches(d, rand, size, OnPacket(x, GoalsOf(rand), p))
    ensures complete <==> OnPacket(x, GoalsOf(rand), p).status == Decoded
  {
    FedOneMore(rand, x.job.value.k, size, x.fed, p);
    complete := d.AddSymbol(EncodedSymbol(p.esi, d.symbolSize, p.data));
  }

  /** A decoder as Meta asks for, fed nothing yet. */
  method NewDecoder(m: Message, rand: Randomness, ghost x: Rx) returns (d: D.FountainDecoder)
    requires m.Meta? && 1 <= m.k < Precode.U32_LIMIT && Lawful(rand)
    requires x.job == Some(JobOf(m)) && x.fed == []
    ensures fresh(d) && Matches(d, rand, m.symbolSize, x)
  {
    d := new D.FountainDecoder(m.size, m.symbolSize, m.k, m.checksum, rand);
    FedNothing(rand, m.k, m.symbolSize);
  }

  class ReceiverSession {
    const sessionId: nat
    const nRelays: nat
    const rand: Randomness
    var decoder: D.FountainDecoder?
    var pending: seq<Packet>
    var filename: Option<Block>
    var relaysClosed: nat
    var directOpen: bool
    var tally: Tally
    /** The loop's state as the plain specification has it. */
    ghost var rx: Rx
    /** The symbol size of the transfer. */
    ghost const size: nat

    /** The fields are the specification's. */
    ghost predicate Mirrors(x: Rx)
      reads this`pending, this`filename, this`relaysClosed, this`directOpen, this`tally
    {
      && pending == x.pending && SizedPackets(pending, size)
      && filename == (if x.job.Some? then Some(x.job.value.filename) else None)
      && relaysClosed == x.relaysClosed && directOpen == x.directOpen && tally == x.tally
    }

    /** The decoder is the specification's. */
    ghost predicate Decodes(x: Rx)
      reads this`decoder, decoder
    {
      Lawful(rand) && Matches(decoder, rand, size, x)
    }

    constructor (id: nat, relays: nat, direct: bool, generators: Randomness, ghost symbolSize: nat)
      requires Lawful(generators)
      ensures rx == Fresh(direct) && Mirrors(rx) && Decodes(rx)
      ensures sessionId == id && nRelays == relays && rand == generators && size == symbolSize
    {
      sessionId, nRelays, rand := id, relays, generators;
      decoder, pending, filename, relaysClosed, directOpen := null, [], None, 0, direct;
      tally := Tally(0, 0, 0, 0);
      rx, size := Fresh(direct), symbolSize;
    }

    /** Parks the packet before Meta, feeds it to the decoder afterwards. */
    method HandleSymbol(p: Packet) returns (complete: bool)
      requires Mirrors(rx) && Decodes(rx) && |p.data| == size && rx.status == Receiving
      modifies this`pending, this`rx
      modifies if decoder == null then {} else {decoder}
      ensures rx == OnPacket(old(rx), GoalsOf(rand), p)
      ensures Mirrors(rx) && Decodes(rx) && decoder == old(decoder)
      ensures complete <==> rx.status == Decoded
    {
      var d := decoder;
      if d == null {
        pending := pending + [p];
        rx := OnPacket(rx, GoalsOf(rand), p);
        complete := false;
      } else {
        complete := FeedDecoder(d, p);
      }
    }

    method FeedDecoder(d: D.FountainDecoder, p: Packet) returns (complete: bool)
      requires Mirrors(rx) && Decodes(rx) && decoder == d && |p.data| == size && rx.status == Receiving
      modifies this`rx, d
      ensures rx == OnPacket(old(rx), GoalsOf(rand), p)
      ensures Mirrors(rx) && Decodes(rx)
      ensures complete <==> rx.status == Decoded
    {
      ghost var x := OnPacket(rx, GoalsOf(rand), p);
      complete := AddPacket(d, p, rand, size, rx);
      Record(x);
    }

    ghost method Record(x: Rx)
      requires Mirrors(x)
      modifies this`rx
      ensures rx == x && Mirrors(rx)
    {
      rx := x;
    }

    /** Sets up the decoder from the first Meta. */
    method StartDecoder(m: Message)
      requires m.Meta? && m.symbolSize == size && 1 <= m.k < Precode.U32_LIMIT
      requires Mirrors(rx) && Lawful(rand) && rx.job.None? && rx.fed == []
      modifies this`decoder, this`filename, this`rx
      ensures rx == old(rx).(job := Some(JobOf(m)))
      ensures Mirrors(rx) && Decodes(rx) && fresh(decoder)
    {
      ghost var x := rx.(job := Some(JobOf(m)));
      var d := NewDecoder(m, rand, x);
      Adopt(m, d, x);
    }

    method Adopt(m: Message, d: D.FountainDecoder, ghost x: Rx)
      requires Mirrors(rx) && m.Meta? && x == rx.(job := Some(JobOf(m)))
      modifies this`decoder, this`filename, this`rx
      ensures Mirrors(rx) && decoder == d && rx == x
    {
      decoder, filename, rx := d, Some(m.filename), x;
    }

    /** Takes the first parked packet and feeds it. */
    method FeedFirst() returns (complete: bool)
      requires Mirrors(rx) && Decodes(rx) && rx.job.Some? && rx.status == Receiving && pending != []
      modifies this`pending, this`rx
      modifies if decoder == null then {} else {decoder}
      ensures rx == OnPacket(old(rx).(pending := old(rx).pending[1..]), GoalsOf(rand), old(rx).pending[0])
      ensures Mirrors(rx) && Decodes(rx) && decoder == old(decoder)
      ensures complete <==> rx.status == Decoded
    {
      var p := pending[0];
      pending := pending[1..];
      rx := rx.(pending := rx.pending[1..]);
      complete := HandleSymbol(p);
    }

    /** Feeds the parked packets in order until the decoder is complete. */
    method DrainPending() returns (complete: bool)
      requires Mirrors(rx) && Decodes(rx) && rx.job.Some? && rx.status == Receiving
      modifies this`pending, this`rx
      modifies if decoder == null then {} else {decoder}
      ensures rx == Drain(old(rx), GoalsOf(rand))
      ensures Mirrors(rx) && Decodes(rx) && decoder == old(decoder)
      ensures rx.status == if complete then Decoded else Receiving
    {
      ghost var goal := Drain(rx, GoalsOf(rand));
      complete := false;
      while pending != [] && !complete
        invariant Mirrors(rx) && Decodes(rx) && rx.job.Some? && decoder == old(decoder)
        invariant complete <==> rx.status == Decoded
        invariant !complete ==> rx.status == Receiving
        invariant goal == if complete then rx else Drain(rx, GoalsOf(rand))
        decreases |pending|, if complete then 0 else 1
      {
        complete := FeedFirst();
      }
    }

    /** The first Meta: sets up the decoder and feeds it what was parked. */
    method TakeMeta(m: Message) returns (status: Status)
      requires m.Meta? && m.symbolSize == size && 1 <= m.k < Precode.U32_LIMIT
      requires Mirrors(rx) && Decodes(rx) && rx.job.None? && rx.status == Receiving
      modifies this`decoder, this`filename, this`pending, this`rx
      ensures rx == Drain(old(rx).(job := Some(JobOf(m))), GoalsOf(rand))
      ensures Mirrors(rx) && Decodes(rx) && fresh(decoder)
      ensures status == rx.status && (status == Decoded || status == Receiving)
    {
      StartDecoder(m);
      var complete := DrainPending();
      status := if complete then Decoded else Receiving;
    }

    /** Counts a symbol and hands it on. */
    method TakeSymbol(esi: nat, data: Block, direct: bool) returns (status: Status)
      requires Mirrors(rx) && Decodes(rx) && |data| == size && rx.status == Receiving
      modifies this`pending, this`rx, this`tally
      modifies if decoder == null then {} else {decoder}
      ensures rx == OnPacket(old(rx).(tally := Counted(old(rx).tally, |data|, direct)), GoalsOf(rand), Packet(esi, data))
      ensures Mirrors(rx) && Decodes(rx) && decoder == old(decoder)
      ensures status == rx.status
    {
      tally := Counted(tally, |data|, direct);
      rx := rx.(tally := tally);
      var complete := HandleSymbol(Packet(esi, data));
      status := if complete then Decoded else Receiving;
    }

    /** A frame that came over a relay. */
    method TakeRelayed(m: Message) returns (status: Status)
      requires Mirrors(rx) && Decodes(rx) && rx.status == Receiving && Regular(FromRelay(m), size)
      modifies this`decoder, this`filename, this`pending, this`rx, this`tally
      modifies if decoder == null then {} else {decoder}
      ensures rx == OnArrival(old(rx), GoalsOf(rand), nRelays, FromRelay(m))
      ensures Mirrors(rx) && Decodes(rx) && (decoder == old(decoder) || fresh(decoder))
      ensures status == rx.status
    {
      match m {
        case Meta(_, _, _, _, _, _) =>
          if decoder == null { status := TakeMeta(m); } else { status := Receiving; }
        case Symbol(_, esi, data) =>
          assert Packet(esi, data) in PacketOf(FromRelay(m));
          status := TakeSymbol(esi, data, false);
        case Done(_) =>
          rx := rx.(status := SenderAborted);
          return SenderAborted;
        case _ => return Receiving;
      }
    }

    /** The end of a relay stream, of all of them, or of the direct link. */
    method NoteLink(a: Arrival) returns (status: Status)
      requires Mirrors(rx) && Decodes(rx) && rx.status == Receiving && !a.FromRelay? && !a.FromDirect?
      modifies this`rx, this`relaysClosed, this`directOpen
      ensures rx == OnArrival(old(rx), GoalsOf(rand), nRelays, a)
      ensures Mirrors(rx) && Decodes(rx)
      ensures status == rx.status
    {
      status := Receiving;
      if a.DirectClosed? {
        directOpen := false;
      } else if a.RelayClosed? {
        relaysClosed := relaysClosed + 1;
        if decoder == null && relaysClosed == nRelays { status := NoMeta; }
      } else if decoder == null || !directOpen {
        status := RelaysLost;
      }
      rx := rx.(relaysClosed := relaysClosed, directOpen := directOpen, status := status);
    }

    /** One turn of the loop. */
    method Handle(a: Arrival) returns (status: Status)
      requires Mirrors(rx) && Decodes(rx) && rx.status == Receiving && Regular(a, size)
      modifies this`decoder, this`filename, this`pending, this`rx, this`tally, this`relaysClosed, this`directOpen
      modifies if decoder == null then {} else {decoder}
      ensures rx == OnArrival(old(rx), GoalsOf(rand), nRelays, a)
      ensures Mirrors(rx) && Decodes(rx) && (decoder == old(decoder) || fresh(decoder))
      ensures status == rx.status
    {
      status := Receiving;
      match a {
        case FromRelay(m) => status := TakeRelayed(m);
        case FromDirect(m) =>
          if m.Symbol? {
            assert Packet(m.esi, m.data) in PacketOf(a);
            status := TakeSymbol(m.esi, m.data, true);
          }
        case _ => status := NoteLink(a);
      }
    }

    method TakeNext(arrivals: seq<Arrival>, i: nat, ghost start: Rx) returns (status: Status)
      requires i < |arrivals| && Regular(arrivals[i], size)
      requires Mirrors(rx) && Decodes(rx) && rx.status == Receiving
      requires rx == Receive(start, GoalsOf(rand), nRelays, arrivals[..i])
      modifies this`decoder, this`filename, this`pending, this`rx, this`tally, this`relaysClosed, this`directOpen
      modifies if decoder == null then {} else {decoder}
      ensures rx == Receive(start, GoalsOf(rand), nRelays, arrivals[..i + 1])
      ensures Mirrors(rx) && Decodes(rx) && (decoder == old(decoder) || fresh(decoder))
      ensures status == rx.status
    {
      ReceiveNext(start, GoalsOf(rand), nRelays, arrivals, i);
      status := Handle(arrivals[i]);
    }

    /** Takes arrivals until a verdict, or until there are none left. */
    method Loop(arrivals: seq<Arrival>) returns (status: Status)
      requires Mirrors(rx) && Decodes(rx) && rx.status == Receiving
      requires forall i | 0 <= i < |arrivals| :: Regular(arrivals[i], size)
      modifies this`decoder, this`filename, this`pending, this`rx, this`tally, this`relaysClosed, this`directOpen
      modifies if decoder == null then {} else {decoder}
      ensures rx == Receive(old(rx), GoalsOf(rand), nRelays, arrivals)
      ensures Mirrors(rx) && Decodes(rx) && (decoder == old(decoder) || fresh(decoder))
      ensures status == rx.status
    {
      status := Receiving;
      ghost var start := rx;
      for i := 0 to |arrivals|
        invariant rx == Receive(start, GoalsOf(rand), nRelays, arrivals[..i])
        invariant Mirrors(rx) && Decodes(rx) && (decoder == old(decoder) || fresh(decoder))
        invariant status == rx.status == Receiving
      {
        status := TakeNext(arrivals, i, start);
        if status != Receiving {
          StoppedReceiving(start, GoalsOf(rand), nRelays, arrivals, i + 1);
          return;
        }
      }
      assert arrivals[..|arrivals|] == arrivals;
    }

    /** Sends Ready on every relay in order, up to the first that refuses. */
    method SendReady(accepted: seq<bool>) returns (sent: seq<Message>)
      requires |accepted| == nRelays
      ensures sent == Acks(sessionId, FirstRefusal(accepted))
    {
      sent := [];
      var i := 0;
      while i < nRelays && accepted[i]
        invariant 0 <= i <= nRelays && sent == Acks(sessionId, i)
        invariant forall j | 0 <= j < i :: accepted[j]
      {
        sent := sent + [Ready(sessionId)];
        i := i + 1;
      }
      FirstRefusalIs(accepted, i);
    }

    /** Closes every relay's sink in order, up to the first that refuses. */
    method CloseSinks(accepted: seq<bool>) returns (closed: nat)
      requires |accepted| == nRelays
      ensures closed == FirstRefusal(accepted)
    {
      closed := 0;
      while closed < nRelays && accepted[closed]
        invariant 0 <= closed <= nRelays
        invariant forall j | 0 <= j < closed :: accepted[j]
      {
        closed := closed + 1;
      }
      FirstRefusalIs(accepted, closed);
    }

    /** Ready on every relay, then Close on every relay; any refusal is an error. */
    method Acknowledge(payload: Block, ready: seq<bool>, close: seq<bool>) returns (outcome: Outcome, sent: seq<Message>)
      requires |ready| == |close| == nRelays
      ensures outcome == Ending(payload, ready, close)
      ensures sent == Acks(sessionId, FirstRefusal(ready))
    {
      sent := SendReady(ready);
      if |sent| < nRelays { return ReadyRefused(|sent|), sent; }
      var closed := CloseSinks(close);
      if closed < nRelays { return CloseRefused(closed), sent; }
      return Received(payload), sent;
    }

    /** Reconstructs, and only then acknowledges. */
    method Conclude(hash: Block -> nat, ready: seq<bool>, close: seq<bool>) returns (outcome: Outcome, sent: seq<Message>)
      requires Decodes(rx) && rx.job.Some? && Enough(GoalsOf(rand), rx.job.value.k, EsisOf(rx.fed))
      requires |ready| == |close| == nRelays
      ensures var job := rx.job.value;
              var d := Fed(rand, job.k, size, rx.fed);
              && (forall i | 0 <= i < job.k :: i in d.resolved && |d.resolved[i]| == size)
              && var joined := D.JoinUpto(d.resolved, job.k, size, job.len);
                 if hash(joined) != job.checksum
                 then outcome == Corrupt(job.checksum, hash(joined)) && sent == []
                 else outcome == Ending(joined, ready, close) && sent == Acks(sessionId, FirstRefusal(ready))
    {
      FedVerdict(rand, rx.job.value.k, size, rx.fed);
      var r := decoder.Reconstruct(hash);
      match r {
        case Ok(payload) => outcome, sent := Acknowledge(payload, ready, close);
        case ChecksumMismatch(expected, got) => outcome, sent := Corrupt(expected, got), [];
      }
    }

    /** The whole session, given what its sinks accept at the end.  If everything
        that arrived was made by one sender, a decoded session returns that
        sender's payload exactly when every relay takes Ready and Close; Ready goes
        to the relays before the first that refuses it, and to none before the
        session has decoded. */
    method Run(arrivals: seq<Arrival>, hash: Block -> nat, ready: seq<bool>, close: seq<bool>, ghost o: Origin)
      returns (outcome: Outcome, sent: seq<Message>)
      requires Mirrors(rx) && Decodes(rx) && rx == Fresh(directOpen) && |ready| == |close| == nRelays
      requires o.Valid() && o.size == size && o.rand == rand && o.checksum == hash(o.payload)
      requires forall i | 0 <= i < |arrivals| :: Honest(o, arrivals[i])
      modifies this`decoder, this`filename, this`pending, this`rx, this`tally, this`relaysClosed, this`directOpen
      modifies if decoder == null then {} else {decoder}
      ensures rx == Receive(Fresh(old(directOpen)), GoalsOf(rand), nRelays, arrivals)
      ensures outcome == if rx.status == Decoded then Ending(o.payload, ready, close)
                         else if rx.status == Receiving then Waiting
                         else Failed(rx.status)
      ensures sent == if rx.status == Decoded then Acks(sessionId, FirstRefusal(ready)) else []
      ensures rx.status == Decoded ==> filename == Some(o.filename)
    {
      HonestRx(o, directOpen, nRelays, arrivals);
      HonestIsRegular(o, arrivals);
      var status := Loop(arrivals);
      if status == Receiving { return Waiting, []; }
      if status != Decoded { return Failed(status), []; }
      FedIsPayload(o, rx.fed);
      outcome, sent := Conclude(hash, ready, close);
    }
  }

  /** One Ready for each of the first `n` relays. */
  function Acks(id: nat, n: nat): (r: seq<Message>)
    ensures |r| == n && forall i | 0 <= i < n :: r[i] == Ready(id)
  {
    seq(n, _ => Ready(id))
  }

  lemma {:induction false} FirstRefusalIs(accepted: seq<bool>, n: nat)
    requires n <= |accepted| && forall i | 0 <= i < n :: accepted[i]
    requires n < |accepted| ==> !accepted[n]
    ensures FirstRefusal(accepted) == n
  {
    if n > 0 { FirstRefusalIs(accepted[1..], n - 1); }
  }

  lemma HonestIsRegular(o: Origin, arrivals: seq<Arrival>)
    requires o.Valid() && forall i | 0 <= i < |arrivals| :: Honest(o, arrivals[i])
    ensures forall i | 0 <= i < |arrivals| :: Regular(arrivals[i], o.size)
  {}

  lemma ReceiveNext(rx: Rx, goals: Goals, nRelays: nat, arrivals: seq<Arrival>, i: nat)
    requires i < |arrivals| && Receive(rx, goals, nRelays, arrivals[..i]).status == Receiving
    ensures Receive(rx, goals, nRelays, arrivals[..i + 1])
         == OnArrival(Receive(rx, goals, nRelays, arrivals[..i]), goals, nRelays, arrivals[i])
  {
    assert arrivals[..i + 1][..i] == arrivals[..i];
  }

  /** After a verdict the rest of the arrivals is not looked at. */
  lemma {:induction false} StoppedReceiving(rx: Rx, goals: Goals, nRelays: nat, arrivals: seq<Arrival>, n: nat)
    requires n <= |arrivals|
    requires n < |arrivals| ==> Receive(rx, goals, nRelays, arrivals[..n]).status != Receiving
    ensures Receive(rx, goals, nRelays, arrivals) == Receive(rx, goals, nRelays, arrivals[..n])
  {
    if n == |arrivals| {
      assert arrivals[..n] == arrivals;
    } else {
      var before := arrivals[..|arrivals| - 1];
      assert before[..n] == arrivals[..n];
      StoppedReceiving(rx, goals, nRelays, before, n);
    }
  }
}
