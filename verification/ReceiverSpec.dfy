/** The receiver's decode loop as a function of what arrives
    (crates/orbit-transport/src/session.rs lines 503-626).  The decoder enters
    only through the sets of ESIs on which it completes. */
module ReceiverSpec {
  import opened NatSets
  import opened Options
  import opened XorKernel
  import opened Wire

  /** A received symbol before its size is known. */
  datatype Packet = Packet(esi: nat, data: Block)

  /** What the merged channel delivers: a relay's frame, the end of one relay
      stream, the end of all of them, a frame of the direct link, or its end. */
  datatype Arrival =
    | FromRelay(msg: Message)
    | RelayClosed
    | RelaysGone
    | FromDirect(msg: Message)
    | DirectClosed

  /** The decoder's parameters, from the first Meta. */
  datatype Job = Job(filename: Block, len: nat, size: nat, k: nat, checksum: nat)

  datatype Tally = Tally(symbols: nat, bytes: nat, viaDirect: nat, viaRelay: nat)

  datatype Status = Receiving | Decoded | SenderAborted | NoMeta | RelaysLost

  /** The packets fed to the decoder, those waiting for Meta, and the link state. */
  datatype Rx = Rx(
    job: Option<Job>,
    fed: seq<Packet>,
    pending: seq<Packet>,
    relaysClosed: nat,
    directOpen: bool,
    tally: Tally,
    status: Status)

  /** For each K, the sets of ESIs on which the decoder is complete. */
  type Goals = imap<nat, iset<set<nat>>>

  ghost predicate Enough(goals: Goals, k: nat, esis: set<nat>) { k in goals && esis in goals[k] }

  /** More ESIs never undo completion, and none at all never complete. */
  ghost predicate Monotone(goals: Goals) {
    && (forall k, a, b | Enough(goals, k, a) && a <= b :: Enough(goals, k, b))
    && (forall k :: !Enough(goals, k, {}))
  }

  function Fresh(direct: bool): Rx { Rx(None, [], [], 0, direct, Tally(0, 0, 0, 0), Receiving) }

  function EsisOf(ps: seq<Packet>): set<nat> {
    if ps == [] then {} else EsisOf(ps[..|ps| - 1]) + {ps[|ps| - 1].esi}
  }

  /** handle_symbol: park the packet before Meta, feed it afterwards. */
  ghost function OnPacket(rx: Rx, goals: Goals, p: Packet): Rx {
    if rx.job.None? then rx.(pending := rx.pending + [p])
    else
      var fed := rx.fed + [p];
      rx.(fed := fed, status := if Enough(goals, rx.job.value.k, EsisOf(fed)) then Decoded else rx.status)
  }

  /** Feeds the parked packets in order until the decoder is complete. */
  ghost function Drain(rx: Rx, goals: Goals): (r: Rx)
    requires rx.job.Some?
    decreases |rx.pending|
  {
    if rx.pending == [] then rx
    else
      var next := OnPacket(rx.(pending := rx.pending[1..]), goals, rx.pending[0]);
      if next.status == Decoded then next else Drain(next, goals)
  }

  function Counted(t: Tally, bytes: nat, direct: bool): Tally {
    Tally(t.symbols + 1, t.bytes + bytes, t.viaDirect + if direct then 1 else 0, t.viaRelay + if direct then 0 else 1)
  }

  function JobOf(m: Message): Job
    requires m.Meta?
  {
    Job(m.filename, m.size, m.symbolSize, m.k, m.checksum)
  }

  /** One turn of the loop. */
  ghost function OnArrival(rx: Rx, goals: Goals, nRelays: nat, a: Arrival): Rx {
    match a
    case FromRelay(m) => (
      match m
      case Meta(_, _, _, _, _, _) => if rx.job.Some? then rx else Drain(rx.(job := Some(JobOf(m))), goals)
      case Symbol(_, esi, data) => OnPacket(rx.(tally := Counted(rx.tally, |data|, false)), goals, Packet(esi, data))
      case Done(_) => rx.(status := SenderAborted)
      case _ => rx)
    case FromDirect(m) =>
      if m.Symbol? then OnPacket(rx.(tally := Counted(rx.tally, |m.data|, true)), goals, Packet(m.esi, m.data)) else rx
    case DirectClosed => rx.(directOpen := false)
    case RelayClosed =>
      var closed := rx.relaysClosed + 1;
      rx.(relaysClosed := closed, status := if rx.job.None? && closed == nRelays then NoMeta else rx.status)
    case RelaysGone => rx.(status := if rx.job.None? || !rx.directOpen then RelaysLost else rx.status)
  }

  /** The loop over a whole sequence of arrivals; it stops at the first verdict. */
  ghost function Receive(rx: Rx, goals: Goals, nRelays: nat, arrivals: seq<Arrival>): Rx {
    if arrivals == [] then rx
    else
      var before := Receive(rx, goals, nRelays, arrivals[..|arrivals| - 1]);
      if before.status != Receiving then before else OnArrival(before, goals, nRelays, arrivals[|arrivals| - 1])
  }

  // ---- Order, duplicates and parking do not matter ----

  /** The packet an arrival carries, if any. */
  function PacketOf(a: Arrival): seq<Packet> {
    match a
    case FromRelay(Symbol(_, esi, data)) => [Packet(esi, data)]
    case FromDirect(Symbol(_, esi, data)) => [Packet(esi, data)]
    case _ => []
  }

  function PacketsOf(arrivals: seq<Arrival>): seq<Packet> {
    if arrivals == [] then [] else PacketsOf(arrivals[..|arrivals| - 1]) + PacketOf(arrivals[|arrivals| - 1])
  }

  predicate IsMeta(a: Arrival) { a.FromRelay? && a.msg.Meta? }

  /** No packet is lost or made up; parking lasts until Meta; the verdict is the decoder's. */
  ghost predicate RxOk(rx: Rx, goals: Goals, packets: seq<Packet>) {
    && rx.fed + rx.pending == packets
    && (rx.job.None? ==> rx.fed == [] && rx.status != Decoded)
    && (rx.job.Some? && rx.status == Receiving ==> rx.pending == [])
    && (rx.job.Some? ==> (rx.status == Decoded <==> Enough(goals, rx.job.value.k, EsisOf(rx.fed))))
    && rx.tally.symbols == |packets| == rx.tally.viaDirect + rx.tally.viaRelay
  }

  lemma {:induction false} DrainOk(rx: Rx, goals: Goals, packets: seq<Packet>)
    requires rx.job.Some? && rx.status == Receiving && rx.fed + rx.pending == packets
    requires !Enough(goals, rx.job.value.k, EsisOf(rx.fed))
    requires rx.tally.symbols == |packets| == rx.tally.viaDirect + rx.tally.viaRelay
    ensures RxOk(Drain(rx, goals), goals, packets) && Drain(rx, goals).job == rx.job
    ensures Drain(rx, goals).status in {Receiving, Decoded}
    decreases |rx.pending|
  {
    if rx.pending != [] {
      var next := OnPacket(rx.(pending := rx.pending[1..]), goals, rx.pending[0]);
      assert next.fed + next.pending == packets;
      if next.status != Decoded { DrainOk(next, goals, packets); }
    }
  }

  lemma OnPacketOk(rx: Rx, goals: Goals, packets: seq<Packet>, p: Packet, direct: bool)
    requires RxOk(rx, goals, packets) && rx.status == Receiving
    ensures RxOk(OnPacket(rx.(tally := Counted(rx.tally, |p.data|, direct)), goals, p), goals, packets + [p])
  {
    if rx.job.None? {
      assert rx.fed + (rx.pending + [p]) == packets + [p];
    } else {
      assert rx.pending == [];
      assert (rx.fed + [p]) + [] == packets + [p];
    }
  }

  lemma OnMetaOk(rx: Rx, goals: Goals, m: Message, packets: seq<Packet>)
    requires m.Meta? && RxOk(rx, goals, packets) && rx.status == Receiving && Monotone(goals)
    ensures RxOk(if rx.job.Some? then rx else Drain(rx.(job := Some(JobOf(m))), goals), goals, packets)
  {
    if rx.job.None? {
      assert EsisOf(rx.fed) == {};
      DrainOk(rx.(job := Some(JobOf(m))), goals, packets);
    }
  }

  lemma OnArrivalOk(rx: Rx, goals: Goals, nRelays: nat, a: Arrival, packets: seq<Packet>)
    requires RxOk(rx, goals, packets) && rx.status == Receiving && Monotone(goals)
    ensures RxOk(OnArrival(rx, goals, nRelays, a), goals, packets + PacketOf(a))
  {
    if PacketOf(a) != [] {
      OnPacketOk(rx, goals, packets, PacketOf(a)[0], a.FromDirect?);
    } else {
      assert packets + [] == packets;
      if IsMeta(a) { OnMetaOk(rx, goals, a.msg, packets); }
    }
  }

  /** How many arrivals the loop takes before its verdict. */
  ghost function Taken(rx: Rx, goals: Goals, nRelays: nat, arrivals: seq<Arrival>): (n: nat)
    ensures n <= |arrivals|
  {
    if arrivals == [] then 0
    else
      var before := arrivals[..|arrivals| - 1];
      if Receive(rx, goals, nRelays, before).status != Receiving then Taken(rx, goals, nRelays, before) else |arrivals|
  }

  /** The rest of the arrivals is not taken once there is a verdict. */
  lemma TakenNext(rx: Rx, goals: Goals, nRelays: nat, arrivals: seq<Arrival>)
    requires arrivals != []
    ensures var before := arrivals[..|arrivals| - 1];
            var n, m := Taken(rx, goals, nRelays, arrivals), Taken(rx, goals, nRelays, before);
            if Receive(rx, goals, nRelays, before).status == Receiving
            then n == |arrivals| && m == |before| && arrivals[..n] == arrivals && before[..m] == before
            else n == m && arrivals[..n] == before[..m]
  {
    var before := arrivals[..|arrivals| - 1];
    if Receive(rx, goals, nRelays, before).status == Receiving { TakenAll(rx, goals, nRelays, before); }
  }

  lemma {:induction false} ReceiveOk(direct: bool, goals: Goals, nRelays: nat, arrivals: seq<Arrival>)
    requires Monotone(goals)
    ensures var n := Taken(Fresh(direct), goals, nRelays, arrivals);
            RxOk(Receive(Fresh(direct), goals, nRelays, arrivals), goals, PacketsOf(arrivals[..n]))
  {
    if arrivals != [] {
      var before := arrivals[..|arrivals| - 1];
      ReceiveOk(direct, goals, nRelays, before);
      TakenNext(Fresh(direct), goals, nRelays, arrivals);
      var rx := Receive(Fresh(direct), goals, nRelays, before);
      if rx.status == Receiving {
        OnArrivalOk(rx, goals, nRelays, arrivals[|arrivals| - 1], PacketsOf(before));
      }
    }
  }

  lemma TakenAll(rx: Rx, goals: Goals, nRelays: nat, arrivals: seq<Arrival>)
    requires Receive(rx, goals, nRelays, arrivals).status == Receiving
    ensures Taken(rx, goals, nRelays, arrivals) == |arrivals|
  {}

  /** The first Meta that came over a relay. */
  function FirstMeta(arrivals: seq<Arrival>): Option<Job> {
    if arrivals == [] then None
    else
      var before := FirstMeta(arrivals[..|arrivals| - 1]);
      var last := arrivals[|arrivals| - 1];
      if before.None? && IsMeta(last) then Some(JobOf(last.msg)) else before
  }

  lemma {:induction false} DrainKeepsJob(rx: Rx, goals: Goals)
    requires rx.job.Some?
    ensures Drain(rx, goals).job == rx.job
    decreases |rx.pending|
  {
    if rx.pending != [] {
      var next := OnPacket(rx.(pending := rx.pending[1..]), goals, rx.pending[0]);
      if next.status != Decoded { DrainKeepsJob(next, goals); }
    }
  }

  /** The first Meta decides what is decoded; later ones are ignored. */
  lemma {:induction false} JobIsFirstMeta(direct: bool, goals: Goals, nRelays: nat, arrivals: seq<Arrival>)
    ensures var n := Taken(Fresh(direct), goals, nRelays, arrivals);
            Receive(Fresh(direct), goals, nRelays, arrivals).job == FirstMeta(arrivals[..n])
  {
    if arrivals != [] {
      var before, a := arrivals[..|arrivals| - 1], arrivals[|arrivals| - 1];
      JobIsFirstMeta(direct, goals, nRelays, before);
      TakenNext(Fresh(direct), goals, nRelays, arrivals);
      var rx := Receive(Fresh(direct), goals, nRelays, before);
      if rx.status == Receiving && IsMeta(a) && rx.job.None? { DrainKeepsJob(rx.(job := Some(JobOf(a.msg))), goals); }
    }
  }

  /** Whether the receiver has decoded is a function of the first Meta and of the
      set of ESIs received: order, duplicates, the split between relays and the
      direct link, and parking before Meta make no difference. */
  lemma VerdictDependsOnEsis(direct: bool, goals: Goals, nRelays: nat, arrivals: seq<Arrival>)
    requires Monotone(goals)
    ensures var rx := Receive(Fresh(direct), goals, nRelays, arrivals);
            var taken := arrivals[..Taken(Fresh(direct), goals, nRelays, arrivals)];
            rx.status in {Receiving, Decoded} ==>
              (rx.status == Decoded <==>
                 FirstMeta(taken).Some? && Enough(goals, FirstMeta(taken).value.k, EsisOf(PacketsOf(taken))))
  {
    var rx := Receive(Fresh(direct), goals, nRelays, arrivals);
    ReceiveOk(direct, goals, nRelays, arrivals);
    JobIsFirstMeta(direct, goals, nRelays, arrivals);
    EsisOfPrefix(rx.fed, rx.pending);
    if rx.status == Receiving && rx.job.Some? { assert rx.fed + [] == rx.fed; }
  }

  /** A session still receiving has not got enough. */
  lemma NotYetEnough(direct: bool, goals: Goals, nRelays: nat, arrivals: seq<Arrival>)
    requires Monotone(goals) && Receive(Fresh(direct), goals, nRelays, arrivals).status == Receiving
    ensures FirstMeta(arrivals).Some? ==> !Enough(goals, FirstMeta(arrivals).value.k, EsisOf(PacketsOf(arrivals)))
  {
    TakenAll(Fresh(direct), goals, nRelays, arrivals);
    assert arrivals[..|arrivals|] == arrivals;
    VerdictDependsOnEsis(direct, goals, nRelays, arrivals);
  }

  lemma {:induction false} EsisOfPrefix(a: seq<Packet>, b: seq<Packet>)
    ensures EsisOf(a) <= EsisOf(a + b)
  {
    if b == [] {
      assert a + b == a;
    } else {
      assert (a + b)[..|a + b| - 1] == a + b[..|b| - 1];
      EsisOfPrefix(a, b[..|b| - 1]);
    }
  }

  // ---- Sessions that do not fail ----

  /** Neither an abort by the sender nor the end of all relay streams. */
  predicate Harmless(a: Arrival) { a != RelaysGone && !(a.FromRelay? && a.msg.Done?) }

  function ClosedCount(arrivals: seq<Arrival>): nat {
    if arrivals == [] then 0
    else ClosedCount(arrivals[..|arrivals| - 1]) + if arrivals[|arrivals| - 1] == RelayClosed then 1 else 0
  }

  lemma {:induction false} DrainKeepsLinks(rx: Rx, goals: Goals)
    requires rx.job.Some? && rx.status == Receiving
    ensures Drain(rx, goals).status in {Receiving, Decoded}
    ensures Drain(rx, goals).relaysClosed == rx.relaysClosed && Drain(rx, goals).directOpen == rx.directOpen
    decreases |rx.pending|
  {
    if rx.pending != [] {
      var next := OnPacket(rx.(pending := rx.pending[1..]), goals, rx.pending[0]);
      if next.status != Decoded { DrainKeepsLinks(next, goals); }
    }
  }

  lemma {:induction false} NeverFails(direct: bool, goals: Goals, nRelays: nat, arrivals: seq<Arrival>)
    requires forall i | 0 <= i < |arrivals| :: Harmless(arrivals[i])
    requires ClosedCount(arrivals) < nRelays
    ensures var rx := Receive(Fresh(direct), goals, nRelays, arrivals);
            rx.status in {Receiving, Decoded} && rx.relaysClosed <= ClosedCount(arrivals)
  {
    if arrivals != [] {
      var before, a := arrivals[..|arrivals| - 1], arrivals[|arrivals| - 1];
      NeverFails(direct, goals, nRelays, before);
      assert Harmless(a);
      var rx := Receive(Fresh(direct), goals, nRelays, before);
      if rx.status == Receiving && IsMeta(a) && rx.job.None? { DrainKeepsLinks(rx.(job := Some(JobOf(a.msg))), goals); }
    }
  }

  /** What one more symbol adds to a sequence of arrivals. */
  lemma OneMoreSymbol(l: seq<Arrival>, a: Arrival)
    requires (a.FromRelay? || a.FromDirect?) && a.msg.Symbol?
    ensures ClosedCount(l + [a]) == ClosedCount(l) && FirstMeta(l + [a]) == FirstMeta(l)
    ensures EsisOf(PacketsOf(l + [a])) == EsisOf(PacketsOf(l)) + {a.msg.esi}
  {
    assert (l + [a])[..|l|] == l;
    var ps, p := PacketsOf(l), Packet(a.msg.esi, a.msg.data);
    assert PacketsOf(l + [a]) == ps + [p];
    assert (ps + [p])[..|ps|] == ps;
  }

  lemma ClosedThenMeta(m: Message)
    requires m.Meta?
    ensures ClosedCount([RelayClosed] + [FromRelay(m)]) == 1 && FirstMeta([RelayClosed] + [FromRelay(m)]) == Some(JobOf(m))
  {
    var l := [RelayClosed] + [FromRelay(m)];
    assert l[..1] == [RelayClosed] && [RelayClosed][..0] == [];
    assert ClosedCount([RelayClosed]) == 1 && FirstMeta([RelayClosed]) == None;
  }

  /** One relay stream ends, then a Meta and some symbols come over another relay. */
  function OneRelayDown(meta: Message, symbols: seq<Message>): seq<Arrival> {
    if symbols == [] then [RelayClosed] + [FromRelay(meta)]
    else OneRelayDown(meta, symbols[..|symbols| - 1]) + [FromRelay(symbols[|symbols| - 1])]
  }

  lemma {:induction false} OneRelayDownBrings(meta: Message, symbols: seq<Message>)
    ensures forall a | a in OneRelayDown(meta, symbols) ::
              a == RelayClosed || (a.FromRelay? && (a.msg == meta || a.msg in symbols))
  {
    if symbols != [] {
      var before, last := symbols[..|symbols| - 1], symbols[|symbols| - 1];
      OneRelayDownBrings(meta, before);
      assert symbols == before + [last];
    }
  }

  /** Some streams have ended, Meta has come, and so have ESIs 0 to n-1. */
  ghost predicate Brings(l: seq<Arrival>, closed: nat, job: Job, n: nat) {
    ClosedCount(l) == closed && FirstMeta(l) == Some(job) && HasUpto(EsisOf(PacketsOf(l)), n)
  }

  lemma BringsMore(l: seq<Arrival>, a: Arrival, closed: nat, job: Job)
    requires (a.FromRelay? || a.FromDirect?) && a.msg.Symbol? && Brings(l, closed, job, a.msg.esi)
    ensures Brings(l + [a], closed, job, a.msg.esi + 1)
  {
    OneMoreSymbol(l, a);
  }

  lemma {:induction false} OneRelayDownArrives(meta: Message, symbols: seq<Message>)
    requires meta.Meta? && forall i | 0 <= i < |symbols| :: symbols[i].Symbol? && symbols[i].esi == i
    ensures Brings(OneRelayDown(meta, symbols), 1, JobOf(meta), |symbols|)
  {
    if symbols == [] {
      ClosedThenMeta(meta);
    } else {
      OneRelayDownArrives(meta, symbols[..|symbols| - 1]);
      BringsMore(OneRelayDown(meta, symbols[..|symbols| - 1]), FromRelay(symbols[|symbols| - 1]), 1, JobOf(meta));
    }
  }

  // ---- When a session fails ----

  /** The direct link is there and its end has not arrived. */
  predicate LinkOpen(direct: bool, arrivals: seq<Arrival>) { direct && DirectClosed !in arrivals }

  /** What arrives after `before` ends the session with `verdict`: the sender's
      Done; the end of the last relay stream before Meta came; or the end of all of
      them before Meta, or with no open direct link. */
  predicate EndsWith(verdict: Status, direct: bool, nRelays: nat, before: seq<Arrival>, a: Arrival) {
    match verdict
    case SenderAborted => a.FromRelay? && a.msg.Done?
    case NoMeta => a == RelayClosed && FirstMeta(before).None? && ClosedCount(before) + 1 == nRelays
    case RelaysLost => a == RelaysGone && (FirstMeta(before).None? || !LinkOpen(direct, before))
    case _ => false
  }

  predicate Fails(direct: bool, nRelays: nat, before: seq<Arrival>, a: Arrival) {
    || EndsWith(SenderAborted, direct, nRelays, before, a)
    || EndsWith(NoMeta, direct, nRelays, before, a)
    || EndsWith(RelaysLost, direct, nRelays, before, a)
  }

  /** The links as the arrivals tell. */
  ghost predicate LinksAre(rx: Rx, direct: bool, arrivals: seq<Arrival>) {
    rx.job == FirstMeta(arrivals) && rx.relaysClosed == ClosedCount(arrivals) && rx.directOpen == LinkOpen(direct, arrivals)
  }

  lemma LinksNext(rx: Rx, goals: Goals, nRelays: nat, direct: bool, before: seq<Arrival>, a: Arrival)
    requires rx.status == Receiving && LinksAre(rx, direct, before)
    ensures var after := OnArrival(rx, goals, nRelays, a);
            && (after.status == Receiving ==> LinksAre(after, direct, before + [a]))
            && (after.status == SenderAborted <==> EndsWith(SenderAborted, direct, nRelays, before, a))
            && (after.status == NoMeta <==> EndsWith(NoMeta, direct, nRelays, before, a))
            && (after.status == RelaysLost <==> EndsWith(RelaysLost, direct, nRelays, before, a))
  {
    assert (before + [a])[..|before|] == before;
    if IsMeta(a) && rx.job.None? {
      DrainKeepsLinks(rx.(job := Some(JobOf(a.msg))), goals);
      DrainKeepsJob(rx.(job := Some(JobOf(a.msg))), goals);
    }
  }

  lemma {:induction false} LinksFollowArrivals(direct: bool, goals: Goals, nRelays: nat, arrivals: seq<Arrival>)
    requires Receive(Fresh(direct), goals, nRelays, arrivals).status == Receiving
    ensures LinksAre(Receive(Fresh(direct), goals, nRelays, arrivals), direct, arrivals)
  {
    if arrivals != [] {
      var before, a := arrivals[..|arrivals| - 1], arrivals[|arrivals| - 1];
      LinksFollowArrivals(direct, goals, nRelays, before);
      LinksNext(Receive(Fresh(direct), goals, nRelays, before), goals, nRelays, direct, before, a);
      assert before + [a] == arrivals;
    }
  }

  /** The last arrival taken ends the session with `verdict`. */
  ghost predicate LastTakenEnds(verdict: Status, direct: bool, goals: Goals, nRelays: nat, arrivals: seq<Arrival>) {
    var n := Taken(Fresh(direct), goals, nRelays, arrivals);
    n > 0 && EndsWith(verdict, direct, nRelays, arrivals[..n - 1], arrivals[n - 1])
  }

  /** Each failure verdict is reached exactly by the arrival that calls for it. */
  lemma {:induction false} FailuresAreExact(direct: bool, goals: Goals, nRelays: nat, arrivals: seq<Arrival>)
    ensures var status := Receive(Fresh(direct), goals, nRelays, arrivals).status;
            && (status == SenderAborted <==> LastTakenEnds(SenderAborted, direct, goals, nRelays, arrivals))
            && (status == NoMeta <==> LastTakenEnds(NoMeta, direct, goals, nRelays, arrivals))
            && (status == RelaysLost <==> LastTakenEnds(RelaysLost, direct, goals, nRelays, arrivals))
  {
    if arrivals != [] {
      var before, a := arrivals[..|arrivals| - 1], arrivals[|arrivals| - 1];
      var rx := Receive(Fresh(direct), goals, nRelays, before);
      if rx.status == Receiving {
        LinksFollowArrivals(direct, goals, nRelays, before);
        LinksNext(rx, goals, nRelays, direct, before, a);
      } else {
        FailuresAreExact(direct, goals, nRelays, before);
        TakenPrefix(direct, goals, nRelays, arrivals);
      }
    }
  }

  lemma TakenPrefix(direct: bool, goals: Goals, nRelays: nat, arrivals: seq<Arrival>)
    requires arrivals != [] && Receive(Fresh(direct), goals, nRelays, arrivals[..|arrivals| - 1]).status != Receiving
    ensures var before := arrivals[..|arrivals| - 1];
            var n := Taken(Fresh(direct), goals, nRelays, before);
            && Taken(Fresh(direct), goals, nRelays, arrivals) == n
            && (n > 0 ==> before[..n - 1] == arrivals[..n - 1] && before[n - 1] == arrivals[n - 1])
  {}

  /** Without an arrival that calls for failure the session goes on or decodes. */
  lemma {:induction false} KeepsGoing(direct: bool, goals: Goals, nRelays: nat, arrivals: seq<Arrival>)
    requires forall i | 0 <= i < |arrivals| :: !Fails(direct, nRelays, arrivals[..i], arrivals[i])
    ensures Receive(Fresh(direct), goals, nRelays, arrivals).status in {Receiving, Decoded}
  {
    FailuresAreExact(direct, goals, nRelays, arrivals);
    var n := Taken(Fresh(direct), goals, nRelays, arrivals);
    if n > 0 { assert !Fails(direct, nRelays, arrivals[..n - 1], arrivals[n - 1]); }
  }

  /** Links end only after Meta, the sender does not abort, and the direct link stays open. */
  predicate DirectLasts(arrivals: seq<Arrival>) {
    && DirectClosed !in arrivals
    && (forall i | 0 <= i < |arrivals| :: !(arrivals[i].FromRelay? && arrivals[i].msg.Done?))
    && (forall i | 0 <= i < |arrivals| && arrivals[i] in {RelayClosed, RelaysGone} :: FirstMeta(arrivals[..i]).Some?)
  }

  /** An open direct link keeps a session with Meta going when every relay is gone. */
  lemma OpenLinkKeepsSession(goals: Goals, nRelays: nat, arrivals: seq<Arrival>)
    requires DirectLasts(arrivals)
    ensures Receive(Fresh(true), goals, nRelays, arrivals).status in {Receiving, Decoded}
  {
    forall i | 0 <= i < |arrivals|
      ensures !Fails(true, nRelays, arrivals[..i], arrivals[i])
    {
      assert DirectClosed !in arrivals[..i];
    }
    KeepsGoing(true, goals, nRelays, arrivals);
  }

  // ---- What the counters say ----

  /** Bytes of the packets. */
  function BytesOf(ps: seq<Packet>): nat { if ps == [] then 0 else BytesOf(ps[..|ps| - 1]) + |ps[|ps| - 1].data| }

  function DirectSymbols(arrivals: seq<Arrival>): nat {
    if arrivals == [] then 0
    else
      var last := arrivals[|arrivals| - 1];
      DirectSymbols(arrivals[..|arrivals| - 1]) + if last.FromDirect? && last.msg.Symbol? then 1 else 0
  }

  lemma {:induction false} DrainKeepsTally(rx: Rx, goals: Goals)
    requires rx.job.Some?
    ensures Drain(rx, goals).tally == rx.tally
    decreases |rx.pending|
  {
    if rx.pending != [] {
      var next := OnPacket(rx.(pending := rx.pending[1..]), goals, rx.pending[0]);
      if next.status != Decoded { DrainKeepsTally(next, goals); }
    }
  }

  function RelaySymbols(arrivals: seq<Arrival>): nat {
    if arrivals == [] then 0
    else
      var last := arrivals[|arrivals| - 1];
      RelaySymbols(arrivals[..|arrivals| - 1]) + if last.FromRelay? && last.msg.Symbol? then 1 else 0
  }

  ghost predicate TallyIs(t: Tally, arrivals: seq<Arrival>) {
    && t.symbols == |PacketsOf(arrivals)| && t.bytes == BytesOf(PacketsOf(arrivals))
    && t.viaDirect == DirectSymbols(arrivals) && t.viaRelay == RelaySymbols(arrivals)
  }

  lemma TallyNext(rx: Rx, goals: Goals, nRelays: nat, before: seq<Arrival>, a: Arrival)
    requires TallyIs(rx.tally, before)
    ensures TallyIs(OnArrival(rx, goals, nRelays, a).tally, before + [a])
  {
    PacketsNext(before, a);
    assert (before + [a])[..|before|] == before;
    if IsMeta(a) && rx.job.None? { DrainKeepsTally(rx.(job := Some(JobOf(a.msg))), goals); }
  }

  /** The statistics are those of the arrivals taken: every symbol, its bytes, and the link it came over. */
  lemma {:induction false} TallyCounts(direct: bool, goals: Goals, nRelays: nat, arrivals: seq<Arrival>)
    ensures TallyIs(Receive(Fresh(direct), goals, nRelays, arrivals).tally,
                    arrivals[..Taken(Fresh(direct), goals, nRelays, arrivals)])
  {
    if arrivals != [] {
      var before, a := arrivals[..|arrivals| - 1], arrivals[|arrivals| - 1];
      TallyCounts(direct, goals, nRelays, before);
      TakenNext(Fresh(direct), goals, nRelays, arrivals);
      var rx := Receive(Fresh(direct), goals, nRelays, before);
      if rx.status == Receiving {
        TallyNext(rx, goals, nRelays, before, a);
        assert before + [a] == arrivals;
      }
    }
  }

  lemma PacketsNext(before: seq<Arrival>, a: Arrival)
    ensures PacketsOf(before + [a]) == PacketsOf(before) + PacketOf(a)
    ensures BytesOf(PacketsOf(before + [a])) == BytesOf(PacketsOf(before)) + BytesOf(PacketOf(a))
    ensures PacketOf(a) != [] ==> BytesOf(PacketOf(a)) == |a.msg.data|
  {
    assert (before + [a])[..|before|] == before;
    var ps, one := PacketsOf(before), PacketOf(a);
    if one == [] {
      assert ps + one == ps;
    } else {
      assert (ps + one)[..|ps|] == ps && one[..0] == [];
    }
  }

  // ---- Symbols that come over the direct link only ----

  /** A Meta over a relay, then symbols over the direct link. */
  function MetaThenDirect(meta: Message, symbols: seq<Message>): seq<Arrival> {
    if symbols == [] then [FromRelay(meta)]
    else MetaThenDirect(meta, symbols[..|symbols| - 1]) + [FromDirect(symbols[|symbols| - 1])]
  }

  lemma {:induction false} MetaThenDirectBrings(meta: Message, symbols: seq<Message>)
    ensures forall a | a in MetaThenDirect(meta, symbols) :: a == FromRelay(meta) || (a.FromDirect? && a.msg in symbols)
  {
    if symbols != [] {
      var before, last := symbols[..|symbols| - 1], symbols[|symbols| - 1];
      MetaThenDirectBrings(meta, before);
      assert symbols == before + [last];
    }
  }

  /** Meta alone. */
  lemma MetaArrives(meta: Message)
    requires meta.Meta?
    ensures ClosedCount([FromRelay(meta)]) == 0 && FirstMeta([FromRelay(meta)]) == Some(JobOf(meta))
  {
    assert [FromRelay(meta)][..0] == [];
  }

  lemma {:induction false} MetaThenDirectArrives(meta: Message, symbols: seq<Message>)
    requires meta.Meta? && forall i | 0 <= i < |symbols| :: symbols[i].Symbol? && symbols[i].esi == i
    ensures Brings(MetaThenDirect(meta, symbols), 0, JobOf(meta), |symbols|)
  {
    if symbols == [] {
      MetaArrives(meta);
    } else {
      MetaThenDirectArrives(meta, symbols[..|symbols| - 1]);
      BringsMore(MetaThenDirect(meta, symbols[..|symbols| - 1]), FromDirect(symbols[|symbols| - 1]), 0, JobOf(meta));
    }
  }
}
