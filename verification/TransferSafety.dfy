/** What every run of the whole system keeps, and what it means for its two ends
    (crates/orbit-transport/src/session.rs, crates/orbit-relay/src/lib.rs). */
module TransferSafety {
  import opened NatSets
  import opened Options
  import opened XorKernel
  import opened Bytes
  import opened Wire
  import opened Framing
  import opened Origin
  import opened ReceiverSpec
  import opened Transfer
  import RelaySpec
  import FountainCode
  import OrbitCode
  import Precode
  import L = DirectLink
  import N = RelayNet
  import T = Sender
  import R = Receiver

  // ---- What every reachable state keeps ----

  /** Symbols of the session that may exist. */
  ghost predicate Emitted(fine: iset<Message>, id: nat, ms: seq<Message>) {
    forall m | m in ms :: m in fine && m.sessionId == id && m.Symbol?
  }

  ghost predicate TxOk(fine: iset<Message>, id: nat, acked: bool, tx: Tx) {
    && (forall j | 0 <= j < |tx.paths| :: Emitted(fine, id, tx.paths[j].queue))
    && (tx.direct.Some? ==> Emitted(fine, id, tx.direct.value.queue))
    && (tx.readySeen ==> acked) && (tx.finished ==> acked)
  }

  /** What came over a relay may exist and is of the session. */
  ghost predicate RelayedOk(fine: iset<Message>, id: nat, l: seq<Arrival>) {
    forall a | a in l && a.FromRelay? :: a.msg in fine && a.msg.sessionId == id
  }

  ghost predicate EndOk(w: World, fine: iset<Message>, e: End)
    requires w.o.Valid()
  {
    && RelayedOk(fine, w.o.sessionId, e.inbox) && RelayedOk(fine, w.o.sessionId, e.history)
    && e.rx == Receive(Fresh(w.listens), R.GoalsOf(w.o.rand), w.nRelays, e.history)
    && (e.rebuilt.Some? ==> e.rx.status == Decoded && e.rebuilt.value in w.hash && w.hash[e.rebuilt.value] == w.o.checksum)
    && (e.returned.Some? ==> e.returned == e.rebuilt && e.acks == w.nRelays)
    && (e.acks > 0 ==> e.rebuilt.Some?)
  }

  ghost predicate NetsOk(fine: iset<Message>, id: nat, ours: iset<RelaySpec.ConnId>, nets: seq<N.Net>) {
    forall i | 0 <= i < |nets| :: N.NetOk(fine, id, ours, nets[i])
  }

  /** Holds in every run, whatever the direct link hands over. */
  ghost predicate Inv(w: World, s: State)
    requires w.o.Valid()
  {
    var fine, id := FineIn(w, s), w.o.sessionId;
    && |s.nets| == w.nRelays && s.end.acks <= w.nRelays
    && NetsOk(fine, id, Ours(w), s.nets)
    && TxOk(fine, id, s.end.rebuilt.Some?, s.tx)
    && EndOk(w, fine, s.end)
  }

  lemma StartInv(w: World)
    requires w.o.Valid()
    ensures Inv(w, Start(w))
  {}

  lemma AtRelayKeeps(w: World, s: State, a: Action)
    requires w.o.Valid() && Inv(w, s) && AtRelay(a) && a.i < |s.nets|
    ensures N.NetOk(FineIn(w, s), w.o.sessionId, Ours(w), NetAt(w, s, a.i, a))
  {
    var fine, id, n := FineIn(w, s), w.o.sessionId, s.nets[a.i];
    assert N.NetOk(fine, id, Ours(w), n);
    match a
    case Relay(_, step) => N.NetStepKeeps(fine, id, Ours(w), n, step);
    case Strange(_, c, m) => if c !in Ours(w) && m in fine { N.PutKeeps(fine, id, Ours(w), n, c, m); }
    case Register(_, c) =>
      if c in w.senders { N.PutKeeps(fine, id, Ours(w), n, c, Hello(id, ROLE_SENDER)); }
      else if c in w.receivers { N.PutKeeps(fine, id, Ours(w), n, c, Hello(id, ROLE_RECEIVER)); }
    case Advertise(_, c, addr) =>
      if c in w.receivers { N.PutKeeps(fine, id, Ours(w), n, c, Direct(id, addr)); }
  }

  lemma NetKeeps(w: World, s: State, a: Action)
    requires w.o.Valid() && Inv(w, s) && AtRelay(a) && a.i < |s.nets|
    ensures Inv(w, WithNet(s, a.i, NetAt(w, s, a.i, a)))
  {
    AtRelayKeeps(w, s, a);
  }

  lemma FineGrows(o: Origin, emitted: nat, more: nat, acked: bool, later: bool)
    requires o.Valid() && emitted <= more && (acked ==> later)
    ensures FineSet(o, emitted, acked) <= FineSet(o, more, later)
  {}

  /** With more messages allowed everything stays in order. */
  lemma NetsMonotone(fine: iset<Message>, more: iset<Message>, id: nat, ours: iset<RelaySpec.ConnId>, nets: seq<N.Net>)
    requires NetsOk(fine, id, ours, nets) && fine <= more
    ensures NetsOk(more, id, ours, nets)
  {
    forall i | 0 <= i < |nets|
      ensures N.NetOk(more, id, ours, nets[i])
    {
      N.NetMonotone(fine, more, id, ours, nets[i]);
    }
  }

  lemma TxMonotone(fine: iset<Message>, more: iset<Message>, id: nat, acked: bool, later: bool, tx: Tx)
    requires TxOk(fine, id, acked, tx) && fine <= more && (acked ==> later)
    ensures TxOk(more, id, later, tx)
  {
    forall j | 0 <= j < |tx.paths|
      ensures Emitted(more, id, tx.paths[j].queue)
    {
      assert Emitted(fine, id, tx.paths[j].queue);
    }
  }

  lemma EmissionFine(w: World, s: State)
    requires w.o.Valid()
    ensures NextSymbol(w, s) in FineSet(w.o, s.tx.emitted + 1, s.end.rebuilt.Some?)
  {
    EsiFits(s.tx.emitted);
  }

  lemma EsiFits(n: nat)
    ensures n % Precode.U32_LIMIT <= n && n % Precode.U32_LIMIT < Precode.U32_LIMIT
  {}

  /** The sender's own steps only add its next symbol. */
  lemma TxStepOk(fine: iset<Message>, id: nat, acked: bool, tx: Tx, m: Message, a: Action)
    requires TxOk(fine, id, acked, tx) && m in fine && m.sessionId == id && m.Symbol? && InTx(a)
    ensures TxOk(fine, id, acked, TxStep(tx, m, a))
  {
    match a
    case EmitRelay(j) => if j < |tx.paths| { PathOk(fine, id, acked, tx, j, T.Queued(tx.paths[j], m)); }
    case EmitDirect =>
    case DropDirect =>
    case Change(j, ch) => if j < |tx.paths| { PathOk(fine, id, acked, tx, j, T.Changed(tx.paths[j], ch)); }
    case KillDirect =>
    case Finish =>
  }

  lemma PathOk(fine: iset<Message>, id: nat, acked: bool, tx: Tx, j: nat, p: T.Path)
    requires TxOk(fine, id, acked, tx) && j < |tx.paths|
    requires forall m | m in p.queue :: m in tx.paths[j].queue || (m in fine && m.sessionId == id && m.Symbol?)
    ensures TxOk(fine, id, acked, tx.(paths := tx.paths[j := p]))
  {
    assert Emitted(fine, id, tx.paths[j].queue);
  }

  lemma EmittingOk(w: World, s: State, fine: iset<Message>, more: iset<Message>, m: Message, a: Action)
    requires w.o.Valid() && InTx(a) && fine <= more && m in more && m.sessionId == w.o.sessionId && m.Symbol?
    requires NetsOk(fine, w.o.sessionId, Ours(w), s.nets) && TxOk(fine, w.o.sessionId, s.end.rebuilt.Some?, s.tx)
    requires EndOk(w, fine, s.end)
    ensures NetsOk(more, w.o.sessionId, Ours(w), s.nets)
    ensures TxOk(more, w.o.sessionId, s.end.rebuilt.Some?, TxStep(s.tx, m, a))
    ensures EndOk(w, more, s.end)
  {
    var id, acked := w.o.sessionId, s.end.rebuilt.Some?;
    TxMonotone(fine, more, id, acked, acked, s.tx);
    TxStepOk(more, id, acked, s.tx, m, a);
    NetsMonotone(fine, more, id, Ours(w), s.nets);
  }

  lemma TxKeeps(w: World, s: State, a: Action)
    requires w.o.Valid() && Inv(w, s) && InTx(a)
    ensures Inv(w, s.(tx := TxStep(s.tx, NextSymbol(w, s), a)))
  {
    var id, acked := w.o.sessionId, s.end.rebuilt.Some?;
    var m := NextSymbol(w, s);
    var tx := TxStep(s.tx, m, a);
    if tx.emitted == s.tx.emitted {
      TxUnchanged(FineIn(w, s), id, acked, s.tx, m, a);
    } else {
      FineGrows(w.o, s.tx.emitted, s.tx.emitted + 1, acked, acked);
      EmissionFine(w, s);
      EmittingOk(w, s, FineIn(w, s), FineSet(w.o, s.tx.emitted + 1, acked), m, a);
    }
  }

  lemma TxUnchanged(fine: iset<Message>, id: nat, acked: bool, tx: Tx, m: Message, a: Action)
    requires TxOk(fine, id, acked, tx) && InTx(a) && TxStep(tx, m, a).emitted == tx.emitted
    ensures TxOk(fine, id, acked, TxStep(tx, m, a))
  {
    if a.Change? && a.i < |tx.paths| { PathOk(fine, id, acked, tx, a.i, T.Changed(tx.paths[a.i], a.change)); }
  }

  // ---- The receiver's steps ----

  lemma {:induction false} RelayedMeta(w: World, s: State, l: seq<Arrival>)
    requires w.o.Valid() && RelayedOk(FineIn(w, s), w.o.sessionId, l)
    ensures FirstMeta(l).Some? ==> FirstMeta(l).value == JobOf(w.o.MetaMessage())
  {
    if l != [] {
      RelayedMeta(w, s, l[..|l| - 1]);
      assert l[|l| - 1] in l;
    }
  }

  /** The receiver's decoder is always set up for the sender's payload: Meta only comes over relays. */
  lemma JobIsTheSenders(w: World, s: State)
    requires w.o.Valid() && Inv(w, s) && s.end.rx.job.Some?
    ensures s.end.rx.job.value == JobOf(w.o.MetaMessage())
  {
    var n := Taken(Fresh(w.listens), R.GoalsOf(w.o.rand), w.nRelays, s.end.history);
    JobIsFirstMeta(w.listens, R.GoalsOf(w.o.rand), w.nRelays, s.end.history);
    assert forall a | a in s.end.history[..n] :: a in s.end.history;
    RelayedMeta(w, s, s.end.history[..n]);
  }

  lemma RebuiltIsChecked(w: World, s: State)
    requires w.o.Valid() && Inv(w, s) && Rebuilt(w, s.end.rx).Some?
    ensures Rebuilt(w, s.end.rx).value in w.hash && w.hash[Rebuilt(w, s.end.rx).value] == w.o.checksum
  {
    JobIsTheSenders(w, s);
  }

  lemma TurnOk(w: World, fine: iset<Message>, e: End)
    requires w.o.Valid() && EndOk(w, fine, e) && e.inbox != [] && e.rx.status == Receiving
    ensures EndOk(w, fine, e.(inbox := e.inbox[1..], history := e.history + [e.inbox[0]],
                              rx := OnArrival(e.rx, R.GoalsOf(w.o.rand), w.nRelays, e.inbox[0])))
  {
    assert e.inbox[0] in e.inbox;
    assert (e.history + [e.inbox[0]])[..|e.history|] == e.history;
  }

  lemma EndKeeps(w: World, s: State, a: Action)
    requires w.o.Valid() && Inv(w, s) && InEnd(a)
    ensures Inv(w, s.(end := EndStep(w, s, a)))
  {
    var fine, id, e := FineIn(w, s), w.o.sessionId, EndStep(w, s, a);
    if a.Turn? && s.end.inbox != [] && s.end.rx.status == Receiving { TurnOk(w, fine, s.end); }
    if a.Reconstruct? && e.rebuilt != s.end.rebuilt {
      RebuiltIsChecked(w, s);
      var more := FineSet(w.o, s.tx.emitted, true);
      FineGrows(w.o, s.tx.emitted, s.tx.emitted, false, true);
      NetsMonotone(fine, more, id, Ours(w), s.nets);
      TxMonotone(fine, more, id, false, true, s.tx);
    }
  }

  // ---- Messages changing hands ----

  lemma WriteRelayOk(fine: iset<Message>, id: nat, acked: bool, ours: iset<RelaySpec.ConnId>, tx: Tx, n: N.Net, i: nat, c: RelaySpec.ConnId)
    requires TxOk(fine, id, acked, tx) && N.NetOk(fine, id, ours, n) && i < |tx.paths| && tx.paths[i].queue != []
    ensures var q := tx.paths[i];
            && N.NetOk(fine, id, ours, N.Put(n, c, q.queue[0]))
            && TxOk(fine, id, acked, tx.(paths := tx.paths[i := q.(queue := q.queue[1..])]))
  {
    var q := tx.paths[i];
    assert Emitted(fine, id, q.queue);
    assert q.queue[0] in q.queue;
    N.PutKeeps(fine, id, ours, n, c, q.queue[0]);
    PathOk(fine, id, acked, tx, i, q.(queue := q.queue[1..]));
  }

  /** The sender hears Ready only after the receiver has its payload. */
  lemma WatchOk(w: World, s: State, i: nat, c: RelaySpec.ConnId)
    requires w.o.Valid() && Inv(w, s) && i < |s.nets| && c in w.senders
    requires c in s.nets[i].conns && s.nets[i].conns[c].down != []
    ensures N.NetOk(FineIn(w, s), w.o.sessionId, Ours(w), N.TakeDown(s.nets[i], c))
    ensures s.nets[i].conns[c].down[0].Ready? ==> s.end.rebuilt.Some?
  {
    N.TakeKeeps(FineIn(w, s), w.o.sessionId, Ours(w), s.nets[i], c);
  }

  lemma SenderCarryKeeps(w: World, s: State, a: Action)
    requires w.o.Valid() && Inv(w, s) && (a.SendMeta? || a.WriteRelay? || a.WriteDirect? || a.Watch?)
    ensures Inv(w, CarryStep(w, s, a))
  {
    var fine, id, acked := FineIn(w, s), w.o.sessionId, s.end.rebuilt.Some?;
    match a
    case SendMeta(c) =>
      if 0 < |s.nets| && c in w.senders { N.PutKeeps(fine, id, Ours(w), s.nets[0], c, w.o.MetaMessage()); }
    case WriteRelay(i, c) =>
      if i < |s.nets| && i < |s.tx.paths| && s.tx.paths[i].queue != [] {
        WriteRelayOk(fine, id, acked, Ours(w), s.tx, s.nets[i], i, c);
      }
    case WriteDirect =>
    case Watch(i, c, connects) =>
      if i < |s.nets| && c in w.senders && c in s.nets[i].conns && s.nets[i].conns[c].down != [] { WatchOk(w, s, i, c); }
  }

  lemma ReceiverCarryKeeps(w: World, s: State, a: Action)
    requires w.o.Valid() && Inv(w, s) && (a.ReadDirect? || a.CloseDirect? || a.Listen? || a.Acknowledge?)
    ensures Inv(w, CarryStep(w, s, a))
  {
    var fine, id := FineIn(w, s), w.o.sessionId;
    match a
    case ReadDirect(_) =>
    case CloseDirect =>
    case Listen(i, c) =>
      if i < |s.nets| && c in w.receivers && c in s.nets[i].conns && s.nets[i].conns[c].down != [] {
        N.TakeKeeps(fine, id, Ours(w), s.nets[i], c);
      }
    case Acknowledge(c, _) =>
      if s.end.rebuilt.Some? && s.end.acks < |s.nets| && c in w.receivers {
        N.PutKeeps(fine, id, Ours(w), s.nets[s.end.acks], c, Ready(id));
      }
  }

  // ---- Whole runs ----

  lemma RelayStepKeeps(w: World, s: State, a: Action)
    requires w.o.Valid() && Inv(w, s) && AtRelay(a)
    ensures Inv(w, Step(w, s, a))
  {
    if a.i < |s.nets| { NetKeeps(w, s, a); }
  }

  lemma TxStepKeeps(w: World, s: State, a: Action)
    requires w.o.Valid() && Inv(w, s) && InTx(a)
    ensures Inv(w, Step(w, s, a))
  {
    TxKeeps(w, s, a);
  }

  lemma EndStepKeeps(w: World, s: State, a: Action)
    requires w.o.Valid() && Inv(w, s) && InEnd(a)
    ensures Inv(w, Step(w, s, a))
  {
    EndKeeps(w, s, a);
  }

  lemma CarryStepKeeps(w: World, s: State, a: Action)
    requires w.o.Valid() && Inv(w, s) && !AtRelay(a) && !InTx(a) && !InEnd(a)
    ensures Inv(w, Step(w, s, a))
  {
    if a.SendMeta? || a.WriteRelay? || a.WriteDirect? || a.Watch? {
      SenderCarryKeeps(w, s, a);
    } else {
      ReceiverCarryKeeps(w, s, a);
    }
  }

  lemma StepKeeps(w: World, s: State, a: Action)
    requires w.o.Valid() && Inv(w, s)
    ensures Inv(w, Step(w, s, a))
  {
    if AtRelay(a) {
      RelayStepKeeps(w, s, a);
    } else if InTx(a) {
      TxStepKeeps(w, s, a);
    } else if InEnd(a) {
      EndStepKeeps(w, s, a);
    } else {
      CarryStepKeeps(w, s, a);
    }
  }

  lemma {:induction false} RunInv(w: World, actions: seq<Action>)
    requires w.o.Valid()
    ensures Inv(w, Run(w, actions))
  {
    if actions == [] {
      StartInv(w);
    } else {
      RunInv(w, actions[..|actions| - 1]);
      StepKeeps(w, Run(w, actions[..|actions| - 1]), actions[|actions| - 1]);
    }
  }

  // ---- Orderly runs ----

  /** Symbols on the receiver's listener are the sender's, and a read that
      completes a frame ends at that frame's end. */
  ghost predicate Orderly(w: World, s: State, a: Action)
    requires w.o.Valid()
  {
    && (a.StrayDirect? && a.m.Symbol? ==> a.m in FineIn(w, s) && a.m.sessionId == w.o.sessionId)
    && (a.ReadDirect? && a.count <= |s.wire.stream| ==> L.WholeRead(s.wire.link.buf + s.wire.stream[..a.count]))
  }

  ghost predicate OrderlyRun(w: World, actions: seq<Action>)
    requires w.o.Valid()
  {
    actions != [] ==>
      && OrderlyRun(w, actions[..|actions| - 1])
      && Orderly(w, Run(w, actions[..|actions| - 1]), actions[|actions| - 1])
  }

  /** The symbols fit in frames. */
  ghost predicate Framed(w: World) {
    w.o.Valid() && w.o.sessionId < Pow256(8) && w.o.size + 12 <= MAX_FRAME
  }

  /** The bytes held by a live reader and those still to be read are the frames written and not delivered. */
  ghost predicate WireOk(fine: iset<Message>, id: nat, p: Pipe) {
    && Emitted(fine, id, p.flying)
    && (p.link.alive ==> p.link.buf + p.stream == EncodeAll(p.flying))
  }

  ghost predicate DirectOk(fine: iset<Message>, id: nat, l: seq<Arrival>) {
    forall a | a in l && a.FromDirect? && a.msg.Symbol? :: a.msg in fine && a.msg.sessionId == id
  }

  ghost predicate Tidy(w: World, s: State)
    requires w.o.Valid()
  {
    var fine, id := FineIn(w, s), w.o.sessionId;
    && WireOk(fine, id, s.wire)
    && DirectOk(fine, id, s.end.inbox) && DirectOk(fine, id, s.end.history)
    && (s.end.rebuilt.Some? ==> s.end.rebuilt.value == w.o.payload)
  }

  lemma EmittedIsFramable(w: World, s: State, m: Message)
    requires Framed(w) && m in FineIn(w, s) && m.sessionId == w.o.sessionId && m.Symbol?
    ensures Framable(m)
  {
    WidthOfFour();
  }

  /** A whole read of a live, tidy pipe takes part of the first frame, or all of it and no more. */
  lemma ReadIsTidy(p: Pipe, count: nat)
    requires p.link.alive && p.link.buf + p.stream == EncodeAll(p.flying) && 0 < count <= |p.stream|
    requires p.flying != [] && Framable(p.flying[0])
    requires L.WholeRead(p.link.buf + p.stream[..count])
    ensures var r := AfterRead(p, count);
            && r.link.alive && r.link.buf + r.stream == EncodeAll(r.flying)
            && (|| (r.link.msgs == p.link.msgs && r.flying == p.flying)
                || (r.link.msgs == p.link.msgs + [p.flying[0]] && r.flying == p.flying[1..]))
  {
    var m, c, rest := p.flying[0], p.stream[..count], p.stream[count..];
    assert p.stream == c + rest;
    Reassociate(p.link.buf, c, rest);
    L.ReadOfFrames(m, EncodeAll(p.flying[1..]), p.link, c, rest);
  }

  /** After a whole read the pipe is in order and what was fetched is the sender's. */
  lemma ReadIsOk(fine: iset<Message>, id: nat, p: Pipe, count: nat)
    requires WireOk(fine, id, p) && 0 < count <= |p.stream| && p.link.alive
    requires p.flying != [] && Framable(p.flying[0]) && L.WholeRead(p.link.buf + p.stream[..count])
    ensures var r := AfterRead(p, count);
            WireOk(fine, id, r) && Emitted(fine, id, r.link.msgs[|p.link.msgs|..])
  {
    ReadIsTidy(p, count);
    assert p.flying[0] in p.flying;
  }

  lemma DeadReadIsOk(fine: iset<Message>, id: nat, p: Pipe, count: nat)
    requires WireOk(fine, id, p) && count <= |p.stream| && !p.link.alive
    ensures var r := AfterRead(p, count); WireOk(fine, id, r) && r.link.msgs[|p.link.msgs|..] == []
  {}

  lemma FetchedIsOk(fine: iset<Message>, id: nat, inbox: seq<Arrival>, ms: seq<Message>)
    requires DirectOk(fine, id, inbox) && Emitted(fine, id, ms)
    ensures DirectOk(fine, id, inbox + Fetched(ms))
  {
    forall a | a in inbox + Fetched(ms) && a.FromDirect? && a.msg.Symbol?
      ensures a.msg in fine && a.msg.sessionId == id
    {
      if a !in inbox { assert a.msg in ms; }
    }
  }

  lemma ReadKeepsTidy(w: World, s: State, count: nat)
    requires Framed(w) && Tidy(w, s) && Orderly(w, s, ReadDirect(count))
    ensures Tidy(w, CarryStep(w, s, ReadDirect(count)))
  {
    if 0 < count <= |s.wire.stream| {
      var fine, id, p := FineIn(w, s), w.o.sessionId, s.wire;
      if p.link.alive {
        assert p.flying != [];
        assert p.flying[0] in p.flying;
        EmittedIsFramable(w, s, p.flying[0]);
        ReadIsOk(fine, id, p, count);
      } else {
        DeadReadIsOk(fine, id, p, count);
      }
      FetchedIsOk(fine, id, s.end.inbox, AfterRead(p, count).link.msgs[|p.link.msgs|..]);
    }
  }

  lemma WriteKeepsWire(w: World, s: State)
    requires w.o.Valid() && Tidy(w, s) && TxOk(FineIn(w, s), w.o.sessionId, s.end.rebuilt.Some?, s.tx)
    ensures var t := CarryStep(w, s, WriteDirect);
            t.end == s.end && t.tx.emitted == s.tx.emitted && WireOk(FineIn(w, s), w.o.sessionId, t.wire)
  {
    if s.tx.direct.Some? && s.tx.direct.value.queue != [] {
      var m := s.tx.direct.value.queue[0];
      assert m in s.tx.direct.value.queue;
      WrittenIsOk(FineIn(w, s), w.o.sessionId, s.wire, m);
    }
  }

  /** Tidiness is about the wire, the receiver and which symbols were emitted. */
  lemma TidyAgain(w: World, s: State, t: State)
    requires w.o.Valid() && Tidy(w, s) && t.end == s.end && t.tx.emitted == s.tx.emitted
    requires WireOk(FineIn(w, s), w.o.sessionId, t.wire)
    ensures Tidy(w, t)
  {}

  lemma WriteKeepsTidy(w: World, s: State)
    requires w.o.Valid() && Tidy(w, s) && TxOk(FineIn(w, s), w.o.sessionId, s.end.rebuilt.Some?, s.tx)
    ensures Tidy(w, CarryStep(w, s, WriteDirect))
  {
    WriteKeepsWire(w, s);
    TidyAgain(w, s, CarryStep(w, s, WriteDirect));
  }

  lemma WrittenIsOk(fine: iset<Message>, id: nat, p: Pipe, m: Message)
    requires WireOk(fine, id, p) && m in fine && m.Symbol? && m.sessionId == id
    ensures WireOk(fine, id, Written(p, m))
  {
    L.EncodeAllAppend(p.flying, m);
    Reassociate(p.link.buf, p.stream, Encode(m));
  }

  lemma ArrivalsAreHonest(w: World, s: State, l: seq<Arrival>)
    requires w.o.Valid() && RelayedOk(FineIn(w, s), w.o.sessionId, l) && DirectOk(FineIn(w, s), w.o.sessionId, l)
    ensures forall i | 0 <= i < |l| :: R.Honest(w.o, l[i])
  {
    forall i | 0 <= i < |l|
      ensures R.Honest(w.o, l[i])
    {
      assert l[i] in l;
    }
  }

  lemma RebuiltFromFed(w: World, rx: Rx)
    requires w.o.Valid() && rx.job == Some(JobOf(w.o.MetaMessage()))
    requires R.GenuinePackets(w.o, rx.fed) && Enough(R.GoalsOf(w.o.rand), w.o.K(), EsisOf(rx.fed))
    ensures Rebuilt(w, rx) == if w.o.payload in w.hash && w.hash[w.o.payload] == w.o.checksum then Some(w.o.payload) else None
  {
    R.FirstsArePayload(w.o, rx.fed);
  }

  /** A receiver that has decoded rebuilds the sender's payload; the checksum only decides whether it says so. */
  lemma RebuiltIsPayload(w: World, s: State)
    requires w.o.Valid() && Inv(w, s) && Tidy(w, s) && s.end.rx.status == Decoded
    ensures Rebuilt(w, s.end.rx) == if w.o.payload in w.hash && w.hash[w.o.payload] == w.o.checksum then Some(w.o.payload) else None
  {
    ArrivalsAreHonest(w, s, s.end.history);
    R.HonestRx(w.o, w.listens, w.nRelays, s.end.history);
    RebuiltFromFed(w, s.end.rx);
  }

  lemma TidyMonotone(w: World, s: State, more: iset<Message>)
    requires w.o.Valid() && Tidy(w, s) && FineIn(w, s) <= more
    ensures WireOk(more, w.o.sessionId, s.wire)
    ensures DirectOk(more, w.o.sessionId, s.end.inbox) && DirectOk(more, w.o.sessionId, s.end.history)
  {}

  lemma EndKeepsTidy(w: World, s: State, a: Action)
    requires w.o.Valid() && Inv(w, s) && Tidy(w, s) && InEnd(a) && Orderly(w, s, a)
    ensures Tidy(w, s.(end := EndStep(w, s, a)))
  {
    var e := EndStep(w, s, a);
    if a.Turn? && s.end.inbox != [] { assert s.end.inbox[0] in s.end.inbox; }
    if a.Reconstruct? && e.rebuilt != s.end.rebuilt {
      RebuiltIsPayload(w, s);
      FineGrows(w.o, s.tx.emitted, s.tx.emitted, false, true);
      TidyMonotone(w, s, FineSet(w.o, s.tx.emitted, true));
    }
  }

  lemma TxKeepsTidy(w: World, s: State, a: Action)
    requires w.o.Valid() && Tidy(w, s) && InTx(a)
    ensures Tidy(w, s.(tx := TxStep(s.tx, NextSymbol(w, s), a)))
  {
    var acked, tx := s.end.rebuilt.Some?, TxStep(s.tx, NextSymbol(w, s), a);
    FineGrows(w.o, s.tx.emitted, tx.emitted, acked, acked);
    TidyMonotone(w, s, FineSet(w.o, tx.emitted, acked));
  }

  lemma StepKeepsTidy(w: World, s: State, a: Action)
    requires Framed(w) && Inv(w, s) && Tidy(w, s) && Orderly(w, s, a)
    ensures Tidy(w, Step(w, s, a))
  {
    if AtRelay(a) {
    } else if InTx(a) {
      TxKeepsTidy(w, s, a);
    } else if InEnd(a) {
      EndKeepsTidy(w, s, a);
    } else {
      CarryKeepsTidy(w, s, a);
    }
  }

  lemma CarryKeepsTidy(w: World, s: State, a: Action)
    requires Framed(w) && Inv(w, s) && Tidy(w, s) && Orderly(w, s, a) && !AtRelay(a) && !InTx(a) && !InEnd(a)
    ensures Tidy(w, CarryStep(w, s, a))
  {
    if a.WriteDirect? {
      WriteKeepsTidy(w, s);
    } else if a.ReadDirect? {
      ReadKeepsTidy(w, s, a.count);
    }
  }

  lemma {:induction false} RunTidy(w: World, actions: seq<Action>)
    requires Framed(w) && OrderlyRun(w, actions)
    ensures Tidy(w, Run(w, actions))
  {
    if actions != [] {
      var before := actions[..|actions| - 1];
      RunTidy(w, before);
      RunInv(w, before);
      StepKeepsTidy(w, Run(w, before), actions[|actions| - 1]);
    }
  }

  // ---- Symbols of another sender on the direct link ----

  /** After Meta, the K sources of any other payload of the same length, coming
      over the direct link under any session identifier, complete the decoder;
      reconstruct then gives that payload if its hash collides, and nothing if not. */
  lemma ForeignSymbolsDecode(w: World, f: Origin)
    requires R.SameShape(w.o, f) && w.nRelays >= 1
    ensures var arrivals := MetaThenDirect(w.o.MetaMessage(), R.Sources(f));
            var rx := Receive(Fresh(w.listens), R.GoalsOf(w.o.rand), w.nRelays, arrivals);
            && rx.status == Decoded
            && Rebuilt(w, rx) == if f.payload in w.hash && w.hash[f.payload] == w.o.checksum then Some(f.payload) else None
  {
    R.ForeignSourcesDecode(w.o, f, w.listens, w.nRelays);
    var arrivals := MetaThenDirect(w.o.MetaMessage(), R.Sources(f));
    RebuiltAsPosed(w, f, Receive(Fresh(w.listens), R.GoalsOf(w.o.rand), w.nRelays, arrivals));
  }

  lemma RebuiltAsPosed(w: World, f: Origin, rx: Rx)
    requires R.SameShape(w.o, f) && R.Posed(w.o, f).Valid() && rx.job == Some(JobOf(w.o.MetaMessage()))
    requires R.GenuinePackets(R.Posed(w.o, f), rx.fed) && Enough(R.GoalsOf(w.o.rand), w.o.K(), EsisOf(rx.fed))
    ensures Rebuilt(w, rx) == if f.payload in w.hash && w.hash[f.payload] == w.o.checksum then Some(f.payload) else None
  {
    RebuiltFromFed(w.(o := R.Posed(w.o, f)), rx);
    RebuiltIgnoresPayload(w, R.Posed(w.o, f), rx);
  }

  /** Reconstruction looks at the generators and the hash, not at what was sent. */
  lemma RebuiltIgnoresPayload(w: World, o: Origin, rx: Rx)
    requires w.o.Valid() && o.Valid() && o.rand == w.o.rand
    ensures Rebuilt(w.(o := o), rx) == Rebuilt(w, rx)
  {}

  // ---- Theorems ----

  ghost predicate InNet(n: N.Net, m: Message) {
    || (exists c | c in n.conns ::
          || m in n.conns[c].up || m in n.conns[c].down || n.conns[c].flush == Some(m)
          || (exists h | h in n.conns[c].held :: h.msg == m))
    || (exists key | key in n.rooms :: m in n.rooms[key].buffer || n.rooms[key].pendingDirect == Some(m))
  }

  /** The message is in a queue of the sender, anywhere in a relay, or on its way
      from a relay to the receiver's loop. */
  ghost predicate OnRelaySide(s: State, m: Message) {
    || (exists i | 0 <= i < |s.nets| :: InNet(s.nets[i], m))
    || (exists j | 0 <= j < |s.tx.paths| :: m in s.tx.paths[j].queue)
    || (s.tx.direct.Some? && m in s.tx.direct.value.queue)
    || FromRelay(m) in s.end.inbox
  }

  /** The message is on the direct connection, or a Symbol on its way from there to the receiver's loop. */
  ghost predicate OnDirectSide(s: State, m: Message) {
    m in s.wire.flying || (m.Symbol? && FromDirect(m) in s.end.inbox)
  }

  lemma InNetIsFine(fine: iset<Message>, id: nat, ours: iset<RelaySpec.ConnId>, n: N.Net, m: Message)
    requires N.NetOk(fine, id, ours, n) && InNet(n, m)
    ensures m in fine
  {}

  lemma RelaySideIsFine(fine: iset<Message>, w: World, s: State, m: Message)
    requires NetsOk(fine, w.o.sessionId, Ours(w), s.nets) && TxOk(fine, w.o.sessionId, s.end.rebuilt.Some?, s.tx)
    requires RelayedOk(fine, w.o.sessionId, s.end.inbox) && OnRelaySide(s, m)
    ensures m in fine
  {
    if i :| 0 <= i < |s.nets| && InNet(s.nets[i], m) {
      InNetIsFine(fine, w.o.sessionId, Ours(w), s.nets[i], m);
    } else if j :| 0 <= j < |s.tx.paths| && m in s.tx.paths[j].queue {
      assert Emitted(fine, w.o.sessionId, s.tx.paths[j].queue);
    }
  }

  /** In every run every message of the session in the sender's queues, in a relay
      or on the way from one is one that may exist: a Symbol is the encoder's for
      the ESI it names and was emitted, Meta is the sender's, and Ready exists only
      once the receiver has rebuilt a payload.  In orderly runs this goes for the
      direct link as well. */
  lemma EveryMessageIsFine(w: World, actions: seq<Action>, m: Message)
    requires w.o.Valid()
    requires OnRelaySide(Run(w, actions), m) || (Framed(w) && OrderlyRun(w, actions) && OnDirectSide(Run(w, actions), m))
    ensures m in FineIn(w, Run(w, actions))
  {
    var s := Run(w, actions);
    RunInv(w, actions);
    if OnRelaySide(s, m) {
      RelaySideIsFine(FineIn(w, s), w, s, m);
    } else {
      RunTidy(w, actions);
    }
  }

  lemma ReconstructReturns(w: World, s: State)
    requires w.o.Valid() && Inv(w, s) && Tidy(w, s) && s.end.rx.status == Decoded
    requires w.o.payload in w.hash && w.hash[w.o.payload] == w.o.checksum
    ensures EndStep(w, s, Reconstruct).rebuilt == Some(w.o.payload)
  {
    RebuiltIsPayload(w, s);
    ReconstructSets(w, s);
  }

  lemma ReconstructSets(w: World, s: State)
    requires w.o.Valid() && s.end.rx.status == Decoded
    ensures EndStep(w, s, Reconstruct).rebuilt == if s.end.rebuilt.None? then Rebuilt(w, s.end.rx) else s.end.rebuilt
  {}

  /** End-to-end safety: in every orderly run, whatever the schedule, the losses and
      the strangers, a payload the receiver returns is the sender's, and a receiver
      that has decoded can only rebuild that payload.  The hash plays no part in this. */
  lemma EndToEndSafety(w: World, actions: seq<Action>)
    requires Framed(w) && OrderlyRun(w, actions)
    ensures var s := Run(w, actions);
            && (s.end.rebuilt.Some? ==> s.end.rebuilt.value == w.o.payload)
            && (s.end.returned.Some? ==> s.end.returned.value == w.o.payload)
            && (s.end.rx.status == Decoded && w.o.payload in w.hash && w.hash[w.o.payload] == w.o.checksum
                ==> EndStep(w, s, Reconstruct).rebuilt == Some(w.o.payload))
  {
    var s := Run(w, actions);
    RunInv(w, actions);
    RunTidy(w, actions);
    if s.end.rx.status == Decoded && w.o.payload in w.hash && w.hash[w.o.payload] == w.o.checksum { ReconstructReturns(w, s); }
  }

  /** In every run, orderly or not, what the receiver returns has the sender's
      checksum, and it returns only after every relay took its Ready. */
  lemma SafeUpToTheHash(w: World, actions: seq<Action>)
    requires w.o.Valid()
    ensures var e := Run(w, actions).end;
            && (e.returned.Some? ==> e.returned.value in w.hash && w.hash[e.returned.value] == w.o.checksum)
            && (e.returned.Some? ==> e.returned == e.rebuilt && e.acks == w.nRelays)
  {
    RunInv(w, actions);
  }

  lemma {:induction false} OrderlyPrefix(w: World, actions: seq<Action>, n: nat)
    requires w.o.Valid() && OrderlyRun(w, actions) && n <= |actions|
    ensures OrderlyRun(w, actions[..n])
  {
    if n == |actions| {
      assert actions[..n] == actions;
    } else {
      OrderlyBefore(w, actions);
      OrderlyPrefix(w, actions[..|actions| - 1], n);
      assert actions[..|actions| - 1][..n] == actions[..n];
    }
  }

  ghost predicate Finished(w: World, actions: seq<Action>)
    requires w.o.Valid()
  {
    Run(w, actions).tx.finished
  }

  lemma NotFinishedAtStart(w: World)
    requires w.o.Valid()
    ensures !Finished(w, [])
  {}

  /** Somewhere between a false flag and a later true one the flags change. */
  lemma {:induction false} FlagsChange(flags: seq<bool>) returns (n: nat)
    requires |flags| > 1 && !flags[0] && flags[|flags| - 1]
    ensures n + 1 < |flags| && !flags[n] && flags[n + 1]
  {
    n := |flags| - 2;
    if flags[n] { n := FlagsChange(flags[..n + 1]); }
  }

  /** The step with which the sender finishes. */
  lemma FinishingStep(w: World, actions: seq<Action>) returns (n: nat)
    requires w.o.Valid() && Finished(w, actions)
    ensures n < |actions| && !Finished(w, actions[..n]) && Finished(w, actions[..n + 1])
  {
    NotFinishedAtStart(w);
    var flags := seq(|actions| + 1, i requires 0 <= i <= |actions| => Finished(w, actions[..i]));
    assert actions[..|actions|] == actions && actions[..0] == [];
    n := FlagsChange(flags);
    assert flags[n] == Finished(w, actions[..n]) && flags[n + 1] == Finished(w, actions[..n + 1]);
  }

  /** Ready causality: if the sender has finished, there was an earlier moment at
      which it had not and the receiver had decoded and rebuilt a payload with the
      sender's checksum, in an orderly run the payload itself. */
  lemma ReadyCausality(w: World, actions: seq<Action>) returns (n: nat)
    requires w.o.Valid() && Run(w, actions).tx.finished
    ensures n < |actions|
    ensures !Run(w, actions[..n]).tx.finished && HasPayload(w, Run(w, actions[..n]).end)
    ensures Framed(w) && OrderlyRun(w, actions) ==> Run(w, actions[..n]).end.rebuilt == Some(w.o.payload)
  {
    n := FinishingStep(w, actions);
    assert actions[..n + 1][..n] == actions[..n];
    if OrderlyRun(w, actions) { OrderlyPrefix(w, actions, n + 1); }
    BeforeFinishing(w, actions[..n + 1]);
  }

  lemma OrderlyBefore(w: World, actions: seq<Action>)
    requires w.o.Valid() && actions != []
    ensures OrderlyRun(w, actions) ==> OrderlyRun(w, actions[..|actions| - 1])
  {}

  /** The receiver holds a payload with the sender's checksum. */
  ghost predicate HasPayload(w: World, e: End)
    requires w.o.Valid()
  {
    e.rx.status == Decoded && e.rebuilt.Some? && e.rebuilt.value in w.hash && w.hash[e.rebuilt.value] == w.o.checksum
  }

  lemma BeforeFinishing(w: World, actions: seq<Action>)
    requires w.o.Valid() && actions != []
    requires !Run(w, actions[..|actions| - 1]).tx.finished && Run(w, actions).tx.finished
    ensures var s := Run(w, actions[..|actions| - 1]);
            HasPayload(w, s.end) && (Framed(w) && OrderlyRun(w, actions) ==> s.end.rebuilt == Some(w.o.payload))
  {
    var before := actions[..|actions| - 1];
    RunInv(w, before);
    FinishingNeedsReady(w, Run(w, before), actions[|actions| - 1]);
    if Framed(w) && OrderlyRun(w, actions) { RunTidy(w, before); }
  }

  lemma FinishingNeedsReady(w: World, s: State, a: Action)
    requires w.o.Valid() && !s.tx.finished && Step(w, s, a).tx.finished
    ensures s.tx.readySeen
  {
    if !AtRelay(a) && !InTx(a) && !InEnd(a) { CarryingNeverFinishes(w, s, a); }
  }

  lemma CarryingNeverFinishes(w: World, s: State, a: Action)
    requires w.o.Valid()
    ensures CarryStep(w, s, a).tx.finished == s.tx.finished
  {}

  lemma {:induction false} PacketsWereEmitted(w: World, s: State, l: seq<Arrival>)
    requires w.o.Valid() && RelayedOk(FineIn(w, s), w.o.sessionId, l) && DirectOk(FineIn(w, s), w.o.sessionId, l)
    ensures forall i | 0 <= i < |PacketsOf(l)| :: PacketsOf(l)[i].esi < s.tx.emitted
  {
    if l != [] {
      PacketsWereEmitted(w, s, l[..|l| - 1]);
      assert l[|l| - 1] in l;
    }
  }

  lemma {:induction false} EsisBelow(ps: seq<Packet>, n: nat)
    requires forall i | 0 <= i < |ps| :: ps[i].esi < n
    ensures Below(EsisOf(ps), n)
  {
    if ps != [] { EsisBelow(ps[..|ps| - 1], n); }
  }

  lemma FedWereEmitted(w: World, s: State)
    requires w.o.Valid() && Inv(w, s) && Tidy(w, s)
    ensures Below(EsisOf(s.end.rx.fed), s.tx.emitted)
  {
    var goals, l, rx := R.GoalsOf(w.o.rand), s.end.history, s.end.rx;
    var n := Taken(Fresh(w.listens), goals, w.nRelays, l);
    R.GoalsMonotone(w.o.rand);
    ReceiveOk(w.listens, goals, w.nRelays, l);
    assert forall a | a in l[..n] :: a in l;
    PacketsWereEmitted(w, s, l[..n]);
    assert forall i | 0 <= i < |rx.fed| :: rx.fed[i] == (rx.fed + rx.pending)[i];
    EsisBelow(rx.fed, s.tx.emitted);
  }

  lemma DecodedOnK(w: World, s: State)
    requires w.o.Valid() && Inv(w, s) && s.end.rx.status == Decoded
    ensures w.o.K() <= |EsisOf(s.end.rx.fed)|
  {
    R.GoalsMonotone(w.o.rand);
    ReceiveOk(w.listens, R.GoalsOf(w.o.rand), w.nRelays, s.end.history);
    JobIsTheSenders(w, s);
    FountainCode.NeedsKSymbols(OrbitCode.CodeFor(w.o.K(), w.o.rand), EsisOf(s.end.rx.fed));
  }

  /** No receiver decodes on fewer than K distinct ESIs; in orderly runs those were
      all emitted, so no sender finishes with fewer than K symbols emitted. */
  lemma AtLeastKSymbols(w: World, actions: seq<Action>)
    requires w.o.Valid()
    ensures var s := Run(w, actions);
            && (s.end.rx.status == Decoded ==> w.o.K() <= |EsisOf(s.end.rx.fed)|)
            && (Framed(w) && OrderlyRun(w, actions) ==>
                  && (s.end.rx.status == Decoded ==> |EsisOf(s.end.rx.fed)| <= s.tx.emitted)
                  && (s.tx.finished ==> w.o.K() <= s.tx.emitted))
  {
    var s := Run(w, actions);
    RunInv(w, actions);
    if s.end.rx.status == Decoded {
      DecodedOnK(w, s);
      if Framed(w) && OrderlyRun(w, actions) {
        RunTidy(w, actions);
        FedWereEmitted(w, s);
        BoundedSize(EsisOf(s.end.rx.fed), s.tx.emitted);
      }
    }
  }

  /** Every emission of the sender's loop is a step of the system, after dropping a
      dead direct link if it was that link's turn. */
  lemma EmissionIsStep(tx: Tx, m: Message, first: nat, directTurn: bool, h: T.Handoff,
                       paths: seq<T.Path>, direct: Option<T.Path>) returns (a: Action, dropped: Tx)
    requires !tx.finished && h.msg == m && T.Placed(tx.paths, tx.direct, directTurn, first, h, paths, direct)
    ensures dropped == tx || dropped == TxStep(tx, m, DropDirect)
    ensures InTx(a) && TxStep(dropped, m, a) == tx.(paths := paths, direct := direct, emitted := tx.emitted + 1)
  {
    if h.route == T.ViaDirect {
      a, dropped := EmitDirect, tx;
    } else {
      a, dropped := EmitRelay(h.route.path), tx.(direct := T.AfterTurn(tx.direct, directTurn));
    }
  }
}
