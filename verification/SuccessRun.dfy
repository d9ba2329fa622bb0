/** That the parts work together: from the start of every transfer there is a run
    in which the receiver returns the payload and the sender finishes. */
module SuccessRun {
  import opened Options
  import opened NatSets
  import opened XorKernel
  import opened Wire
  import Framing
  import opened Origin
  import opened ReceiverSpec
  import opened Transfer
  import opened TransferSafety
  import RelaySpec
  import FountainCode
  import OrbitCode
  import N = RelayNet
  import R = Receiver
  import L = DirectLink
  import T = Sender

  type ConnId = RelaySpec.ConnId

  // ---- One relay carries one frame ----

  /** A registered connection with nothing under way. */
  function Calm(id: nat): N.Conn { N.Conn([], [], None, [], Some(id), true, true) }

  /** A sender and a receiver are registered, and nothing is under way. */
  ghost predicate Linked(n: N.Net, id: nat, c: ConnId, d: ConnId) {
    && c != d && c in n.conns && d in n.conns && n.conns[c] == Calm(id) && n.conns[d] == Calm(id)
    && id in n.rooms && n.rooms[id] == RelaySpec.RoomState(Some(c), Some(d), [], None, false)
  }

  /** A frame of the sender passes through the relay to the receiver. */
  function Carried(n: N.Net, c: ConnId, m: Message): N.Net {
    N.NetStep(N.NetStep(N.Put(n, c, m), N.Read(c)), N.Forward(c))
  }

  lemma PutWaits(n: N.Net, c: ConnId, m: Message)
    requires c in n.conns && n.conns[c].up == []
    ensures N.Put(n, c, m) == n.(conns := n.conns[c := n.conns[c].(up := [m])])
  {
    assert n.conns[c].up + [m] == [m];
  }

  /** Reading a frame that is alone on a calm connection. */
  lemma ReadAlone(n: N.Net, id: nat, c: ConnId, m: Message)
    requires c in n.conns && n.conns[c] == Calm(id) && m.sessionId == id
    ensures var step := RelaySpec.OnMessage(n.rooms, m, c);
            N.NetStep(N.Put(n, c, m), N.Read(c))
            == N.Net(step.rooms, n.conns[c := Calm(id).(held := step.sends, flush := step.flush)])
  {
    PutWaits(n, c, m);
    assert [m][1..] == [];
    var conn := Calm(id).(held := RelaySpec.OnMessage(n.rooms, m, c).sends, flush := RelaySpec.OnMessage(n.rooms, m, c).flush);
    assert n.conns[c := Calm(id).(up := [m])][c := conn] == n.conns[c := conn];
  }

  /** Forwarding the only send a handler owes. */
  lemma ForwardAlone(n: N.Net, id: nat, c: ConnId, d: ConnId, m: Message)
    requires c != d && c in n.conns && d in n.conns && n.conns[d] == Calm(id) && n.conns[c] == Calm(id)
    ensures N.NetStep(n.(conns := n.conns[c := Calm(id).(held := [RelaySpec.Send(d, m)])]), N.Forward(c))
         == n.(conns := n.conns[d := Calm(id).(down := [m])])
  {
    var h := RelaySpec.Send(d, m);
    var held := n.conns[c := Calm(id).(held := [h])];
    assert [h][1..] == [] && [] + [m] == [m];
    assert held[c := Calm(id)] == n.conns;
  }

  lemma RelayCarries(n: N.Net, id: nat, c: ConnId, d: ConnId, m: Message)
    requires Linked(n, id, c, d) && RelaySpec.IsPayload(m) && m.sessionId == id
    ensures Carried(n, c, m) == n.(conns := n.conns[d := Calm(id).(down := [m])])
  {
    ReadAlone(n, id, c, m);
    ForwardAlone(n, id, c, d, m);
  }

  /** Taking the frame off leaves the relay as it was. */
  lemma CarriedAway(n: N.Net, id: nat, c: ConnId, d: ConnId, m: Message)
    requires Linked(n, id, c, d) && RelaySpec.IsPayload(m) && m.sessionId == id
    ensures var after := Carried(n, c, m);
            && d in after.conns && after.conns[d].down == [m] && Linked(N.TakeDown(after, d), id, c, d)
            && N.TakeDown(after, d) == n
  {
    RelayCarries(n, id, c, d, m);
    assert n.conns[d := Calm(id).(down := [m])][d := Calm(id)] == n.conns;
  }

  /** Ready passes back to the sender. */
  lemma ReadyIsCarried(n: N.Net, id: nat, c: ConnId, d: ConnId)
    requires Linked(n, id, c, d)
    ensures var after := Carried(n, d, Ready(id)); c in after.conns && after.conns[c].down == [Ready(id)]
  {
    ReadAlone(n, id, d, Ready(id));
    var done := RelaySpec.OnMessage(n.rooms, Ready(id), d).rooms;
    ForwardAlone(N.Net(done, n.conns), id, d, c, Ready(id));
  }

  /** Two connections register at an empty relay. */
  function Registered(id: nat, c: ConnId, d: ConnId): N.Net {
    var connected := N.NetStep(N.NetStep(N.Net(map[], map[]), N.Connect(c)), N.Connect(d));
    var sender := N.NetStep(N.Put(connected, c, Hello(id, ROLE_SENDER)), N.Read(c));
    N.NetStep(N.Put(sender, d, Hello(id, ROLE_RECEIVER)), N.Read(d))
  }

  lemma RegisteredIsLinked(id: nat, c: ConnId, d: ConnId)
    requires c != d
    ensures Linked(Registered(id, c, d), id, c, d)
  {
    var connected := N.NetStep(N.NetStep(N.Net(map[], map[]), N.Connect(c)), N.Connect(d));
    assert connected == N.Net(map[], map[c := N.NEW_CONN][d := N.NEW_CONN]);
    PutWaits(connected, c, Hello(id, ROLE_SENDER));
    var sender := N.NetStep(N.Put(connected, c, Hello(id, ROLE_SENDER)), N.Read(c));
    assert sender.conns[c] == Calm(id) && sender.conns[d] == N.NEW_CONN;
    assert sender.rooms == map[id := RelaySpec.RoomState(Some(c), None, [], None, false)];
    PutWaits(sender, d, Hello(id, ROLE_RECEIVER));
  }

  // ---- What arrives in a run over one relay ----

  /** Meta and some symbols, all over relays. */
  function MetaThenRelayed(meta: Message, symbols: seq<Message>): seq<Arrival> {
    if symbols == [] then [FromRelay(meta)]
    else MetaThenRelayed(meta, symbols[..|symbols| - 1]) + [FromRelay(symbols[|symbols| - 1])]
  }

  ghost predicate InOrder(symbols: seq<Message>) { forall i | 0 <= i < |symbols| :: symbols[i].Symbol? && symbols[i].esi == i }

  lemma {:induction false} RelayedBrings(meta: Message, symbols: seq<Message>)
    requires meta.Meta? && InOrder(symbols)
    ensures Brings(MetaThenRelayed(meta, symbols), 0, JobOf(meta), |symbols|)
  {
    if symbols == [] {
      MetaArrives(meta);
    } else {
      var before, last := symbols[..|symbols| - 1], symbols[|symbols| - 1];
      RelayedBrings(meta, before);
      BringsMore(MetaThenRelayed(meta, before), FromRelay(last), 0, JobOf(meta));
    }
  }

  lemma {:induction false} RelayedIsBelow(meta: Message, symbols: seq<Message>)
    requires meta.Meta? && InOrder(symbols)
    ensures Below(EsisOf(PacketsOf(MetaThenRelayed(meta, symbols))), |symbols|)
  {
    if symbols == [] {
      assert PacketsOf([FromRelay(meta)][..0]) == [];
    } else {
      var before, last := symbols[..|symbols| - 1], symbols[|symbols| - 1];
      RelayedIsBelow(meta, before);
      OneMoreSymbol(MetaThenRelayed(meta, before), FromRelay(last));
    }
  }

  lemma {:induction false} RelayedHolds(meta: Message, symbols: seq<Message>)
    ensures forall a | a in MetaThenRelayed(meta, symbols) :: a.FromRelay? && (a.msg == meta || a.msg in symbols)
  {
    if symbols != [] {
      var before, last := symbols[..|symbols| - 1], symbols[|symbols| - 1];
      RelayedHolds(meta, before);
      assert symbols == before + [last];
    }
  }

  /** The symbols of ESIs 0 to i-1. */
  ghost function FirstSymbols(o: Origin, i: nat): (r: seq<Message>)
    requires o.Valid()
    ensures |r| == i && forall j | 0 <= j < i :: r[j] == Symbol(o.sessionId, j, o.Data(j))
  {
    seq(i, j requires 0 <= j => Symbol(o.sessionId, j, o.Data(j)))
  }

  /** Meta, then the first `i` symbols. */
  ghost function Arrived(o: Origin, i: nat): seq<Arrival>
    requires o.Valid()
  {
    MetaThenRelayed(o.MetaMessage(), FirstSymbols(o, i))
  }

  lemma ArrivedIsHonest(o: Origin, i: nat)
    requires o.Valid()
    ensures forall a | a in Arrived(o, i) :: R.Honest(o, a) && Harmless(a)
  {
    RelayedHolds(o.MetaMessage(), FirstSymbols(o, i));
  }

  lemma ArrivedNext(o: Origin, i: nat)
    requires o.Valid() && i > 0
    ensures Arrived(o, i) == Arrived(o, i - 1) + [FromRelay(Symbol(o.sessionId, i - 1, o.Data(i - 1)))]
  {
    assert FirstSymbols(o, i)[..i - 1] == FirstSymbols(o, i - 1);
  }

  ghost function RxAfter(w: World, i: nat): Rx
    requires w.o.Valid()
  {
    Receive(Fresh(w.listens), R.GoalsOf(w.o.rand), w.nRelays, Arrived(w.o, i))
  }

  lemma NextRx(w: World, i: nat)
    requires w.o.Valid() && i > 0 && RxAfter(w, i - 1).status == Receiving
    ensures RxAfter(w, i)
         == OnArrival(RxAfter(w, i - 1), R.GoalsOf(w.o.rand), w.nRelays, FromRelay(Symbol(w.o.sessionId, i - 1, w.o.Data(i - 1))))
    ensures Taken(Fresh(w.listens), R.GoalsOf(w.o.rand), w.nRelays, Arrived(w.o, i)) == |Arrived(w.o, i)|
  {
    ArrivedNext(w.o, i);
    assert Arrived(w.o, i)[..|Arrived(w.o, i)| - 1] == Arrived(w.o, i - 1);
  }

  lemma MetaAlone(direct: bool, goals: Goals, nRelays: nat, meta: Message)
    requires meta.Meta?
    ensures Receive(Fresh(direct), goals, nRelays, [FromRelay(meta)]) == Fresh(direct).(job := Some(JobOf(meta)))
  {
    var l := [FromRelay(meta)];
    assert l[..0] == [];
    assert Receive(Fresh(direct), goals, nRelays, l[..0]) == Fresh(direct);
    assert OnArrival(Fresh(direct), goals, nRelays, l[0]) == Drain(Fresh(direct).(job := Some(JobOf(meta))), goals);
  }

  lemma FirstRx(w: World)
    requires w.o.Valid()
    ensures RxAfter(w, 0) == OnArrival(Fresh(w.listens), R.GoalsOf(w.o.rand), w.nRelays, FromRelay(w.o.MetaMessage()))
    ensures RxAfter(w, 0).status == Receiving
  {
    assert FirstSymbols(w.o, 0) == [];
    MetaAlone(w.listens, R.GoalsOf(w.o.rand), w.nRelays, w.o.MetaMessage());
  }

  /** The session decodes with the K-th symbol and not before. */
  lemma {:induction false} StatusAfter(w: World, i: nat)
    requires w.o.Valid() && w.nRelays >= 1 && i <= w.o.K()
    ensures RxAfter(w, i).status == if i == w.o.K() then Decoded else Receiving
  {
    if i == 0 {
      FirstRx(w);
    } else {
      StatusAfter(w, i - 1);
      NextRx(w, i);
      ArrivedVerdict(w, i);
    }
  }

  lemma ArrivedVerdict(w: World, i: nat)
    requires w.o.Valid() && w.nRelays >= 1 && i <= w.o.K()
    requires Taken(Fresh(w.listens), R.GoalsOf(w.o.rand), w.nRelays, Arrived(w.o, i)) == |Arrived(w.o, i)|
    ensures RxAfter(w, i).status == if i == w.o.K() then Decoded else Receiving
  {
    var l := Arrived(w.o, i);
    RelayedBrings(w.o.MetaMessage(), FirstSymbols(w.o, i));
    RelayedIsBelow(w.o.MetaMessage(), FirstSymbols(w.o, i));
    ArrivedIsHonest(w.o, i);
    NeverFails(w.listens, R.GoalsOf(w.o.rand), w.nRelays, l);
    assert l[..|l|] == l;
    var esis := EsisOf(PacketsOf(l));
    assert esis == Upto(i);
    R.SessionDecodesAtK(w.o, w.listens, w.nRelays, l, l);
  }

  // ---- The run ----

  ghost predicate Reachable(w: World, s: State)
    requires w.o.Valid()
  {
    exists actions :: Run(w, actions) == s
  }

  lemma ReachStep(w: World, s: State, a: Action)
    requires w.o.Valid() && Reachable(w, s)
    ensures Reachable(w, Step(w, s, a))
  {
    var actions :| Run(w, actions) == s;
    assert (actions + [a])[..|actions|] == actions;
    assert Run(w, actions + [a]) == Step(w, s, a);
  }

  lemma StepInEnd(w: World, s: State, a: Action)
    requires w.o.Valid() && InEnd(a)
    ensures Step(w, s, a) == s.(end := EndStep(w, s, a))
  {}

  lemma StepInTx(w: World, s: State, a: Action)
    requires w.o.Valid() && InTx(a)
    ensures Step(w, s, a) == s.(tx := TxStep(s.tx, NextSymbol(w, s), a))
  {}

  lemma StepCarries(w: World, s: State, a: Action)
    requires w.o.Valid() && !AtRelay(a) && !InTx(a) && !InEnd(a)
    ensures Step(w, s, a) == CarryStep(w, s, a)
  {}

  /** `n` at the first relay, everything else as it was. */
  function AtFirst(s: State, n: N.Net): State
    requires s.nets != []
  {
    WithNet(s, 0, n)
  }

  lemma RelaySteps(w: World, s: State, step: N.NetAction) returns (t: State)
    requires w.o.Valid() && Reachable(w, s) && s.nets != []
    ensures Reachable(w, t) && t == AtFirst(s, N.NetStep(s.nets[0], step))
  {
    ReachStep(w, s, Relay(0, step));
    t := Step(w, s, Relay(0, step));
  }

  /** The handler of `c` takes the frame in and hands it on. */
  lemma RelayHandles(w: World, s: State, c: ConnId) returns (t: State)
    requires w.o.Valid() && Reachable(w, s) && s.nets != []
    ensures Reachable(w, t) && t == AtFirst(s, N.NetStep(N.NetStep(s.nets[0], N.Read(c)), N.Forward(c)))
  {
    t := RelaySteps(w, s, N.Read(c));
    t := RelaySteps(w, t, N.Forward(c));
  }

  /** Both connections are registered at the first relay. */
  lemma Registers(w: World, c: ConnId, d: ConnId) returns (t: State)
    requires w.o.Valid() && w.nRelays >= 1 && c in w.senders && d in w.receivers && d !in w.senders
    ensures Reachable(w, t) && t == AtFirst(Start(w), Registered(w.o.sessionId, c, d))
  {
    var s := Start(w);
    assert Run(w, []) == s;
    t := RelaySteps(w, s, N.Connect(c));
    t := RelaySteps(w, t, N.Connect(d));
    t := SaysHello(w, t, c, ROLE_SENDER);
    t := SaysHello(w, t, d, ROLE_RECEIVER);
    assert t.nets[0] == Registered(w.o.sessionId, c, d);
    assert t == AtFirst(s, t.nets[0]);
  }

  lemma SaysHello(w: World, s: State, c: ConnId, role: nat) returns (t: State)
    requires w.o.Valid() && Reachable(w, s) && s.nets != []
    requires if role == ROLE_SENDER then c in w.senders else role == ROLE_RECEIVER && c in w.receivers && c !in w.senders
    ensures Reachable(w, t) && t == AtFirst(s, N.NetStep(N.Put(s.nets[0], c, Hello(w.o.sessionId, role)), N.Read(c)))
  {
    t := Hellos(w, s, c, role);
    t := RelaySteps(w, t, N.Read(c));
  }

  lemma Hellos(w: World, s: State, c: ConnId, role: nat) returns (t: State)
    requires w.o.Valid() && Reachable(w, s) && s.nets != []
    requires if role == ROLE_SENDER then c in w.senders else role == ROLE_RECEIVER && c in w.receivers && c !in w.senders
    ensures Reachable(w, t) && t == AtFirst(s, N.Put(s.nets[0], c, Hello(w.o.sessionId, role)))
  {
    ReachStep(w, s, Register(0, c));
    t := Step(w, s, Register(0, c));
  }

  /** The receiver's connection delivers, and the loop takes what it delivered. */
  lemma Hears(w: World, s: State, d: ConnId, m: Message) returns (t: State)
    requires w.o.Valid() && Reachable(w, s) && s.nets != [] && d in w.receivers
    requires d in s.nets[0].conns && s.nets[0].conns[d].down == [m]
    requires s.end.inbox == [] && s.end.rx.status == Receiving
    ensures Reachable(w, t)
    ensures t == AtFirst(s, N.TakeDown(s.nets[0], d)).(end := Heard(w, s.end, FromRelay(m)))
  {
    var l := Listens(w, s, d, m);
    t := TakesTurn(w, l, FromRelay(m));
  }

  lemma Listens(w: World, s: State, d: ConnId, m: Message) returns (t: State)
    requires w.o.Valid() && Reachable(w, s) && s.nets != [] && d in w.receivers
    requires d in s.nets[0].conns && s.nets[0].conns[d].down == [m] && s.end.inbox == []
    ensures Reachable(w, t) && t == AtFirst(s, N.TakeDown(s.nets[0], d)).(end := s.end.(inbox := [FromRelay(m)]))
  {
    ListenIs(w, s, d, m);
    StepCarries(w, s, Listen(0, d));
    ReachStep(w, s, Listen(0, d));
    t := Step(w, s, Listen(0, d));
  }

  lemma ListenIs(w: World, s: State, d: ConnId, m: Message)
    requires w.o.Valid() && s.nets != [] && d in w.receivers && d in s.nets[0].conns
    requires s.nets[0].conns[d].down == [m] && s.end.inbox == []
    ensures CarryStep(w, s, Listen(0, d)) == AtFirst(s, N.TakeDown(s.nets[0], d)).(end := s.end.(inbox := [FromRelay(m)]))
  {
    assert [] + [FromRelay(m)] == [FromRelay(m)];
  }

  ghost function Heard(w: World, e: End, a: Arrival): End
    requires w.o.Valid()
  {
    e.(history := e.history + [a], rx := OnArrival(e.rx, R.GoalsOf(w.o.rand), w.nRelays, a))
  }

  lemma TakesTurn(w: World, s: State, a: Arrival) returns (t: State)
    requires w.o.Valid() && Reachable(w, s) && s.end.inbox == [a] && s.end.rx.status == Receiving
    ensures Reachable(w, t) && t == s.(end := Heard(w, s.end.(inbox := []), a))
  {
    assert [a][1..] == [];
    StepInEnd(w, s, Turn);
    ReachStep(w, s, Turn);
    t := Step(w, s, Turn);
  }

  /** Between symbols: `i` were emitted and heard, and nothing is under way. */
  ghost predicate Between(w: World, s: State, c: ConnId, d: ConnId, i: nat)
    requires w.o.Valid()
  {
    && |s.nets| == w.nRelays >= 1 && Linked(s.nets[0], w.o.sessionId, c, d)
    && (forall j | 1 <= j < |s.nets| :: s.nets[j] == N.Net(map[], map[]))
    && |s.tx.paths| == w.nRelays && s.tx.paths[0] == T.FRESH_LINK && s.tx.emitted == i
    && s.tx.direct == None && !s.tx.directUp && s.wire == Pipe([], L.FRESH, [])
    && s.end == End([], Arrived(w.o, i), RxAfter(w, i), None, 0, false, None)
  }

  /** Meta travels to the receiver's connection. */
  lemma MetaTravels(w: World, s: State, c: ConnId) returns (t: State)
    requires w.o.Valid() && Reachable(w, s) && s.nets != [] && c in w.senders
    ensures Reachable(w, t) && t == AtFirst(s, Carried(s.nets[0], c, w.o.MetaMessage()))
  {
    StepCarries(w, s, SendMeta(c));
    ReachStep(w, s, SendMeta(c));
    t := Step(w, s, SendMeta(c));
    assert t == AtFirst(s, N.Put(s.nets[0], c, w.o.MetaMessage()));
    t := RelayHandles(w, t, c);
  }

  /** It goes first. */
  lemma SendsMeta(w: World, c: ConnId, d: ConnId) returns (t: State)
    requires w.o.Valid() && w.nRelays >= 1 && c in w.senders && d in w.receivers && d !in w.senders
    ensures Reachable(w, t) && Between(w, t, c, d, 0) && !t.tx.finished
  {
    var s := Registers(w, c, d);
    var m := w.o.MetaMessage();
    RegisteredIsLinked(w.o.sessionId, c, d);
    t := MetaTravels(w, s, c);
    CarriedAway(s.nets[0], w.o.sessionId, c, d, m);
    t := Hears(w, t, d, m);
    HeardMeta(w, s.end);
  }

  lemma HeardMeta(w: World, e: End)
    requires w.o.Valid() && e == Start(w).end
    ensures Heard(w, e, FromRelay(w.o.MetaMessage())) == End([], Arrived(w.o, 0), RxAfter(w, 0), None, 0, false, None)
  {
    FirstRx(w);
    assert FirstSymbols(w.o, 0) == [];
    assert [] + [FromRelay(w.o.MetaMessage())] == Arrived(w.o, 0);
  }

  lemma Emits(w: World, s: State, m: Message) returns (t: State)
    requires w.o.Valid() && Reachable(w, s) && |s.tx.paths| >= 1 && s.tx.paths[0] == T.FRESH_LINK && !s.tx.finished
    requires m == NextSymbol(w, s)
    ensures Reachable(w, t)
    ensures t == s.(tx := s.tx.(paths := s.tx.paths[0 := T.FRESH_LINK.(queue := [m])], emitted := s.tx.emitted + 1))
  {
    assert [] + [m] == [m];
    StepInTx(w, s, EmitRelay(0));
    ReachStep(w, s, EmitRelay(0));
    t := Step(w, s, EmitRelay(0));
  }

  lemma Writes(w: World, s: State, c: ConnId, m: Message) returns (t: State)
    requires w.o.Valid() && Reachable(w, s) && |s.tx.paths| >= 1 && s.nets != [] && c in w.senders
    requires s.tx.paths[0] == T.FRESH_LINK.(queue := [m])
    ensures Reachable(w, t)
    ensures t == AtFirst(s, N.Put(s.nets[0], c, m)).(tx := s.tx.(paths := s.tx.paths[0 := T.FRESH_LINK]))
  {
    assert [m][1..] == [];
    StepCarries(w, s, WriteRelay(0, c));
    ReachStep(w, s, WriteRelay(0, c));
    t := Step(w, s, WriteRelay(0, c));
  }

  /** The next symbol travels to the receiver's connection. */
  lemma SymbolTravels(w: World, s: State, c: ConnId, m: Message) returns (t: State)
    requires w.o.Valid() && Reachable(w, s) && s.nets != [] && c in w.senders
    requires |s.tx.paths| >= 1 && s.tx.paths[0] == T.FRESH_LINK && !s.tx.finished && m == NextSymbol(w, s)
    ensures Reachable(w, t)
    ensures t == AtFirst(s, Carried(s.nets[0], c, m)).(tx := s.tx.(emitted := s.tx.emitted + 1))
  {
    t := Emits(w, s, m);
    t := Writes(w, t, c, m);
    assert t.tx.paths == s.tx.paths;
    t := RelayHandles(w, t, c);
  }

  lemma HeardSymbol(w: World, i: nat)
    requires w.o.Valid() && w.nRelays >= 1 && i < w.o.K()
    ensures RxAfter(w, i).status == Receiving
    ensures Heard(w, End([], Arrived(w.o, i), RxAfter(w, i), None, 0, false, None), FromRelay(Symbol(w.o.sessionId, i, w.o.Data(i))))
         == End([], Arrived(w.o, i + 1), RxAfter(w, i + 1), None, 0, false, None)
  {
    StatusAfter(w, i);
    NextRx(w, i + 1);
    ArrivedNext(w.o, i + 1);
  }

  lemma NextIs(w: World, s: State, i: nat)
    requires w.o.Valid() && s.tx.emitted == i < w.o.K()
    ensures NextSymbol(w, s) == Symbol(w.o.sessionId, i, w.o.Data(i))
  {
    T.SmallEsi(i);
  }

  lemma BetweenNext(w: World, s: State, t: State, c: ConnId, d: ConnId, i: nat)
    requires w.o.Valid() && i < w.o.K() && Between(w, s, c, d, i)
    requires t.nets == s.nets && t.wire == s.wire && t.tx == s.tx.(emitted := i + 1)
    requires t.end == Heard(w, s.end, FromRelay(Symbol(w.o.sessionId, i, w.o.Data(i))))
    ensures Between(w, t, c, d, i + 1)
  {
    HeardSymbol(w, i);
  }

  /** One symbol through queue, relay and loop. */
  lemma SendsSymbol(w: World, s: State, c: ConnId, d: ConnId, i: nat) returns (t: State)
    requires w.o.Valid() && c in w.senders && d in w.receivers && i < w.o.K()
    requires Reachable(w, s) && Between(w, s, c, d, i) && !s.tx.finished
    ensures Reachable(w, t) && Between(w, t, c, d, i + 1) && !t.tx.finished
  {
    var m := Symbol(w.o.sessionId, i, w.o.Data(i));
    NextIs(w, s, i);
    t := SymbolTravels(w, s, c, m);
    CarriedAway(s.nets[0], w.o.sessionId, c, d, m);
    HeardSymbol(w, i);
    t := Hears(w, t, d, m);
    assert t.nets == s.nets;
    BetweenNext(w, s, t, c, d, i);
  }

  lemma {:induction false} SendsSymbols(w: World, c: ConnId, d: ConnId, i: nat) returns (t: State)
    requires w.o.Valid() && w.nRelays >= 1 && c in w.senders && d in w.receivers && d !in w.senders && i <= w.o.K()
    ensures Reachable(w, t) && Between(w, t, c, d, i) && !t.tx.finished
  {
    if i == 0 {
      t := SendsMeta(w, c, d);
    } else {
      t := SendsSymbols(w, c, d, i - 1);
      t := SendsSymbol(w, t, c, d, i - 1);
    }
  }

  // ---- The end of the run ----

  lemma RebuiltAtK(w: World)
    requires w.o.Valid() && w.nRelays >= 1
    requires w.o.payload in w.hash && w.hash[w.o.payload] == w.o.checksum
    ensures RxAfter(w, w.o.K()).status == Decoded && Rebuilt(w, RxAfter(w, w.o.K())) == Some(w.o.payload)
  {
    var k := w.o.K();
    StatusAfter(w, k);
    ArrivedIsHonest(w.o, k);
    R.HonestRx(w.o, w.listens, w.nRelays, Arrived(w.o, k));
    R.DecodedHasJob(w.o, w.listens, w.nRelays, Arrived(w.o, k));
    RebuiltFromFed(w, RxAfter(w, k));
  }

  lemma EndReconstructs(w: World, s: State)
    requires w.o.Valid() && s.end.rx.status == Decoded && s.end.rebuilt.None?
    ensures EndStep(w, s, Reconstruct) == s.end.(rebuilt := Rebuilt(w, s.end.rx))
  {
    ReconstructSets(w, s);
    OnlyRebuiltChanges(w, s);
  }

  lemma OnlyRebuiltChanges(w: World, s: State)
    requires w.o.Valid()
    ensures EndStep(w, s, Reconstruct) == s.end.(rebuilt := EndStep(w, s, Reconstruct).rebuilt)
  {}

  /** After all symbols the payload is rebuilt. */
  lemma Rebuilds(w: World, s: State) returns (t: State)
    requires w.o.Valid() && Reachable(w, s) && s.end.rx.status == Decoded && s.end.rebuilt.None?
    ensures Reachable(w, t) && t == s.(end := s.end.(rebuilt := Rebuilt(w, s.end.rx)))
  {
    EndReconstructs(w, s);
    StepInEnd(w, s, Reconstruct);
    ReachStep(w, s, Reconstruct);
    t := Step(w, s, Reconstruct);
  }

  /** Ready was written to the first `j` relays, of which only the first has connections. */
  function Acked(s: State, d: ConnId, id: nat, j: nat): State
    requires s.nets != []
  {
    (if j == 0 then s else AtFirst(s, N.Put(s.nets[0], d, Ready(id)))).(end := s.end.(acks := j))
  }

  lemma Acknowledges(w: World, s: State, d: ConnId, j: nat) returns (t: State)
    requires w.o.Valid() && |s.nets| == w.nRelays >= 1 && d in w.receivers && j < w.nRelays
    requires Reachable(w, Acked(s, d, w.o.sessionId, j)) && s.end.rebuilt.Some? && !s.end.refused
    requires forall i | 1 <= i < |s.nets| :: s.nets[i] == N.Net(map[], map[])
    ensures t == Acked(s, d, w.o.sessionId, j + 1) && Reachable(w, t)
  {
    var before := Acked(s, d, w.o.sessionId, j);
    AcknowledgeIs(w, before, d);
    StepCarries(w, before, Acknowledge(d, true));
    ReachStep(w, before, Acknowledge(d, true));
    t := Step(w, before, Acknowledge(d, true));
    if j > 0 { assert before.nets[j := before.nets[j]] == before.nets; }
  }

  lemma AcknowledgeIs(w: World, s: State, d: ConnId)
    requires w.o.Valid() && d in w.receivers && s.end.rebuilt.Some? && !s.end.refused && s.end.acks < |s.nets|
    ensures var j := s.end.acks;
            CarryStep(w, s, Acknowledge(d, true))
            == WithNet(s, j, N.Put(s.nets[j], d, Ready(w.o.sessionId))).(end := s.end.(acks := j + 1))
  {}

  lemma {:induction false} AcknowledgesAll(w: World, s: State, d: ConnId, j: nat) returns (t: State)
    requires w.o.Valid() && |s.nets| == w.nRelays >= 1 && d in w.receivers && j <= w.nRelays
    requires Reachable(w, s) && s.end.rebuilt.Some? && !s.end.refused && s.end.acks == 0
    requires forall i | 1 <= i < |s.nets| :: s.nets[i] == N.Net(map[], map[])
    ensures t == Acked(s, d, w.o.sessionId, j) && Reachable(w, t)
  {
    if j == 0 {
      t := s;
    } else {
      t := AcknowledgesAll(w, s, d, j - 1);
      t := Acknowledges(w, s, d, j - 1);
    }
  }

  /** The receiver closes and returns. */
  lemma Returns(w: World, s: State) returns (t: State)
    requires w.o.Valid() && Reachable(w, s) && s.end.rebuilt.Some? && !s.end.refused && s.end.acks == w.nRelays
    ensures Reachable(w, t) && t == s.(end := s.end.(returned := s.end.rebuilt))
  {
    StepInEnd(w, s, CloseSinks(true));
    ReachStep(w, s, CloseSinks(true));
    t := Step(w, s, CloseSinks(true));
  }

  lemma HearsReady(w: World, s: State, c: ConnId) returns (t: State)
    requires w.o.Valid() && Reachable(w, s) && s.nets != [] && c in w.senders
    requires c in s.nets[0].conns && s.nets[0].conns[c].down == [Ready(w.o.sessionId)]
    ensures Reachable(w, t) && t == AtFirst(s, N.TakeDown(s.nets[0], c)).(tx := s.tx.(readySeen := true))
  {
    WatchIs(w, s, c);
    StepCarries(w, s, Watch(0, c, false));
    ReachStep(w, s, Watch(0, c, false));
    t := Step(w, s, Watch(0, c, false));
  }

  lemma WatchIs(w: World, s: State, c: ConnId)
    requires w.o.Valid() && s.nets != [] && c in w.senders && c in s.nets[0].conns
    requires s.nets[0].conns[c].down == [Ready(w.o.sessionId)]
    ensures CarryStep(w, s, Watch(0, c, false)) == AtFirst(s, N.TakeDown(s.nets[0], c)).(tx := s.tx.(readySeen := true))
  {}

  lemma FinishIs(w: World, s: State)
    requires w.o.Valid() && s.tx.readySeen
    ensures Step(w, s, Finish) == s.(tx := s.tx.(finished := true))
  {
    StepInTx(w, s, Finish);
  }

  /** The sender hears Ready and finishes. */
  lemma Finishes(w: World, s: State, c: ConnId) returns (t: State)
    requires w.o.Valid() && Reachable(w, s) && s.nets != [] && c in w.senders
    requires c in s.nets[0].conns && s.nets[0].conns[c].down == [Ready(w.o.sessionId)]
    ensures Reachable(w, t) && t.end == s.end && t.tx.finished
  {
    var heard := HearsReady(w, s, c);
    FinishIs(w, heard);
    ReachStep(w, heard, Finish);
    t := Step(w, heard, Finish);
  }

  lemma Ends(w: World, s: State, c: ConnId, d: ConnId) returns (t: State)
    requires w.o.Valid() && c in w.senders && d in w.receivers && Reachable(w, s) && Between(w, s, c, d, w.o.K())
    requires w.o.payload in w.hash && w.hash[w.o.payload] == w.o.checksum
    ensures Reachable(w, t) && t.tx.finished && t.end.returned == Some(w.o.payload)
  {
    var n, id := s.nets[0], w.o.sessionId;
    RebuiltAtK(w);
    var r := Rebuilds(w, s);
    t := AcknowledgesAll(w, r, d, w.nRelays);
    t := Returns(w, t);
    assert t.nets[0] == N.Put(n, d, Ready(id));
    t := RelayHandles(w, t, d);
    ReadyIsCarried(n, id, c, d);
    t := Finishes(w, t, c);
  }

  /** Every transfer can succeed: there is a run in which all K symbols go through
      one relay, the receiver returns the payload, and the sender finishes. */
  lemma SuccessIsPossible(w: World, c: ConnId, d: ConnId) returns (actions: seq<Action>)
    requires w.o.Valid() && w.nRelays >= 1 && c in w.senders && d in w.receivers && d !in w.senders
    requires w.o.payload in w.hash && w.hash[w.o.payload] == w.o.checksum
    ensures var s := Run(w, actions); s.tx.finished && s.end.returned == Some(w.o.payload)
  {
    var s := SendsSymbols(w, c, d, w.o.K());
    s := Ends(w, s, c, d);
    actions :| Run(w, actions) == s;
  }

  // ---- The direct link carries symbols ----

  /** The sender's direct link is up and nothing is on it. */
  ghost predicate DirectIdle(s: State) {
    s.tx.direct == Some(T.FRESH_LINK) && s.wire.stream == [] && s.wire.flying == [] && s.wire.link.alive && s.wire.link.buf == []
  }

  lemma EmitsDirect(w: World, s: State, m: Message)
    requires w.o.Valid() && DirectIdle(s) && !s.tx.finished && m == NextSymbol(w, s)
    ensures Step(w, s, EmitDirect)
         == s.(tx := s.tx.(direct := Some(T.FRESH_LINK.(queue := [m])), emitted := s.tx.emitted + 1))
  {
    assert [] + [m] == [m];
    StepInTx(w, s, EmitDirect);
  }

  lemma WritesDirect(w: World, s: State, m: Message)
    requires w.o.Valid() && s.tx.direct == Some(T.FRESH_LINK.(queue := [m])) && s.wire.stream == [] && s.wire.flying == []
    ensures CarryStep(w, s, WriteDirect)
         == s.(tx := s.tx.(direct := Some(T.FRESH_LINK)), wire := s.wire.(stream := Encode(m), flying := [m]))
  {
    assert [m][1..] == [] && [] + [m] == [m] && [] + Encode(m) == Encode(m);
  }

  lemma FrameArrives(p: Pipe, m: Message)
    requires Framing.Framable(m) && p.link.alive && p.link.buf == [] && p.stream == Encode(m) && p.flying == [m]
    ensures AfterRead(p, |Encode(m)|) == Pipe([], L.Link(p.link.msgs + [m], [], true), [])
  {
    assert p.stream[..|Encode(m)|] == Encode(m) && [] + Encode(m) == Encode(m);
    L.ReadWhole(m, p.link, Encode(m));
    assert p.stream[|Encode(m)|..] == [] && [m][1..] == [];
  }

  lemma ReadsDirect(w: World, s: State, m: Message)
    requires w.o.Valid() && Framing.Framable(m) && s.wire.link.alive && s.wire.link.buf == []
    requires s.wire.stream == Encode(m) && s.wire.flying == [m]
    ensures CarryStep(w, s, ReadDirect(|Encode(m)|))
         == s.(wire := Pipe([], L.Link(s.wire.link.msgs + [m], [], true), []), end := s.end.(inbox := s.end.inbox + [FromDirect(m)]))
  {
    FrameArrives(s.wire, m);
    assert (s.wire.link.msgs + [m])[|s.wire.link.msgs|..] == [m];
    assert Fetched([m]) == [FromDirect(m)];
  }

  lemma PutsOnWire(w: World, s: State, m: Message) returns (t: State)
    requires w.o.Valid() && Reachable(w, s) && DirectIdle(s) && !s.tx.finished && m == NextSymbol(w, s)
    ensures Reachable(w, t)
    ensures t == s.(tx := s.tx.(emitted := s.tx.emitted + 1), wire := s.wire.(stream := Encode(m), flying := [m]))
  {
    EmitsDirect(w, s, m);
    ReachStep(w, s, EmitDirect);
    t := Step(w, s, EmitDirect);
    WritesDirect(w, t, m);
    StepCarries(w, t, WriteDirect);
    ReachStep(w, t, WriteDirect);
    t := Step(w, t, WriteDirect);
  }

  /** A symbol put on the direct link can reach the receiver's loop in three steps. */
  lemma DirectCarries(w: World, s: State, m: Message) returns (t: State)
    requires w.o.Valid() && Reachable(w, s) && DirectIdle(s) && !s.tx.finished && m == NextSymbol(w, s) && Framing.Framable(m)
    ensures Reachable(w, t) && DirectIdle(t) && t.tx.emitted == s.tx.emitted + 1
    ensures t.end == s.end.(inbox := s.end.inbox + [FromDirect(m)])
  {
    t := PutsOnWire(w, s, m);
    ReadsDirect(w, t, m);
    StepCarries(w, t, ReadDirect(|Encode(m)|));
    ReachStep(w, t, ReadDirect(|Encode(m)|));
    t := Step(w, t, ReadDirect(|Encode(m)|));
  }

  lemma AdvertIsCarried(n: N.Net, id: nat, c: ConnId, d: ConnId, addr: Block)
    requires Linked(n, id, c, d)
    ensures var after := Carried(n, d, Direct(id, addr)); c in after.conns && after.conns[c].down == [Direct(id, addr)]
  {
    ReadAlone(n, id, d, Direct(id, addr));
    ForwardAlone(n, id, d, c, Direct(id, addr));
  }

  lemma AdvertiseIs(w: World, s: State, d: ConnId, addr: Block)
    requires w.o.Valid() && s.nets != [] && d in w.receivers
    ensures Step(w, s, Advertise(0, d, addr)) == AtFirst(s, N.Put(s.nets[0], d, Direct(w.o.sessionId, addr)))
  {}

  lemma ConnectIs(w: World, s: State, c: ConnId, addr: Block)
    requires w.o.Valid() && s.nets != [] && c in w.senders && c in s.nets[0].conns && !s.tx.directUp
    requires s.nets[0].conns[c].down == [Direct(w.o.sessionId, addr)]
    ensures CarryStep(w, s, Watch(0, c, true))
         == AtFirst(s, N.TakeDown(s.nets[0], c)).(tx := s.tx.(directUp := true, direct := Some(T.FRESH_LINK)))
  {}

  /** An advertisement of the receiver can bring the direct link up. */
  lemma LinkComesUp(w: World, s: State, c: ConnId, d: ConnId, i: nat, addr: Block) returns (t: State)
    requires w.o.Valid() && c in w.senders && d in w.receivers && Reachable(w, s) && Between(w, s, c, d, i)
    ensures Reachable(w, t) && DirectIdle(t) && t.tx.emitted == i && t.end == s.end && t.tx.finished == s.tx.finished
  {
    var n, id := s.nets[0], w.o.sessionId;
    AdvertiseIs(w, s, d, addr);
    ReachStep(w, s, Advertise(0, d, addr));
    t := RelayHandles(w, Step(w, s, Advertise(0, d, addr)), d);
    AdvertIsCarried(n, id, c, d, addr);
    assert t == AtFirst(s, Carried(n, d, Direct(id, addr)));
    ConnectIs(w, t, c, addr);
    StepCarries(w, t, Watch(0, c, true));
    ReachStep(w, t, Watch(0, c, true));
    t := Step(w, t, Watch(0, c, true));
  }
}
