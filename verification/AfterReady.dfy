/** What a relay still hands to receivers after a Ready was routed
    (crates/orbit-relay/src/lib.rs lines 247-264, 298-355 and 356-375).  A new
    Symbol or Meta is dropped, but a receiver's Hello drains the buffer without
    looking at receiver_done, so a backlog left by a lost receiver still goes out. */
module AfterReady {
  import opened Options
  import opened Wire
  import opened RelaySpec
  import opened RelayNet

  // ---- A backlog that goes out after Ready ----

  lemma RunNext(rooms: Rooms, ops: seq<Op>, op: Op)
    ensures RunOps(rooms, ops + [op]) == Apply(RunOps(rooms, ops), op).rooms
  {
    assert (ops + [op])[..|ops|] == ops;
  }

  /** With a sender registered, a second receiver replaces the first and leaves. */
  function LosingReceiver(id: nat): seq<Op> {
    [] + [Route(Hello(id, ROLE_SENDER), 4)] + [Route(Hello(id, ROLE_RECEIVER), 1)] + [Route(Hello(id, ROLE_RECEIVER), 2)]
    + [Leave(id, 2)]
  }

  /** Then a frame is buffered, and the first receiver, still connected, sends Ready. */
  function ReadyWithBacklog(m: Message): seq<Op> {
    LosingReceiver(m.sessionId) + [Route(m, 4)] + [Route(Ready(m.sessionId), 1)]
  }

  lemma ReceiverIsLost(id: nat)
    ensures RunOps(map[], LosingReceiver(id)) == map[id := RoomState(Some(4), None, [], None, false)]
  {
    var none: seq<Op> := [];
    var sender, first, second := Route(Hello(id, ROLE_SENDER), 4), Route(Hello(id, ROLE_RECEIVER), 1), Route(Hello(id, ROLE_RECEIVER), 2);
    RunNext(map[], none, sender);
    RunNext(map[], none + [sender], first);
    RunNext(map[], none + [sender] + [first], second);
    RunNext(map[], none + [sender] + [first] + [second], Leave(id, 2));
    assert RunOps(map[], none + [sender]) == map[id := RoomState(Some(4), None, [], None, false)];
    assert RunOps(map[], none + [sender] + [first]) == map[id := RoomState(Some(4), Some(1), [], None, false)];
    assert RunOps(map[], none + [sender] + [first] + [second]) == map[id := RoomState(Some(4), Some(2), [], None, false)];
  }

  lemma BacklogIsLeft(m: Message)
    requires IsPayload(m)
    ensures RunOps(map[], ReadyWithBacklog(m)) == map[m.sessionId := RoomState(Some(4), None, [m], None, true)]
  {
    var id, ops := m.sessionId, LosingReceiver(m.sessionId);
    ReceiverIsLost(id);
    RunNext(map[], ops, Route(m, 4));
    RunNext(map[], ops + [Route(m, 4)], Route(Ready(id), 1));
    assert Pushed([], m) == [m];
    assert RunOps(map[], ops + [Route(m, 4)]) == map[id := RoomState(Some(4), None, [m], None, false)];
  }

  /** A third receiver's Hello then gets the buffered frame although the room is done. */
  lemma BacklogAfterReady(m: Message)
    requires IsPayload(m)
    ensures var id, rooms := m.sessionId, RunOps(map[], ReadyWithBacklog(m));
            && id in rooms && rooms[id].receiverDone
            && Apply(rooms, Route(Hello(id, ROLE_RECEIVER), 3)).sends == [Send(3, m)]
  {
    BacklogIsLeft(m);
  }

  // ---- When it goes out, and what ----

  predicate PayloadOf(id: nat, m: Message) { IsPayload(m) && m.sessionId == id }

  /** The Symbols and Metas of session `id` among some messages. */
  function PayloadsOf(id: nat, ms: seq<Message>): seq<Message> {
    if ms == [] then []
    else PayloadsOf(id, ms[..|ms| - 1]) + if PayloadOf(id, ms[|ms| - 1]) then [ms[|ms| - 1]] else []
  }

  /** What a step leaves to be sent of them. */
  function GivenBy(rooms: Rooms, op: Op, id: nat): seq<Message> { PayloadsOf(id, Messages(Apply(rooms, op).sends)) }

  /** What all steps of a run leave to be sent of them, in order. */
  function GivenOut(rooms: Rooms, ops: seq<Op>, id: nat): seq<Message> {
    if ops == [] then []
    else GivenOut(rooms, ops[..|ops| - 1], id) + GivenBy(RunOps(rooms, ops[..|ops| - 1]), ops[|ops| - 1], id)
  }

  /** No step of the run leaves a Symbol or Meta of the session to be sent. */
  predicate Silent(rooms: Rooms, ops: seq<Op>, id: nat) {
    ops != [] ==>
      && Silent(rooms, ops[..|ops| - 1], id)
      && GivenBy(RunOps(rooms, ops[..|ops| - 1]), ops[|ops| - 1], id) == []
  }

  predicate IsReceiverHello(op: Op, id: nat) { op.Route? && op.msg == Hello(id, ROLE_RECEIVER) }

  /** Some receiver of the session registers during the run. */
  predicate Greeted(ops: seq<Op>, id: nat) {
    ops != [] && (Greeted(ops[..|ops| - 1], id) || IsReceiverHello(ops[|ops| - 1], id))
  }

  /** An advertisement looked up again is a Direct, as it is in every handler. */
  predicate FlushesDirect(ops: seq<Op>) { forall i | 0 <= i < |ops| :: ops[i].Flush? ==> ops[i].direct.Direct? }

  lemma {:induction false} AllArePayloads(id: nat, ms: seq<Message>)
    requires forall i | 0 <= i < |ms| :: PayloadOf(id, ms[i])
    ensures PayloadsOf(id, ms) == ms
  {
    if ms != [] { AllArePayloads(id, ms[..|ms| - 1]); }
  }

  lemma {:induction false} NoneArePayloads(id: nat, ms: seq<Message>)
    requires forall i | 0 <= i < |ms| :: !PayloadOf(id, ms[i])
    ensures PayloadsOf(id, ms) == []
  {
    if ms != [] { NoneArePayloads(id, ms[..|ms| - 1]); }
  }

  /** A step on rooms of which that of `id` is done. */
  lemma GivenAfterReady(rooms: Rooms, op: Op, id: nat)
    requires RoomsOk(rooms) && id in rooms && rooms[id].receiverDone
    requires op.Flush? ==> op.direct.Direct?
    ensures GivenBy(rooms, op, id) == if IsReceiverHello(op, id) then rooms[id].buffer else []
  {
    var ms := Messages(Apply(rooms, op).sends);
    if IsReceiverHello(op, id) {
      assert ms == rooms[id].buffer;
      AllArePayloads(id, ms);
    } else {
      forall i | 0 <= i < |ms|
        ensures !PayloadOf(id, ms[i])
      {
        if op.Route? { SendsGoToTheRoom(rooms, op.msg, op.conn, i); }
      }
      NoneArePayloads(id, ms);
    }
  }

  lemma BufferAfterReady(rooms: Rooms, op: Op, id: nat)
    requires id in rooms && rooms[id].receiverDone && id in Apply(rooms, op).rooms
    ensures Apply(rooms, op).rooms[id].buffer == if IsReceiverHello(op, id) then [] else rooms[id].buffer
  {
    if SessionOf(op) != id { OtherRoomsUntouched(rooms, op, id); }
  }

  /** After Ready, for as long as the room exists: the backlog goes out once and
      whole, to the next receiver that says Hello, and nothing else ever does. */
  lemma {:induction false} BacklogGoesOutOnce(rooms: Rooms, ops: seq<Op>, id: nat)
    requires RoomsOk(rooms) && id in rooms && rooms[id].receiverDone && Survives(rooms, ops, id) && FlushesDirect(ops)
    ensures GivenOut(rooms, ops, id) == if Greeted(ops, id) then rooms[id].buffer else []
    ensures RunOps(rooms, ops)[id].buffer == if Greeted(ops, id) then [] else rooms[id].buffer
  {
    if ops != [] {
      var before, op := ops[..|ops| - 1], ops[|ops| - 1];
      BacklogGoesOutOnce(rooms, before, id);
      RunKeeps(rooms, before);
      ReadySticks(rooms, before, id);
      GivenAfterReady(RunOps(rooms, before), op, id);
      BufferAfterReady(RunOps(rooms, before), op, id);
    }
  }

  lemma {:induction false} SilentGivesNothing(rooms: Rooms, ops: seq<Op>, id: nat)
    ensures Silent(rooms, ops, id) <==> GivenOut(rooms, ops, id) == []
  {
    if ops != [] { SilentGivesNothing(rooms, ops[..|ops| - 1], id); }
  }

  /** After Ready no step leaves a Symbol or Meta of the session to be sent if and
      only if there was no backlog or no receiver says Hello. */
  lemma SilentIffNoBacklog(rooms: Rooms, ops: seq<Op>, id: nat)
    requires RoomsOk(rooms) && id in rooms && rooms[id].receiverDone && Survives(rooms, ops, id) && FlushesDirect(ops)
    ensures Silent(rooms, ops, id) <==> rooms[id].buffer == [] || !Greeted(ops, id)
  {
    BacklogGoesOutOnce(rooms, ops, id);
    SilentGivesNothing(rooms, ops, id);
  }

  // ---- What reaches the channels after Ready ----

  /** What happens at a relay: a step of its own, a frame written to a connection,
      or a frame taken off one. */
  datatype Event = Inside(a: NetAction) | Write(c: ConnId, m: Message) | Take(c: ConnId)

  function Happen(n: Net, e: Event): Net {
    match e
    case Inside(a) => NetStep(n, a)
    case Write(c, m) => Put(n, c, m)
    case Take(c) => if c in n.conns && n.conns[c].down != [] then TakeDown(n, c) else n
  }

  function RunNet(n: Net, es: seq<Event>): Net {
    if es == [] then n else Happen(RunNet(n, es[..|es| - 1]), es[|es| - 1])
  }

  const EMPTY_NET: Net := Net(map[], map[])

  /** The room of `id` exists all along. */
  ghost predicate Lives(n: Net, es: seq<Event>, id: nat)
    decreases |es|
  {
    id in RunNet(n, es).rooms && (es != [] ==> Lives(n, es[..|es| - 1], id))
  }

  ghost predicate FlushOk(conn: Conn) { conn.flush.Some? ==> conn.flush.value.Direct? }

  /** Rooms are in order, and advertisements waiting in handlers are Directs. */
  ghost predicate NetSound(n: Net) { RoomsOk(n.rooms) && forall c | c in n.conns :: FlushOk(n.conns[c]) }

  lemma HappenSound(n: Net, e: Event)
    requires NetSound(n)
    ensures NetSound(Happen(n, e))
  {
    if e.Inside? && e.a.c in n.conns {
      var conn := n.conns[e.a.c];
      if e.a.Read? && Waiting(conn) && conn.up != [] {
        ApplyKeeps(n.rooms, Route(conn.up[0], e.a.c));
      } else if e.a.Disconnect? && conn.session.Some? {
        ApplyKeeps(n.rooms, Leave(conn.session.value, e.a.c));
      }
    }
  }

  lemma {:induction false} RunNetSound(es: seq<Event>)
    ensures NetSound(RunNet(EMPTY_NET, es))
  {
    if es != [] {
      RunNetSound(es[..|es| - 1]);
      HappenSound(RunNet(EMPTY_NET, es[..|es| - 1]), es[|es| - 1]);
    }
  }

  predicate HeldBy(conn: Conn, m: Message) { exists i | 0 <= i < |conn.held| :: conn.held[i].msg == m }

  /** The frame is buffered in the session's room, or a handler still owes it. */
  ghost predicate Owed(n: Net, id: nat, m: Message) {
    (id in n.rooms && m in n.rooms[id].buffer) || exists c | c in n.conns :: HeldBy(n.conns[c], m)
  }

  predicate InChannel(n: Net, c: ConnId, m: Message) { c in n.conns && m in n.conns[c].down }

  /** From `n` to `later` no Symbol or Meta of the session came to be owed, and every
      channel holds only those it held or that were owed. */
  ghost predicate NothingNew(n: Net, later: Net, id: nat) {
    forall m | PayloadOf(id, m) ::
      && (Owed(later, id, m) ==> Owed(n, id, m))
      && (forall c | InChannel(later, c, m) :: InChannel(n, c, m) || Owed(n, id, m))
  }

  lemma NothingNewChains(a: Net, b: Net, c: Net, id: nat)
    requires NothingNew(a, b, id) && NothingNew(b, c, id)
    ensures NothingNew(a, c, id)
  {}

  /** What a step leaves to be sent of the session's frames was buffered in its room. */
  lemma SendsAfterReady(rooms: Rooms, m: Message, c: ConnId, id: nat, i: nat)
    requires RoomsOk(rooms) && id in rooms && rooms[id].receiverDone && i < |OnMessage(rooms, m, c).sends|
    ensures var sent := OnMessage(rooms, m, c).sends[i].msg; PayloadOf(id, sent) ==> sent in rooms[id].buffer
  {
    SendsGoToTheRoom(rooms, m, c, i);
  }

  lemma ReadAddsNothing(n: Net, c: ConnId, id: nat)
    requires NetSound(n) && id in n.rooms && n.rooms[id].receiverDone
    requires c in n.conns && n.conns[c].up != [] && id in OnRead(n, c).rooms
    ensures NothingNew(n, OnRead(n, c), id)
  {
    var m, later := n.conns[c].up[0], OnRead(n, c);
    BufferAfterReady(n.rooms, Route(m, c), id);
    forall x | PayloadOf(id, x) && Owed(later, id, x)
      ensures Owed(n, id, x)
    {
      if HeldBy(later.conns[c], x) {
        var i :| 0 <= i < |later.conns[c].held| && later.conns[c].held[i].msg == x;
        SendsAfterReady(n.rooms, m, c, id, i);
      } else if !(x in later.rooms[id].buffer) {
        var d :| d in later.conns && HeldBy(later.conns[d], x);
        assert HeldBy(n.conns[d], x);
      }
    }
    forall x, d | PayloadOf(id, x) && InChannel(later, d, x)
      ensures InChannel(n, d, x)
    {}
  }

  /** No sends owed and no frames in the channel but those there were. */
  ghost predicate Lighter(conn: Conn, later: Conn) {
    && (forall s | s in later.held :: s in conn.held)
    && (forall m | m in later.down :: m in conn.down)
  }

  /** A step that leaves the session's buffer as it is and only lightens connections. */
  lemma QuietStep(n: Net, later: Net, id: nat)
    requires id in n.rooms && id in later.rooms && later.rooms[id].buffer == n.rooms[id].buffer
    requires forall c | c in later.conns :: if c in n.conns then Lighter(n.conns[c], later.conns[c]) else later.conns[c] == NEW_CONN
    ensures NothingNew(n, later, id)
  {
    forall x, c | PayloadOf(id, x) && c in later.conns && HeldBy(later.conns[c], x)
      ensures Owed(n, id, x)
    {
      var i :| 0 <= i < |later.conns[c].held| && later.conns[c].held[i].msg == x;
      assert later.conns[c].held[i] in n.conns[c].held;
      var j :| 0 <= j < |n.conns[c].held| && n.conns[c].held[j] == later.conns[c].held[i];
      assert HeldBy(n.conns[c], x);
    }
  }

  lemma ForwardAddsNothing(n: Net, c: ConnId, id: nat)
    requires id in n.rooms && c in n.conns && n.conns[c].held != []
    ensures NothingNew(n, OnForward(n, c), id)
  {
    var h, later := n.conns[c].held[0], OnForward(n, c);
    assert HeldBy(n.conns[c], h.msg);
    forall x | PayloadOf(id, x) && Owed(later, id, x)
      ensures Owed(n, id, x)
    {
      if x !in later.rooms[id].buffer {
        var d :| d in later.conns && HeldBy(later.conns[d], x);
        var i :| 0 <= i < |later.conns[d].held| && later.conns[d].held[i].msg == x;
        assert later.conns[d].held[i] in n.conns[d].held;
        assert HeldBy(n.conns[d], x);
      }
    }
    forall x, d | PayloadOf(id, x) && InChannel(later, d, x)
      ensures InChannel(n, d, x) || Owed(n, id, x)
    {}
  }

  lemma InsideAddsNothing(n: Net, a: NetAction, id: nat)
    requires NetSound(n) && id in n.rooms && n.rooms[id].receiverDone && id in NetStep(n, a).rooms
    ensures NothingNew(n, NetStep(n, a), id)
  {
    if a.c in n.conns {
      var conn := n.conns[a.c];
      match a
      case Connect(_) =>
      case Read(c) => if Waiting(conn) && conn.up != [] { ReadAddsNothing(n, c, id); }
      case FlushDirect(c) => if conn.held == [] && conn.flush.Some? { FlushAddsNothing(n, c, id); }
      case Forward(c) => if conn.held != [] { ForwardAddsNothing(n, c, id); }
      case Disconnect(c) => if Waiting(conn) { DisconnectAddsNothing(n, c, id); }
      case Abort(_) => QuietStep(n, NetStep(n, a), id);
      case Disturb(_, _, _) => QuietStep(n, NetStep(n, a), id);
    } else {
      QuietStep(n, NetStep(n, a), id);
    }
  }

  lemma FlushAddsNothing(n: Net, c: ConnId, id: nat)
    requires NetSound(n) && id in n.rooms && c in n.conns && n.conns[c].flush.Some?
    ensures NothingNew(n, OnFlushing(n, c), id)
  {
    var later := OnFlushing(n, c);
    assert FlushOk(n.conns[c]);
    forall x, d | PayloadOf(id, x) && d in later.conns && HeldBy(later.conns[d], x)
      ensures Owed(n, id, x)
    {
      assert d != c && HeldBy(n.conns[d], x);
    }
  }

  lemma DisconnectAddsNothing(n: Net, c: ConnId, id: nat)
    requires id in n.rooms && n.rooms[id].receiverDone && c in n.conns && id in OnDisconnect(n, c).rooms
    ensures NothingNew(n, OnDisconnect(n, c), id)
  {
    if n.conns[c].session.Some? { BufferAfterReady(n.rooms, Leave(n.conns[c].session.value, c), id); }
    QuietStep(n, OnDisconnect(n, c), id);
  }

  lemma HappenAddsNothing(n: Net, e: Event, id: nat)
    requires NetSound(n) && id in n.rooms && n.rooms[id].receiverDone && id in Happen(n, e).rooms
    ensures NothingNew(n, Happen(n, e), id) && Happen(n, e).rooms[id].receiverDone
  {
    match e
    case Inside(a) =>
      InsideAddsNothing(n, a, id);
      DoneStaysInside(n, a, id);
    case Write(_, _) => QuietStep(n, Happen(n, e), id);
    case Take(_) => QuietStep(n, Happen(n, e), id);
  }

  lemma DoneStaysInside(n: Net, a: NetAction, id: nat)
    requires id in n.rooms && n.rooms[id].receiverDone && id in NetStep(n, a).rooms
    ensures NetStep(n, a).rooms[id].receiverDone
  {
    if a.c in n.conns {
      var conn := n.conns[a.c];
      if a.Read? && Waiting(conn) && conn.up != [] {
        DoneStays(n.rooms, Route(conn.up[0], a.c), id);
      } else if a.Disconnect? && Waiting(conn) && conn.session.Some? {
        DoneStays(n.rooms, Leave(conn.session.value, a.c), id);
      }
    }
  }

  lemma {:induction false} RunAddsNothing(n: Net, es: seq<Event>, id: nat)
    requires NetSound(n) && id in n.rooms && n.rooms[id].receiverDone && Lives(n, es, id)
    ensures NetSound(RunNet(n, es)) && NothingNew(n, RunNet(n, es), id) && RunNet(n, es).rooms[id].receiverDone
  {
    if es != [] {
      var before := RunNet(n, es[..|es| - 1]);
      RunAddsNothing(n, es[..|es| - 1], id);
      HappenSound(before, es[|es| - 1]);
      HappenAddsNothing(before, es[|es| - 1], id);
      NothingNewChains(n, before, RunNet(n, es), id);
    }
  }

  /** At a relay whose room is done after some events, whatever happens next: as
      long as the room exists every Symbol or Meta of the session in a channel was
      in that channel already, or was buffered or owed by a handler then. */
  lemma OnlyOldFramesArrive(earlier: seq<Event>, es: seq<Event>, id: nat)
    requires var n := RunNet(EMPTY_NET, earlier); id in n.rooms && n.rooms[id].receiverDone && Lives(n, es, id)
    ensures NothingNew(RunNet(EMPTY_NET, earlier), RunNet(RunNet(EMPTY_NET, earlier), es), id)
  {
    RunNetSound(earlier);
    RunAddsNothing(RunNet(EMPTY_NET, earlier), es, id);
  }
}
