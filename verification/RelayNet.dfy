/** One relay with its connections as a transition system
    (crates/orbit-relay/src/lib.rs lines 163-438).  A step is one critical
    section, one channel send, or one move of the network. */
module RelayNet {
  import opened Options
  import opened Wire
  import opened RelaySpec

  const CHANNEL_DEPTH: nat := 16384

  /** A connection as its handler task sees it: frames on their way in, sends the
      handler still owes since it released the lock, an advertisement to look up
      the sender for, the outgoing channel, and the session last named. */
  datatype Conn = Conn(
    up: seq<Message>,
    held: seq<Send>,
    flush: Option<Message>,
    down: seq<Message>,
    session: Option<nat>,
    reading: bool,
    open: bool)

  const NEW_CONN: Conn := Conn([], [], None, [], None, true, true)

  datatype Net = Net(rooms: Rooms, conns: map<ConnId, Conn>)

  datatype NetAction =
    | Connect(c: ConnId)
    | Read(c: ConnId)
    | FlushDirect(c: ConnId)
    | Forward(c: ConnId)
    | Disconnect(c: ConnId)
    | Abort(c: ConnId)
    | Disturb(c: ConnId, upPicks: seq<nat>, downPicks: seq<nat>)

  /** The handler waits for its own sends before it reads again. */
  predicate Waiting(conn: Conn) { conn.reading && conn.held == [] && conn.flush.None? }

  /** Any selection of in-flight frames: losses, repetitions and reorderings. */
  function Selection(ms: seq<Message>, picks: seq<nat>): (r: seq<Message>)
    ensures forall m | m in r :: m in ms
  {
    if forall i | 0 <= i < |picks| :: picks[i] < |ms| then
      seq(|picks|, i requires 0 <= i < |picks| && picks[i] < |ms| => ms[picks[i]])
    else ms
  }

  /** Routes the next frame of connection `c`. */
  function OnRead(n: Net, c: ConnId): Net
    requires c in n.conns && n.conns[c].up != []
  {
    var conn := n.conns[c];
    var m := conn.up[0];
    var step := OnMessage(n.rooms, m, c);
    Net(step.rooms, n.conns[c := conn.(up := conn.up[1..], held := step.sends, flush := step.flush, session := Some(m.sessionId))])
  }

  function OnFlushing(n: Net, c: ConnId): Net
    requires c in n.conns && n.conns[c].flush.Some?
  {
    var step := OnFlush(n.rooms, n.conns[c].flush.value);
    Net(step.rooms, n.conns[c := n.conns[c].(held := step.sends, flush := None)])
  }

  /** The first send the handler owes; it blocks on a full channel and is lost on a closed one. */
  function OnForward(n: Net, c: ConnId): Net
    requires c in n.conns && n.conns[c].held != []
  {
    var h := n.conns[c].held[0];
    var conns := n.conns[c := n.conns[c].(held := n.conns[c].held[1..])];
    if h.to !in conns || !conns[h.to].open then n.(conns := conns)
    else if |conns[h.to].down| >= CHANNEL_DEPTH then n
    else n.(conns := conns[h.to := conns[h.to].(down := conns[h.to].down + [h.msg])])
  }

  /** The handler ends normally: it leaves its room and its channel closes. */
  function OnDisconnect(n: Net, c: ConnId): Net
    requires c in n.conns
  {
    var conn := n.conns[c];
    var rooms := if conn.session.Some? then OnLeave(n.rooms, conn.session.value, c) else n.rooms;
    Net(rooms, n.conns[c := conn.(up := [], down := [], reading := false, open := false)])
  }

  function NetStep(n: Net, a: NetAction): Net {
    if a.c !in n.conns then
      if a.Connect? then n.(conns := n.conns[a.c := NEW_CONN]) else n
    else
      var conn := n.conns[a.c];
      match a
      case Connect(c) => n
      case Read(c) => if Waiting(conn) && conn.up != [] then OnRead(n, c) else n
      case FlushDirect(c) => if conn.held == [] && conn.flush.Some? then OnFlushing(n, c) else n
      case Forward(c) => if conn.held != [] then OnForward(n, c) else n
      case Disconnect(c) => if Waiting(conn) then OnDisconnect(n, c) else n
      // A frame that does not parse ends the handler without leaving the room.
      case Abort(c) => n.(conns := n.conns[c := conn.(reading := false)])
      case Disturb(c, up, down) =>
        n.(conns := n.conns[c := conn.(up := Selection(conn.up, up), down := Selection(conn.down, down))])
  }

  /** An endpoint writes a frame to its connection. */
  function Put(n: Net, c: ConnId, m: Message): Net {
    if c in n.conns then n.(conns := n.conns[c := n.conns[c].(up := n.conns[c].up + [m])]) else n
  }

  /** An endpoint takes the first frame delivered on its connection. */
  function TakeDown(n: Net, c: ConnId): Net
    requires c in n.conns && n.conns[c].down != []
  {
    n.(conns := n.conns[c := n.conns[c].(down := n.conns[c].down[1..])])
  }

  // ---- What every step keeps ----

  ghost predicate AllIn(fine: iset<Message>, ms: seq<Message>) { forall m | m in ms :: m in fine }

  ghost predicate Addressed(id: nat, ms: seq<Message>) { forall m | m in ms :: m.sessionId == id }

  /** Frames left to be sent are fine, and those for our connections are of our session. */
  ghost predicate SendsFine(fine: iset<Message>, id: nat, ours: iset<ConnId>, sends: seq<Send>) {
    forall s | s in sends :: s.msg in fine && (s.to in ours ==> s.msg.sessionId == id)
  }

  ghost predicate RoomFine(fine: iset<Message>, id: nat, ours: iset<ConnId>, key: nat, room: RoomState) {
    && AllIn(fine, room.buffer)
    && (room.pendingDirect.Some? ==> room.pendingDirect.value in fine)
    && (room.sender.Some? && room.sender.value in ours ==> key == id)
    && (room.receiver.Some? && room.receiver.value in ours ==> key == id)
  }

  ghost predicate RoomsFine(fine: iset<Message>, id: nat, ours: iset<ConnId>, rooms: Rooms) {
    RoomsOk(rooms) && forall key | key in rooms :: RoomFine(fine, id, ours, key, rooms[key])
  }

  ghost predicate ConnFine(fine: iset<Message>, id: nat, ours: iset<ConnId>, c: ConnId, conn: Conn) {
    && AllIn(fine, conn.up) && AllIn(fine, conn.down)
    && (c in ours ==> Addressed(id, conn.up) && Addressed(id, conn.down))
    && SendsFine(fine, id, ours, conn.held)
    && (conn.flush.Some? ==> conn.flush.value in fine)
  }

  /** Every message anywhere in the relay is fine, and what our connections carry
      or get belongs to our session. */
  ghost predicate NetOk(fine: iset<Message>, id: nat, ours: iset<ConnId>, n: Net) {
    && RoomsFine(fine, id, ours, n.rooms)
    && forall c | c in n.conns :: ConnFine(fine, id, ours, c, n.conns[c])
  }

  lemma PushedIsFine(fine: iset<Message>, buf: seq<Message>, m: Message)
    requires AllIn(fine, buf) && m in fine
    ensures AllIn(fine, Pushed(buf, m))
  {
    EvictSplits(buf, FrameLen(m));
  }

  lemma PayloadFine(fine: iset<Message>, id: nat, ours: iset<ConnId>, rooms: Rooms, m: Message)
    requires RoomsFine(fine, id, ours, rooms) && m in fine && IsPayload(m)
    ensures RoomsFine(fine, id, ours, OnPayload(rooms, m).rooms)
    ensures SendsFine(fine, id, ours, OnPayload(rooms, m).sends)
  {
    var room := RoomOf(rooms, m.sessionId);
    if !room.receiverDone && room.receiver.None? {
      PushedIsFine(fine, room.buffer, m);
      PushedRoomOk(m.sessionId, room, m);
    }
  }

  lemma HelloFine(fine: iset<Message>, id: nat, ours: iset<ConnId>, rooms: Rooms, key: nat, role: nat, c: ConnId)
    requires RoomsFine(fine, id, ours, rooms) && (c in ours ==> key == id)
    ensures var step := OnHello(rooms, key, role, c);
            && RoomsFine(fine, id, ours, step.rooms) && SendsFine(fine, id, ours, step.sends)
            && (step.flush.Some? ==> step.flush.value in fine)
  {
    var room := RoomOf(rooms, key);
    var step := OnHello(rooms, key, role, c);
    forall s | s in step.sends
      ensures s.msg in room.buffer && s.to == c
    {
      var i :| 0 <= i < |step.sends| && step.sends[i] == s;
      assert step.sends[i] == Send(c, room.buffer[i]);
    }
    forall m | m in room.buffer
      ensures m in fine && m.sessionId == key
    {
      var i :| 0 <= i < |room.buffer| && room.buffer[i] == m;
    }
  }

  /** Routing keeps everything fine. */
  lemma RoutingFine(fine: iset<Message>, id: nat, ours: iset<ConnId>, rooms: Rooms, m: Message, c: ConnId)
    requires RoomsFine(fine, id, ours, rooms) && m in fine && (c in ours ==> m.sessionId == id)
    ensures var step := OnMessage(rooms, m, c);
            && RoomsFine(fine, id, ours, step.rooms) && SendsFine(fine, id, ours, step.sends)
            && (step.flush.Some? ==> step.flush.value in fine)
  {
    match m
    case Hello(key, role) => HelloFine(fine, id, ours, rooms, key, role, c);
    case Symbol(_, _, _) => PayloadFine(fine, id, ours, rooms, m);
    case Meta(_, _, _, _, _, _) => PayloadFine(fine, id, ours, rooms, m);
    case Ready(_) =>
    case Direct(_, _) =>
    case Done(_) =>
  }

  lemma ForwardFine(fine: iset<Message>, id: nat, ours: iset<ConnId>, n: Net, c: ConnId)
    requires NetOk(fine, id, ours, n) && c in n.conns && n.conns[c].held != []
    ensures NetOk(fine, id, ours, OnForward(n, c))
  {
    var h := n.conns[c].held[0];
    assert h in n.conns[c].held;
    assert ConnFine(fine, id, ours, c, n.conns[c].(held := n.conns[c].held[1..]));
  }

  lemma LeaveFine(fine: iset<Message>, id: nat, ours: iset<ConnId>, rooms: Rooms, key: nat, c: ConnId)
    requires RoomsFine(fine, id, ours, rooms)
    ensures RoomsFine(fine, id, ours, OnLeave(rooms, key, c))
  {}

  lemma ReadFine(fine: iset<Message>, id: nat, ours: iset<ConnId>, n: Net, c: ConnId)
    requires NetOk(fine, id, ours, n) && c in n.conns && n.conns[c].up != []
    ensures NetOk(fine, id, ours, OnRead(n, c))
  {
    assert n.conns[c].up[0] in n.conns[c].up;
    RoutingFine(fine, id, ours, n.rooms, n.conns[c].up[0], c);
  }

  lemma FlushingFine(fine: iset<Message>, id: nat, ours: iset<ConnId>, n: Net, c: ConnId)
    requires NetOk(fine, id, ours, n) && c in n.conns && n.conns[c].flush.Some?
    ensures NetOk(fine, id, ours, OnFlushing(n, c))
  {}

  /** No step of a relay, of its connections or of the network makes a message up
      or brings one of another session to our connections. */
  lemma NetStepKeeps(fine: iset<Message>, id: nat, ours: iset<ConnId>, n: Net, a: NetAction)
    requires NetOk(fine, id, ours, n)
    ensures NetOk(fine, id, ours, NetStep(n, a))
  {
    if a.c in n.conns {
      var conn := n.conns[a.c];
      match a
      case Connect(_) =>
      case Read(c) => if Waiting(conn) && conn.up != [] { ReadFine(fine, id, ours, n, c); }
      case FlushDirect(c) => if conn.held == [] && conn.flush.Some? { FlushingFine(fine, id, ours, n, c); }
      case Forward(c) => if conn.held != [] { ForwardFine(fine, id, ours, n, c); }
      case Disconnect(c) => if conn.session.Some? { LeaveFine(fine, id, ours, n.rooms, conn.session.value, c); }
      case Abort(_) =>
      case Disturb(_, _, _) =>
    }
  }

  lemma PutKeeps(fine: iset<Message>, id: nat, ours: iset<ConnId>, n: Net, c: ConnId, m: Message)
    requires NetOk(fine, id, ours, n) && m in fine && (c in ours ==> m.sessionId == id)
    ensures NetOk(fine, id, ours, Put(n, c, m))
  {}

  lemma TakeKeeps(fine: iset<Message>, id: nat, ours: iset<ConnId>, n: Net, c: ConnId)
    requires NetOk(fine, id, ours, n) && c in n.conns && n.conns[c].down != []
    ensures NetOk(fine, id, ours, TakeDown(n, c))
    ensures n.conns[c].down[0] in fine && (c in ours ==> n.conns[c].down[0].sessionId == id)
  {
    assert n.conns[c].down[0] in n.conns[c].down;
  }

  lemma NetMonotone(fine: iset<Message>, more: iset<Message>, id: nat, ours: iset<ConnId>, n: Net)
    requires NetOk(fine, id, ours, n) && fine <= more
    ensures NetOk(more, id, ours, n)
  {
    forall key | key in n.rooms
      ensures RoomFine(more, id, ours, key, n.rooms[key])
    {
      assert RoomFine(fine, id, ours, key, n.rooms[key]);
    }
    forall c | c in n.conns
      ensures ConnFine(more, id, ours, c, n.conns[c])
    {
      assert ConnFine(fine, id, ours, c, n.conns[c]);
    }
  }
}
