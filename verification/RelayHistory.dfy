/** Who gets what from a relay, told from the history of routed frames alone
    (crates/orbit-relay/src/lib.rs lines 230-438). */
module RelayHistory {
  import opened Options
  import opened Wire
  import opened RelaySpec

  // ---- Who is registered ----

  /** The connection registered in a role after one more operation: a Hello in
      that role registers its connection, leaving unregisters only the connection
      that leaves, and Done unregisters everybody. */
  function RegisteredAfter(before: Option<ConnId>, op: Op, id: nat, role: nat): Option<ConnId> {
    match op
    case Route(Hello(session, r), conn) => if session == id && r == role then Some(conn) else before
    case Route(Done(session), _) => if session == id then None else before
    case Leave(session, conn) => if session == id && before == Some(conn) then None else before
    case _ => before
  }

  function Registered(ops: seq<Op>, id: nat, role: nat): Option<ConnId> {
    if ops == [] then None else RegisteredAfter(Registered(ops[..|ops| - 1], id, role), ops[|ops| - 1], id, role)
  }

  lemma StepRegisters(rooms: Rooms, op: Op, id: nat)
    ensures RoomOf(Apply(rooms, op).rooms, id).sender == RegisteredAfter(RoomOf(rooms, id).sender, op, id, ROLE_SENDER)
    ensures RoomOf(Apply(rooms, op).rooms, id).receiver == RegisteredAfter(RoomOf(rooms, id).receiver, op, id, ROLE_RECEIVER)
  {
    if SessionOf(op) != id { OtherRoomsUntouched(rooms, op, id); }
  }

  /** Registrations in every reachable state follow the history. */
  lemma {:induction false} RegistrationsFollowHistory(ops: seq<Op>, id: nat)
    ensures RoomOf(RunOps(map[], ops), id).sender == Registered(ops, id, ROLE_SENDER)
    ensures RoomOf(RunOps(map[], ops), id).receiver == Registered(ops, id, ROLE_RECEIVER)
  {
    if ops != [] {
      RegistrationsFollowHistory(ops[..|ops| - 1], id);
      StepRegisters(RunOps(map[], ops[..|ops| - 1]), ops[|ops| - 1], id);
    }
  }

  function ToOne(to: Option<ConnId>, m: Message): seq<Send> { if to.Some? then [Send(to.value, m)] else [] }

  /** After any history a Ready goes to the registered sender, and to nobody else. */
  lemma ReadyReachesSender(ops: seq<Op>, id: nat, conn: ConnId)
    ensures Apply(RunOps(map[], ops), Route(Ready(id), conn)).sends == ToOne(Registered(ops, id, ROLE_SENDER), Ready(id))
  {
    RegistrationsFollowHistory(ops, id);
  }

  /** So does an advertisement looked up again. */
  lemma FlushReachesSender(ops: seq<Op>, m: Message)
    ensures Apply(RunOps(map[], ops), Flush(m)).sends == ToOne(Registered(ops, m.sessionId, ROLE_SENDER), m)
  {
    RegistrationsFollowHistory(ops, m.sessionId);
  }

  // ---- Symbols and Metas ----

  /** No Ready of the session was routed. */
  predicate NoReady(ops: seq<Op>, id: nat) { forall i | 0 <= i < |ops| :: ops[i].Route? ==> ops[i].msg != Ready(id) }

  lemma {:induction false} NotDone(ops: seq<Op>, id: nat)
    requires NoReady(ops, id)
    ensures !RoomOf(RunOps(map[], ops), id).receiverDone
  {
    if ops != [] {
      var before, op := ops[..|ops| - 1], ops[|ops| - 1];
      NotDone(before, id);
      if SessionOf(op) != id { OtherRoomsUntouched(RunOps(map[], before), op, id); }
    }
  }

  /** Before Ready every Symbol and Meta goes to the registered receiver; without
      one it becomes the newest frame of the buffer. */
  lemma PayloadReachesReceiver(ops: seq<Op>, m: Message, conn: ConnId)
    requires IsPayload(m) && NoReady(ops, m.sessionId)
    ensures var step := Apply(RunOps(map[], ops), Route(m, conn));
            var receiver, buffer := Registered(ops, m.sessionId, ROLE_RECEIVER), RoomOf(step.rooms, m.sessionId).buffer;
            step.sends == ToOne(receiver, m) && (receiver.None? ==> buffer != [] && buffer[|buffer| - 1] == m)
  {
    RegistrationsFollowHistory(ops, m.sessionId);
    NotDone(ops, m.sessionId);
  }

  /** A receiver's Hello gets the whole buffer, in order, and leaves none of it. */
  lemma HelloGetsBuffer(ops: seq<Op>, id: nat, conn: ConnId)
    ensures var rooms := RunOps(map[], ops);
            var step := Apply(rooms, Route(Hello(id, ROLE_RECEIVER), conn));
            && Messages(step.sends) == RoomOf(rooms, id).buffer && (forall s | s in step.sends :: s.to == conn)
            && RoomOf(step.rooms, id).buffer == []
  {
    var rooms := RunOps(map[], ops);
    var step := Apply(rooms, Route(Hello(id, ROLE_RECEIVER), conn));
    assert step.sends == SendAll(conn, RoomOf(rooms, id).buffer);
    assert Messages(step.sends) == RoomOf(rooms, id).buffer;
  }

  // ---- Advertisements ----

  /** The advertisement waiting for a sender: the latest Direct that came while no
      sender was registered, until a sender says Hello or the room goes away. */
  function Waiting(ops: seq<Op>, id: nat): Option<Message> {
    if ops == [] then None
    else
      var before, op := ops[..|ops| - 1], ops[|ops| - 1];
      if id !in RunOps(map[], ops) then None
      else if op.Route? && op.msg == Hello(id, ROLE_SENDER) then None
      else if op.Route? && op.msg.Direct? && op.msg.sessionId == id && Registered(before, id, ROLE_SENDER).None? then Some(op.msg)
      else Waiting(before, id)
  }

  lemma {:induction false} PendingFollowsHistory(ops: seq<Op>, id: nat)
    ensures RoomOf(RunOps(map[], ops), id).pendingDirect == Waiting(ops, id)
  {
    if ops != [] {
      var before, op := ops[..|ops| - 1], ops[|ops| - 1];
      PendingFollowsHistory(before, id);
      RegistrationsFollowHistory(before, id);
      if SessionOf(op) != id { OtherRoomsUntouched(RunOps(map[], before), op, id); }
    }
  }

  /** A Direct goes to the registered sender, or waits for one; a sender's Hello is
      handed the one that waits. */
  lemma DirectReachesSender(ops: seq<Op>, m: Message, conn: ConnId)
    requires m.Direct?
    ensures var step := Apply(RunOps(map[], ops), Route(m, conn));
            var sender := Registered(ops, m.sessionId, ROLE_SENDER);
            && step.sends == ToOne(sender, m)
            && RoomOf(step.rooms, m.sessionId).pendingDirect == (if sender.Some? then Waiting(ops, m.sessionId) else Some(m))
    ensures Apply(RunOps(map[], ops), Route(Hello(m.sessionId, ROLE_SENDER), conn)).flush == Waiting(ops, m.sessionId)
  {
    RegistrationsFollowHistory(ops, m.sessionId);
    PendingFollowsHistory(ops, m.sessionId);
  }

  /** How often a given Direct came, and what became of it. */
  datatype Fates = Fates(
    routed: nat,
    sent: nat,      // passed to a sender's channel, or handed to its Hello
    replaced: nat,  // a later one came while it waited
    lost: nat)      // its room went away

  function Is(m: Option<Message>, x: Message): nat { if m == Some(x) then 1 else 0 }

  /** How often a step hands `x` out. */
  function HandedBy(step: Step, x: Message): nat {
    Is(step.flush, x) + if |step.sends| == 1 && step.sends[0].msg == x then 1 else 0
  }

  predicate Routes(op: Op, x: Message) { op.Route? && op.msg == x }

  /** One operation in the session of `x`, while `before` waits. */
  function Noted(f: Fates, before: Option<Message>, op: Op, step: Step, x: Message): Fates {
    if op.Flush? || SessionOf(op) != x.sessionId then f
    else
      Fates(f.routed + if Routes(op, x) then 1 else 0,
            f.sent + HandedBy(step, x),
            f.replaced + if op.Route? && op.msg.Direct? && step.sends == [] then Is(before, x) else 0,
            f.lost + if x.sessionId !in step.rooms then Is(before, x) else 0)
  }

  function FatesOf(ops: seq<Op>, x: Message): Fates {
    if ops == [] then Fates(0, 0, 0, 0)
    else
      var before, op := ops[..|ops| - 1], ops[|ops| - 1];
      Noted(FatesOf(before, x), Waiting(before, x.sessionId), op, Apply(RunOps(map[], before), op), x)
  }

  ghost predicate Accounted(f: Fates, waiting: Option<Message>, x: Message) {
    f.routed == f.sent + f.replaced + f.lost + Is(waiting, x)
  }

  lemma RouteAccounted(rooms: Rooms, m: Message, conn: ConnId, x: Message, f: Fates)
    requires RoomsOk(rooms) && x.Direct? && m.sessionId == x.sessionId
    requires Accounted(f, RoomOf(rooms, x.sessionId).pendingDirect, x)
    ensures var step := OnMessage(rooms, m, conn);
            Accounted(Noted(f, RoomOf(rooms, x.sessionId).pendingDirect, Route(m, conn), step, x),
                      RoomOf(step.rooms, x.sessionId).pendingDirect, x)
  {
    if |OnMessage(rooms, m, conn).sends| == 1 { SendsGoToTheRoom(rooms, m, conn, 0); }
  }

  lemma OneAccounted(rooms: Rooms, op: Op, x: Message, f: Fates)
    requires RoomsOk(rooms) && x.Direct? && Accounted(f, RoomOf(rooms, x.sessionId).pendingDirect, x)
    ensures var step := Apply(rooms, op);
            Accounted(Noted(f, RoomOf(rooms, x.sessionId).pendingDirect, op, step, x), RoomOf(step.rooms, x.sessionId).pendingDirect, x)
  {
    if SessionOf(op) != x.sessionId {
      OtherRoomsUntouched(rooms, op, x.sessionId);
    } else if op.Route? {
      RouteAccounted(rooms, op.msg, op.conn, x, f);
    }
  }

  /** Over every run each Direct, as often as it came, was handed to a sender,
      replaced while it waited, lost with its room, or still waits. */
  lemma {:induction false} EveryDirectHasOneFate(ops: seq<Op>, x: Message)
    requires x.Direct?
    ensures Accounted(FatesOf(ops, x), Waiting(ops, x.sessionId), x)
  {
    PendingFollowsHistory(ops, x.sessionId);
    if ops != [] {
      var before := ops[..|ops| - 1];
      EveryDirectHasOneFate(before, x);
      PendingFollowsHistory(before, x.sessionId);
      RunKeeps(map[], before);
      OneAccounted(RunOps(map[], before), ops[|ops| - 1], x, FatesOf(before, x));
    }
  }
}
