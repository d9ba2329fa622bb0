/** Relay rooms as values: what one critical section of the relay does to them
    (crates/orbit-relay/src/lib.rs lines 76-119 and 222-438).  A frame handed to
    a channel is sent after the lock is released, so a step only says which
    sends it leaves behind. */
module RelaySpec {
  import opened Options
  import opened Wire

  const MAX_BUFFERED_BYTES: nat := 256 * 1024 * 1024

  type ConnId = nat

  /** One session's room.  Connections stand for their outgoing channels. */
  datatype RoomState = RoomState(
    sender: Option<ConnId>,
    receiver: Option<ConnId>,
    buffer: seq<Message>,
    pendingDirect: Option<Message>,
    receiverDone: bool)

  const EMPTY_ROOM: RoomState := RoomState(None, None, [], None, false)

  type Rooms = map<nat, RoomState>

  /** Length of a message's frame on the wire. */
  function FrameLen(m: Message): (n: nat)
    ensures n >= 5
  {
    match m
    case Hello(_, _) => 14
    case Meta(_, filename, _, _, _, _) => 39 + |filename|
    case Symbol(_, _, data) => 17 + |data|
    case Done(_) => 13
    case Ready(_) => 13
    case Direct(_, addr) => 15 + |addr|
  }

  lemma FrameLenIsEncodedLength(m: Message)
    ensures FrameLen(m) == |Encode(m)|
  {}

  function TotalLen(buf: seq<Message>): nat {
    if buf == [] then 0 else FrameLen(buf[0]) + TotalLen(buf[1..])
  }

  // ---- The bounded buffer ----

  /** What is left after dropping frames from the front until `size` more bytes fit. */
  function EvictFor(buf: seq<Message>, size: nat): seq<Message> {
    if buf != [] && TotalLen(buf) + size > MAX_BUFFERED_BYTES then EvictFor(buf[1..], size) else buf
  }

  function Pushed(buf: seq<Message>, m: Message): seq<Message> {
    EvictFor(buf, FrameLen(m)) + [m]
  }

  /** The frames that made room. */
  function Evicted(buf: seq<Message>, size: nat): seq<Message> {
    if buf != [] && TotalLen(buf) + size > MAX_BUFFERED_BYTES then [buf[0]] + Evicted(buf[1..], size) else []
  }

  lemma {:induction false} EvictSplits(buf: seq<Message>, size: nat)
    ensures Evicted(buf, size) + EvictFor(buf, size) == buf
  {
    if buf != [] && TotalLen(buf) + size > MAX_BUFFERED_BYTES {
      EvictSplits(buf[1..], size);
      assert buf == [buf[0]] + buf[1..];
    }
  }

  lemma {:induction false} TotalLenAppend(a: seq<Message>, b: seq<Message>)
    ensures TotalLen(a + b) == TotalLen(a) + TotalLen(b)
  {
    if a == [] {
      assert a + b == b;
    } else {
      TotalLenAppend(a[1..], b);
      assert (a + b)[1..] == a[1..] + b && (a + b)[0] == a[0];
    }
  }

  lemma TotalLenOne(m: Message)
    ensures TotalLen([m]) == FrameLen(m)
  {
    assert [m][1..] == [];
  }

  /** Everything pushed since the last drain, through the buffer. */
  function PushAll(pushed: seq<Message>): seq<Message> {
    if pushed == [] then [] else Pushed(PushAll(pushed[..|pushed| - 1]), pushed[|pushed| - 1])
  }

  ghost predicate TooLong(pushed: seq<Message>, i: nat)
    requires i <= |pushed|
  {
    TotalLen(pushed[i..]) > MAX_BUFFERED_BYTES
  }

  /** The suffix from `j` on is the longest that fits, or the newest frame alone
      when that frame itself is too large. */
  ghost predicate LongestFit(pushed: seq<Message>, j: nat) {
    && j <= |pushed| && (pushed != [] ==> j < |pushed|)
    && (forall i | 0 <= i < j :: TooLong(pushed, i))
    && (!TooLong(pushed, j) || j == |pushed| - 1)
  }

  /** Eviction stops at the first suffix that fits with the new frame. */
  lemma {:induction false} EvictIsTight(buf: seq<Message>, size: nat)
    ensures var kept := EvictFor(buf, size);
            && |kept| <= |buf| && kept == buf[|buf| - |kept|..]
            && (kept == [] || TotalLen(kept) + size <= MAX_BUFFERED_BYTES)
            && (forall i | 0 <= i < |buf| - |kept| :: TotalLen(buf[i..]) + size > MAX_BUFFERED_BYTES)
  {
    if buf != [] && TotalLen(buf) + size > MAX_BUFFERED_BYTES {
      var kept := EvictFor(buf, size);
      EvictIsTight(buf[1..], size);
      forall i | 0 <= i < |buf| - |kept|
        ensures TotalLen(buf[i..]) + size > MAX_BUFFERED_BYTES
      {
        if i == 0 { assert buf[0..] == buf; } else { assert buf[1..][i - 1..] == buf[i..]; }
      }
    }
  }

  /** Suffixes of a suffix. */
  lemma SuffixOfSuffix(pushed: seq<Message>, j: nat, i: nat)
    requires j <= i <= |pushed|
    ensures pushed[j..][i - j..] == pushed[i..]
  {}

  lemma SuffixWithNew(pushed: seq<Message>, m: Message, i: nat)
    requires i <= |pushed|
    ensures (pushed + [m])[i..] == pushed[i..] + [m]
    ensures TotalLen((pushed + [m])[i..]) == TotalLen(pushed[i..]) + FrameLen(m)
  {
    TotalLenAppend(pushed[i..], [m]);
    TotalLenOne(m);
  }

  lemma NoLongerFit(pushed: seq<Message>, j: nat, m: Message, i: nat)
    requires j <= |pushed| && i <= |pushed|
    requires i < j ==> TooLong(pushed, i)
    requires i >= j ==> TotalLen(pushed[j..][i - j..]) + FrameLen(m) > MAX_BUFFERED_BYTES
    ensures TooLong(pushed + [m], i)
  {
    SuffixWithNew(pushed, m, i);
    if i >= j { SuffixOfSuffix(pushed, j, i); }
  }

  lemma NothingLongerFits(pushed: seq<Message>, j: nat, m: Message, j': nat)
    requires LongestFit(pushed, j) && j <= j' <= |pushed|
    requires forall i | 0 <= i < j' - j :: TotalLen(pushed[j..][i..]) + FrameLen(m) > MAX_BUFFERED_BYTES
    ensures forall i | 0 <= i < j' :: TooLong(pushed + [m], i)
  {
    forall i | 0 <= i < j'
      ensures TooLong(pushed + [m], i)
    {
      NoLongerFit(pushed, j, m, i);
    }
  }

  lemma KeptFits(pushed: seq<Message>, m: Message, j': nat, kept: seq<Message>)
    requires j' <= |pushed| && pushed[j'..] == kept
    requires kept == [] || TotalLen(kept) + FrameLen(m) <= MAX_BUFFERED_BYTES
    ensures !TooLong(pushed + [m], j') || j' == |pushed|
    ensures (pushed + [m])[j'..] == kept + [m]
  {
    SuffixWithNew(pushed, m, j');
  }

  lemma KeptIsSuffix(pushed: seq<Message>, j: nat, kept: seq<Message>)
    requires j <= |pushed| && |kept| <= |pushed| - j
    requires kept == pushed[j..][|pushed| - j - |kept|..]
    ensures kept == pushed[|pushed| - |kept|..]
  {
    SuffixOfSuffix(pushed, j, |pushed| - |kept|);
  }

  lemma PushKeepsLongestFit(pushed: seq<Message>, j: nat, m: Message) returns (j': nat)
    requires LongestFit(pushed, j)
    ensures LongestFit(pushed + [m], j') && Pushed(pushed[j..], m) == (pushed + [m])[j'..]
  {
    var kept := EvictFor(pushed[j..], FrameLen(m));
    EvictIsTight(pushed[j..], FrameLen(m));
    KeptIsSuffix(pushed, j, kept);
    j' := |pushed| - |kept|;
    KeptFits(pushed, m, j', kept);
    NothingLongerFits(pushed, j, m, j');
  }

  /** Whatever was pushed since the last drain, the buffer holds its longest
      suffix that fits, or the newest frame alone. */
  lemma {:induction false} BufferIsLongestFit(pushed: seq<Message>) returns (j: nat)
    ensures LongestFit(pushed, j) && PushAll(pushed) == pushed[j..]
  {
    if pushed == [] {
      j := 0;
    } else {
      var before := pushed[..|pushed| - 1];
      j := BufferIsLongestFit(before);
      j := PushKeepsLongestFit(before, j, pushed[|pushed| - 1]);
      assert pushed == before + [pushed[|pushed| - 1]];
    }
  }

  // ---- Critical sections ----

  /** Frames a step leaves to be sent once the lock is released, and a Direct
      advertisement for which the sender is looked up again first. */
  datatype Step = Step(rooms: Rooms, sends: seq<Send>, flush: Option<Message>)

  datatype Send = Send(to: ConnId, msg: Message)

  function RoomOf(rooms: Rooms, id: nat): RoomState { if id in rooms then rooms[id] else EMPTY_ROOM }

  function SendAll(to: ConnId, msgs: seq<Message>): (s: seq<Send>)
    ensures |s| == |msgs| && forall i | 0 <= i < |s| :: s[i] == Send(to, msgs[i])
  {
    seq(|msgs|, i requires 0 <= i < |msgs| => Send(to, msgs[i]))
  }

  function OnHello(rooms: Rooms, id: nat, role: nat, conn: ConnId): Step {
    var room := RoomOf(rooms, id);
    if role == ROLE_SENDER then
      Step(rooms[id := room.(sender := Some(conn), pendingDirect := None)], [], room.pendingDirect)
    else if role == ROLE_RECEIVER then
      Step(rooms[id := room.(receiver := Some(conn), buffer := [])], SendAll(conn, room.buffer), None)
    else Step(rooms[id := room], [], None)
  }

  /** Symbol and Meta frames. */
  function OnPayload(rooms: Rooms, m: Message): Step {
    var id := m.sessionId;
    var room := RoomOf(rooms, id);
    if room.receiverDone then Step(rooms, [], None)
    else if room.receiver.Some? then Step(rooms, [Send(room.receiver.value, m)], None)
    else Step(rooms[id := room.(buffer := Pushed(room.buffer, m))], [], None)
  }

  function ToSender(room: RoomState, m: Message): seq<Send> {
    if room.sender.Some? then [Send(room.sender.value, m)] else []
  }

  function OnReady(rooms: Rooms, m: Message): Step {
    var id := m.sessionId;
    if id !in rooms then Step(rooms, [], None)
    else Step(rooms[id := rooms[id].(receiverDone := true)], ToSender(rooms[id], m), None)
  }

  function OnDirect(rooms: Rooms, m: Message): Step {
    var room := RoomOf(rooms, m.sessionId);
    if room.sender.Some? then Step(rooms, ToSender(room, m), None)
    else Step(rooms[m.sessionId := room.(pendingDirect := Some(m))], [], None)
  }

  function OnMessage(rooms: Rooms, m: Message, conn: ConnId): Step {
    match m
    case Hello(id, role) => OnHello(rooms, id, role, conn)
    case Symbol(_, _, _) => OnPayload(rooms, m)
    case Meta(_, _, _, _, _, _) => OnPayload(rooms, m)
    case Ready(_) => OnReady(rooms, m)
    case Direct(_, _) => OnDirect(rooms, m)
    case Done(id) => Step(rooms - {id}, [], None)
  }

  /** The second critical section of a sender's Hello. */
  function OnFlush(rooms: Rooms, m: Message): Step { Step(rooms, ToSender(RoomOf(rooms, m.sessionId), m), None) }

  function WithoutConn(room: RoomState, conn: ConnId): RoomState {
    room.(sender := if room.sender == Some(conn) then None else room.sender,
          receiver := if room.receiver == Some(conn) then None else room.receiver)
  }

  predicate Idle(room: RoomState) { room.sender.None? && room.receiver.None? && room.buffer == [] }

  function OnLeave(rooms: Rooms, id: nat, conn: ConnId): Rooms {
    if id !in rooms then rooms
    else
      var room := WithoutConn(rooms[id], conn);
      if Idle(room) then rooms - {id} else rooms[id := room]
  }

  datatype Op = Route(msg: Message, conn: ConnId) | Flush(direct: Message) | Leave(id: nat, conn: ConnId)

  function Apply(rooms: Rooms, op: Op): Step {
    match op
    case Route(m, conn) => OnMessage(rooms, m, conn)
    case Flush(m) => OnFlush(rooms, m)
    case Leave(id, conn) => Step(OnLeave(rooms, id, conn), [], None)
  }

  function RunOps(rooms: Rooms, ops: seq<Op>): Rooms {
    if ops == [] then rooms else Apply(RunOps(rooms, ops[..|ops| - 1]), ops[|ops| - 1]).rooms
  }

  // ---- What every reachable state keeps ----

  predicate IsPayload(m: Message) { m.Symbol? || m.Meta? }

  ghost predicate RoomOk(id: nat, room: RoomState) {
    && (room.receiver.Some? ==> room.buffer == [])
    && (room.sender.Some? ==> room.pendingDirect.None?)
    && (forall i | 0 <= i < |room.buffer| :: IsPayload(room.buffer[i]) && room.buffer[i].sessionId == id)
    && (room.pendingDirect.Some? ==> room.pendingDirect.value.Direct? && room.pendingDirect.value.sessionId == id)
    && (TotalLen(room.buffer) <= MAX_BUFFERED_BYTES || |room.buffer| == 1)
  }

  ghost predicate RoomsOk(rooms: Rooms) {
    forall id | id in rooms :: RoomOk(id, rooms[id])
  }

  lemma PushedRoomOk(id: nat, room: RoomState, m: Message)
    requires RoomOk(id, room) && room.receiver.None? && IsPayload(m) && m.sessionId == id
    ensures RoomOk(id, room.(buffer := Pushed(room.buffer, m)))
  {
    var kept := EvictFor(room.buffer, FrameLen(m));
    EvictIsTight(room.buffer, FrameLen(m));
    TotalLenOne(m);
    TotalLenAppend(kept, [m]);
  }

  /** A registered receiver has no backlog, a registered sender no advertisement
      waiting, and every stored frame belongs to its room. */
  lemma ApplyKeeps(rooms: Rooms, op: Op)
    requires RoomsOk(rooms)
    ensures RoomsOk(Apply(rooms, op).rooms)
  {
    if op.Route? && IsPayload(op.msg) {
      var id := op.msg.sessionId;
      var room := RoomOf(rooms, id);
      if !room.receiverDone && room.receiver.None? { PushedRoomOk(id, room, op.msg); }
    }
  }

  lemma {:induction false} RunKeeps(rooms: Rooms, ops: seq<Op>)
    requires RoomsOk(rooms)
    ensures RoomsOk(RunOps(rooms, ops))
  {
    if ops != [] {
      RunKeeps(rooms, ops[..|ops| - 1]);
      ApplyKeeps(RunOps(rooms, ops[..|ops| - 1]), ops[|ops| - 1]);
    }
  }

  /** The frames buffered for a session since its room was last drained or removed. */
  function Backlog(ops: seq<Op>, id: nat): seq<Message> {
    if ops == [] then []
    else
      var before, op := ops[..|ops| - 1], ops[|ops| - 1];
      BacklogAfter(RunOps(map[], before), op, id, Backlog(before, id))
  }

  function BacklogAfter(rooms: Rooms, op: Op, id: nat, backlog: seq<Message>): seq<Message> {
    var room := RoomOf(rooms, id);
    if SessionOf(op) != id then backlog
    else if id !in Apply(rooms, op).rooms || (op.Route? && op.msg.Hello? && op.msg.role == ROLE_RECEIVER) then []
    else if op.Route? && IsPayload(op.msg) && !room.receiverDone && room.receiver.None? then backlog + [op.msg]
    else backlog
  }

  lemma StepBuffers(rooms: Rooms, op: Op, id: nat, backlog: seq<Message>)
    requires RoomOf(rooms, id).buffer == PushAll(backlog)
    ensures RoomOf(Apply(rooms, op).rooms, id).buffer == PushAll(BacklogAfter(rooms, op, id, backlog))
  {
    if SessionOf(op) != id {
      OtherRoomsUntouched(rooms, op, id);
    } else if op.Route? && IsPayload(op.msg) {
      assert (backlog + [op.msg])[..|backlog|] == backlog;
    }
  }

  /** In every reachable state every room's buffer is the longest suffix that fits
      of the frames buffered since its last drain, or the newest frame alone. */
  lemma EveryBufferIsLongestFit(ops: seq<Op>, id: nat) returns (j: nat)
    ensures LongestFit(Backlog(ops, id), j)
    ensures RoomOf(RunOps(map[], ops), id).buffer == Backlog(ops, id)[j..]
  {
    BufferIsPushed(ops, id);
    j := BufferIsLongestFit(Backlog(ops, id));
  }

  lemma {:induction false} BufferIsPushed(ops: seq<Op>, id: nat)
    ensures RoomOf(RunOps(map[], ops), id).buffer == PushAll(Backlog(ops, id))
  {
    if ops != [] {
      var before := ops[..|ops| - 1];
      BufferIsPushed(before, id);
      StepBuffers(RunOps(map[], before), ops[|ops| - 1], id, Backlog(before, id));
    }
  }

  /** A step only touches the room of its own session. */
  function SessionOf(op: Op): nat {
    match op
    case Route(m, _) => m.sessionId
    case Flush(m) => m.sessionId
    case Leave(id, _) => id
  }

  lemma OtherRoomsUntouched(rooms: Rooms, op: Op, id: nat)
    requires id != SessionOf(op)
    ensures id in Apply(rooms, op).rooms <==> id in rooms
    ensures id in rooms ==> Apply(rooms, op).rooms[id] == rooms[id]
  {}

  // ---- Where every accepted frame ends up ----

  /** Frames of one session by fate. */
  datatype Ledger = Ledger(
    accepted: multiset<Message>,
    handed: multiset<Message>,     // passed to a receiver's channel
    evicted: multiset<Message>,    // pushed out of the buffer
    dropped: multiset<Message>,    // arrived after Ready
    discarded: multiset<Message>)  // buffered when Done removed the room

  const BLANK: Ledger := Ledger(multiset{}, multiset{}, multiset{}, multiset{}, multiset{})

  function Account(rooms: Rooms, op: Op, id: nat, led: Ledger): Ledger {
    if !op.Route? || op.msg.sessionId != id then led
    else
      var room := RoomOf(rooms, id);
      match op.msg
      case Hello(_, role) =>
        if role == ROLE_RECEIVER then led.(handed := led.handed + multiset(room.buffer)) else led
      case Done(_) => led.(discarded := led.discarded + multiset(room.buffer))
      case Ready(_) => led
      case Direct(_, _) => led
      case _ =>
        var one := led.(accepted := led.accepted + multiset{op.msg});
        if room.receiverDone then one.(dropped := led.dropped + multiset{op.msg})
        else if room.receiver.Some? then one.(handed := led.handed + multiset{op.msg})
        else one.(evicted := led.evicted + multiset(Evicted(room.buffer, FrameLen(op.msg))))
  }

  function RunAccount(rooms: Rooms, ops: seq<Op>, id: nat, led: Ledger): Ledger {
    if ops == [] then led
    else Account(RunOps(rooms, ops[..|ops| - 1]), ops[|ops| - 1], id, RunAccount(rooms, ops[..|ops| - 1], id, led))
  }

  /** Every accepted frame has exactly one fate, or is still buffered. */
  ghost predicate Balances(led: Ledger, buf: seq<Message>) {
    led.accepted == led.handed + led.evicted + led.dropped + led.discarded + multiset(buf)
  }

  ghost predicate Balanced(rooms: Rooms, id: nat, led: Ledger) { Balances(led, RoomOf(rooms, id).buffer) }

  lemma PushBalances(led: Ledger, buf: seq<Message>, m: Message)
    requires Balances(led, buf)
    ensures Balances(led.(accepted := led.accepted + multiset{m},
                          evicted := led.evicted + multiset(Evicted(buf, FrameLen(m)))), Pushed(buf, m))
  {
    EvictSplits(buf, FrameLen(m));
    var gone, kept := Evicted(buf, FrameLen(m)), EvictFor(buf, FrameLen(m));
    assert multiset(buf) == multiset(gone) + multiset(kept);
    assert multiset(kept + [m]) == multiset(kept) + multiset{m};
  }

  lemma OneBalances(led: Ledger, buf: seq<Message>, m: Message)
    requires Balances(led, buf)
    ensures Balances(led.(accepted := led.accepted + multiset{m}, dropped := led.dropped + multiset{m}), buf)
    ensures Balances(led.(accepted := led.accepted + multiset{m}, handed := led.handed + multiset{m}), buf)
  {}

  lemma AllBalance(led: Ledger, buf: seq<Message>)
    requires Balances(led, buf)
    ensures Balances(led.(handed := led.handed + multiset(buf)), [])
    ensures Balances(led.(discarded := led.discarded + multiset(buf)), [])
  {}

  lemma PayloadBalances(rooms: Rooms, m: Message, conn: ConnId, led: Ledger)
    requires IsPayload(m) && Balanced(rooms, m.sessionId, led)
    ensures Balanced(OnPayload(rooms, m).rooms, m.sessionId, Account(rooms, Route(m, conn), m.sessionId, led))
  {
    var room := RoomOf(rooms, m.sessionId);
    PushBalances(led, room.buffer, m);
    OneBalances(led, room.buffer, m);
  }

  lemma HelloBalances(rooms: Rooms, id: nat, role: nat, conn: ConnId, led: Ledger)
    requires Balanced(rooms, id, led)
    ensures Balanced(OnHello(rooms, id, role, conn).rooms, id, Account(rooms, Route(Hello(id, role), conn), id, led))
  {
    AllBalance(led, RoomOf(rooms, id).buffer);
  }

  lemma DoneBalances(rooms: Rooms, id: nat, conn: ConnId, led: Ledger)
    requires Balanced(rooms, id, led)
    ensures Balanced(rooms - {id}, id, Account(rooms, Route(Done(id), conn), id, led))
  {
    AllBalance(led, RoomOf(rooms, id).buffer);
  }

  lemma AccountBalances(rooms: Rooms, op: Op, id: nat, led: Ledger)
    requires Balanced(rooms, id, led)
    ensures Balanced(Apply(rooms, op).rooms, id, Account(rooms, op, id, led))
  {
    if SessionOf(op) != id {
      OtherRoomsUntouched(rooms, op, id);
    } else if op.Route? {
      match op.msg
      case Hello(_, role) => HelloBalances(rooms, id, role, op.conn, led);
      case Symbol(_, _, _) => PayloadBalances(rooms, op.msg, op.conn, led);
      case Meta(_, _, _, _, _, _) => PayloadBalances(rooms, op.msg, op.conn, led);
      case Ready(_) =>
      case Direct(_, _) =>
      case Done(_) => DoneBalances(rooms, id, op.conn, led);
    }
  }

  /** Conservation over whole runs: accepted = handed + evicted + dropped + discarded + buffered. */
  lemma {:induction false} Conservation(ops: seq<Op>, id: nat)
    ensures Balanced(RunOps(map[], ops), id, RunAccount(map[], ops, id, BLANK))
  {
    if ops != [] {
      var before := ops[..|ops| - 1];
      Conservation(before, id);
      AccountBalances(RunOps(map[], before), ops[|ops| - 1], id, RunAccount(map[], before, id, BLANK));
    }
  }

  /** What is handed over in a step is exactly what the step leaves to be sent to the receiver. */
  lemma HandedIsSent(rooms: Rooms, op: Op, id: nat, led: Ledger)
    requires op.Route? && SessionOf(op) == id && (IsPayload(op.msg) || op.msg.Hello?)
    ensures Account(rooms, op, id, led).handed == led.handed + multiset(Messages(Apply(rooms, op).sends))
  {
    var sends := Apply(rooms, op).sends;
    if op.msg.Hello? && op.msg.role == ROLE_RECEIVER {
      assert Messages(sends) == RoomOf(rooms, id).buffer;
    } else if sends == [] {
      assert Messages(sends) == [];
    } else {
      assert Messages(sends) == [op.msg];
    }
  }

  function Messages(sends: seq<Send>): (ms: seq<Message>)
    ensures |ms| == |sends| && forall i | 0 <= i < |ms| :: ms[i] == sends[i].msg
  {
    seq(|sends|, i requires 0 <= i < |sends| => sends[i].msg)
  }

  // ---- Where sends go ----

  /** Every send a routed frame leaves behind carries that frame's session and goes
      to a connection registered in its room, a Ready or Direct to the sender and
      a Symbol or Meta to the receiver. */
  lemma SendsGoToTheRoom(rooms: Rooms, m: Message, conn: ConnId, i: nat)
    requires RoomsOk(rooms) && i < |OnMessage(rooms, m, conn).sends|
    ensures var step := OnMessage(rooms, m, conn);
            var s := step.sends[i];
            && s.msg.sessionId == m.sessionId && m.sessionId in step.rooms
            && (IsPayload(s.msg) || s.msg.Ready? || s.msg.Direct?)
            && Some(s.to) == (if IsPayload(s.msg) then step.rooms[m.sessionId].receiver else step.rooms[m.sessionId].sender)
  {
    if m.Hello? && m.role == ROLE_RECEIVER {
      var room := RoomOf(rooms, m.sessionId);
      assert RoomOk(m.sessionId, room);
      assert IsPayload(room.buffer[i]) && room.buffer[i].sessionId == m.sessionId;
    }
  }

  // ---- Stale connections ----

  /** When a connection that is no longer registered leaves, the room stays as it
      is, unless nobody is registered in it and its buffer is empty. */
  lemma StaleLeaveIsHarmless(rooms: Rooms, id: nat, conn: ConnId)
    requires id in rooms && rooms[id].sender != Some(conn) && rooms[id].receiver != Some(conn)
    ensures OnLeave(rooms, id, conn) == if Idle(rooms[id]) then rooms - {id} else rooms
  {
    assert WithoutConn(rooms[id], conn) == rooms[id];
  }

  /** Leaving never unregisters another connection and never discards a buffered frame. */
  lemma LeaveKeepsOthers(rooms: Rooms, id: nat, conn: ConnId)
    ensures RoomOf(OnLeave(rooms, id, conn), id).buffer == RoomOf(rooms, id).buffer
    ensures forall c | c != conn ::
              && (RoomOf(rooms, id).sender == Some(c) ==> RoomOf(OnLeave(rooms, id, conn), id).sender == Some(c))
              && (RoomOf(rooms, id).receiver == Some(c) ==> RoomOf(OnLeave(rooms, id, conn), id).receiver == Some(c))
  {}

  // ---- After Ready ----

  /** The room of `id` survives every step of the run. */
  ghost predicate Survives(rooms: Rooms, ops: seq<Op>, id: nat)
    decreases |ops|
  {
    id in RunOps(rooms, ops) && (ops != [] ==> Survives(rooms, ops[..|ops| - 1], id))
  }

  /** Every Symbol or Meta of session `id` routed during the run is dropped: it is
      neither sent to anyone nor buffered.  What was buffered before is not meant. */
  ghost predicate PayloadsDropped(rooms: Rooms, ops: seq<Op>, id: nat)
    decreases |ops|
  {
    ops != [] ==>
      var before, op := RunOps(rooms, ops[..|ops| - 1]), ops[|ops| - 1];
      && PayloadsDropped(rooms, ops[..|ops| - 1], id)
      && (op.Route? && IsPayload(op.msg) && SessionOf(op) == id ==> Apply(before, op) == Step(before, [], None))
  }

  lemma DoneStays(rooms: Rooms, op: Op, id: nat)
    requires id in rooms && rooms[id].receiverDone && id in Apply(rooms, op).rooms
    ensures Apply(rooms, op).rooms[id].receiverDone
    ensures op.Route? && IsPayload(op.msg) && SessionOf(op) == id ==> Apply(rooms, op) == Step(rooms, [], None)
  {
    if SessionOf(op) != id { OtherRoomsUntouched(rooms, op, id); }
  }

  /** Once Ready was routed, a Symbol or Meta routed later is dropped, for as long
      as that room exists.  The backlog of a room that had lost its receiver can
      still go out; module AfterReady says when. */
  lemma {:induction false} ReadySticks(rooms: Rooms, ops: seq<Op>, id: nat)
    requires id in rooms && rooms[id].receiverDone && Survives(rooms, ops, id)
    ensures id in RunOps(rooms, ops) && RunOps(rooms, ops)[id].receiverDone
    ensures PayloadsDropped(rooms, ops, id)
  {
    if ops != [] {
      ReadySticks(rooms, ops[..|ops| - 1], id);
      DoneStays(RunOps(rooms, ops[..|ops| - 1]), ops[|ops| - 1], id);
    }
  }

  /** A room goes away only by Done, or when the last connection leaves it with an empty buffer. */
  lemma RoomRemoval(rooms: Rooms, op: Op, id: nat)
    requires id in rooms
    ensures id !in Apply(rooms, op).rooms <==>
              || (op.Route? && op.msg == Done(id))
              || (op.Leave? && op.id == id && Idle(WithoutConn(rooms[id], op.conn)))
  {}
}
