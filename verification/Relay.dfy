/** The relay with its mutable rooms (crates/orbit-relay/src/lib.rs).  Each
    method is one critical section, or a few in a row where the source takes the
    lock again. */
module Relay {
  import opened Options
  import opened Wire
  import opened RelaySpec

  class Room {
    var sender: Option<ConnId>
    var receiver: Option<ConnId>
    var buffer: seq<Message>
    var bufferedBytes: nat
    var pendingDirect: Option<Message>
    var receiverDone: bool
    /** The session the room was made for. */
    ghost const id: nat

    /** The byte count is exact, so the saturating subtractions never saturate. */
    ghost predicate Valid()
      reads this
    {
      bufferedBytes == TotalLen(buffer)
    }

    ghost function View(): RoomState
      reads this
    {
      RoomState(sender, receiver, buffer, pendingDirect, receiverDone)
    }

    constructor (ghost session: nat)
      ensures Valid() && View() == EMPTY_ROOM && id == session
    {
      id := session;
      sender, receiver, buffer, bufferedBytes := None, None, [], 0;
      pendingDirect, receiverDone := None, false;
    }

    method PushBuffer(m: Message)
      requires Valid()
      modifies this`buffer, this`bufferedBytes
      ensures Valid() && buffer == Pushed(old(buffer), m)
    {
      var size := FrameLen(m);
      while bufferedBytes + size > MAX_BUFFERED_BYTES
        invariant Valid() && EvictFor(buffer, size) == EvictFor(old(buffer), size)
        decreases |buffer|
      {
        if buffer == [] { break; }
        var old0 := buffer[0];
        buffer := buffer[1..];
        bufferedBytes := SaturatingSub(bufferedBytes, FrameLen(old0));
      }
      bufferedBytes := bufferedBytes + size;
      TotalLenAppend(buffer, [m]);
      TotalLenOne(m);
      buffer := buffer + [m];
    }

    /** Moves everything out, oldest first. */
    method DrainBuffer() returns (out: seq<Message>)
      requires Valid()
      modifies this`buffer, this`bufferedBytes
      ensures Valid() && out == old(buffer) && buffer == [] && bufferedBytes == 0
    {
      out := [];
      while buffer != []
        invariant Valid() && out + buffer == old(buffer)
        decreases |buffer|
      {
        var m := buffer[0];
        buffer := buffer[1..];
        bufferedBytes := SaturatingSub(bufferedBytes, FrameLen(m));
        out := out + [m];
      }
    }
  }

  function SaturatingSub(a: nat, b: nat): nat { if a < b then 0 else a - b }

  lemma UpdateTwice(rooms: Rooms, id: nat, a: RoomState, b: RoomState)
    ensures rooms[id := a][id := b] == rooms[id := b]
  {}

  lemma RemoveUpdated(rooms: Rooms, id: nat, a: RoomState)
    ensures rooms[id := a] - {id} == rooms - {id}
  {}

  class RelayCore {
    var rooms: map<nat, Room>
    var bytesRelayed: nat
    var symbolsRelayed: nat

    ghost predicate Valid()
      reads this`rooms, rooms.Values
    {
      forall id | id in rooms :: rooms[id].Valid() && rooms[id].id == id
    }

    ghost function View(): Rooms
      reads this`rooms, rooms.Values
    {
      map id | id in rooms :: rooms[id].View()
    }

    constructor ()
      ensures Valid() && View() == map[] && rooms == map[]
    {
      rooms, bytesRelayed, symbolsRelayed := map[], 0, 0;
    }

    /** The room of a session, created on first use. */
    method RoomFor(id: nat) returns (room: Room)
      requires Valid()
      modifies this`rooms
      ensures Valid() && id in rooms && rooms[id] == room
      ensures rooms == old(rooms)[id := room]
      ensures id in old(rooms) ==> room == old(rooms)[id]
      ensures id !in old(rooms) ==> fresh(room)
      ensures room.View() == RoomOf(old(View()), id)
      ensures View() == old(View())[id := room.View()]
    {
      if id in rooms {
        room := rooms[id];
      } else {
        room := new Room(id);
        rooms := rooms[id := room];
      }
    }

    /** A change inside one room changes the view at that room only. */
    twostate lemma OneRoomChanged(id: nat)
      requires old(Valid()) && id in rooms && rooms == old(rooms)
      requires forall r | r in rooms.Values && r != rooms[id] :: unchanged(r)
      requires rooms[id].Valid()
      ensures Valid() && View() == old(View())[id := rooms[id].View()]
    {
      forall a | a in rooms && a != id
        ensures rooms[a].Valid() && rooms[a].View() == old(rooms[a].View())
      {
        assert rooms[a] in rooms.Values;
      }
    }

    /** Registration; gives the backlog a receiver is owed and the advertisement a sender is owed. */
    method RouteHello(id: nat, role: nat, conn: ConnId) returns (drained: seq<Message>, direct: Option<Message>)
      requires Valid()
      modifies this`rooms, rooms.Values
      ensures Valid() && fresh(rooms.Values - old(rooms.Values))
      ensures var step := OnHello(old(View()), id, role, conn);
              View() == step.rooms && SendAll(conn, drained) == step.sends && direct == step.flush
    {
      drained, direct := [], None;
      ghost var before := View();
      var room := RoomFor(id);
      ghost var was := room.View();
      assert was == RoomOf(before, id);
      label Found:
      if role == ROLE_SENDER {
        room.sender := Some(conn);
        direct := room.pendingDirect;
        room.pendingDirect := None;
      } else if role == ROLE_RECEIVER {
        room.receiver := Some(conn);
        drained := room.DrainBuffer();
      }
      OneRoomChanged@Found(id);
      UpdateTwice(before, id, was, room.View());
    }

    /** A Symbol or Meta frame: the receiver's channel, the buffer, or nowhere. */
    method RoutePayload(m: Message) returns (to: Option<ConnId>)
      requires Valid() && IsPayload(m)
      modifies this`rooms, this`bytesRelayed, this`symbolsRelayed, rooms.Values
      ensures Valid() && fresh(rooms.Values - old(rooms.Values))
      ensures var step := OnPayload(old(View()), m);
              View() == step.rooms && step.sends == if to.Some? then [Send(to.value, m)] else []
      ensures bytesRelayed == old(bytesRelayed) + if m.Symbol? then |m.data| else 0
      ensures symbolsRelayed == old(symbolsRelayed) + if m.Symbol? then 1 else 0
    {
      if m.Symbol? {
        bytesRelayed := bytesRelayed + |m.data|;
        symbolsRelayed := symbolsRelayed + 1;
      }
      to := Place(m);
    }

    method Place(m: Message) returns (to: Option<ConnId>)
      requires Valid() && IsPayload(m)
      modifies this`rooms, rooms.Values
      ensures Valid() && fresh(rooms.Values - old(rooms.Values))
      ensures var step := OnPayload(old(View()), m);
              View() == step.rooms && step.sends == if to.Some? then [Send(to.value, m)] else []
    {
      to := None;
      var id := m.sessionId;
      if id in rooms {
        assert View()[id] == rooms[id].View();
        if rooms[id].receiverDone { return; }
        to := rooms[id].receiver;
        if to.Some? { return; }
      }
      Keep(m);
    }

    /** No receiver yet: the frame waits in the room's buffer. */
    method Keep(m: Message)
      requires Valid()
      modifies this`rooms, rooms.Values
      ensures Valid() && fresh(rooms.Values - old(rooms.Values))
      ensures var room := RoomOf(old(View()), m.sessionId);
              View() == old(View())[m.sessionId := room.(buffer := Pushed(room.buffer, m))]
    {
      ghost var before := View();
      var room := RoomFor(m.sessionId);
      ghost var was := room.View();
      label Found:
      room.PushBuffer(m);
      OneRoomChanged@Found(m.sessionId);
      UpdateTwice(before, m.sessionId, was, room.View());
    }

    method RouteReady(m: Message) returns (to: Option<ConnId>)
      requires Valid() && m.Ready?
      modifies rooms.Values
      ensures Valid() && rooms == old(rooms)
      ensures var step := OnReady(old(View()), m);
              View() == step.rooms && step.sends == if to.Some? then [Send(to.value, m)] else []
    {
      to := None;
      if m.sessionId in rooms {
        var room := rooms[m.sessionId];
        room.receiverDone := true;
        to := room.sender;
      }
    }

    method RouteDirect(m: Message) returns (to: Option<ConnId>)
      requires Valid() && m.Direct?
      modifies this`rooms, rooms.Values
      ensures Valid() && fresh(rooms.Values - old(rooms.Values))
      ensures var step := OnDirect(old(View()), m);
              View() == step.rooms && step.sends == if to.Some? then [Send(to.value, m)] else []
    {
      to := None;
      var id := m.sessionId;
      if id in rooms && rooms[id].sender.Some? {
        to := rooms[id].sender;
        return;
      }
      ghost var before := View();
      var room := RoomFor(id);
      ghost var was := room.View();
      assert was == RoomOf(before, id);
      label Found:
      room.pendingDirect := Some(m);
      OneRoomChanged@Found(id);
      UpdateTwice(before, id, was, room.View());
    }

    method RouteDone(m: Message)
      requires Valid() && m.Done?
      modifies this`rooms
      ensures Valid() && rooms.Values <= old(rooms.Values)
      ensures View() == OnMessage(old(View()), m, 0).rooms
    {
      rooms := rooms - {m.sessionId};
    }

    /** Looks the sender up again for a pending advertisement. */
    method FlushDirect(m: Message) returns (to: Option<ConnId>)
      requires Valid()
      ensures OnFlush(View(), m).sends == if to.Some? then [Send(to.value, m)] else []
    {
      to := if m.sessionId in rooms then rooms[m.sessionId].sender else None;
    }

    method LeaveRoom(id: nat, conn: ConnId)
      requires Valid()
      modifies this`rooms, rooms.Values
      ensures Valid() && rooms.Values <= old(rooms.Values)
      ensures View() == OnLeave(old(View()), id, conn)
    {
      if id in rooms {
        ghost var before := View();
        var room := rooms[id];
        if room.sender == Some(conn) { room.sender := None; }
        if room.receiver == Some(conn) { room.receiver := None; }
        assert room.View() == WithoutConn(before[id], conn);
        OneRoomChanged(id);
        if room.sender.None? && room.receiver.None? && room.buffer == [] {
          RemoveUpdated(before, id, room.View());
          DropRoom(id);
        }
      }
    }

    method DropRoom(id: nat)
      requires Valid() && id in rooms
      modifies this`rooms
      ensures Valid() && View() == old(View()) - {id} && rooms.Values <= old(rooms.Values)
    {
      rooms := rooms - {id};
    }
  }
}
