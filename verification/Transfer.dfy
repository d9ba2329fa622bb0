/** A whole transfer as a transition system: one sender, any number of relays
    with all their connections, an optional direct link read byte by byte, one
    receiver, and strangers (crates/orbit-transport/src/session.rs,
    crates/orbit-transport/src/direct.rs, crates/orbit-relay/src/lib.rs).  Runs
    are arbitrary interleavings of steps, with losses, repetitions, reorderings,
    dead paths, re-registrations and evictions among them.

    What the direct link hands over is the sender's own only in orderly runs:
    nobody else writes Symbols to the receiver's listener, and every read that
    completes a frame ends at that frame's end. */
module Transfer {
  import opened Options
  import opened XorKernel
  import opened Bytes
  import opened Wire
  import opened Framing
  import opened Origin
  import opened ReceiverSpec
  import RelaySpec
  import Precode
  import D = Decoder
  import L = DirectLink
  import N = RelayNet
  import T = Sender
  import R = Receiver

  /** What does not change during a run: the sender's payload and parameters, the
      hash, which connections the two ends open, and the number of relays. */
  datatype World = World(
    o: Origin,
    hash: imap<Block, nat>,
    senders: iset<RelaySpec.ConnId>,
    receivers: iset<RelaySpec.ConnId>,
    nRelays: nat,
    listens: bool)

  ghost function Ours(w: World): iset<RelaySpec.ConnId> { w.senders + w.receivers }

  /** The sender: a queue per relay, the direct link, and its progress. */
  datatype Tx = Tx(
    paths: seq<T.Path>,
    direct: Option<T.Path>,
    directUp: bool,
    emitted: nat,
    readySeen: bool,
    finished: bool)

  /** The direct connection: bytes written and not yet read, the reader task, and
      the messages written and not yet delivered. */
  datatype Pipe = Pipe(stream: Bytes, link: L.Link, flying: seq<Message>)

  /** The receiver: the merged channel, what was taken from it, the payload
      reconstruct gave, the relays that took Ready, whether a sink refused, and
      what the session returned. */
  datatype End = End(
    inbox: seq<Arrival>,
    history: seq<Arrival>,
    rx: Rx,
    rebuilt: Option<Block>,
    acks: nat,
    refused: bool,
    returned: Option<Block>)

  datatype State = State(nets: seq<N.Net>, tx: Tx, wire: Pipe, end: End)

  datatype Action =
    | Relay(i: nat, step: N.NetAction)
    | Strange(i: nat, c: RelaySpec.ConnId, m: Message)
    | Register(i: nat, c: RelaySpec.ConnId)
    | SendMeta(c: RelaySpec.ConnId)
    | EmitRelay(j: nat)
    | EmitDirect
    | DropDirect
    | Change(i: nat, change: T.Change)
    | WriteRelay(i: nat, c: RelaySpec.ConnId)
    | WriteDirect
    | KillDirect
    | ReadDirect(count: nat)
    | CloseDirect
    | StrayDirect(m: Message)
    | Watch(i: nat, c: RelaySpec.ConnId, connects: bool)
    | Finish
    | Listen(i: nat, c: RelaySpec.ConnId)
    | LinkEvent(a: Arrival)
    | Turn
    | Reconstruct
    | Advertise(i: nat, c: RelaySpec.ConnId, addr: Block)
    | Acknowledge(c: RelaySpec.ConnId, accepted: bool)
    | CloseSinks(accepted: bool)

  // ---- Messages that may exist ----

  /** In this session only the sender's own Meta and the symbols it has emitted,
      and Ready only once the receiver has its payload; other sessions are free. */
  ghost predicate Fine(o: Origin, emitted: nat, acked: bool, m: Message)
    requires o.Valid()
  {
    m.sessionId == o.sessionId ==>
      && (m.Meta? ==> o.Made(m))
      && (m.Symbol? ==> o.Made(m) && m.esi < emitted && m.esi < Precode.U32_LIMIT)
      && (m.Ready? ==> acked)
  }

  ghost function FineSet(o: Origin, emitted: nat, acked: bool): iset<Message>
    requires o.Valid()
  {
    iset m: Message | Fine(o, emitted, acked, m)
  }

  ghost function FineIn(w: World, s: State): iset<Message>
    requires w.o.Valid()
  {
    FineSet(w.o, s.tx.emitted, s.end.rebuilt.Some?)
  }

  // ---- Steps ----

  function Start(w: World): State {
    State(seq(w.nRelays, _ => N.Net(map[], map[])),
          Tx(seq(w.nRelays, _ => T.FRESH_LINK), None, false, 0, false, false),
          Pipe([], L.FRESH, []),
          End([], [], Fresh(w.listens), None, 0, false, None))
  }

  function WithNet(s: State, i: nat, n: N.Net): State
    requires i < |s.nets|
  {
    s.(nets := s.nets[i := n])
  }

  /** The symbol the sender emits next. */
  ghost function NextSymbol(w: World, s: State): Message
    requires w.o.Valid()
  {
    var esi := s.tx.emitted % Precode.U32_LIMIT;
    Symbol(w.o.sessionId, esi, w.o.Data(esi))
  }

  /** What reconstruct returns: the joined source blocks if the hash agrees.  Only
      the first packet of each ESI counts, and among those a wrong length makes the
      XOR kernel abort before decoding completes. */
  ghost function Rebuilt(w: World, rx: Rx): Option<Block>
    requires w.o.Valid()
  {
    var firsts := R.Firsts(rx.fed);
    if rx.job.None? || rx.job.value.k == 0 || !R.SizedPackets(firsts, rx.job.value.size) then None
    else
      var job := rx.job.value;
      var d := R.Fed(w.o.rand, job.k, job.size, firsts);
      if exists i :: 0 <= i < job.k && (i !in d.resolved || |d.resolved[i]| != job.size) then None
      else
        var joined := D.JoinUpto(d.resolved, job.k, job.size, job.len);
        if joined in w.hash && w.hash[joined] == job.checksum then Some(joined) else None
  }

  /** Steps of one relay and of endpoints writing to it. */
  ghost function NetAt(w: World, s: State, i: nat, a: Action): N.Net
    requires w.o.Valid() && i < |s.nets|
  {
    var n, id := s.nets[i], w.o.sessionId;
    match a
    case Relay(_, step) => N.NetStep(n, step)
    case Strange(_, c, m) => if c !in Ours(w) && m in FineIn(w, s) then N.Put(n, c, m) else n
    case Register(_, c) =>
      if c in w.senders then N.Put(n, c, Hello(id, ROLE_SENDER))
      else if c in w.receivers then N.Put(n, c, Hello(id, ROLE_RECEIVER))
      else n
    case Advertise(_, c, addr) => if c in w.receivers then N.Put(n, c, Direct(id, addr)) else n
    case _ => n
  }

  /** Steps inside the sender, whose next symbol is `m`. */
  function TxStep(tx: Tx, m: Message, a: Action): Tx {
    match a
    case EmitRelay(j) =>
      if !tx.finished && j < |tx.paths| && T.Accepts(tx.paths[j]) then
        tx.(paths := tx.paths[j := T.Queued(tx.paths[j], m)], emitted := tx.emitted + 1)
      else tx
    case EmitDirect =>
      if !tx.finished && tx.direct.Some? && T.Accepts(tx.direct.value) then
        tx.(direct := Some(T.Queued(tx.direct.value, m)), emitted := tx.emitted + 1)
      else tx
    case DropDirect => if tx.direct.Some? && !tx.direct.value.alive then tx.(direct := None) else tx
    case Change(i, ch) => if i < |tx.paths| then tx.(paths := tx.paths[i := T.Changed(tx.paths[i], ch)]) else tx
    case KillDirect => if tx.direct.Some? then tx.(direct := Some(tx.direct.value.(alive := false, queue := []))) else tx
    case Finish => if tx.readySeen then tx.(finished := true) else tx
    case _ => tx
  }

  /** Steps inside the receiver. */
  ghost function EndStep(w: World, s: State, a: Action): End
    requires w.o.Valid()
  {
    var e := s.end;
    match a
    case LinkEvent(l) => if l.FromRelay? || l.FromDirect? then e else e.(inbox := e.inbox + [l])
    case Turn =>
      if e.inbox != [] && e.rx.status == Receiving then
        e.(inbox := e.inbox[1..], history := e.history + [e.inbox[0]],
           rx := OnArrival(e.rx, R.GoalsOf(w.o.rand), w.nRelays, e.inbox[0]))
      else e
    case Reconstruct => if e.rx.status == Decoded && e.rebuilt.None? then e.(rebuilt := Rebuilt(w, e.rx)) else e
    case StrayDirect(m) => e.(inbox := e.inbox + [FromDirect(m)])
    case CloseSinks(accepted) =>
      if e.rebuilt.None? || e.refused || e.acks < w.nRelays then e
      else if accepted then e.(returned := e.rebuilt)
      else e.(refused := true)
    case _ => e
  }

  /** The writer task puts one message's frame on the connection. */
  function Written(d: Pipe, m: Message): Pipe { d.(stream := d.stream + Encode(m), flying := d.flying + [m]) }

  /** The reader task reads `count` bytes. */
  function AfterRead(d: Pipe, count: nat): (r: Pipe)
    requires count <= |d.stream|
    ensures d.link.msgs <= r.link.msgs
  {
    L.ReadKeeps(d.link, d.stream[..count]);
    var link := L.OnRead(d.link, d.stream[..count]);
    Pipe(d.stream[count..], link,
           if |link.msgs| > |d.link.msgs| && d.flying != [] then d.flying[1..] else d.flying)
  }

  function Fetched(ms: seq<Message>): (l: seq<Arrival>)
    ensures |l| == |ms| && forall i | 0 <= i < |l| :: l[i] == FromDirect(ms[i])
  {
    seq(|ms|, i requires 0 <= i < |ms| => FromDirect(ms[i]))
  }

  /** Steps that carry a message between two parties. */
  ghost function CarryStep(w: World, s: State, a: Action): State
    requires w.o.Valid()
  {
    match a
    case SendMeta(c) =>
      if 0 < |s.nets| && c in w.senders then WithNet(s, 0, N.Put(s.nets[0], c, w.o.MetaMessage())) else s
    case WriteRelay(i, c) =>
      if i < |s.nets| && i < |s.tx.paths| && c in w.senders && s.tx.paths[i].queue != [] then
        var q := s.tx.paths[i];
        WithNet(s, i, N.Put(s.nets[i], c, q.queue[0])).(tx := s.tx.(paths := s.tx.paths[i := q.(queue := q.queue[1..])]))
      else s
    case WriteDirect =>
      if s.tx.direct.Some? && s.tx.direct.value.queue != [] then
        var q := s.tx.direct.value;
        s.(wire := Written(s.wire, q.queue[0]), tx := s.tx.(direct := Some(q.(queue := q.queue[1..]))))
      else s
    case ReadDirect(count) =>
      if 0 < count <= |s.wire.stream| then
        var d := AfterRead(s.wire, count);
        s.(wire := d, end := s.end.(inbox := s.end.inbox + Fetched(d.link.msgs[|s.wire.link.msgs|..])))
      else s
    case CloseDirect => s.(wire := s.wire.(stream := [], link := s.wire.link.(alive := false)))
    case Acknowledge(c, accepted) =>
      if s.end.rebuilt.None? || s.end.refused || s.end.acks >= |s.nets| || c !in w.receivers then s
      else if accepted then
        WithNet(s, s.end.acks, N.Put(s.nets[s.end.acks], c, Ready(w.o.sessionId))).(end := s.end.(acks := s.end.acks + 1))
      else s.(end := s.end.(refused := true))
    case Watch(i, c, connects) =>
      if i < |s.nets| && c in w.senders && c in s.nets[i].conns && s.nets[i].conns[c].down != [] then
        var m := s.nets[i].conns[c].down[0];
        var up := m.Direct? && connects && !s.tx.directUp;
        WithNet(s, i, N.TakeDown(s.nets[i], c)).(
          tx := s.tx.(readySeen := s.tx.readySeen || m.Ready?, directUp := s.tx.directUp || up,
                      direct := if up then Some(T.FRESH_LINK) else s.tx.direct))
      else s
    case Listen(i, c) =>
      if i < |s.nets| && c in w.receivers && c in s.nets[i].conns && s.nets[i].conns[c].down != [] then
        WithNet(s, i, N.TakeDown(s.nets[i], c)).(
          end := s.end.(inbox := s.end.inbox + [FromRelay(s.nets[i].conns[c].down[0])]))
      else s
    case _ => s
  }

  predicate AtRelay(a: Action) { a.Relay? || a.Strange? || a.Register? || a.Advertise? }

  predicate InTx(a: Action) {
    a.EmitRelay? || a.EmitDirect? || a.DropDirect? || a.Change? || a.KillDirect? || a.Finish?
  }

  predicate InEnd(a: Action) { a.LinkEvent? || a.Turn? || a.Reconstruct? || a.StrayDirect? || a.CloseSinks? }

  ghost function Step(w: World, s: State, a: Action): State
    requires w.o.Valid()
  {
    if AtRelay(a) then (if a.i < |s.nets| then WithNet(s, a.i, NetAt(w, s, a.i, a)) else s)
    else if InTx(a) then s.(tx := TxStep(s.tx, NextSymbol(w, s), a))
    else if InEnd(a) then s.(end := EndStep(w, s, a))
    else CarryStep(w, s, a)
  }

  /** The state after a run. */
  ghost function Run(w: World, actions: seq<Action>): State
    requires w.o.Valid()
  {
    if actions == [] then Start(w) else Step(w, Run(w, actions[..|actions| - 1]), actions[|actions| - 1])
  }
}
