/** The sender's emission loop (crates/orbit-transport/src/session.rs lines
    193-331).  What other tasks do between two turns of the loop, draining
    queues, losing paths, delivering events, is an input of the turn. */
module Sender {
  import opened Options
  import opened XorKernel
  import opened Wire
  import opened FountainCode
  import opened LinearSystem
  import S = Scheduler
  import Encoder
  import Precode

  const PATH_QUEUE_DEPTH: nat := 1024
  const STALL_TIMEOUT: real := 30.0

  /** A bounded queue towards a writer task, the writer's liveness flag, and
      whether its receiving end still exists. */
  datatype Path = Path(queue: seq<Message>, alive: bool, open: bool)

  predicate Accepts(p: Path) { p.alive && p.open && |p.queue| < PATH_QUEUE_DEPTH }

  function Queued(p: Path, m: Message): Path { p.(queue := p.queue + [m]) }

  /** What happened to a path since the last turn. */
  datatype Change = Change(drained: nat, dies: bool, closes: bool)

  function Changed(p: Path, ch: Change): Path {
    Path(p.queue[if ch.drained < |p.queue| then ch.drained else |p.queue|..], p.alive && !ch.dies, p.open && !ch.closes)
  }

  function ChangedAll(ps: seq<Path>, chs: seq<Change>): (r: seq<Path>)
    requires |ps| == |chs|
    ensures |r| == |ps| && forall i | 0 <= i < |ps| :: r[i] == Changed(ps[i], chs[i])
  {
    seq(|ps|, i requires 0 <= i < |ps| => Changed(ps[i], chs[i]))
  }

  datatype Event = ReadyEvent | DirectEvent

  const FRESH_LINK: Path := Path([], true, true)

  datatype Turn = Turn(events: seq<Event>, paths: seq<Change>, direct: Change, now: real)

  datatype Emission = Sent | Retry | Unreachable | Stalled

  datatype Outcome =
    | Finished(symbols: nat, viaDirect: nat, viaRelay: nat)
    | AllUnreachable
    | NoProgress
    | StillRunning

  datatype Route = ViaRelay(path: nat) | ViaDirect

  /** Where an accepted message went. */
  datatype Handoff = Handoff(route: Route, msg: Message)

  /** `m` is what the encoder makes of the `i`-th emission's ESI. */
  ghost predicate IsEmission(stream: imap<nat, Message>, m: Message, i: nat) {
    i % Precode.U32_LIMIT in stream && m == stream[i % Precode.U32_LIMIT]
  }

  /** The accepted messages are the emissions 0, 1, 2, ... in order. */
  ghost predicate Emissions(stream: imap<nat, Message>, log: seq<Handoff>) {
    forall i | 0 <= i < |log| :: IsEmission(stream, log[i].msg, i)
  }

  lemma EmissionsNext(stream: imap<nat, Message>, log: seq<Handoff>, h: Handoff)
    requires Emissions(stream, log) && IsEmission(stream, h.msg, |log|)
    ensures Emissions(stream, log + [h])
  {}

  /** `j` is the first path from `first` on, going round, that takes the message. */
  ghost predicate FirstTaker(paths: seq<Path>, first: nat, j: nat) {
    && j < |paths| && Accepts(paths[j])
    && forall i: nat | i < |paths| && Lap(|paths|, first, i) < Lap(|paths|, first, j) :: !Accepts(paths[i])
  }

  /** The direct link takes the message if it is its turn and it accepts;
      otherwise the first relay from `first` on does.  A dead direct link whose
      turn it is gets dropped. */
  ghost predicate Placed(paths: seq<Path>, direct: Option<Path>, directTurn: bool, first: nat, h: Handoff,
                         paths': seq<Path>, direct': Option<Path>)
  {
    if directTurn && direct.Some? && Accepts(direct.value) then
      h.route == ViaDirect && paths' == paths && direct' == Some(Queued(direct.value, h.msg))
    else
      && h.route.ViaRelay? && FirstTaker(paths, first, h.route.path)
      && paths' == paths[h.route.path := Queued(paths[h.route.path], h.msg)]
      && direct' == AfterTurn(direct, directTurn)
  }

  function AfterTurn(direct: Option<Path>, directTurn: bool): Option<Path> {
    if directTurn && direct.Some? && !direct.value.alive then None else direct
  }

  /** Steps from `first` round to `j`. */
  function Lap(n: nat, first: nat, j: nat): nat
    requires j < n
  {
    var f := first % n;
    if j >= f then j - f else j + n - f
  }

  lemma LapOfOffset(n: nat, first: nat, offset: nat)
    requires offset < n
    ensures Lap(n, first, (first + offset) % n) == offset
  {
    var f, d := first % n, first / n;
    assert first == d * n + f;
    if f + offset < n {
      S.QuotientIs(first + offset, n, d, f + offset);
    } else {
      assert (d + 1) * n == d * n + n;
      S.QuotientIs(first + offset, n, d + 1, f + offset - n);
    }
  }

  lemma OffsetOfLap(n: nat, first: nat, j: nat)
    requires j < n
    ensures Lap(n, first, j) < n && (first + Lap(n, first, j)) % n == j
  {
    var f, d := first % n, first / n;
    assert first == d * n + f;
    if j >= f {
      S.QuotientIs(first + (j - f), n, d, j);
    } else {
      assert (d + 1) * n == d * n + n;
      S.QuotientIs(first + (j + n - f), n, d + 1, j);
    }
  }

  /** The Symbol message of each ESI. */
  ghost function StreamOf(id: nat, c: Code, p: seq<Block>, size: nat): imap<nat, Message>
    requires c.Valid() && Assignment(p, c.L(), size)
  {
    imap n: nat | 0 <= n :: Symbol(id, n, Encoded(c, p, n, size))
  }

  /** The direct link after a turn's events: a new one if one was established. */
  function DirectAt(direct: Option<Path>, t: Turn): Option<Path> {
    if DirectEvent in t.events then Some(FRESH_LINK)
    else if direct.Some? then Some(Changed(direct.value, t.direct))
    else None
  }

  predicate AllDead(paths: seq<Path>) { forall j | 0 <= j < |paths| :: !paths[j].alive }

  predicate NoneAccepts(paths: seq<Path>) { forall j | 0 <= j < |paths| :: !Accepts(paths[j]) }

  class SenderSession {
    var paths: seq<Path>
    var direct: Option<Path>
    var scheduler: S.MultiPathScheduler
    const encoder: Encoder.FountainEncoder
    const sessionId: nat
    var esi: nat
    var sent: nat
    var viaDirect: nat
    var viaRelay: nat
    var lastSend: real
    /** Every message some queue accepted, in order, and when. */
    ghost var log: seq<Handoff>
    ghost var times: seq<real>
    ghost const started: real
    /** The Symbol message of each ESI. */
    ghost const stream: imap<nat, Message>

    /** The stream is what the encoder makes of each ESI. */
    ghost predicate Encodes()
    {
      encoder.Valid() && stream == StreamOf(sessionId, encoder.Code(), encoder.precoded, encoder.symbolSize)
    }

    ghost predicate Scheduled()
      reads this`paths, this`scheduler, scheduler
    {
      && paths != [] && scheduler.Valid() && scheduler.nRelays == |paths|
      && scheduler.p == 1 && scheduler.q == 2
    }

    /** The counters agree, and the accepted messages are the emissions 0, 1, 2, ... once each. */
    ghost predicate Accounts()
      reads this`sent, this`esi, this`viaDirect, this`viaRelay, this`log
    {
      && sent == viaDirect + viaRelay == |log|
      && esi == sent % Precode.U32_LIMIT
      && viaDirect == DirectCount(log)
      && Emissions(stream, log)
    }

    /** The stall clock runs from the last accepted message, or from the start. */
    ghost predicate Clocked()
      reads this`lastSend, this`log, this`times
    {
      |times| == |log| && lastSend == if times == [] then started else times[|times| - 1]
    }

    constructor (relays: nat, id: nat, enc: Encoder.FountainEncoder, now: real)
      requires relays >= 1 && enc.Valid()
      ensures Encodes() && Scheduled() && Accounts() && log == [] && fresh(scheduler)
      ensures encoder == enc && sessionId == id && |paths| == relays
      ensures Clocked() && started == now && direct.None? && forall j | 0 <= j < |paths| :: paths[j] == FRESH_LINK
    {
      var s := new S.MultiPathScheduler(1, 1);
      s.WithRelays(relays);
      paths := seq(relays, _ => FRESH_LINK);
      direct, scheduler, encoder, sessionId := None, s, enc, id;
      esi, sent, viaDirect, viaRelay, lastSend := 0, 0, 0, 0, now;
      log, times, started := [], [], now;
      stream := StreamOf(id, enc.Code(), enc.precoded, enc.symbolSize);
    }

    method MakeSymbol() returns (m: Message)
      requires Encodes()
      ensures esi in stream && m == stream[esi]
    {
      var sym := encoder.EncodeSymbol(esi);
      m := Symbol(sessionId, esi, sym.data);
    }

    /** Queues a message on the first path from `first` on that takes it; fails
        only if every path is dead, closed or full. */
    method Dispatch(m: Message, first: nat) returns (ok: bool, ghost taker: nat)
      requires paths != []
      modifies this`paths
      ensures ok ==> FirstTaker(old(paths), first, taker) && paths == old(paths)[taker := Queued(old(paths)[taker], m)]
      ensures !ok ==> paths == old(paths) && NoneAccepts(paths)
    {
      var n := |paths|;
      taker := 0;
      for offset := 0 to n
        invariant paths == old(paths)
        invariant forall j: nat | j < n && Lap(n, first, j) < offset :: !Accepts(paths[j])
      {
        var j := (first + offset) % n;
        LapOfOffset(n, first, offset);
        if Accepts(paths[j]) {
          paths := paths[j := Queued(paths[j], m)];
          return true, j;
        }
        forall i: nat | i < n && Lap(n, first, i) < offset + 1
          ensures !Accepts(paths[i])
        {
          OffsetOfLap(n, first, i);
        }
      }
      forall j | 0 <= j < n ensures !Accepts(paths[j]) { OffsetOfLap(n, first, j); }
      return false, 0;
    }

    method AnyPathAlive() returns (b: bool)
      ensures b <==> exists j :: 0 <= j < |paths| && paths[j].alive
    {
      for j := 0 to |paths|
        invariant forall i | 0 <= i < j :: !paths[i].alive
      {
        if paths[j].alive { return true; }
      }
      return false;
    }

    /** Dispatches to a relay, or decides between retrying and giving up. */
    method DispatchOrWait(m: Message, first: nat, now: real) returns (e: Emission, ghost taker: nat)
      requires paths != []
      modifies this`paths, this`lastSend
      ensures e == Sent ==> FirstTaker(old(paths), first, taker) && paths == old(paths)[taker := Queued(old(paths)[taker], m)]
      ensures e != Sent ==> paths == old(paths) && NoneAccepts(paths)
      ensures e == Unreachable <==> e != Sent && AllDead(paths)
      ensures e == Stalled <==> e != Sent && e != Unreachable && now - old(lastSend) > 30.0
      ensures lastSend == if e == Sent then now else old(lastSend)
    {
      var ok;
      ok, taker := Dispatch(m, first);
      if ok {
        lastSend := now;
        return Sent, taker;
      }
      var alive := AnyPathAlive();
      if !alive { return Unreachable, taker; }
      if now - lastSend > STALL_TIMEOUT { return Stalled, taker; }
      return Retry, taker;
    }

    /** One emission: symbols with an even ESI are for the next relay in turn, the
        others for the direct link, with fallback to the relays from the first on. */
    method Emit(now: real) returns (e: Emission)
      requires Encodes() && Scheduled() && Accounts()
      modifies this`paths, this`direct, this`esi, this`sent, this`viaDirect, this`viaRelay, this`lastSend, this`log, this`times, scheduler
      ensures Encodes() && Scheduled() && Accounts() && |paths| == |old(paths)|
      ensures e == Sent ==>
                && |log| == |old(log)| + 1 && old(log) <= log && sent == old(sent) + 1
                && (var relayTurn := old(esi) % 2 == 0;
                    Placed(old(paths), old(direct), !relayTurn, if relayTurn then old(scheduler.nextRelay) else 0,
                           log[|old(log)|], paths, direct))
      ensures e != Sent ==> sent == old(sent) && log == old(log) && esi == old(esi) && paths == old(paths)
      ensures e != Sent ==> NoneAccepts(paths)
      ensures e == Unreachable ==> AllDead(paths)
      ensures e == Stalled ==> now - old(lastSend) > 30.0
      ensures e == Retry ==> now - old(lastSend) <= 30.0
      ensures lastSend == (if e == Sent then now else old(lastSend)) && times == old(times) + if e == Sent then [now] else []
      ensures scheduler.nextRelay == S.Advance(1, 2, |paths|, old(esi), old(scheduler.nextRelay))
      ensures e == Sent && old(esi) % 2 == 1 && old(direct).Some? && !old(direct).value.alive ==> direct.None?
    {
      var msg := MakeSymbol();
      var pick := scheduler.Pick(esi);
      TurnsAlternate(esi);
      e := Send(msg, if pick.Some? then pick.value else 0, pick.None?, now);
    }

    /** Tries the direct link if it is this symbol's turn, then the relays. */
    method Send(msg: Message, first: nat, preferDirect: bool, now: real) returns (e: Emission)
      requires paths != [] && Accounts() && esi in stream && msg == stream[esi]
      modifies this`paths, this`direct, this`esi, this`sent, this`viaDirect, this`viaRelay, this`lastSend, this`log, this`times
      ensures Accounts() && |paths| == |old(paths)|
      ensures e == Sent ==>
                && |log| == |old(log)| + 1 && old(log) <= log && sent == old(sent) + 1
                && Placed(old(paths), old(direct), preferDirect, first, log[|old(log)|], paths, direct)
      ensures e != Sent ==> sent == old(sent) && log == old(log) && esi == old(esi) && paths == old(paths)
      ensures e != Sent ==> NoneAccepts(paths)
      ensures e == Unreachable ==> AllDead(paths)
      ensures e == Stalled ==> now - old(lastSend) > 30.0
      ensures e == Retry ==> now - old(lastSend) <= 30.0
      ensures lastSend == (if e == Sent then now else old(lastSend)) && times == old(times) + if e == Sent then [now] else []
    {
      if preferDirect && direct.Some? {
        if Accepts(direct.value) {
          direct := Some(Queued(direct.value, msg));
          lastSend := now;
          Advance(true, Handoff(ViaDirect, msg), now);
          return Sent;
        }
        if !direct.value.alive { direct := None; }
      }
      ghost var taker: nat;
      e, taker := DispatchOrWait(msg, first, now);
      if e == Sent { Advance(false, Handoff(ViaRelay(taker), msg), now); }
    }

    /** Counts an accepted message and moves to the next ESI, which has 32 bits. */
    method Advance(overDirect: bool, ghost h: Handoff, ghost now: real)
      requires overDirect <==> h.route == ViaDirect
      requires Accounts() && esi in stream && h.msg == stream[esi]
      modifies this`sent, this`esi, this`viaDirect, this`viaRelay, this`log, this`times
      ensures Accounts() && sent == old(sent) + 1 && log == old(log) + [h] && times == old(times) + [now]
    {
      DirectCountNext(log, h);
      EmissionsNext(stream, log, h);
      WrapNext(sent);
      log, times := log + [h], times + [now];
      if overDirect { viaDirect := viaDirect + 1; } else { viaRelay := viaRelay + 1; }
      sent := sent + 1;
      esi := (esi + 1) % Precode.U32_LIMIT;
    }

    /** Other tasks' doings before a turn. */
    method Observe(t: Turn)
      requires |t.paths| == |paths|
      modifies this`paths, this`direct
      ensures paths == ChangedAll(old(paths), t.paths)
      ensures direct == if old(direct).Some? then Some(Changed(old(direct).value, t.direct)) else None
    {
      paths := ChangedAll(paths, t.paths);
      if direct.Some? { direct := Some(Changed(direct.value, t.direct)); }
    }

    /** Handles all events that have arrived; says whether Ready was among them. */
    method TakeEvents(events: seq<Event>) returns (finished: bool)
      modifies this`direct
      ensures finished <==> ReadyEvent in events
      ensures direct == if DirectEvent in events then Some(FRESH_LINK) else old(direct)
    {
      finished := false;
      for j := 0 to |events|
        invariant finished <==> ReadyEvent in events[..j]
        invariant direct == if DirectEvent in events[..j] then Some(FRESH_LINK) else old(direct)
      {
        assert events[..j + 1] == events[..j] + [events[j]];
        match events[j] {
          case ReadyEvent => finished := true;
          case DirectEvent => direct := Some(FRESH_LINK);
        }
      }
      assert events[..|events|] == events;
    }

    /** Everything in a turn before its emission. */
    method Poll(t: Turn) returns (outcome: Outcome)
      requires |t.paths| == |paths|
      modifies this`paths, this`direct
      ensures paths == ChangedAll(old(paths), t.paths) && direct == DirectAt(old(direct), t)
      ensures outcome == if ReadyEvent in t.events then Finished(sent, viaDirect, viaRelay)
                         else if direct.None? && AllDead(paths) then AllUnreachable
                         else StillRunning
    {
      Observe(t);
      var finished := TakeEvents(t.events);
      if finished { return Finished(sent, viaDirect, viaRelay); }
      var alive := AnyPathAlive();
      return if direct.None? && !alive then AllUnreachable else StillRunning;
    }

    /** One turn of the loop: arrived events first, then one emission. */
    method OneTurn(t: Turn) returns (outcome: Outcome)
      requires Encodes() && Scheduled() && Accounts() && Clocked() && |t.paths| == |paths|
      modifies this`paths, this`direct, this`esi, this`sent, this`viaDirect, this`viaRelay, this`lastSend, this`log, this`times, scheduler
      ensures Encodes() && Scheduled() && Accounts() && Clocked() && |paths| == |old(paths)|
      ensures outcome.Finished? <==> ReadyEvent in t.events
      ensures outcome.Finished? ==> outcome == Finished(sent, viaDirect, viaRelay) && log == old(log)
      ensures outcome == AllUnreachable ==> AllDead(paths)
      ensures outcome == NoProgress ==> log == old(log) && t.now - lastSend > 30.0
      ensures old(log) <= log && |log| <= |old(log)| + 1
      ensures |log| > |old(log)| ==>
                var relayTurn := old(esi) % 2 == 0;
                Placed(ChangedAll(old(paths), t.paths), DirectAt(old(direct), t), !relayTurn,
                       if relayTurn then old(scheduler.nextRelay) else 0, log[|old(log)|], paths, direct)
      ensures |log| == |old(log)| ==>
                paths == ChangedAll(old(paths), t.paths) && (outcome.Finished? || NoneAccepts(paths))
    {
      outcome := Poll(t);
      if outcome != StillRunning { return; }
      outcome := EmitOnce(t.now);
    }

    /** The emission of a turn and what it means for the loop. */
    method EmitOnce(now: real) returns (outcome: Outcome)
      requires Encodes() && Scheduled() && Accounts() && Clocked()
      modifies this`paths, this`direct, this`esi, this`sent, this`viaDirect, this`viaRelay, this`lastSend, this`log, this`times, scheduler
      ensures Encodes() && Scheduled() && Accounts() && Clocked() && |paths| == |old(paths)|
      ensures outcome == StillRunning || outcome == AllUnreachable || outcome == NoProgress
      ensures outcome == AllUnreachable ==> AllDead(paths)
      ensures outcome == NoProgress ==> log == old(log) && now - lastSend > 30.0
      ensures old(log) <= log && |log| <= |old(log)| + 1
      ensures |log| > |old(log)| ==>
                var relayTurn := old(esi) % 2 == 0;
                Placed(old(paths), old(direct), !relayTurn, if relayTurn then old(scheduler.nextRelay) else 0,
                       log[|old(log)|], paths, direct)
      ensures |log| == |old(log)| ==> paths == old(paths) && NoneAccepts(paths)
    {
      var e := Emit(now);
      match e {
        case Unreachable => return AllUnreachable;
        case Stalled => return NoProgress;
        case _ => return StillRunning;
      }
    }

    /** Streams symbols until Ready, an error, or the end of the turns given. */
    method Run(turns: seq<Turn>) returns (outcome: Outcome)
      requires Encodes() && Scheduled() && Accounts() && Clocked()
      requires forall i | 0 <= i < |turns| :: |turns[i].paths| == |paths|
      modifies this`paths, this`direct, this`esi, this`sent, this`viaDirect, this`viaRelay, this`lastSend, this`log, this`times, scheduler
      ensures Encodes() && Scheduled() && Accounts() && Clocked()
      ensures outcome.Finished? ==> outcome == Finished(sent, viaDirect, viaRelay)
      ensures outcome.Finished? ==> exists i :: 0 <= i < |turns| && ReadyEvent in turns[i].events
      ensures outcome == StillRunning ==> Silent(turns)
      ensures outcome == AllUnreachable ==> AllDead(paths)
      ensures outcome == NoProgress ==> exists i :: 0 <= i < |turns| && turns[i].now - lastSend > 30.0
    {
      outcome := StillRunning;
      var i := 0;
      while i < |turns| && outcome == StillRunning
        invariant 0 <= i <= |turns| && |paths| == |old(paths)|
        invariant Encodes() && Scheduled() && Accounts() && Clocked()
        invariant outcome.Finished? ==> outcome == Finished(sent, viaDirect, viaRelay) && i > 0 && ReadyEvent in turns[i - 1].events
        invariant outcome == StillRunning ==> Silent(turns[..i])
        invariant outcome == AllUnreachable ==> AllDead(paths)
        invariant outcome == NoProgress ==> i > 0 && turns[i - 1].now - lastSend > 30.0
      {
        outcome := OneTurn(turns[i]);
        SilentNext(turns, i);
        i := i + 1;
      }
      assert turns[..|turns|] == turns;
    }
  }

  /** Before the ESI wraps, the accepted messages are exactly the symbols of ESIs
      0, 1, 2, ..., each once. */
  lemma AcceptedExactlyOnce(log: seq<Handoff>, id: nat, c: FountainCode.Code, p: seq<Block>, size: nat)
    requires c.Valid() && Assignment(p, c.L(), size) && |log| <= Precode.U32_LIMIT
    requires Emissions(StreamOf(id, c, p, size), log)
    ensures forall i | 0 <= i < |log| :: log[i].msg == Symbol(id, i, Encoded(c, p, i, size))
  {
    forall i | 0 <= i < |log|
      ensures log[i].msg == Symbol(id, i, Encoded(c, p, i, size))
    {
      EmissionIs(log[i].msg, i, id, c, p, size);
    }
  }

  lemma EmissionIs(m: Message, i: nat, id: nat, c: FountainCode.Code, p: seq<Block>, size: nat)
    requires c.Valid() && Assignment(p, c.L(), size) && i < Precode.U32_LIMIT && IsEmission(StreamOf(id, c, p, size), m, i)
    ensures m == Symbol(id, i, Encoded(c, p, i, size))
  {
    SmallEsi(i);
  }

  lemma SmallEsi(i: nat)
    requires i < Precode.U32_LIMIT
    ensures i % Precode.U32_LIMIT == i
  {}

  /** No Ready among the events of these turns. */
  ghost predicate Silent(turns: seq<Turn>) {
    turns == [] || (Silent(turns[..|turns| - 1]) && ReadyEvent !in turns[|turns| - 1].events)
  }

  lemma SilentNext(turns: seq<Turn>, i: nat)
    requires i < |turns|
    ensures Silent(turns[..i + 1]) <==> Silent(turns[..i]) && ReadyEvent !in turns[i].events
  {
    assert turns[..i + 1][..i] == turns[..i];
  }

  /** Messages that went over the direct link. */
  ghost function DirectCount(log: seq<Handoff>): nat {
    if log == [] then 0
    else DirectCount(log[..|log| - 1]) + if log[|log| - 1].route == ViaDirect then 1 else 0
  }

  /** With equal shares even symbols are for the relays. */
  lemma TurnsAlternate(n: nat)
    ensures S.ToRelay(1, 2, n) <==> n % 2 == 0
  {}

  lemma WrapNext(n: nat)
    ensures (n % Precode.U32_LIMIT + 1) % Precode.U32_LIMIT == (n + 1) % Precode.U32_LIMIT
  {}

  lemma DirectCountNext(log: seq<Handoff>, h: Handoff)
    ensures DirectCount(log + [h]) == DirectCount(log) + if h.route == ViaDirect then 1 else 0
  {
    assert (log + [h])[..|log|] == log;
  }
}
