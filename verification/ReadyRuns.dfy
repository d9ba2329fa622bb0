/** What relays still hand out after Ready in runs of the whole system: every
    step of the system is at most one event at each relay. */
module ReadyRuns {
  import opened Wire
  import opened RelayNet
  import opened AfterReady
  import opened Transfer

  /** What a step of the system is at relay `i`: an event, or nothing. */
  lemma StepIsEvent(w: World, s: State, a: Action, i: nat) returns (still: bool, e: Event)
    requires w.o.Valid() && i < |s.nets|
    ensures |Step(w, s, a).nets| == |s.nets|
    ensures Step(w, s, a).nets[i] == if still then s.nets[i] else Happen(s.nets[i], e)
  {
    still, e := Step(w, s, a).nets[i] == s.nets[i], Take(0);
    if AtRelay(a) {
      e := RelayEvent(w, s, a, i);
    } else if !InTx(a) && !InEnd(a) {
      e := CarryEvent(w, s, a, i);
    }
  }

  lemma RelayEvent(w: World, s: State, a: Action, i: nat) returns (e: Event)
    requires w.o.Valid() && i < |s.nets| && AtRelay(a)
    ensures Step(w, s, a).nets[i] == s.nets[i] || Step(w, s, a).nets[i] == Happen(s.nets[i], e)
  {
    match a
    case Relay(_, step) => e := Inside(step);
    case Strange(_, c, m) => e := Write(c, m);
    case Register(_, c) => e := Write(c, Hello(w.o.sessionId, if c in w.senders then ROLE_SENDER else ROLE_RECEIVER));
    case Advertise(_, c, addr) => e := Write(c, Direct(w.o.sessionId, addr));
  }

  lemma CarryEvent(w: World, s: State, a: Action, i: nat) returns (e: Event)
    requires w.o.Valid() && i < |s.nets|
    ensures CarryStep(w, s, a).nets[i] == s.nets[i] || CarryStep(w, s, a).nets[i] == Happen(s.nets[i], e)
  {
    match a
    case SendMeta(c) => e := Write(c, w.o.MetaMessage());
    case WriteRelay(j, c) =>
      e := if j < |s.tx.paths| && s.tx.paths[j].queue != [] then Write(c, s.tx.paths[j].queue[0]) else Take(0);
    case Acknowledge(c, _) => e := Write(c, Ready(w.o.sessionId));
    case Watch(_, c, _) => e := Take(c);
    case Listen(_, c) => e := Take(c);
    case _ => e := Take(0);
  }

  lemma {:induction false} RelaysSound(w: World, actions: seq<Action>, i: nat)
    requires w.o.Valid() && i < w.nRelays
    ensures |Run(w, actions).nets| == w.nRelays && NetSound(Run(w, actions).nets[i])
  {
    if actions != [] {
      var s := Run(w, actions[..|actions| - 1]);
      RelaysSound(w, actions[..|actions| - 1], i);
      var still, e := StepIsEvent(w, s, actions[|actions| - 1], i);
      if !still { HappenSound(s.nets[i], e); }
    }
  }

  /** The room of session `id` at relay `i` exists from step `n` on. */
  ghost predicate RoomLives(w: World, actions: seq<Action>, n: nat, i: nat, id: nat)
    requires w.o.Valid()
    decreases |actions|
  {
    && i < |Run(w, actions).nets| && id in Run(w, actions).nets[i].rooms
    && (n < |actions| ==> RoomLives(w, actions[..|actions| - 1], n, i, id))
  }

  lemma StepAddsNothing(w: World, s: State, a: Action, i: nat, id: nat)
    requires w.o.Valid() && i < |s.nets| && NetSound(s.nets[i])
    requires id in s.nets[i].rooms && s.nets[i].rooms[id].receiverDone
    requires |Step(w, s, a).nets| == |s.nets| && id in Step(w, s, a).nets[i].rooms
    ensures NothingNew(s.nets[i], Step(w, s, a).nets[i], id) && Step(w, s, a).nets[i].rooms[id].receiverDone
  {
    var still, e := StepIsEvent(w, s, a, i);
    if !still { HappenAddsNothing(s.nets[i], e, id); }
  }

  /** In every run of the system, at every relay: once Ready was routed and for as
      long as the room exists, each Symbol or Meta of the session in a channel was
      in that channel at step `n`, or was then buffered or owed by a handler. */
  lemma {:induction false} OnlyOldFramesArrive(w: World, actions: seq<Action>, n: nat, i: nat, id: nat)
    requires w.o.Valid() && n <= |actions| && i < w.nRelays && RoomLives(w, actions, n, i, id)
    requires var early := Run(w, actions[..n]).nets; i < |early| && id in early[i].rooms && early[i].rooms[id].receiverDone
    ensures i < |Run(w, actions).nets| && id in Run(w, actions).nets[i].rooms
    ensures NothingNew(Run(w, actions[..n]).nets[i], Run(w, actions).nets[i], id)
    ensures Run(w, actions).nets[i].rooms[id].receiverDone
  {
    if n == |actions| {
      assert actions[..n] == actions;
    } else {
      var before := actions[..|actions| - 1];
      assert before[..n] == actions[..n];
      OnlyOldFramesArrive(w, before, n, i, id);
      RelaysSound(w, before, i);
      RelaysSound(w, actions, i);
      StepAddsNothing(w, Run(w, before), actions[|actions| - 1], i, id);
      NothingNewChains(Run(w, actions[..n]).nets[i], Run(w, before).nets[i], Run(w, actions).nets[i], id);
    }
  }
}
