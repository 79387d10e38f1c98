/**
  The grammar of the tray's event stream over whole runs, and what the event stream makes of a
  connection's bytes.

  The receive loop finishes the chunk it is working on even when a message of it made the client
  give up. The grammar below therefore holds of a run exactly when no chunk carries, after a refused
  hello, another refused hello or a snapshot behind an accepted hello.
*/
module TrayEvents {
  import opened Basics
  import opened Framing
  import opened Protocol
  import opened TrayActor
  import opened TrayRuns

  datatype Stage = Down | Up | Dead | Broken

  /** Legal successors: snapshots and mismatches only while up, nothing at all after a mismatch. */
  function Follow(stage: Stage, event: Event): Stage {
    match (stage, event)
    case (Down, Connected) => Up
    case (Down, Disconnected) => Down
    case (Up, NewState(_)) => Up
    case (Up, Disconnected) => Down
    case (Up, ProtocolMismatch(_)) => Dead
    case _ => Broken
  }

  function Judge(events: seq<Event>): Stage {
    if events == [] then Down else Follow(Judge(events[..|events| - 1]), events[|events| - 1])
  }

  lemma JudgeSnoc(events: seq<Event>, event: Event)
    ensures Judge(events + [event]) == Follow(Judge(events), event)
  {
    assert (events + [event])[..|events|] == events;
  }

  lemma {:induction false} BrokenForever(events: seq<Event>, longer: seq<Event>)
    requires events <= longer && Judge(events) == Broken
    ensures Judge(longer) == Broken
    decreases |longer|
  {
    if |events| < |longer| {
      var shorter := longer[..|longer| - 1];
      assert events <= shorter;
      BrokenForever(events, shorter);
    } else {
      assert events == longer;
    }
  }

  // ---- messages of one chunk ----

  predicate Refused(m: Message) {
    m.Hello? && m.protocolVersion != SUPPORTED_VERSION
  }

  predicate Accepted(m: Message) {
    m.Hello? && m.protocolVersion == SUPPORTED_VERSION
  }

  predicate NoRefusal(messages: seq<Message>) {
    forall m :: m in messages ==> !Refused(m)
  }

  lemma NoRefusalCons(m: Message, ms: seq<Message>)
    ensures NoRefusal([m] + ms) <==> !Refused(m) && NoRefusal(ms)
  {
    assert m in [m] + ms && forall n :: n in ms ==> n in [m] + ms;
  }

  /** The handshake is done once an accepted hello has been seen. */
  predicate Greeted(handshakeDone: bool, messages: seq<Message>) {
    handshakeDone || exists i :: 0 <= i < |messages| && Accepted(messages[i])
  }

  /** Behind a refused hello the chunk holds nothing that would be emitted. */
  predicate Quiet(handshakeDone: bool, messages: seq<Message>) {
    forall i, j :: 0 <= i < j < |messages| && Refused(messages[i]) ==>
      !Refused(messages[j]) && (messages[j].Snapshot? ==> !Greeted(handshakeDone, messages[..j]))
  }

  /** What a stream of messages should make a connected client emit. */
  function Emitted(handshakeDone: bool, messages: seq<Message>): seq<Event>
    decreases |messages|
  {
    if messages == [] then [] else
      match messages[0]
      case Hello(version) =>
        if version != SUPPORTED_VERSION then [ProtocolMismatch(version)] else Emitted(true, messages[1..])
      case Snapshot(state) =>
        (if handshakeDone then [NewState(state)] else []) + Emitted(handshakeDone, messages[1..])
      case Unknown => Emitted(handshakeDone, messages[1..])
  }

  lemma {:induction false} GreetedCons(h: bool, m: Message, ms: seq<Message>)
    ensures Greeted(h, [m] + ms) <==> Greeted(h || Accepted(m), ms)
  {
    var all := [m] + ms;
    if i :| 0 <= i < |ms| && Accepted(ms[i]) {
      assert Accepted(all[i + 1]);
    }
    if Accepted(m) {
      assert Accepted(all[0]);
    }
  }

  /** Quietness of a list whose head does not refuse is quietness of its tail. */
  lemma {:induction false} QuietCons(h: bool, messages: seq<Message>)
    requires messages != [] && !Refused(messages[0])
    ensures Quiet(h, messages) <==> Quiet(h || Accepted(messages[0]), messages[1..])
  {
    var m, tail := messages[0], messages[1..];
    var h1 := h || Accepted(m);
    forall j | 0 < j <= |tail|
      ensures Greeted(h, messages[..j]) <==> Greeted(h1, tail[..j - 1])
    {
      assert messages[..j] == [m] + tail[..j - 1];
      GreetedCons(h, m, tail[..j - 1]);
    }
    if Quiet(h, messages) {
      forall i, j | 0 <= i < j < |tail| && Refused(tail[i])
        ensures !Refused(tail[j]) && (tail[j].Snapshot? ==> !Greeted(h1, tail[..j]))
      {
        assert Refused(messages[i + 1]) && messages[j + 1] == tail[j];
      }
    }
    if Quiet(h1, tail) {
      forall i, j | 0 <= i < j < |messages| && Refused(messages[i])
        ensures !Refused(messages[j]) && (messages[j].Snapshot? ==> !Greeted(h, messages[..j]))
      {
        assert Refused(tail[i - 1]) && messages[j] == tail[j - 1];
      }
    }
  }

  /** The messages behind a refused hello emit nothing exactly when they are silent in this sense. */
  predicate Silent(h: bool, tail: seq<Message>) {
    forall j :: 0 <= j < |tail| ==> !Refused(tail[j]) && (tail[j].Snapshot? ==> !Greeted(h, tail[..j]))
  }

  lemma {:induction false} SilentCons(h: bool, tail: seq<Message>)
    requires tail != []
    ensures Silent(h, tail) <==>
      !Refused(tail[0]) && !(tail[0].Snapshot? && h) && Silent(h || Accepted(tail[0]), tail[1..])
  {
    var h1 := h || Accepted(tail[0]);
    forall j | 0 < j <= |tail|
      ensures Greeted(h, tail[..j]) <==> Greeted(h1, tail[1..][..j - 1])
    {
      assert tail[..j] == [tail[0]] + tail[1..][..j - 1];
      GreetedCons(h, tail[0], tail[1..][..j - 1]);
    }
    assert Greeted(h, tail[..0]) <==> h;
    if Silent(h, tail) {
      forall j | 0 <= j < |tail[1..]|
        ensures !Refused(tail[1..][j]) && (tail[1..][j].Snapshot? ==> !Greeted(h1, tail[1..][..j]))
      {
        assert tail[1..][j] == tail[j + 1];
      }
    }
    if Silent(h1, tail[1..]) {
      forall j | 0 < j < |tail|
        ensures !Refused(tail[j]) && (tail[j].Snapshot? ==> !Greeted(h, tail[..j]))
      {
        assert tail[1..][j - 1] == tail[j];
      }
    }
  }

  lemma {:induction false} QuietAfterRefusal(h: bool, messages: seq<Message>)
    requires messages != [] && Refused(messages[0])
    ensures Quiet(h, messages) <==> Silent(h, messages[1..])
  {
    var tail := messages[1..];
    forall j | 0 < j <= |messages|
      ensures Greeted(h, messages[..j]) <==> Greeted(h, tail[..j - 1])
    {
      assert messages[..j] == [messages[0]] + tail[..j - 1];
      GreetedCons(h, messages[0], tail[..j - 1]);
    }
    if Quiet(h, messages) {
      forall j | 0 <= j < |tail|
        ensures !Refused(tail[j]) && (tail[j].Snapshot? ==> !Greeted(h, tail[..j]))
      {
        assert Refused(messages[0]) && messages[j + 1] == tail[j];
      }
    }
    if Silent(h, tail) {
      forall i, j | 0 <= i < j < |messages| && Refused(messages[i])
        ensures !Refused(messages[j]) && (messages[j].Snapshot? ==> !Greeted(h, messages[..j]))
      {
        assert messages[j] == tail[j - 1];
      }
    }
  }

  /** A client that has given up emits nothing more exactly when the rest of the chunk is silent. */
  lemma {:induction false} DeadChunk(a: Actor, messages: seq<Message>)
    requires a.connection.None? && Judge(a.events) == Dead
    ensures var b := ProcessAll(a, messages);
      && (Silent(a.handshakeDone, messages) <==> Judge(b.events) != Broken)
      && (Silent(a.handshakeDone, messages) ==> b.events == a.events && Judge(b.events) == Dead)
    decreases |messages|
  {
    if messages != [] {
      SilentCons(a.handshakeDone, messages);
      var b := ProcessMessage(a, messages[0]);
      if b.events == a.events {
        DeadChunk(b, messages[1..]);
      } else {
        JudgeSnoc(a.events, b.events[|a.events|]);
        assert b.events == a.events + [b.events[|a.events|]];
        ProcessAllGrows(b, messages[1..]);
        BrokenForever(b.events, ProcessAll(b, messages[1..]).events);
      }
    }
  }

  lemma {:induction false} ProcessAllGrows(a: Actor, messages: seq<Message>)
    ensures a.events <= ProcessAll(a, messages).events
    decreases |messages|
  {
    if messages != [] {
      ProcessAllGrows(ProcessMessage(a, messages[0]), messages[1..]);
    }
  }

  /** The chunk `messages` leads a connected client `a` to `b`: every clause about the outcome. */
  ghost predicate ChunkVerdict(a: Actor, messages: seq<Message>, b: Actor) {
    var h := a.handshakeDone;
    && (Quiet(h, messages) <==> Judge(b.events) != Broken)
    && (Quiet(h, messages) <==> b.events == a.events + Emitted(h, messages))
    && (Quiet(h, messages) ==> Judge(b.events) == if b.connection.Some? then Up else Dead)
    && (b.connection.Some? <==> NoRefusal(messages))
    && (b.connection.Some? ==> b.handshakeDone == Greeted(h, messages))
  }

  lemma {:induction false} RefusedChunk(a: Actor, messages: seq<Message>)
    requires a.connection.Some? && !a.stopped && Judge(a.events) == Up
    requires messages != [] && Refused(messages[0])
    ensures ChunkVerdict(a, messages, ProcessAll(a, messages))
  {
    var h, m, tail := a.handshakeDone, messages[0], messages[1..];
    var b := ProcessMessage(a, m);
    QuietAfterRefusal(h, messages);
    JudgeSnoc(a.events, ProtocolMismatch(m.protocolVersion));
    DeadChunk(b, tail);
    ProcessAllEffect(b, tail);
    assert Emitted(h, messages) == [ProtocolMismatch(m.protocolVersion)];
    assert m in messages;
  }

  lemma {:induction false} EmittedStep(a: Actor, messages: seq<Message>)
    requires messages != [] && !Refused(messages[0])
    ensures var b := ProcessMessage(a, messages[0]);
      && b.handshakeDone == (a.handshakeDone || Accepted(messages[0])) && b.connection == a.connection
      && b.events + Emitted(b.handshakeDone, messages[1..]) == a.events + Emitted(a.handshakeDone, messages)
  {
    var h, m := a.handshakeDone, messages[0];
    if m.Snapshot? && h {
      ConcatAssoc(a.events, [NewState(m.state)], Emitted(h, messages[1..]));
    }
  }

  lemma {:induction false} ContinuedChunk(a: Actor, messages: seq<Message>, b: Actor, c: Actor)
    requires messages != [] && !Refused(messages[0])
    requires b == ProcessMessage(a, messages[0])
    requires ChunkVerdict(b, messages[1..], c)
    ensures ChunkVerdict(a, messages, c)
  {
    var h, m, tail := a.handshakeDone, messages[0], messages[1..];
    assert messages == [m] + tail;
    QuietCons(h, messages);
    GreetedCons(h, m, tail);
    NoRefusalCons(m, tail);
    EmittedStep(a, messages);
    ChunkVerdictIsDetermined(a, messages, b, tail, c);
  }

  /** The verdict depends on quietness, expected events, greeting and refusals only. */
  lemma {:induction false} ChunkVerdictIsDetermined(a: Actor, m: seq<Message>, b: Actor, n: seq<Message>, c: Actor)
    requires ChunkVerdict(b, n, c)
    requires Quiet(a.handshakeDone, m) == Quiet(b.handshakeDone, n)
    requires Greeted(a.handshakeDone, m) == Greeted(b.handshakeDone, n) && NoRefusal(m) == NoRefusal(n)
    requires a.events + Emitted(a.handshakeDone, m) == b.events + Emitted(b.handshakeDone, n)
    ensures ChunkVerdict(a, m, c)
  {
  }

  /** One chunk at a connected client keeps the grammar exactly when it is quiet, and then emits what it should. */
  lemma {:induction false} LiveChunk(a: Actor, messages: seq<Message>)
    requires a.connection.Some? && !a.stopped && Judge(a.events) == Up
    ensures ChunkVerdict(a, messages, ProcessAll(a, messages))
    decreases |messages|
  {
    if messages != [] {
      if Refused(messages[0]) {
        RefusedChunk(a, messages);
      } else {
        var b := ProcessMessage(a, messages[0]);
        if b.events != a.events {
          JudgeSnoc(a.events, NewState(messages[0].state));
        }
        LiveChunk(b, messages[1..]);
        ContinuedChunk(a, messages, b, ProcessAll(a, messages));
      }
    }
  }

  // ---- whole runs ----

  /** The chunk this action makes the client process, if any, is quiet. */
  predicate QuietStep(decode: Decoder, w: World, action: Action) {
    var a := w.actor;
    (action.ReceiveCallback? && action.gen in a.receives && action.gen == a.generation && !a.stopped
     && action.data != []) ==>
      Quiet(a.handshakeDone, Completed(decode, a.pending, action.data))
  }

  predicate QuietRun(decode: Decoder, w: World, actions: seq<Action>)
    decreases |actions|
  {
    actions == [] || (QuietStep(decode, w, actions[0]) && QuietRun(decode, Step(decode, w, actions[0]), actions[1..]))
  }

  /** How the emitted events relate to the actor while the grammar holds. */
  ghost predicate GrammarInv(w: World) {
    var stage := Judge(w.actor.events);
    && stage != Broken
    && (stage == Up <==> w.actor.ready)
    && (stage == Dead ==> w.started && w.actor.stopped && w.actor.connection.None?)
    && (stage == Dead ==> forall i :: 0 <= i < |w.actor.tasks| ==> !Live(w.actor.tasks[i]))
  }

  /** The client has given up for good. */
  predicate Finished(w: World) {
    && w.started && w.actor.stopped && w.actor.connection.None?
    && forall i :: 0 <= i < |w.actor.tasks| ==> !Live(w.actor.tasks[i])
  }

  /** What a chunk at a connected client does to events and grammar. */
  lemma {:induction false} ChunkGrammar(a: Actor, decode: Decoder, data: Bytes)
    requires a.connection.Some? && !a.stopped && Judge(a.events) == Up
    ensures var b := ProcessChunk(a, decode, data);
      if data == [] || Quiet(a.handshakeDone, Completed(decode, a.pending, data))
      then Judge(b.events) == if b.connection.Some? then Up else Dead
      else Judge(b.events) == Broken && b.connection.None?
  {
    if data != [] {
      LiveChunk(a.(pending := Rest(a.pending + data)), Completed(decode, a.pending, data));
    }
  }

  /** `b` is the actor after the chunk; the receive then either closes the connection or goes on. */
  lemma {:induction false} ReceiveEndGrammar(w: World, b: Actor, ended: bool)
    requires Inv(w) && GrammarInv(w) && w.actor.ready
    requires ChunkEffect(w.actor.(receives := w.actor.receives - multiset{w.actor.generation}), b)
    ensures var v := w.(actor :=
        if ended then ScheduleReconnect(CloseConnection(b, true)) else ReceiveNext(b, w.actor.generation));
      && (Judge(b.events) == Broken && b.connection.None? ==>
            Judge(v.actor.events) == Broken && v.actor.events == b.events && Finished(v))
      && (Judge(b.events) == (if b.connection.Some? then Up else Dead) ==> GrammarInv(v))
  {
    JudgeSnoc(b.events, Disconnected);
  }

  lemma {:induction false} ReceiveGrammar(decode: Decoder, w: World, gen: nat, data: Bytes, ended: bool)
    requires Inv(w) && GrammarInv(w)
    ensures var action := ReceiveCallback(gen, data, ended); var v := Step(decode, w, action);
      if QuietStep(decode, w, action) then GrammarInv(v) else Judge(v.actor.events) == Broken && Finished(v)
  {
    var a := w.actor;
    if gen in a.receives && gen == a.generation && !a.stopped {
      var r := a.(receives := a.receives - multiset{gen});
      ProcessChunkEffect(r, decode, data);
      ChunkGrammar(r, decode, data);
      ReceiveEndGrammar(w, ProcessChunk(r, decode, data), ended);
    }
  }

  lemma {:induction false} CallbackGrammar(decode: Decoder, w: World, gen: nat, state: NwState)
    requires Inv(w) && GrammarInv(w)
    ensures GrammarInv(Step(decode, w, StateCallback(gen, state)))
  {
    JudgeSnoc(w.actor.events, Connected);
    JudgeSnoc(w.actor.events, Disconnected);
  }

  lemma {:induction false} ControlGrammar(decode: Decoder, w: World, action: Action)
    requires Inv(w) && GrammarInv(w) && !action.StateCallback? && !action.ReceiveCallback?
    ensures GrammarInv(Step(decode, w, action))
  {
    JudgeSnoc(w.actor.events, Disconnected);
  }

  lemma {:induction false} StepGrammar(decode: Decoder, w: World, action: Action)
    requires Inv(w) && GrammarInv(w)
    ensures var v := Step(decode, w, action);
      if QuietStep(decode, w, action) then GrammarInv(v) else Judge(v.actor.events) == Broken && Finished(v)
  {
    match action {
      case ReceiveCallback(gen, data, ended) => ReceiveGrammar(decode, w, gen, data, ended);
      case StateCallback(gen, state) => CallbackGrammar(decode, w, gen, state);
      case _ => ControlGrammar(decode, w, action);
    }
  }

  /** After giving up: no event, no reconnect, no connection, whatever still arrives. */
  lemma {:induction false} FinishedStays(decode: Decoder, w: World, later: seq<Action>)
    requires Inv(w) && Finished(w)
    ensures var v := From(decode, w, later);
      v.actor.events == w.actor.events && |v.actor.tasks| == |w.actor.tasks| && Finished(v)
    decreases |later|
  {
    if later != [] {
      StepKeepsInv(decode, w, later[0]);
      FinishedStays(decode, Step(decode, w, later[0]), later[1..]);
    }
  }

  lemma {:induction false} GrammarFrom(decode: Decoder, w: World, actions: seq<Action>)
    requires Inv(w) && GrammarInv(w)
    ensures var v := From(decode, w, actions);
      if QuietRun(decode, w, actions) then GrammarInv(v) else Judge(v.actor.events) == Broken && Finished(v)
    decreases |actions|
  {
    if actions != [] {
      var v := Step(decode, w, actions[0]);
      StepGrammar(decode, w, actions[0]);
      StepKeepsInv(decode, w, actions[0]);
      if QuietStep(decode, w, actions[0]) {
        GrammarFrom(decode, v, actions[1..]);
      } else {
        FinishedStays(decode, v, actions[1..]);
      }
    }
  }

  /** The event grammar holds of a run exactly when all its chunks are quiet. */
  lemma {:induction false} GrammarOfRuns(decode: Decoder, actions: seq<Action>)
    ensures Judge(After(decode, actions).actor.events) != Broken <==> QuietRun(decode, NEW_WORLD, actions)
    ensures QuietRun(decode, NEW_WORLD, actions) ==>
      var a := After(decode, actions).actor; Judge(a.events) == Up <==> a.ready
  {
    GrammarFrom(decode, NEW_WORLD, actions);
  }

  /** As long as a connection is open every chunk of the run has been quiet. */
  lemma {:induction false} OpenMeansQuiet(decode: Decoder, actions: seq<Action>)
    requires After(decode, actions).actor.connection.Some?
    ensures QuietRun(decode, NEW_WORLD, actions) && Inv(After(decode, actions)) && GrammarInv(After(decode, actions))
  {
    RunKeepsInv(decode, NEW_WORLD, actions);
    GrammarFrom(decode, NEW_WORLD, actions);
  }

  lemma {:induction false} MismatchKills(events: seq<Event>, i: nat)
    requires i < |events| && events[i].ProtocolMismatch? && Judge(events) != Broken
    ensures Judge(events) == Dead && i == |events| - 1
    decreases |events|
  {
    var shorter := events[..|events| - 1];
    if i < |shorter| {
      MismatchKills(shorter, i);
    }
  }

  /** A run with a refused handshake among its events, quiet or not, has finished. */
  lemma {:induction false} MismatchFinishes(decode: Decoder, actions: seq<Action>, i: nat)
    requires i < |After(decode, actions).actor.events| && After(decode, actions).actor.events[i].ProtocolMismatch?
    ensures Inv(After(decode, actions)) && Finished(After(decode, actions))
  {
    RunKeepsInv(decode, NEW_WORLD, actions);
    GrammarFrom(decode, NEW_WORLD, actions);
    if QuietRun(decode, NEW_WORLD, actions) {
      MismatchKills(After(decode, actions).actor.events, i);
    }
  }

  /** From a refused handshake on, in every run: no event, no reconnect, no connection, whatever still arrives. */
  lemma {:induction false} MismatchIsFinal(decode: Decoder, actions: seq<Action>, later: seq<Action>, i: nat)
    requires i < |After(decode, actions).actor.events| && After(decode, actions).actor.events[i].ProtocolMismatch?
    ensures var a := After(decode, actions).actor; var b := After(decode, actions + later).actor;
      && b.events == a.events
      && |b.tasks| == |a.tasks| && (forall i :: 0 <= i < |b.tasks| ==> !Live(b.tasks[i]))
      && b.connection.None? && b.stopped
  {
    MismatchFinishes(decode, actions, i);
    RunAppend(decode, NEW_WORLD, actions, later);
    FinishedStays(decode, After(decode, actions), later);
  }

  /** Two hellos in one chunk break the grammar: the snapshot behind a refused hello is still emitted. */
  lemma {:induction false} TwoHellosInOneChunk(a: Actor, state: AppState)
    requires a.connection.Some? && !a.stopped && !a.handshakeDone && Judge(a.events) == Up
    ensures var chunk := [Hello(SUPPORTED_VERSION), Hello(SUPPORTED_VERSION + 1), Snapshot(state)];
      && !Quiet(false, chunk)
      && ProcessAll(a, chunk).events == a.events + [ProtocolMismatch(SUPPORTED_VERSION + 1), NewState(state)]
      && ProcessAll(a, chunk).stopped && ProcessAll(a, chunk).connection.None?
      && Judge(ProcessAll(a, chunk).events) == Broken
  {
    var chunk := [Hello(SUPPORTED_VERSION), Hello(SUPPORTED_VERSION + 1), Snapshot(state)];
    assert Accepted(chunk[..2][0]) && Refused(chunk[1]) && chunk[2].Snapshot?;
    var b := ProcessMessage(a, chunk[0]);
    var c := ProcessMessage(b, chunk[1]);
    assert chunk[1..][1..] == chunk[2..] && chunk[2..][1..] == [];
    assert ProcessAll(a, chunk) == ProcessAll(c, chunk[2..]) == ProcessMessage(c, chunk[2]);
    assert c.events + [NewState(state)] == a.events + [ProtocolMismatch(SUPPORTED_VERSION + 1), NewState(state)];
    LiveChunk(a, chunk);
  }
}
