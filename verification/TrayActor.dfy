/**
  Transitions of the tray's socket client as functions. `Actor` is the value of everything the
  actor owns or has set in motion; class SocketClient of module TrayClient carries them out.
*/
module TrayActor {
  import opened Basics
  import opened Framing
  import opened Protocol
  import B = Backoff

  const INITIAL := 1.0
  const CAP := 10.0

  datatype Event =
    | Connected
    | Disconnected
    | ProtocolMismatch(daemonVersion: int)
    | NewState(state: AppState)

  /** Connection states reported by Network.framework. */
  datatype NwState = Setup | Preparing | Ready | Waiting | Failed | Cancelled

  /** A reconnect task: sleeping, past its cancellation check and waiting for the actor, or over. */
  datatype Phase = Sleeping | Waking | Over
  datatype Task = Task(delay: real, phase: Phase)

  datatype Actor = Actor(
    connection: Option<nat>,      // tag captured by the callbacks of the open connection
    generation: nat,
    stopped: bool,
    ready: bool,
    handshakeDone: bool,
    pending: Bytes,               // contents of the line buffer
    interval: real,               // current backoff interval
    reconnectTask: Option<nat>,   // index into tasks
    events: seq<Event>,           // everything yielded to the event stream
    dialled: set<nat>,             // tags of all connections ever opened
    receives: multiset<nat>,      // receive calls whose completion has not been handled yet
    tasks: seq<Task>)             // every reconnect task ever created

  const NEW_ACTOR := Actor(None, 0, false, false, false, [], INITIAL, None, [], {}, multiset{}, [])

  function Connect(a: Actor): Actor {
    if a.stopped then a else
      a.(handshakeDone := false, pending := [], generation := a.generation + 1,
         connection := Some(a.generation + 1), dialled := a.dialled + {a.generation + 1})
  }

  function CloseConnection(a: Actor, emitDisconnected: bool): Actor {
    a.(generation := a.generation + 1, ready := false, connection := None,
       events := if a.connection.Some? && emitDisconnected then a.events + [Disconnected] else a.events)
  }

  /** Cancelling reaches a task only while it sleeps. */
  function CancelTask(tasks: seq<Task>, i: Option<nat>): (r: seq<Task>)
    ensures |r| == |tasks|
  {
    if i.Some? && i.value < |tasks| && tasks[i.value].phase.Sleeping?
    then tasks[i.value := tasks[i.value].(phase := Over)]
    else tasks
  }

  function ScheduleReconnect(a: Actor): Actor {
    if a.stopped then a else
      a.(tasks := CancelTask(a.tasks, a.reconnectTask) + [Task(a.interval, Sleeping)],
         reconnectTask := Some(|a.tasks|),
         interval := B.Min(a.interval * 2.0, CAP))
  }

  function ReceiveNext(a: Actor, gen: nat): Actor {
    if a.connection.None? then a else a.(receives := a.receives + multiset{gen})
  }

  function Start(a: Actor): Actor {
    Connect(a.(stopped := false))
  }

  function Stop(a: Actor): Actor {
    CloseConnection(
      a.(stopped := true, tasks := CancelTask(a.tasks, a.reconnectTask), reconnectTask := None), true)
  }

  function HandleStateUpdate(a: Actor, state: NwState, gen: nat): Actor {
    if gen != a.generation then a else
    match state
    case Ready =>
      ReceiveNext(a.(interval := INITIAL, ready := true, events := a.events + [Connected]), gen)
    case Waiting => ScheduleReconnect(CloseConnection(a, true))
    case Failed => ScheduleReconnect(CloseConnection(a, true))
    case Cancelled => ScheduleReconnect(CloseConnection(a, true))
    case _ => a
  }

  function ProcessMessage(a: Actor, message: Message): Actor {
    match message
    case Hello(version) =>
      if version != SUPPORTED_VERSION then
        CloseConnection(a.(events := a.events + [ProtocolMismatch(version)], stopped := true), false)
      else
        a.(handshakeDone := true)
    case Snapshot(state) =>
      if a.handshakeDone then a.(events := a.events + [NewState(state)]) else a
    case Unknown => a
  }

  /** The messages that non-empty, decodable lines carry. */
  function Decoded(decode: Bytes -> Option<Message>, lines: seq<Bytes>): seq<Message> {
    if lines == [] then [] else
      (if lines[0] != [] && decode(lines[0]).Some? then [decode(lines[0]).value] else [])
      + Decoded(decode, lines[1..])
  }

  /** The receive loop runs through every message of a chunk, even after one closed the connection. */
  function ProcessAll(a: Actor, messages: seq<Message>): Actor
    decreases |messages|
  {
    if messages == [] then a else ProcessAll(ProcessMessage(a, messages[0]), messages[1..])
  }

  function Completed(decode: Bytes -> Option<Message>, pending: Bytes, data: Bytes): seq<Message> {
    Decoded(decode, Lines(pending + data))
  }

  /** The chunk part of a receive; `data` empty stands for both a missing and an empty buffer. */
  function ProcessChunk(a: Actor, decode: Bytes -> Option<Message>, data: Bytes): Actor {
    if data == [] then a else
      ProcessAll(a.(pending := Rest(a.pending + data)), Completed(decode, a.pending, data))
  }

  function HandleReceive(a: Actor, decode: Bytes -> Option<Message>, data: Bytes, ended: bool, gen: nat): Actor {
    if gen != a.generation || a.stopped then a else
      var b := ProcessChunk(a, decode, data);
      if ended then ScheduleReconnect(CloseConnection(b, true))
      else ReceiveNext(b, gen)
  }

  /** A reconnect task that has passed its cancellation check enters the actor. */
  function TaskConnects(a: Actor, i: nat): Actor
    requires i < |a.tasks|
  {
    Connect(a.(tasks := a.tasks[i := a.tasks[i].(phase := Over)]))
  }

  lemma {:induction false} DecodedAppend(decode: Bytes -> Option<Message>, a: seq<Bytes>, b: seq<Bytes>)
    ensures Decoded(decode, a + b) == Decoded(decode, a) + Decoded(decode, b)
  {
    if a == [] {
      assert a + b == b;
    } else {
      assert (a + b)[1..] == a[1..] + b;
      DecodedAppend(decode, a[1..], b);
    }
  }

  /** Callbacks of another connection change nothing, nor does a receive once the client has stopped. */
  lemma {:induction false} GuardedCallbacks(a: Actor, decode: Bytes -> Option<Message>, data: Bytes, ended: bool,
                                            state: NwState, gen: nat)
    ensures gen != a.generation || a.stopped ==> HandleReceive(a, decode, data, ended, gen) == a
    ensures gen != a.generation ==> HandleStateUpdate(a, state, gen) == a
  {
  }

  /** Empty and undecodable lines are passed over wherever they come. */
  lemma {:induction false} BadLinesAreIgnored(decode: Bytes -> Option<Message>, a: seq<Bytes>, line: Bytes,
                                              b: seq<Bytes>)
    requires line == [] || decode(line).None?
    ensures Decoded(decode, a + [line] + b) == Decoded(decode, a + b)
  {
    DecodedAppend(decode, a, b);
    DecodedAppend(decode, a + [line], b);
    DecodedAppend(decode, a, [line]);
    assert Decoded(decode, [line]) == Decoded(decode, [line][1..]);
  }

  lemma {:induction false} ProcessAllAppend(a: Actor, m: seq<Message>, n: seq<Message>)
    ensures ProcessAll(a, m + n) == ProcessAll(ProcessAll(a, m), n)
    decreases |m|
  {
    if m == [] {
      assert m + n == n;
    } else {
      assert (m + n)[1..] == m[1..] + n;
      ProcessAllAppend(ProcessMessage(a, m[0]), m[1..], n);
    }
  }
}
