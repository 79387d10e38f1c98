/** The tray's socket client: the actor's methods, each against its transition in TrayActor. */
module TrayClient {
  import opened Basics
  import opened Framing
  import opened Protocol
  import opened TrayActor
  import A = TrayActor
  import B = Backoff

  class SocketClient {
    const decode: Bytes -> Option<Message>
    var connection: Option<nat>
    var generation: nat
    var stopped: bool
    var ready: bool
    var handshakeDone: bool
    var lineBuffer: LineBuffer
    const backoff: B.Backoff
    var reconnectTask: Option<nat>
    var events: seq<Event>
    var dialled: set<nat>
    var receives: multiset<nat>
    var tasks: seq<Task>

    ghost predicate Valid()
      reads this, backoff
    {
      backoff.initial == INITIAL && backoff.cap == CAP
    }

    ghost function View(): Actor
      reads this, lineBuffer, backoff
    {
      Actor(connection, generation, stopped, ready, handshakeDone, lineBuffer.pending,
            backoff.current, reconnectTask, events, dialled, receives, tasks)
    }

    constructor (decode: Bytes -> Option<Message>)
      ensures Valid() && View() == NEW_ACTOR && this.decode == decode
      ensures fresh(lineBuffer) && fresh(backoff)
    {
      this.decode := decode;
      connection, generation, stopped, ready, handshakeDone := None, 0, false, false, false;
      lineBuffer := new LineBuffer();
      backoff := new B.Backoff(INITIAL, CAP);
      reconnectTask, events, dialled, receives, tasks := None, [], {}, multiset{}, [];
    }

    method Start()
      requires Valid()
      modifies this
      ensures Valid() && View() == A.Start(old(View()))
      ensures lineBuffer == old(lineBuffer) || fresh(lineBuffer)
    {
      stopped := false;
      Connect();
    }

    method Stop()
      requires Valid()
      modifies this
      ensures Valid() && View() == A.Stop(old(View()))
      ensures lineBuffer == old(lineBuffer)
    {
      stopped := true;
      CancelReconnect();
      reconnectTask := None;
      CloseConnection(true);
    }

    method Connect()
      requires Valid()
      modifies this
      ensures Valid() && View() == A.Connect(old(View()))
      ensures lineBuffer == old(lineBuffer) || fresh(lineBuffer)
    {
      if stopped {
        return;
      }
      handshakeDone := false;
      lineBuffer := new LineBuffer();
      generation := generation + 1;
      connection := Some(generation);
      dialled := dialled + {generation};
    }

    /** Task.cancel() on the task the actor still refers to. */
    method CancelReconnect()
      modifies this`tasks
      ensures tasks == CancelTask(old(tasks), reconnectTask)
    {
      if reconnectTask.Some? && reconnectTask.value < |tasks| && tasks[reconnectTask.value].phase.Sleeping? {
        var i := reconnectTask.value;
        tasks := tasks[i := tasks[i].(phase := Over)];
      }
    }

    method CloseConnection(emitDisconnected: bool)
      requires Valid()
      modifies this
      ensures Valid() && View() == A.CloseConnection(old(View()), emitDisconnected)
      ensures lineBuffer == old(lineBuffer)
    {
      generation := generation + 1;
      ready := false;
      if connection.None? {
        return;
      }
      connection := None;
      if emitDisconnected {
        events := events + [Disconnected];
      }
    }

    method ScheduleReconnect()
      requires Valid()
      modifies this, backoff
      ensures Valid() && View() == A.ScheduleReconnect(old(View()))
      ensures lineBuffer == old(lineBuffer)
    {
      if stopped {
        return;
      }
      CancelReconnect();
      var interval := backoff.Next();
      reconnectTask := Some(|tasks|);
      tasks := tasks + [Task(interval, Sleeping)];
    }

    method ReceiveNext(gen: nat)
      requires Valid()
      modifies this
      ensures Valid() && View() == A.ReceiveNext(old(View()), gen)
      ensures lineBuffer == old(lineBuffer)
    {
      if connection.Some? {
        receives := receives + multiset{gen};
      }
    }

    method HandleStateUpdate(state: NwState, gen: nat)
      requires Valid()
      modifies this, backoff
      ensures Valid() && View() == A.HandleStateUpdate(old(View()), state, gen)
      ensures lineBuffer == old(lineBuffer)
    {
      if gen != generation {
        return;
      }
      match state {
        case Ready =>
          backoff.Reset();
          ready := true;
          events := events + [Connected];
          ReceiveNext(gen);
        case Waiting =>
          CloseConnection(true);
          ScheduleReconnect();
        case Failed =>
          CloseConnection(true);
          ScheduleReconnect();
        case Cancelled =>
          CloseConnection(true);
          ScheduleReconnect();
        case Setup =>
        case Preparing =>
      }
    }

    method HandleReceive(data: Bytes, isComplete: bool, failed: bool, gen: nat)
      requires Valid()
      modifies this, lineBuffer, backoff
      ensures Valid() && lineBuffer == old(lineBuffer)
      ensures View() == A.HandleReceive(old(View()), decode, data, isComplete || failed, gen)
    {
      if gen != generation || stopped {
        return;
      }
      if data != [] {
        var lines := lineBuffer.Append(data);
        ghost var start := View();
        for i := 0 to |lines|
          invariant Valid() && lineBuffer == old(lineBuffer)
          invariant View() == ProcessAll(start, Decoded(decode, lines[..i]))
        {
          ghost var before := View();
          ProcessLine(lines[i]);
          assert lines[..i + 1] == lines[..i] + [lines[i]];
          DecodedAppend(decode, lines[..i], [lines[i]]);
          ProcessAllAppend(start, Decoded(decode, lines[..i]), Decoded(decode, [lines[i]]));
        }
        assert lines[..|lines|] == lines;
      }
      if isComplete || failed {
        CloseConnection(true);
        ScheduleReconnect();
        return;
      }
      if connection.None? {
        return;
      }
      ReceiveNext(gen);
    }

    method ProcessLine(line: Bytes)
      requires Valid()
      modifies this
      ensures Valid() && lineBuffer == old(lineBuffer)
      ensures View() == ProcessAll(old(View()), Decoded(decode, [line]))
    {
      if line == [] {
        return;
      }
      var message := decode(line);
      if message.None? {
        return;
      }
      assert Decoded(decode, [line]) == [message.value];
      assert ProcessAll(View(), [message.value]) == ProcessMessage(View(), message.value);
      match message.value {
        case Hello(version) =>
          if version != SUPPORTED_VERSION {
            events := events + [ProtocolMismatch(version)];
            stopped := true;
            CloseConnection(false);
            return;
          }
          handshakeDone := true;
        case Snapshot(state) =>
          if handshakeDone {
            events := events + [NewState(state)];
          }
        case Unknown =>
      }
    }

    /** The body of a reconnect task after its sleep; `i` is the task itself. */
    method TaskConnects(i: nat)
      requires Valid() && i < |tasks|
      modifies this
      ensures Valid() && View() == A.TaskConnects(old(View()), i)
      ensures lineBuffer == old(lineBuffer) || fresh(lineBuffer)
    {
      tasks := tasks[i := tasks[i].(phase := Over)];
      Connect();
    }
  }
}
