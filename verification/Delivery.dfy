/**
  Daemon and tray together: the bytes the daemon has written to a connection in any of its runs,
  received by a tray client in any of its runs and cut into any chunks.
*/
module Delivery {
  import opened Basics
  import opened Framing
  import opened Protocol
  import A = TrayActor
  import T = TrayRuns
  import E = TrayEvents
  import S = TrayStream
  import V = TrayView
  import D = DaemonRuns
  import U = DaemonUi

  const DAEMON_VERSION := 1

  function MessageOf(log: seq<AppState>, line: D.Line): Message {
    match line
    case HelloLine => Hello(DAEMON_VERSION)
    case StateLine(i) => if i < |log| then Snapshot(log[i]) else Unknown
  }

  function MessagesOf(log: seq<AppState>, wire: seq<D.Line>): (r: seq<Message>)
    ensures |r| == |wire|
  {
    seq(|wire|, i requires 0 <= i < |wire| => MessageOf(log, wire[i]))
  }

  function Encoded(codec: Codec, messages: seq<Message>): (r: seq<Bytes>)
    ensures |r| == |messages|
  {
    seq(|messages|, i requires 0 <= i < |messages| => codec.encode(messages[i]))
  }

  /** The bytes on a connection. */
  function WireBytes(codec: Codec, log: seq<AppState>, wire: seq<D.Line>): Bytes {
    Frame(Encoded(codec, MessagesOf(log, wire)))
  }

  function States(log: seq<AppState>, seen: seq<nat>): seq<A.Event> {
    if seen == [] then [] else
      States(log, seen[..|seen| - 1])
      + if seen[|seen| - 1] < |log| then [A.NewState(log[seen[|seen| - 1]])] else []
  }

  lemma {:induction false} DecodedEncoded(codec: Codec, messages: seq<Message>)
    requires codec.Valid() && forall m :: m in messages ==> !m.Unknown?
    ensures A.Decoded(codec.decode, Encoded(codec, messages)) == messages
  {
    if messages != [] {
      assert messages[0] in messages;
      assert Encoded(codec, messages)[1..] == Encoded(codec, messages[1..]);
      assert forall m :: m in messages[1..] ==> m in messages;
      DecodedEncoded(codec, messages[1..]);
      assert messages == [messages[0]] + messages[1..];
    }
  }

  /** What a wire's messages make a client emit: its accepted snapshots, in order. */
  lemma {:induction false} EmittedFromWire(log: seq<AppState>, wire: seq<D.Line>)
    requires forall i :: 0 <= i < |wire| && wire[i].StateLine? ==> wire[i].index < |log|
    ensures E.Emitted(false, MessagesOf(log, wire)) == States(log, D.Accepted(wire))
    ensures E.Greeted(false, MessagesOf(log, wire)) <==> !D.NoHello(wire)
    ensures E.NoRefusal(MessagesOf(log, wire))
  {
    var messages := MessagesOf(log, wire);
    assert forall i :: 0 <= i < |wire| ==> (E.Accepted(messages[i]) <==> wire[i].HelloLine?) && !E.Refused(messages[i]);
    if wire != [] {
      var m := |wire| - 1;
      var shorter, last := wire[..m], wire[m];
      var head := MessagesOf(log, shorter);
      EmittedFromWire(log, shorter);
      assert messages == head + [MessageOf(log, last)];
      S.EmittedAppend(false, head, [MessageOf(log, last)]);
      assert E.Emitted(E.Greeted(false, head), [MessageOf(log, last)]) ==
        (if last.StateLine? && !D.NoHello(shorter) then [A.NewState(log[last.index])] else []) + [];
      if last.StateLine? && !D.NoHello(shorter) {
        assert (D.Accepted(shorter) + [last.index])[..|D.Accepted(shorter)|] == D.Accepted(shorter);
      }
    }
  }

  /** The lines completed by the first part of a connection's bytes carry a prefix of its messages. */
  lemma {:induction false} ReceivedMessages(codec: Codec, log: seq<AppState>, wire: seq<D.Line>, received: Bytes)
    requires codec.Valid() && received <= WireBytes(codec, log, wire)
    requires forall i :: 0 <= i < |wire| && wire[i].StateLine? ==> wire[i].index < |log|
    ensures var k := |Lines(received)|;
      k <= |wire| && A.Completed(codec.decode, [], received) == MessagesOf(log, wire[..k])
    ensures received == WireBytes(codec, log, wire) ==> |Lines(received)| == |wire|
  {
    var messages := MessagesOf(log, wire);
    var encoded := Encoded(codec, messages);
    assert forall i :: 0 <= i < |messages| ==> !messages[i].Unknown?;
    TruncatedStream(encoded, received);
    var k := |Lines(received)|;
    assert Lines(received) == encoded[..k] == Encoded(codec, MessagesOf(log, wire[..k]));
    DecodedEncoded(codec, MessagesOf(log, wire[..k]));
    assert [] + received == received;
    if received == WireBytes(codec, log, wire) {
      assert received == Frame(encoded) + [];
      SplitIsUnique(received, encoded, []);
    }
  }

  /** A wire of the daemon is quiet: it says hello once and with the supported version. */
  lemma {:induction false} WiresAreQuiet(log: seq<AppState>, wire: seq<D.Line>)
    requires forall i :: 0 <= i < |wire| && wire[i].StateLine? ==> wire[i].index < |log|
    ensures E.Quiet(false, MessagesOf(log, wire))
  {
    EmittedFromWire(log, wire);
    var messages := MessagesOf(log, wire);
    assert forall i :: 0 <= i < |messages| ==> messages[i] in messages;
  }

  /** The event that the reported end of a connection adds. */
  function Ending(ended: bool): seq<A.Event> {
    if ended then [A.Disconnected] else []
  }

  /**
    End to end: a tray whose connection becomes ready and receives, in whatever chunks and with
    whatever stale callbacks in between, the first part of what some run of the daemon wrote to that
    connection, emits exactly the accepted snapshots of the lines it has received completely. Each is
    a state the daemon had since it registered the connection; in order, if the daemon's run was
    serial. A last receive that also reports the end of the connection adds the disconnect.
  */
  lemma {:induction false} EndToEnd(codec: Codec, st: AppState, daemon: seq<D.Action>, c: U.Conn,
                                    tray: seq<T.Action>, served: seq<T.Action>, chunks: seq<Bytes>, ended: bool)
    requires codec.Valid() && S.Serves(T.After(codec.decode, tray).actor.generation, served, chunks, ended)
    requires var s := D.From(D.NewServer(st), daemon);
      c in s.wires && Flatten(chunks) <= WireBytes(codec, s.log, s.wires[c])
    requires var w := T.After(codec.decode, tray); w.actor.connection.Some? && w.actor.generation !in w.readied
    ensures var s := D.From(D.NewServer(st), daemon);
      var w := T.After(codec.decode, tray);
      var g := w.actor.generation;
      var k := |Lines(Flatten(chunks))|;
      k <= |s.wires[c]| && c in s.joined
      && (var seen := D.Accepted(s.wires[c][..k]);
          && T.From(codec.decode, w, [T.StateCallback(g, A.Ready)] + served).actor.events
               == w.actor.events + [A.Connected] + States(s.log, seen) + Ending(ended)
          && (forall n :: n in seen ==> s.joined[c] <= n < |s.log|)
          && (D.SerialRun(D.NewServer(st), daemon) ==> forall i, j :: 0 <= i < j < |seen| ==> seen[i] <= seen[j])
          && (Flatten(chunks) == WireBytes(codec, s.log, s.wires[c]) ==> seen == D.Accepted(s.wires[c])))
  {
    var s := D.From(D.NewServer(st), daemon);
    var w := T.After(codec.decode, tray);
    var g := w.actor.generation;
    var k := |Lines(Flatten(chunks))|;
    var wire := s.wires[c];
    D.RunKeepsInv(D.NewServer(st), daemon);
    assert D.WireOk(wire, s.joined[c], |s.log|);
    ReceivedMessages(codec, s.log, wire, Flatten(chunks));
    SeenFacts(st, daemon, c, k);
    ReadyThenReceives(codec.decode, tray, s.log, wire[..k], served, chunks, ended);
    if k == |wire| {
      assert wire[..k] == wire;
    }
  }

  lemma {:induction false} SeenFacts(st: AppState, daemon: seq<D.Action>, c: U.Conn, k: nat)
    requires var s := D.From(D.NewServer(st), daemon); c in s.wires && k <= |s.wires[c]|
    ensures var s := D.From(D.NewServer(st), daemon); var seen := D.Accepted(s.wires[c][..k]);
      && c in s.joined && (forall n :: n in seen ==> s.joined[c] <= n < |s.log|)
      && (D.SerialRun(D.NewServer(st), daemon) ==> forall i, j :: 0 <= i < j < |seen| ==> seen[i] <= seen[j])
  {
    var s := D.From(D.NewServer(st), daemon);
    var wire := s.wires[c];
    D.RunKeepsInv(D.NewServer(st), daemon);
    assert D.WireOk(wire, s.joined[c], |s.log|);
    forall n | n in D.Accepted(wire[..k])
      ensures s.joined[c] <= n < |s.log|
    {
      D.AcceptedMeaning(wire[..k], n);
    }
    if D.SerialRun(D.NewServer(st), daemon) {
      D.SerialFrom(D.NewServer(st), daemon);
      assert D.Ordered(wire[..k]);
      D.AcceptedOrdered(wire[..k]);
    }
  }

  lemma {:induction false} ReadyThenReceives(decode: T.Decoder, tray: seq<T.Action>, log: seq<AppState>,
                                             lines: seq<D.Line>, served: seq<T.Action>, chunks: seq<Bytes>,
                                             ended: bool)
    requires S.Serves(T.After(decode, tray).actor.generation, served, chunks, ended)
    requires var w := T.After(decode, tray); w.actor.connection.Some? && w.actor.generation !in w.readied
    requires forall i :: 0 <= i < |lines| && lines[i].StateLine? ==> lines[i].index < |log|
    requires A.Completed(decode, [], Flatten(chunks)) == MessagesOf(log, lines)
    ensures var w := T.After(decode, tray); var g := w.actor.generation;
      T.From(decode, w, [T.StateCallback(g, A.Ready)] + served).actor.events
        == w.actor.events + [A.Connected] + States(log, D.Accepted(lines)) + Ending(ended)
  {
    var w := T.After(decode, tray);
    var g := w.actor.generation;
    var ready := T.StateCallback(g, A.Ready);
    var v := T.Step(decode, w, ready);
    E.OpenMeansQuiet(decode, tray);
    T.StepKeepsInv(decode, w, ready);
    E.StepGrammar(decode, w, ready);
    assert ([ready] + served)[1..] == served;
    assert v.actor.ready && v.actor.pending == [] && !v.actor.handshakeDone && v.actor.generation == g;
    WiresAreQuiet(log, lines);
    EmittedFromWire(log, lines);
    S.ServedStream(decode, v, served, chunks, ended);
  }

  lemma ThreeSteps(decode: T.Decoder, w: T.World, a: T.Action, b: T.Action, c: T.Action)
    ensures T.From(decode, w, [a, b, c]) == T.Step(decode, T.Step(decode, T.Step(decode, w, a), b), c)
  {
    assert [a, b, c][1..] == [b, c] && [b, c][1..] == [c] && [c][1..] == [];
    var v := T.Step(decode, T.Step(decode, w, a), b);
    assert T.From(decode, v, [c]) == T.From(decode, T.Step(decode, v, c), []);
  }

  /** All messages framed in one chunk are completed by it. */
  lemma {:induction false} OneChunkCompletes(codec: Codec, messages: seq<Message>)
    requires codec.Valid() && messages != [] && forall m :: m in messages ==> !m.Unknown?
    ensures var data := Frame(Encoded(codec, messages));
      data != [] && A.Completed(codec.decode, [], data) == messages
  {
    var encoded := Encoded(codec, messages);
    var data := Frame(encoded);
    assert forall i :: 0 <= i < |messages| ==> messages[i] in messages;
    assert [] + data == data == data + [];
    SplitIsUnique(data, encoded, []);
    DecodedEncoded(codec, messages);
  }

  /** The first connection is ready. */
  lemma {:induction false} FirstReady(decode: T.Decoder)
    ensures var w := T.Step(decode, T.Step(decode, T.NEW_WORLD, T.Start), T.StateCallback(1, A.Ready));
      && w.actor.connection == Some(1) && w.actor.generation == 1 && !w.actor.stopped && !w.actor.handshakeDone
      && w.actor.receives == multiset{1} && w.actor.pending == [] && w.actor.events == [A.Connected]
      && E.Judge(w.actor.events) == E.Up
  {
    assert E.Judge([A.Connected]) == E.Follow(E.Judge([A.Connected][..0]), A.Connected);
  }

  /**
    A run that breaks the grammar: the first connection receives an accepted hello, a refused one and
    a snapshot in one chunk. The view says connected from then on, though the client has given up.
  */
  lemma {:induction false} TwoHellosRun(codec: Codec, state: AppState)
    requires codec.Valid()
    ensures var messages := [Hello(SUPPORTED_VERSION), Hello(SUPPORTED_VERSION + 1), Snapshot(state)];
      var data := Frame(Encoded(codec, messages));
      var a := T.After(codec.decode, [T.Start, T.StateCallback(1, A.Ready), T.ReceiveCallback(1, data, false)]).actor;
      && a.events == [A.Connected, A.ProtocolMismatch(SUPPORTED_VERSION + 1), A.NewState(state)]
      && a.stopped && a.connection.None? && E.Judge(a.events) == E.Broken
      && V.IsConnected(V.Show(a.events)) && V.ShowsExactly(V.Show(a.events), state)
  {
    var messages := [Hello(SUPPORTED_VERSION), Hello(SUPPORTED_VERSION + 1), Snapshot(state)];
    var data := Frame(Encoded(codec, messages));
    var w := T.Step(codec.decode, T.Step(codec.decode, T.NEW_WORLD, T.Start), T.StateCallback(1, A.Ready));
    ThreeSteps(codec.decode, T.NEW_WORLD, T.Start, T.StateCallback(1, A.Ready), T.ReceiveCallback(1, data, false));
    FirstReady(codec.decode);
    OneChunkCompletes(codec, messages);
    TwoHellosStep(codec.decode, w, data, state);
  }

  lemma {:induction false} TwoHellosStep(decode: T.Decoder, w: T.World, data: Bytes, state: AppState)
    requires w.actor.connection == Some(1) && w.actor.generation == 1 && !w.actor.stopped && !w.actor.handshakeDone
    requires w.actor.receives == multiset{1} && w.actor.pending == [] && data != []
    requires A.Completed(decode, [], data) == [Hello(SUPPORTED_VERSION), Hello(SUPPORTED_VERSION + 1), Snapshot(state)]
    requires E.Judge(w.actor.events) == E.Up
    ensures var a := T.Step(decode, w, T.ReceiveCallback(1, data, false)).actor;
      && a.events == w.actor.events + [A.ProtocolMismatch(SUPPORTED_VERSION + 1), A.NewState(state)]
      && a.stopped && a.connection.None? && E.Judge(a.events) == E.Broken
  {
    var r := w.actor.(receives := w.actor.receives - multiset{1}, pending := Rest([] + data));
    E.TwoHellosInOneChunk(r, state);
    assert r == w.actor.(receives := w.actor.receives - multiset{1}).(pending := Rest(w.actor.pending + data));
  }
}
