/**
  Notifications across reconnects: a tray that is connected to the daemon again and again, its
  notification manager living through all of it, fed with the tray's own events.
*/
module Sessions {
  import opened Basics
  import opened Framing
  import opened Protocol
  import opened DaemonUi
  import opened Notifications
  import opened NotifyDelivery
  import A = TrayActor
  import T = TrayRuns
  import E = TrayEvents
  import S = TrayStream
  import D = DaemonRuns
  import O = Overtaking
  import V = TrayView
  import W = Delivery

  /**
    One connection: what the daemon does since the previous one, up to the last byte received; what
    happens at the tray before the connection is ready; and the receives, with what comes in between.
  */
  datatype Session = Session(
    daemon: seq<D.Action>,
    conn: Conn,
    between: seq<T.Action>,
    served: seq<T.Action>,
    chunks: seq<Bytes>,
    ended: bool)             // the last receive also reports the end of the connection

  function DaemonRun(sessions: seq<Session>): seq<D.Action> {
    if sessions == [] then [] else DaemonRun(sessions[..|sessions| - 1]) + sessions[|sessions| - 1].daemon
  }

  function Daemon(st: AppState, sessions: seq<Session>): D.Server {
    D.From(D.NewServer(st), DaemonRun(sessions))
  }

  /** What happens at the tray until the last connection is about to be ready. */
  function TrayBefore(decode: T.Decoder, sessions: seq<Session>): seq<T.Action>
    requires sessions != []
    decreases |sessions|, 0
  {
    TrayRun(decode, sessions[..|sessions| - 1]) + sessions[|sessions| - 1].between
  }

  function TrayRun(decode: T.Decoder, sessions: seq<Session>): seq<T.Action>
    decreases |sessions|, 1
  {
    if sessions == [] then [] else
      var before := TrayBefore(decode, sessions);
      before + ([T.StateCallback(T.After(decode, before).actor.generation, A.Ready)] + sessions[|sessions| - 1].served)
  }

  /** The snapshots among the events, in order. */
  function Snapshots(events: seq<A.Event>): seq<AppState> {
    if events == [] then [] else
      var last := events[|events| - 1];
      Snapshots(events[..|events| - 1]) + if last.NewState? then [last.state] else []
  }

  /** Each connection is a new one and receives a first part of what the daemon has written to it by then. */
  predicate IsHistory(codec: Codec, st: AppState, sessions: seq<Session>) {
    sessions != [] ==>
      var n := |sessions| - 1;
      var x, s, t := sessions[n], Daemon(st, sessions[..n]), Daemon(st, sessions);
      var before := TrayBefore(codec.decode, sessions);
      var w := T.After(codec.decode, before);
      && IsHistory(codec, st, sessions[..n])
      && x.conn !in s.wires && x.conn in t.wires
      && Flatten(x.chunks) <= W.WireBytes(codec, t.log, t.wires[x.conn])
      && w.actor.connection.Some? && w.actor.generation !in w.readied
      && Snapshots(w.actor.events) ==
           Snapshots(T.After(codec.decode, TrayRun(codec.decode, sessions[..n])).actor.events)
      && S.Serves(w.actor.generation, x.served, x.chunks, x.ended)
  }

  /** The positions, in the daemon's log, of the snapshots accepted over all connections. */
  function Seen(st: AppState, sessions: seq<Session>): seq<nat> {
    if sessions == [] then [] else
      var x, t := sessions[|sessions| - 1], Daemon(st, sessions);
      Seen(st, sessions[..|sessions| - 1])
      + if x.conn in t.wires then D.Accepted(Prefix(t.wires[x.conn], |Lines(Flatten(x.chunks))|)) else []
  }

  function StatesAt(log: seq<AppState>, seen: seq<nat>): (r: seq<AppState>)
    requires Bounded(seen, |log|)
    ensures |r| == |seen|
  {
    seq(|seen|, i requires 0 <= i < |seen| => log[seen[i]])
  }

  // ---- the tray's events over all connections ----

  lemma {:induction false} SnapshotsAppend(a: seq<A.Event>, b: seq<A.Event>)
    ensures Snapshots(a + b) == Snapshots(a) + Snapshots(b)
    decreases |b|
  {
    if b == [] {
      assert a + b == a;
    } else {
      assert (a + b)[..|a + b| - 1] == a + b[..|b| - 1];
      SnapshotsAppend(a, b[..|b| - 1]);
    }
  }

  lemma {:induction false} SnapshotsOfStates(log: seq<AppState>, seen: seq<nat>)
    requires Bounded(seen, |log|)
    ensures Snapshots(W.States(log, seen)) == StatesAt(log, seen)
  {
    if seen != [] {
      var m := |seen| - 1;
      SnapshotsOfStates(log, seen[..m]);
      var last := [A.NewState(log[seen[m]])];
      SnapshotsAppend(W.States(log, seen[..m]), last);
      assert Snapshots(last[..0]) == [];
      assert StatesAt(log, seen) == StatesAt(log, seen[..m]) + [log[seen[m]]];
    }
  }

  lemma {:induction false} SerialPrefix(s: D.Server, a: seq<D.Action>, b: seq<D.Action>)
    requires D.SerialRun(s, a + b)
    ensures D.SerialRun(s, a)
    decreases |a|
  {
    if a != [] {
      assert (a + b)[1..] == a[1..] + b;
      SerialPrefix(D.Step(s, a[0]), a[1..], b);
    }
  }

  lemma {:induction false} StepRegisters(s: D.Server, action: D.Action, c: Conn)
    requires D.Inv(s) && c !in s.wires
    ensures var t := D.Step(s, action);
      D.Inv(t) && |s.log| <= |t.log| && (c in t.wires ==> c in t.joined && |s.log| - 1 <= t.joined[c])
  {
    D.StepKeepsInv(s, action);
    D.StepGrows(s, action);
  }

  /** A connection accepted in the course of a run is registered no earlier than the run begins. */
  lemma {:induction false} JoinsLater(s: D.Server, actions: seq<D.Action>, c: Conn)
    requires D.Inv(s) && c !in s.wires && c in D.From(s, actions).wires
    ensures var t := D.From(s, actions); c in t.joined && |s.log| - 1 <= t.joined[c]
    decreases |actions|
  {
    var t := D.Step(s, actions[0]);
    StepRegisters(s, actions[0], c);
    if c in t.wires {
      D.RunsGrow(t, actions[1..]);
    } else {
      JoinsLater(t, actions[1..], c);
    }
  }

  /** The snapshots of the last connection come after all earlier ones. */
  lemma {:induction false} LastSession(codec: Codec, st: AppState, sessions: seq<Session>)
    requires codec.Valid() && sessions != [] && IsHistory(codec, st, sessions)
    ensures var n := |sessions| - 1; var x, s, t := sessions[n], Daemon(st, sessions[..n]), Daemon(st, sessions);
      var wire := t.wires[x.conn]; var k := |Lines(Flatten(x.chunks))|;
      && k <= |wire| && s.log <= t.log && s.log != []
      && (forall i :: i in D.Accepted(wire[..k]) ==> |s.log| - 1 <= i < |t.log|)
      && (D.SerialRun(D.NewServer(st), DaemonRun(sessions)) ==> Sorted(D.Accepted(wire[..k])))
      && T.After(codec.decode, TrayRun(codec.decode, sessions)).actor.events ==
           T.After(codec.decode, TrayBefore(codec.decode, sessions)).actor.events
           + [A.Connected] + W.States(t.log, D.Accepted(wire[..k])) + W.Ending(x.ended)
  {
    var n := |sessions| - 1;
    var x, done := sessions[n], DaemonRun(sessions[..n]);
    var before := TrayBefore(codec.decode, sessions);
    var ready := T.StateCallback(T.After(codec.decode, before).actor.generation, A.Ready);
    D.RunAppend(D.NewServer(st), done, x.daemon);
    D.RunKeepsInv(D.NewServer(st), done);
    D.RunsGrow(Daemon(st, sessions[..n]), x.daemon);
    JoinsLater(Daemon(st, sessions[..n]), x.daemon, x.conn);
    W.EndToEnd(codec, st, DaemonRun(sessions), x.conn, before, x.served, x.chunks, x.ended);
    T.RunAppend(codec.decode, T.NEW_WORLD, before, [ready] + x.served);
  }

  lemma {:induction false} StatesAtAppend(log: seq<AppState>, longer: seq<AppState>, a: seq<nat>, b: seq<nat>)
    requires log <= longer && Bounded(a, |log|) && Bounded(b, |longer|)
    ensures Bounded(a + b, |longer|) && StatesAt(longer, a + b) == StatesAt(log, a) + StatesAt(longer, b)
  {
  }

  lemma {:induction false} InOrderAppend(a: seq<nat>, b: seq<nat>, low: nat)
    requires Sorted(a) && Sorted(b)
    requires (forall i :: 0 <= i < |a| ==> a[i] < low) && (forall i :: i in b ==> low - 1 <= i)
    ensures Sorted(a + b)
  {
    forall i, j | 0 <= i < j < |a + b|
      ensures (a + b)[i] <= (a + b)[j]
    {
      if |a| <= j {
        assert b[j - |a|] in b;
      }
    }
  }

  lemma {:induction false} SnapshotsThenEvent(events: seq<A.Event>, event: A.Event)
    requires !event.NewState?
    ensures Snapshots(events + [event]) == Snapshots(events)
  {
    assert (events + [event])[..|events|] == events;
  }

  lemma {:induction false} SnapshotsOfSession(before: seq<A.Event>, log: seq<AppState>, seen: seq<nat>, ended: bool)
    requires Bounded(seen, |log|)
    ensures Snapshots(before + [A.Connected] + W.States(log, seen) + W.Ending(ended)) ==
      Snapshots(before) + StatesAt(log, seen)
  {
    var connected := before + [A.Connected];
    var shown := connected + W.States(log, seen);
    SnapshotsThenEvent(before, A.Connected);
    SnapshotsAppend(connected, W.States(log, seen));
    SnapshotsOfStates(log, seen);
    if ended {
      SnapshotsThenEvent(shown, A.Disconnected);
    } else {
      assert shown + [] == shown;
    }
  }

  /**
    Over any number of connections the tray emits, snapshot by snapshot, states of the daemon's log,
    at non-decreasing positions if the daemon's run is serial.
  */
  lemma {:induction false} SnapshotsOfSessions(codec: Codec, st: AppState, sessions: seq<Session>)
    requires codec.Valid() && IsHistory(codec, st, sessions)
    ensures var log, seen := Daemon(st, sessions).log, Seen(st, sessions);
      && Bounded(seen, |log|)
      && (D.SerialRun(D.NewServer(st), DaemonRun(sessions)) ==> Sorted(seen))
      && Snapshots(T.After(codec.decode, TrayRun(codec.decode, sessions)).actor.events) == StatesAt(log, seen)
  {
    if sessions != [] {
      var n := |sessions| - 1;
      var x, s, t := sessions[n], Daemon(st, sessions[..n]), Daemon(st, sessions);
      SnapshotsOfSessions(codec, st, sessions[..n]);
      LastSession(codec, st, sessions);
      var earlier := Seen(st, sessions[..n]);
      var newer := D.Accepted(t.wires[x.conn][..|Lines(Flatten(x.chunks))|]);
      assert forall i :: 0 <= i < |newer| ==> newer[i] in newer;
      assert Seen(st, sessions) == earlier + newer;
      if D.SerialRun(D.NewServer(st), DaemonRun(sessions)) {
        SerialPrefix(D.NewServer(st), DaemonRun(sessions[..n]), x.daemon);
        InOrderAppend(earlier, newer, |s.log|);
      }
      StatesAtAppend(s.log, t.log, earlier, newer);
      SnapshotsOfSession(T.After(codec.decode, TrayBefore(codec.decode, sessions)).actor.events, t.log, newer, x.ended);
    }
  }

  // ---- the notification manager ----

  /** The manager fed with snapshots one after the other. */
  function HandleStates(states: seq<AppState>, posting: seq<bool>): Manager
    requires |states| == |posting|
  {
    if states == [] then NEW_MANAGER else
      var m := |states| - 1;
      Handle(HandleStates(states[..m], posting[..m]), states[m].recentFiles, posting[m])
  }

  lemma {:induction false} HandledAlike(log: seq<AppState>, seen: seq<nat>, posting: seq<bool>)
    requires Bounded(seen, |log|) && |seen| == |posting|
    ensures HandleStates(StatesAt(log, seen), posting) == HandleSnapshots(log, seen, posting)
  {
    if seen != [] {
      var m := |seen| - 1;
      HandledAlike(log, seen[..m], posting[..m]);
      assert StatesAt(log, seen)[..m] == StatesAt(log, seen[..m]);
    }
  }

  /**
    Both programs over any number of connections of any run: handling the snapshots among the tray's
    events, the manager posts exactly the files processed since the previous snapshot that the daemon
    still lists exactly if no posting update was overtaken -- reconnects neither repeat nor lose any --
    and posts nothing twice exactly if the ranges posted do not meet.
  */
  lemma {:induction false} NotificationsAcrossConnections(codec: Codec, st: AppState, sessions: seq<Session>,
                                                          posting: seq<bool>)
    requires codec.Valid() && st.recentFiles == [] && IsHistory(codec, st, sessions)
    requires DistinctFiles(FilesOf(Daemon(st, sessions).changes))
    requires |posting| == |Snapshots(T.After(codec.decode, TrayRun(codec.decode, sessions)).actor.events)|
    ensures var s, seen := Daemon(st, sessions), Seen(st, sessions);
      var states := Snapshots(T.After(codec.decode, TrayRun(codec.decode, sessions)).actor.events);
      && |seen| == |states| && Bounded(seen, |s.changes| + 1)
      && (var updates := UpdatesOf(s.changes, seen, posting);
          var posted := HandleStates(states, posting).posted;
          && Within(FilesOf(s.changes), updates)
          && (posted == Announced(FilesOf(s.changes), updates) <==> O.NoneOvertaken(updates))
          && (DistinctFiles(posted) <==> O.PostsOnce(updates)))
  {
    var s, seen := Daemon(st, sessions), Seen(st, sessions);
    D.RunKeepsInv(D.NewServer(st), DaemonRun(sessions));
    D.RunsGrow(D.NewServer(st), DaemonRun(sessions));
    SnapshotsOfSessions(codec, st, sessions);
    HandledAlike(s.log, seen, posting);
    assert s.log[0] == [st][0];
    SnapshotsAreUpdates(s.log, s.changes, seen, posting);
    O.PostedExactly(FilesOf(s.changes), UpdatesOf(s.changes, seen, posting));
    O.PostedOnceExactly(FilesOf(s.changes), UpdatesOf(s.changes, seen, posting));
  }

  /** In a serial run nothing is overtaken: all is announced, and nothing twice. */
  lemma {:induction false} NotificationsOfSerialSessions(codec: Codec, st: AppState, sessions: seq<Session>,
                                                         posting: seq<bool>)
    requires codec.Valid() && st.recentFiles == [] && IsHistory(codec, st, sessions)
    requires D.SerialRun(D.NewServer(st), DaemonRun(sessions)) && DistinctFiles(FilesOf(Daemon(st, sessions).changes))
    requires |posting| == |Snapshots(T.After(codec.decode, TrayRun(codec.decode, sessions)).actor.events)|
    ensures var s, seen := Daemon(st, sessions), Seen(st, sessions);
      var states := Snapshots(T.After(codec.decode, TrayRun(codec.decode, sessions)).actor.events);
      && |seen| == |states| && Bounded(seen, |s.changes| + 1)
      && (var updates := UpdatesOf(s.changes, seen, posting);
          && InOrder(FilesOf(s.changes), updates)
          && HandleStates(states, posting).posted == Announced(FilesOf(s.changes), updates)
          && DistinctFiles(HandleStates(states, posting).posted))
  {
    var s, seen := Daemon(st, sessions), Seen(st, sessions);
    NotificationsAcrossConnections(codec, st, sessions, posting);
    SnapshotsOfSessions(codec, st, sessions);
    OrderedUpdates(s.changes, seen, posting);
    var updates := UpdatesOf(s.changes, seen, posting);
    assert O.NoneOvertaken(updates);
    PostedIsAnnounced(FilesOf(s.changes), updates);
    AnnouncedDistinct(FilesOf(s.changes), updates);
  }

  // ---- a history with a reconnect ----

  /** The end of a ready connection, reported with its last chunk. */
  lemma {:induction false} EndsReady(decode: T.Decoder, w: T.World, data: Bytes)
    requires T.Inv(w) && w.actor.ready && data != []
    requires E.NoRefusal(A.Completed(decode, w.actor.pending, data))
    ensures var v := T.Step(decode, w, T.ReceiveCallback(w.actor.generation, data, true));
      && T.Inv(v) && v.actor.connection.None? && !v.actor.stopped && v.actor.generation == w.actor.generation + 1
      && |v.actor.tasks| == |w.actor.tasks| + 1 && v.actor.tasks[|w.actor.tasks|].phase.Sleeping?
  {
    var a := w.actor;
    var c := a.(receives := a.receives - multiset{a.generation}, pending := Rest(a.pending + data));
    var messages := A.Completed(decode, a.pending, data);
    V.ViewAfterChunk(c, messages);
    T.ProcessAllEffect(c, messages);
    T.StepKeepsInv(decode, w, T.ReceiveCallback(a.generation, data, true));
  }

  /** The reconnect: the task wakes and opens a new connection. */
  lemma {:induction false} Reopens(decode: T.Decoder, v: T.World, n: nat)
    requires T.Inv(v) && v.actor.connection.None? && !v.actor.stopped
    requires |v.actor.tasks| == n + 1 && v.actor.tasks[n].phase.Sleeping?
    ensures var u := T.Step(decode, T.Step(decode, v, T.TaskWakes(n)), T.TaskConnects(n));
      && u.actor.connection == Some(v.actor.generation + 1) && u.actor.generation == v.actor.generation + 1
      && u.actor.generation !in u.readied && u.actor.events == v.actor.events
  {
  }

  const GREETED := [D.HelloLine, D.StateLine(0)]

  function GreetingBytes(codec: Codec, st: AppState): Bytes {
    W.WireBytes(codec, [st], GREETED)
  }

  /** A first connection that is greeted and then ends with the same receive; a second one that is greeted. */
  function TwoSessions(codec: Codec, st: AppState): seq<Session> {
    var data := GreetingBytes(codec, st);
    [Session(D.GREET, 0, [T.Start], [T.ReceiveCallback(1, data, true)], [data], true),
     Session([D.HangUp(0), D.Accept(1), D.TakeSnapshot, D.SendHello(true), D.SendState(true)], 1,
             [T.TaskWakes(0), T.TaskConnects(0)], [T.ReceiveCallback(3, data, false)], [data], false)]
  }

  lemma {:induction false} SecondGreeting(st: AppState)
    ensures var run := [D.HangUp(0), D.Accept(1), D.TakeSnapshot, D.SendHello(true), D.SendState(true)];
      var t := D.From(D.OneClient(st), run);
      t.log == [st] && 1 in t.wires && t.wires[1] == GREETED
  {
    var s := D.Step(D.OneClient(st), D.HangUp(0));
    var rest := [D.Accept(1), D.TakeSnapshot, D.SendHello(true), D.SendState(true)];
    assert ([D.HangUp(0)] + rest)[1..] == rest;
    assert [D.HangUp(0)] + rest == [D.HangUp(0), D.Accept(1), D.TakeSnapshot, D.SendHello(true), D.SendState(true)];
    D.FourSteps(s, rest[0], rest[1], rest[2], rest[3]);
    assert D.Step(D.Step(s, rest[0]), rest[1]).wires[1] == [];
    assert D.From(s, rest).wires[1] == [] + [D.HelloLine] + [D.StateLine(0)] == GREETED;
  }

  /** One more connection. */
  lemma {:induction false} Extends(codec: Codec, st: AppState, sessions: seq<Session>, x: Session)
    requires IsHistory(codec, st, sessions)
    requires var s := Daemon(st, sessions); var t := D.From(s, x.daemon);
      && x.conn !in s.wires && x.conn in t.wires
      && Flatten(x.chunks) <= W.WireBytes(codec, t.log, t.wires[x.conn])
    requires var tray := TrayRun(codec.decode, sessions);
      var w := T.After(codec.decode, tray + x.between);
      && w.actor.connection.Some? && w.actor.generation !in w.readied
      && w.actor.events == T.After(codec.decode, tray).actor.events
      && S.Serves(w.actor.generation, x.served, x.chunks, x.ended)
    ensures var longer := sessions + [x]; var before := TrayRun(codec.decode, sessions) + x.between;
      && IsHistory(codec, st, longer) && Daemon(st, longer) == D.From(Daemon(st, sessions), x.daemon)
      && TrayRun(codec.decode, longer) ==
           before + ([T.StateCallback(T.After(codec.decode, before).actor.generation, A.Ready)] + x.served)
  {
    var longer := sessions + [x];
    assert longer[..|longer| - 1] == sessions && longer[|longer| - 1] == x;
    D.RunAppend(D.NewServer(st), DaemonRun(sessions), x.daemon);
  }

  lemma {:induction false} OneChunkServed(gen: nat, data: Bytes, ended: bool)
    ensures S.Serves(gen, [T.ReceiveCallback(gen, data, ended)], [data], ended) && Flatten([data]) == data
  {
    var callback := T.ReceiveCallback(gen, data, false);
    assert [callback][1..] == [] && [data][1..] == [];
    assert S.Delivers(gen, [callback], [data]);
    assert [T.ReceiveCallback(gen, data, ended)][..0] + [callback] == [callback];
    assert Flatten([data]) == data + Flatten([]);
  }

  lemma {:induction false} FirstSession(codec: Codec, st: AppState)
    requires codec.Valid()
    ensures var sessions := [] + [TwoSessions(codec, st)[0]];
      && IsHistory(codec, st, sessions) && Daemon(st, sessions) == D.OneClient(st)
      && TrayRun(codec.decode, sessions) == FirstTrayRun(GreetingBytes(codec, st))
  {
    var w := T.Step(codec.decode, T.NEW_WORLD, T.Start);
    assert [] + [T.Start] == [T.Start] && [T.Start][1..] == [];
    assert T.After(codec.decode, [T.Start]) == T.From(codec.decode, w, []) == w;
    assert T.After(codec.decode, []) == T.NEW_WORLD;
    D.GreetFirstClient(st);
    OneChunkServed(1, GreetingBytes(codec, st), true);
    Extends(codec, st, [], TwoSessions(codec, st)[0]);
  }

  lemma TwoSteps(decode: T.Decoder, w: T.World, a: T.Action, b: T.Action)
    ensures T.From(decode, w, [a, b]) == T.Step(decode, T.Step(decode, w, a), b)
  {
    var v := T.Step(decode, w, a);
    assert [a, b][1..] == [b] && [b][1..] == [];
    assert T.From(decode, v, [b]) == T.From(decode, T.Step(decode, v, b), []);
  }

  function FirstTrayRun(data: Bytes): seq<T.Action> {
    [T.Start, T.StateCallback(1, A.Ready), T.ReceiveCallback(1, data, true)]
  }

  /** The tray after the greeting and the end of its first connection. */
  lemma {:induction false} FirstTrayWorld(codec: Codec, st: AppState)
    requires codec.Valid()
    ensures var v := T.After(codec.decode, FirstTrayRun(GreetingBytes(codec, st)));
      && T.Inv(v) && v.actor.connection.None? && !v.actor.stopped && v.actor.generation == 2
      && |v.actor.tasks| == 1 && v.actor.tasks[0].phase.Sleeping?
  {
    var decode, run := codec.decode, FirstTrayRun(GreetingBytes(codec, st));
    W.ThreeSteps(decode, T.NEW_WORLD, run[0], run[1], run[2]);
    W.FirstReady(decode);
    GreetingCompletes(codec, st);
    var started := T.Step(decode, T.NEW_WORLD, run[0]);
    T.StepKeepsInv(decode, T.NEW_WORLD, run[0]);
    T.StepKeepsInv(decode, started, run[1]);
    EndsReady(decode, T.Step(decode, started, run[1]), GreetingBytes(codec, st));
  }

  /** What the tray does until its second connection is about to be ready. */
  lemma {:induction false} AfterFirstSession(codec: Codec, st: AppState)
    requires codec.Valid()
    ensures var decode, run := codec.decode, FirstTrayRun(GreetingBytes(codec, st));
      var w := T.After(decode, run + [T.TaskWakes(0), T.TaskConnects(0)]);
      && w.actor.connection == Some(3) && w.actor.generation == 3 && 3 !in w.readied
      && w.actor.events == T.After(decode, run).actor.events
  {
    var decode, run := codec.decode, FirstTrayRun(GreetingBytes(codec, st));
    FirstTrayWorld(codec, st);
    Reopens(decode, T.After(decode, run), 0);
    TwoSteps(decode, T.After(decode, run), T.TaskWakes(0), T.TaskConnects(0));
    T.RunAppend(decode, T.NEW_WORLD, run, [T.TaskWakes(0), T.TaskConnects(0)]);
  }

  lemma {:induction false} GreetingCompletes(codec: Codec, st: AppState)
    requires codec.Valid()
    ensures GreetingBytes(codec, st) != []
    ensures E.NoRefusal(A.Completed(codec.decode, [], GreetingBytes(codec, st)))
  {
    var messages := W.MessagesOf([st], GREETED);
    assert messages == [Hello(SUPPORTED_VERSION), Snapshot(st)];
    W.OneChunkCompletes(codec, messages);
  }

  /** Histories with a reconnect exist, the first connection's end being reported along with its data. */
  lemma {:induction false} TwoSessionsAreHistory(codec: Codec, st: AppState)
    requires codec.Valid()
    ensures IsHistory(codec, st, TwoSessions(codec, st)) && TwoSessions(codec, st)[0].ended
  {
    var sessions := TwoSessions(codec, st);
    FirstSession(codec, st);
    AfterFirstSession(codec, st);
    SecondGreeting(st);
    OneChunkServed(3, GreetingBytes(codec, st), false);
    Extends(codec, st, [] + [sessions[0]], sessions[1]);
    assert [] + [sessions[0]] + [sessions[1]] == sessions;
  }
}
