/**
  Whole runs of the tray client: one start, any number of stops, reconnect tasks that wake at
  arbitrary times, and connection callbacks that arrive late, in any order and more than once.
  An action that cannot happen in the current state leaves it unchanged, so every sequence of
  actions is a run.
*/
module TrayRuns {
  import opened Basics
  import opened Framing
  import opened Protocol
  import opened TrayActor
  import A = TrayActor
  import B = Backoff

  datatype Action =
    | Start
    | Stop
    | StateCallback(gen: nat, state: NwState)
    | ReceiveCallback(gen: nat, data: Bytes, ended: bool)
    | TaskWakes(task: nat)
    | TaskConnects(task: nat)

  datatype World = World(
    actor: Actor,
    started: bool,
    readied: set<nat>,   // connections that have reported .ready
    since: nat)          // number of reconnect tasks created before the last .ready

  const NEW_WORLD := World(A.NEW_ACTOR, false, {}, 0)

  type Decoder = Bytes -> Option<Message>

  function Step(decode: Decoder, w: World, action: Action): World {
    var a := w.actor;
    match action
    case Start =>
      if w.started then w else w.(started := true, actor := A.Start(a))
    case Stop =>
      w.(actor := A.Stop(a))
    case StateCallback(gen, state) =>
      // any connection ever opened may still report; .ready comes once per connection
      if gen !in a.dialled || (state.Ready? && gen in w.readied) then w else
        w.(actor := HandleStateUpdate(a, state, gen),
           readied := if state.Ready? then w.readied + {gen} else w.readied,
           since := if state.Ready? && gen == a.generation then |a.tasks| else w.since)
    case ReceiveCallback(gen, data, ended) =>
      if gen !in a.receives then w else
        w.(actor := HandleReceive(a.(receives := a.receives - multiset{gen}), decode, data, ended, gen))
    case TaskWakes(i) =>
      if i < |a.tasks| && a.tasks[i].phase.Sleeping?
      then w.(actor := a.(tasks := a.tasks[i := a.tasks[i].(phase := Waking)]))
      else w
    case TaskConnects(i) =>
      if i < |a.tasks| && a.tasks[i].phase.Waking?
      then w.(actor := A.TaskConnects(a, i))
      else w
  }

  /** The state after a list of actions, from any state. */
  function From(decode: Decoder, w: World, actions: seq<Action>): World
    decreases |actions|
  {
    if actions == [] then w else From(decode, Step(decode, w, actions[0]), actions[1..])
  }

  function After(decode: Decoder, actions: seq<Action>): World {
    From(decode, NEW_WORLD, actions)
  }

  // ---- the invariant ----

  predicate Live(t: Task) {
    !t.phase.Over?
  }

  ghost predicate ConnectionInv(a: Actor) {
    && (forall g :: g in a.dialled ==> g <= a.generation)
    && (a.generation in a.dialled <==> a.connection.Some?)
    && (a.connection.Some? ==> a.connection.value == a.generation && !a.stopped)
    && NewlineFree(a.pending)
  }

  ghost predicate ReceiveInv(w: World) {
    && w.readied <= w.actor.dialled
    && (w.actor.ready <==> w.actor.connection.Some? && w.actor.generation in w.readied)
    && (forall g :: g in w.actor.receives ==> g in w.readied && w.actor.receives[g] == 1)
    && (w.actor.ready ==> w.actor.generation in w.actor.receives)
    && (w.actor.connection.Some? && !w.actor.ready ==> w.actor.pending == [] && !w.actor.handshakeDone)
  }

  ghost predicate TaskInv(a: Actor) {
    && (forall i :: 0 <= i < |a.tasks| && Live(a.tasks[i]) ==> i == |a.tasks| - 1 && a.connection.None?)
    && (forall i :: 0 <= i < |a.tasks| && a.tasks[i].phase.Sleeping? ==> a.reconnectTask == Some(i) && !a.stopped)
    && (a.reconnectTask.Some? ==> a.reconnectTask.value < |a.tasks|)
  }

  ghost predicate StartInv(w: World) {
    !w.started ==> w.actor.connection.None? && w.actor.dialled == {} && w.actor.tasks == []
  }

  ghost predicate BackoffInv(w: World) {
    && w.since <= |w.actor.tasks|
    && (forall i :: w.since <= i < |w.actor.tasks| ==>
          w.actor.tasks[i].delay == B.Delay(INITIAL, CAP, i - w.since))
    && w.actor.interval == B.Delay(INITIAL, CAP, |w.actor.tasks| - w.since)
  }

  ghost predicate Inv(w: World) {
    ConnectionInv(w.actor) && ReceiveInv(w) && TaskInv(w.actor) && StartInv(w) && BackoffInv(w)
  }

  /** What processing messages may do to the actor: leave the connection alone, or close it for good. */
  ghost predicate ChunkEffect(a: Actor, b: Actor) {
    && b.interval == a.interval && b.reconnectTask == a.reconnectTask
    && b.dialled == a.dialled && b.receives == a.receives && b.tasks == a.tasks
    && a.events <= b.events
    && (NewlineFree(a.pending) ==> NewlineFree(b.pending))
    && (if b.stopped == a.stopped && b.generation == a.generation
        then b.connection == a.connection && b.ready == a.ready
        else b.generation > a.generation && b.connection.None? && b.stopped && !b.ready)
  }

  lemma {:induction false} ProcessAllEffect(a: Actor, messages: seq<Message>)
    requires a.stopped ==> a.connection.None? && !a.ready
    ensures ChunkEffect(a, ProcessAll(a, messages)) && ProcessAll(a, messages).pending == a.pending
    decreases |messages|
  {
    if messages != [] {
      ProcessAllEffect(ProcessMessage(a, messages[0]), messages[1..]);
    }
  }

  lemma {:induction false} ProcessChunkEffect(a: Actor, decode: Decoder, data: Bytes)
    requires a.stopped ==> a.connection.None? && !a.ready
    ensures ChunkEffect(a, ProcessChunk(a, decode, data))
  {
    SplitIsFaithful(a.pending + data);
    ProcessAllEffect(a.(pending := Rest(a.pending + data)), Completed(decode, a.pending, data));
  }

  lemma {:induction false} DisconnectKeepsInv(w: World)
    requires Inv(w) && w.actor.connection.Some?
    ensures Inv(w.(actor := ScheduleReconnect(CloseConnection(w.actor, true))))
  {
    B.DelayStep(INITIAL, CAP, |w.actor.tasks| - w.since);
  }

  /** `b` is the actor after the chunk of the receive completion of the open connection. */
  lemma {:induction false} ReceiveEndKeepsInv(w: World, b: Actor, ended: bool)
    requires Inv(w) && w.actor.ready
    requires ChunkEffect(w.actor.(receives := w.actor.receives - multiset{w.actor.generation}), b)
    ensures Inv(w.(actor :=
      if ended then ScheduleReconnect(CloseConnection(b, true)) else ReceiveNext(b, w.actor.generation)))
  {
    if ended && b.connection.Some? {
      B.DelayStep(INITIAL, CAP, |w.actor.tasks| - w.since);
    }
  }

  lemma {:induction false} ReceiveKeepsInv(decode: Decoder, w: World, gen: nat, data: Bytes, ended: bool)
    requires Inv(w)
    ensures Inv(Step(decode, w, ReceiveCallback(gen, data, ended)))
  {
    var a := w.actor;
    if gen in a.receives && gen == a.generation && !a.stopped {
      var r := a.(receives := a.receives - multiset{gen});
      ProcessChunkEffect(r, decode, data);
      ReceiveEndKeepsInv(w, ProcessChunk(r, decode, data), ended);
    }
  }

  lemma {:induction false} StateKeepsInv(decode: Decoder, w: World, gen: nat, state: NwState)
    requires Inv(w)
    ensures Inv(Step(decode, w, StateCallback(gen, state)))
  {
    if gen == w.actor.generation && gen in w.actor.dialled && !state.Ready? {
      DisconnectKeepsInv(w);
    }
  }

  lemma {:induction false} TaskKeepsInv(decode: Decoder, w: World, action: Action)
    requires Inv(w) && (action.TaskWakes? || action.TaskConnects?)
    ensures Inv(Step(decode, w, action))
  {
  }

  lemma {:induction false} StartKeepsInv(decode: Decoder, w: World)
    requires Inv(w)
    ensures Inv(Step(decode, w, Action.Start))
  {
  }

  lemma {:induction false} StopKeepsInv(decode: Decoder, w: World)
    requires Inv(w)
    ensures Inv(Step(decode, w, Action.Stop))
  {
  }

  lemma {:induction false} StepKeepsInv(decode: Decoder, w: World, action: Action)
    requires Inv(w)
    ensures Inv(Step(decode, w, action))
  {
    if action.StateCallback? {
      StateKeepsInv(decode, w, action.gen, action.state);
    } else if action.ReceiveCallback? {
      ReceiveKeepsInv(decode, w, action.gen, action.data, action.ended);
    } else if action.Start? {
      StartKeepsInv(decode, w);
    } else if action.Stop? {
      StopKeepsInv(decode, w);
    } else {
      TaskKeepsInv(decode, w, action);
    }
  }

  lemma {:induction false} RunKeepsInv(decode: Decoder, w: World, actions: seq<Action>)
    requires Inv(w)
    ensures Inv(From(decode, w, actions))
    decreases |actions|
  {
    if actions != [] {
      StepKeepsInv(decode, w, actions[0]);
      RunKeepsInv(decode, Step(decode, w, actions[0]), actions[1..]);
    }
  }

  lemma {:induction false} RunAppend(decode: Decoder, w: World, a: seq<Action>, b: seq<Action>)
    ensures From(decode, w, a + b) == From(decode, From(decode, w, a), b)
    decreases |a|
  {
    if a == [] {
      assert a + b == b;
    } else {
      assert (a + b)[1..] == a[1..] + b;
      RunAppend(decode, Step(decode, w, a[0]), a[1..], b);
    }
  }

  // ---- what every run keeps ----

  /**
    No callback in flight is newer than the actor's generation; one that still counts exists only
    while a connection is open; per connection at most one receive is outstanding.
  */
  lemma {:induction false} GenerationSafety(decode: Decoder, actions: seq<Action>)
    ensures var a := After(decode, actions).actor;
      && (forall g :: g in a.dialled || g in a.receives ==>
            g <= a.generation && a.receives[g] <= 1 && (g == a.generation ==> a.connection == Some(g)))
      && (a.connection.Some? ==> a.generation in a.dialled)
      && (a.ready ==> a.connection.Some? && a.generation in a.receives)
  {
    RunKeepsInv(decode, NEW_WORLD, actions);
  }

  /** At most one reconnect is pending, and never while a connection is open. */
  lemma {:induction false} OneReconnect(decode: Decoder, actions: seq<Action>)
    ensures var a := After(decode, actions).actor;
      && (forall i, j :: 0 <= i < |a.tasks| && 0 <= j < |a.tasks| && Live(a.tasks[i]) && Live(a.tasks[j]) ==> i == j)
      && (forall i :: 0 <= i < |a.tasks| && Live(a.tasks[i]) ==> a.connection.None?)
  {
    RunKeepsInv(decode, NEW_WORLD, actions);
  }

  /** The k-th reconnect since the last .ready waits min(2^k, 10) seconds, counting from zero. */
  lemma {:induction false} BackoffOverRuns(decode: Decoder, actions: seq<Action>)
    ensures var w := After(decode, actions); var tasks := w.actor.tasks;
      && w.since <= |tasks|
      && (forall i :: w.since <= i < |tasks| ==>
            tasks[i].delay == if i == w.since then 1.0 else B.Min(B.Pow2(i - w.since), 10.0))
      && (forall i, j :: w.since <= i <= j < |tasks| ==> 1.0 <= tasks[i].delay <= tasks[j].delay <= 10.0)
  {
    RunKeepsInv(decode, NEW_WORLD, actions);
    var w := After(decode, actions);
    forall i, j | w.since <= i <= j < |w.actor.tasks|
      ensures 1.0 <= w.actor.tasks[i].delay <= w.actor.tasks[j].delay <= 10.0
    {
      B.DelayMonotone(INITIAL, CAP, i - w.since, j - w.since);
    }
  }

  lemma {:induction false} StoppedStays(decode: Decoder, w: World, later: seq<Action>)
    requires Inv(w) && w.started && w.actor.stopped && w.actor.connection.None?
    ensures var b := From(decode, w, later).actor;
      && b.events == w.actor.events && b.dialled == w.actor.dialled && |b.tasks| == |w.actor.tasks|
      && b.connection.None? && b.stopped
    decreases |later|
  {
    if later != [] {
      var v := Step(decode, w, later[0]);
      StepKeepsInv(decode, w, later[0]);
      assert v.actor.events == w.actor.events && v.actor.dialled == w.actor.dialled;
      StoppedStays(decode, v, later[1..]);
    }
  }

  /**
    A stop is final: it reports the end of an open connection, and whatever still arrives or wakes
    up, nothing is ever reported, dialled or scheduled again.
  */
  lemma {:induction false} StopIsFinal(decode: Decoder, actions: seq<Action>, later: seq<Action>)
    requires After(decode, actions).started
    ensures var a := After(decode, actions).actor;
      var b := After(decode, actions + [Action.Stop] + later).actor;
      && b.events == a.events + (if a.connection.Some? then [Disconnected] else [])
      && b.dialled == a.dialled && |b.tasks| == |a.tasks|
      && b.connection.None? && b.stopped
  {
    var w := After(decode, actions);
    RunKeepsInv(decode, NEW_WORLD, actions);
    StepKeepsInv(decode, w, Action.Stop);
    RunAppend(decode, NEW_WORLD, actions, [Action.Stop]);
    RunAppend(decode, NEW_WORLD, actions + [Action.Stop], later);
    assert From(decode, w, [Action.Stop]) == Step(decode, w, Action.Stop);
    StoppedStays(decode, Step(decode, w, Action.Stop), later);
  }

  predicate IsCallback(action: Action) {
    action.StateCallback? || action.ReceiveCallback?
  }

  /** A callback that reports the end of the connection tagged `gen`, when it can be delivered. */
  predicate EndsConnection(w: World, action: Action, gen: nat) {
    match action
    case StateCallback(g, state) => g == gen && (state.Waiting? || state.Failed? || state.Cancelled?)
    case ReceiveCallback(g, _, ended) => g == gen && ended && g in w.actor.receives
    case _ => false
  }

  /** Callbacks of superseded connections change nothing but the set of outstanding receives. */
  lemma {:induction false} StaleCallbacksChangeNothing(decode: Decoder, w: World, later: seq<Action>)
    requires forall c :: c in later ==> IsCallback(c) && c.gen < w.actor.generation
    ensures var v := From(decode, w, later);
      v.actor == w.actor.(receives := v.actor.receives) && v.since == w.since
    decreases |later|
  {
    if later != [] {
      assert later[0] in later;
      assert forall c :: c in later[1..] ==> c in later;
      StaleCallbacksChangeNothing(decode, Step(decode, w, later[0]), later[1..]);
    }
  }

  /**
    One disconnect, however many callbacks report it: the first closes the connection and schedules
    one reconnect with the current interval (unless a refused handshake ended the client for good);
    all further callbacks of this or earlier connections have no effect.
  */
  lemma {:induction false} OneDisconnect(decode: Decoder, actions: seq<Action>, first: Action, later: seq<Action>)
    requires var w := After(decode, actions);
      w.actor.connection.Some? && EndsConnection(w, first, w.actor.generation)
    requires forall c :: c in later ==> IsCallback(c) && c.gen <= After(decode, actions).actor.generation
    ensures var w := After(decode, actions);
      var once := After(decode, actions + [first]);
      var all := After(decode, actions + [first] + later);
      && once.actor.connection.None?
      && (first.StateCallback? ==> once.actor.events == w.actor.events + [Disconnected] && !once.actor.stopped)
      && once.actor.tasks == (if once.actor.stopped then w.actor.tasks
                              else w.actor.tasks + [Task(w.actor.interval, Sleeping)])
      && once.actor.interval == (if once.actor.stopped then w.actor.interval
                                 else B.Min(w.actor.interval * 2.0, CAP))
      && all.actor == once.actor.(receives := all.actor.receives)
  {
    var w := After(decode, actions);
    var once := Step(decode, w, first);
    RunKeepsInv(decode, NEW_WORLD, actions);
    RunAppend(decode, NEW_WORLD, actions, [first]);
    RunAppend(decode, NEW_WORLD, actions + [first], later);
    assert From(decode, w, [first]) == once;
    FirstReport(decode, w, first);
    StaleCallbacksChangeNothing(decode, once, later);
  }

  lemma {:induction false} FirstReport(decode: Decoder, w: World, first: Action)
    requires Inv(w) && w.actor.connection.Some? && EndsConnection(w, first, w.actor.generation)
    ensures var once := Step(decode, w, first);
      && once.actor.connection.None? && once.actor.generation > w.actor.generation
      && (first.StateCallback? ==> once.actor.events == w.actor.events + [Disconnected] && !once.actor.stopped)
      && once.actor.tasks == (if once.actor.stopped then w.actor.tasks
                              else w.actor.tasks + [Task(w.actor.interval, Sleeping)])
      && once.actor.interval == (if once.actor.stopped then w.actor.interval
                                 else B.Min(w.actor.interval * 2.0, CAP))
  {
    if first.ReceiveCallback? {
      ProcessChunkEffect(w.actor.(receives := w.actor.receives - multiset{first.gen}), decode, first.data);
    }
    assert CancelTask(w.actor.tasks, w.actor.reconnectTask) == w.actor.tasks;
  }
}
