/**
  Whole runs of the daemon's socket server: broadcasts that write outside the lock, possibly several
  at once, one connection at a time being greeted, and writes that fail at any moment. State lines
  on the wire are named by the position of their snapshot in the log of all states.
*/
module DaemonRuns {
  import opened Protocol
  import opened DaemonUi

  datatype Line = HelloLine | StateLine(index: nat)

  /** A broadcast between its snapshot and its end. */
  datatype Writer = Writer(index: nat, todo: set<Conn>, failed: set<Conn>)

  /** The accept loop: it greets one connection at a time. */
  datatype Greeter =
    | NoGreeting
    | Registered(conn: Conn)
    | Snapshotted(conn: Conn, index: nat)
    | HelloSent(conn: Conn, index: nat)

  datatype Server = Server(
    st: AppState,
    clients: set<Conn>,
    log: seq<AppState>,            // every value the state has had
    changes: seq<Change>,          // what led from each value to the next
    writers: map<nat, Writer>,
    greeter: Greeter,
    wires: map<Conn, seq<Line>>,   // lines written to each connection ever accepted
    broken: set<Conn>,             // closed by the daemon, or a write has failed
    joined: map<Conn, nat>,        // position in the log at registration
    latest: nat)                   // position of the last broadcast snapshot, 0 before the first

  datatype Action =
    | MakeChange(change: Change, writer: nat)
    | WriteTo(writer: nat, conn: Conn, ok: bool)
    | FinishBroadcast(writer: nat)
    | Accept(conn: Conn)
    | TakeSnapshot
    | SendHello(ok: bool)
    | SendState(ok: bool)
    | HangUp(conn: Conn)

  function NewServer(st: AppState): Server {
    Server(st, {}, [st], [], map[], NoGreeting, map[], {}, map[], 0)
  }

  predicate Greeting(g: Greeter, c: Conn) {
    !g.NoGreeting? && g.conn == c
  }

  /** Position of the current state in the log. */
  function Now(s: Server): nat {
    if |s.log| == 0 then 0 else |s.log| - 1
  }

  function Emit(s: Server, c: Conn, line: Line): Server
    requires c in s.wires
  {
    s.(wires := s.wires[c := s.wires[c] + [line]])
  }

  function Remove(s: Server, c: Conn): Server {
    s.(clients := s.clients - {c}, broken := s.broken + {c})
  }

  /** An action that is not possible in the current state leaves it unchanged. */
  function Step(s: Server, action: Action): Server {
    match action
    case MakeChange(change, writer) =>
      if writer in s.writers then s else
        var st := Changed(s.st, change);
        var t := s.(st := st, log := s.log + [st], changes := s.changes + [change]);
        if IsBroadcast(change)
        then t.(writers := s.writers[writer := Writer(|s.log|, s.clients, {})], latest := |s.log|)
        else t
    case WriteTo(writer, c, ok) =>
      if writer !in s.writers || c !in s.writers[writer].todo || c !in s.wires then s else
        var w := s.writers[writer];
        if ok && c !in s.broken
        then Emit(s.(writers := s.writers[writer := w.(todo := w.todo - {c})]), c, StateLine(w.index))
        else s.(writers := s.writers[writer := w.(todo := w.todo - {c}, failed := w.failed + {c})],
                broken := s.broken + {c})
    case FinishBroadcast(writer) =>
      if writer !in s.writers || s.writers[writer].todo != {} then s else
        s.(clients := s.clients - s.writers[writer].failed,
           broken := s.broken + s.writers[writer].failed,
           writers := s.writers - {writer})
    case Accept(c) =>
      if !s.greeter.NoGreeting? || c in s.wires then s else
        s.(clients := s.clients + {c}, wires := s.wires[c := []],
           joined := s.joined[c := Now(s)], greeter := Registered(c))
    case TakeSnapshot =>
      if !s.greeter.Registered? then s else
        s.(greeter := Snapshotted(s.greeter.conn, Now(s)))
    case SendHello(ok) =>
      if !s.greeter.Snapshotted? || s.greeter.conn !in s.wires then s else
        var c := s.greeter.conn;
        if ok && c !in s.broken then Emit(s, c, HelloLine).(greeter := HelloSent(c, s.greeter.index))
        else Remove(s, c).(greeter := NoGreeting)
    case SendState(ok) =>
      if !s.greeter.HelloSent? || s.greeter.conn !in s.wires then s else
        var c := s.greeter.conn;
        if ok && c !in s.broken then Emit(s, c, StateLine(s.greeter.index)).(greeter := NoGreeting)
        else Remove(s, c).(greeter := NoGreeting)
    case HangUp(c) =>
      if c !in s.wires || Greeting(s.greeter, c) then s else Remove(s, c)
  }

  function From(s: Server, actions: seq<Action>): Server
    decreases |actions|
  {
    if actions == [] then s else From(Step(s, actions[0]), actions[1..])
  }

  // ---- every run ----

  predicate NoHello(wire: seq<Line>) {
    forall i :: 0 <= i < |wire| ==> !wire[i].HelloLine?
  }

  /** The snapshots a client gets to see: state lines behind the hello. */
  function Accepted(wire: seq<Line>): seq<nat> {
    if wire == [] then [] else
      var shorter, last := wire[..|wire| - 1], wire[|wire| - 1];
      if last.StateLine? && !NoHello(shorter) then Accepted(shorter) + [last.index] else Accepted(shorter)
  }

  /** At most one hello, and only snapshots of the given range of the log. */
  predicate WireOk(wire: seq<Line>, low: nat, high: nat) {
    && (forall i, j :: 0 <= i < j < |wire| ==> !(wire[i].HelloLine? && wire[j].HelloLine?))
    && (forall i :: 0 <= i < |wire| && wire[i].StateLine? ==> low <= wire[i].index < high)
  }

  ghost predicate WiresInv(s: Server) {
    && s.clients <= s.wires.Keys == s.joined.Keys
    && (forall c :: c in s.wires ==> s.joined[c] < |s.log| && WireOk(s.wires[c], s.joined[c], |s.log|))
  }

  /** A working connection is a client; a client that does not work is about to be dropped by a broadcast. */
  ghost predicate ClientsInv(s: Server) {
    && (forall c :: c in s.wires && c !in s.broken ==> c in s.clients)
    && (forall c :: c in s.clients && c in s.broken ==> exists k :: k in s.writers && c in s.writers[k].failed)
    && (forall k, c :: k in s.writers && c in s.writers[k].failed ==> c in s.broken)
    && s.broken <= s.wires.Keys
  }

  ghost predicate WritersInv(s: Server) {
    && (forall k :: k in s.writers ==> s.writers[k].index < |s.log|)
    && (forall k, c :: k in s.writers && c in s.writers[k].todo ==> c in s.joined && s.joined[c] <= s.writers[k].index)
  }

  ghost predicate GreeterInv(s: Server) {
    && (!s.greeter.NoGreeting? ==> s.greeter.conn in s.wires && s.greeter.conn in s.joined)
    && (s.greeter.Registered? || s.greeter.Snapshotted? ==> NoHello(s.wires[s.greeter.conn]))
    && (s.greeter.Snapshotted? || s.greeter.HelloSent? ==> s.joined[s.greeter.conn] <= s.greeter.index < |s.log|)
  }

  /** The log is the history of the changes. */
  ghost predicate LogInv(s: Server) {
    && |s.log| == |s.changes| + 1 && s.log[|s.changes|] == s.st
    && forall i :: 0 <= i < |s.changes| ==> s.log[i + 1] == Changed(s.log[i], s.changes[i])
  }

  ghost predicate Inv(s: Server) {
    && LogInv(s) && s.latest < |s.log|
    && WiresInv(s) && WritersInv(s) && GreeterInv(s)
  }

  lemma {:induction false} ChangeKeepsInv(s: Server, change: Change, writer: nat)
    requires Inv(s)
    ensures Inv(Step(s, MakeChange(change, writer)))
  {
    var t := Step(s, MakeChange(change, writer));
    assert forall c :: c in s.wires ==> WireOk(s.wires[c], s.joined[c], |t.log|);
  }

  lemma {:induction false} EmitKeepsWires(s: Server, c: Conn, line: Line)
    requires WiresInv(s) && c in s.wires
    requires if line.HelloLine? then NoHello(s.wires[c]) else s.joined[c] <= line.index < |s.log|
    ensures WiresInv(Emit(s, c, line))
  {
    assert WireOk(s.wires[c] + [line], s.joined[c], |s.log|);
  }

  lemma {:induction false} WriteKeepsInv(s: Server, writer: nat, c: Conn, ok: bool)
    requires Inv(s)
    ensures Inv(Step(s, WriteTo(writer, c, ok)))
  {
    if writer in s.writers && c in s.writers[writer].todo && c in s.wires {
      EmitKeepsWires(s, c, StateLine(s.writers[writer].index));
    }
  }

  lemma {:induction false} GreetingKeepsInv(s: Server, action: Action)
    requires Inv(s) && (action.Accept? || action.TakeSnapshot? || action.HangUp? || action.FinishBroadcast?)
    ensures Inv(Step(s, action))
  {
  }

  lemma {:induction false} HelloKeepsInv(s: Server, ok: bool)
    requires Inv(s)
    ensures Inv(Step(s, SendHello(ok)))
  {
    if s.greeter.Snapshotted? {
      EmitKeepsWires(s, s.greeter.conn, HelloLine);
    }
  }

  lemma {:induction false} StateKeepsInv(s: Server, ok: bool)
    requires Inv(s)
    ensures Inv(Step(s, SendState(ok)))
  {
    if s.greeter.HelloSent? {
      EmitKeepsWires(s, s.greeter.conn, StateLine(s.greeter.index));
    }
  }

  lemma {:induction false} StepKeepsInv(s: Server, action: Action)
    requires Inv(s)
    ensures Inv(Step(s, action))
  {
    if action.MakeChange? {
      ChangeKeepsInv(s, action.change, action.writer);
    } else if action.WriteTo? {
      WriteKeepsInv(s, action.writer, action.conn, action.ok);
    } else if action.SendHello? {
      HelloKeepsInv(s, action.ok);
    } else if action.SendState? {
      StateKeepsInv(s, action.ok);
    } else {
      GreetingKeepsInv(s, action);
    }
  }

  lemma {:induction false} RunKeepsInv(s: Server, actions: seq<Action>)
    requires Inv(s)
    ensures Inv(From(s, actions))
    decreases |actions|
  {
    if actions != [] {
      StepKeepsInv(s, actions[0]);
      RunKeepsInv(Step(s, actions[0]), actions[1..]);
    }
  }

  lemma {:induction false} StepGrows(s: Server, action: Action)
    ensures var t := Step(s, action);
      && s.log <= t.log
      && (forall c :: c in s.wires ==> c in t.wires && s.wires[c] <= t.wires[c])
      && (forall c :: c in s.joined && c in s.wires ==> c in t.joined && t.joined[c] == s.joined[c])
  {
  }

  lemma {:induction false} WriteKeepsClients(s: Server, writer: nat, c: Conn, ok: bool)
    requires Inv(s) && ClientsInv(s)
    ensures ClientsInv(Step(s, WriteTo(writer, c, ok)))
  {
    var t := Step(s, WriteTo(writer, c, ok));
    forall d | d in t.clients && d in t.broken
      ensures exists k :: k in t.writers && d in t.writers[k].failed
    {
      if d in s.broken {
        var k :| k in s.writers && d in s.writers[k].failed;
        assert k in t.writers && d in t.writers[k].failed;
      } else {
        assert d in t.writers[writer].failed;
      }
    }
  }

  lemma {:induction false} FinishKeepsClients(s: Server, writer: nat)
    requires Inv(s) && ClientsInv(s)
    ensures ClientsInv(Step(s, FinishBroadcast(writer)))
  {
    var t := Step(s, FinishBroadcast(writer));
    forall d | d in t.clients && d in t.broken
      ensures exists k :: k in t.writers && d in t.writers[k].failed
    {
      var k :| k in s.writers && d in s.writers[k].failed;
      assert k in t.writers;
    }
  }

  lemma {:induction false} ChangeKeepsClients(s: Server, change: Change, writer: nat)
    requires Inv(s) && ClientsInv(s)
    ensures ClientsInv(Step(s, MakeChange(change, writer)))
  {
    var t := Step(s, MakeChange(change, writer));
    forall d | d in t.clients && d in t.broken
      ensures exists k :: k in t.writers && d in t.writers[k].failed
    {
      var k :| k in s.writers && d in s.writers[k].failed;
      assert k in t.writers && t.writers[k] == s.writers[k];
    }
  }

  lemma {:induction false} RunKeepsClients(s: Server, actions: seq<Action>)
    requires Inv(s) && ClientsInv(s)
    ensures ClientsInv(From(s, actions))
    decreases |actions|
  {
    if actions != [] {
      var a := actions[0];
      StepKeepsInv(s, a);
      if a.WriteTo? {
        WriteKeepsClients(s, a.writer, a.conn, a.ok);
      } else if a.FinishBroadcast? {
        FinishKeepsClients(s, a.writer);
      } else if a.MakeChange? {
        ChangeKeepsClients(s, a.change, a.writer);
      }
      RunKeepsClients(Step(s, a), actions[1..]);
    }
  }

  /**
    Between broadcasts the client set is exact: the connections accepted so far except those that were
    closed or failed a write. No working client is ever dropped, no dead one kept.
  */
  lemma {:induction false} ClientSetIsExact(st: AppState, actions: seq<Action>)
    requires From(NewServer(st), actions).writers == map[]
    ensures var s := From(NewServer(st), actions); s.clients == s.wires.Keys - s.broken
  {
    RunKeepsInv(NewServer(st), actions);
    RunKeepsClients(NewServer(st), actions);
  }

  /** The past never changes: log and wires only grow, a connection keeps its registration point. */
  lemma {:induction false} RunsGrow(s: Server, actions: seq<Action>)
    ensures var t := From(s, actions);
      && s.log <= t.log
      && (forall c :: c in s.wires ==> c in t.wires && s.wires[c] <= t.wires[c])
      && (forall c :: c in s.joined && c in s.wires ==> c in t.joined && t.joined[c] == s.joined[c])
    decreases |actions|
  {
    if actions != [] {
      var t := Step(s, actions[0]);
      StepGrows(s, actions[0]);
      RunsGrow(t, actions[1..]);
      forall c | c in s.wires
        ensures s.wires[c] <= From(s, actions).wires[c]
      {
        assert s.wires[c] <= t.wires[c] <= From(s, actions).wires[c];
      }
    }
  }

  /** Accepted snapshots are exactly the state lines with a hello somewhere before them, in wire order. */
  lemma {:induction false} AcceptedMeaning(wire: seq<Line>, n: nat)
    ensures n in Accepted(wire) <==>
      exists i, h :: 0 <= h < i < |wire| && wire[h].HelloLine? && wire[i] == StateLine(n)
  {
    if wire != [] {
      var m := |wire| - 1;
      var shorter := wire[..m];
      AcceptedMeaning(shorter, n);
      if i, h :| 0 <= h < i < |wire| && wire[h].HelloLine? && wire[i] == StateLine(n) {
        assert shorter[h] == wire[h];
        assert i < m ==> shorter[i] == wire[i];
      }
    }
  }

  /**
    Every snapshot a client accepts is a value the state had at or after the client's registration
    and at or before now, although the client is registered before its hello and all writing
    happens outside the lock.
  */
  lemma {:induction false} AcceptedStatesAreReal(st: AppState, actions: seq<Action>, c: Conn, n: nat)
    requires var s := From(NewServer(st), actions); c in s.wires && n in Accepted(s.wires[c])
    ensures var s := From(NewServer(st), actions);
      c in s.joined && s.joined[c] <= n < |s.log| && LogInv(s)
  {
    RunKeepsInv(NewServer(st), actions);
    AcceptedMeaning(From(NewServer(st), actions).wires[c], n);
  }

  // ---- what the state is, field by field ----

  /** How often files have been counted as processed. */
  function Processed(changes: seq<Change>): nat {
    if changes == [] then 0
    else Processed(changes[..|changes| - 1]) + if changes[|changes| - 1].IncProcessed? then 1 else 0
  }

  /** Whether the dry-run flag has been toggled an odd number of times. */
  function Toggled(changes: seq<Change>): bool {
    changes != [] && Toggled(changes[..|changes| - 1]) != changes[|changes| - 1].ToggleDryRun?
  }

  /** Position i is the last change of the status. */
  predicate LastStatus(changes: seq<Change>, i: int) {
    0 <= i < |changes| && changes[i].SetStatus? && forall j :: i < j < |changes| ==> !changes[j].SetStatus?
  }

  predicate LastRules(changes: seq<Change>, i: int) {
    0 <= i < |changes| && changes[i].SetRules? && forall j :: i < j < |changes| ==> !changes[j].SetRules?
  }

  /** Each state of the log comes from the one before it by its change. */
  predicate IsLog(log: seq<AppState>, changes: seq<Change>) {
    |log| == |changes| + 1 && forall i :: 0 <= i < |changes| ==> log[i + 1] == Changed(log[i], changes[i])
  }

  lemma {:induction false} CountsByChanges(log: seq<AppState>, changes: seq<Change>, n: nat)
    requires IsLog(log, changes) && n <= |changes|
    ensures log[n].processed == log[0].processed + Processed(changes[..n])
    ensures log[n].dryRun == (log[0].dryRun != Toggled(changes[..n]))
    ensures log[n].configPath == log[0].configPath && log[n].version == log[0].version
  {
    if n > 0 {
      CountsByChanges(log, changes, n - 1);
      assert changes[..n][..n - 1] == changes[..n - 1] && log[n - 1 + 1] == Changed(log[n - 1], changes[n - 1]);
    }
  }

  lemma {:induction false} StatusByChanges(log: seq<AppState>, changes: seq<Change>, n: nat)
    requires IsLog(log, changes) && n <= |changes|
    ensures forall i :: LastStatus(changes[..n], i) ==> log[n].status == changes[i].status
    ensures (forall i :: 0 <= i < n ==> !changes[i].SetStatus?) ==> log[n].status == log[0].status
  {
    if n > 0 {
      StatusByChanges(log, changes, n - 1);
      assert log[n - 1 + 1] == Changed(log[n - 1], changes[n - 1]);
      forall i | LastStatus(changes[..n], i)
        ensures log[n].status == changes[i].status
      {
        assert i < n - 1 ==> LastStatus(changes[..n - 1], i);
      }
    }
  }

  lemma {:induction false} RulesByChanges(log: seq<AppState>, changes: seq<Change>, n: nat)
    requires IsLog(log, changes) && n <= |changes|
    ensures forall i :: LastRules(changes[..n], i) ==> log[n].rules == changes[i].rules
    ensures (forall i :: 0 <= i < n ==> !changes[i].SetRules?) ==> log[n].rules == log[0].rules
  {
    if n > 0 {
      RulesByChanges(log, changes, n - 1);
      assert log[n - 1 + 1] == Changed(log[n - 1], changes[n - 1]);
      forall i | LastRules(changes[..n], i)
        ensures log[n].rules == changes[i].rules
      {
        assert i < n - 1 ==> LastRules(changes[..n - 1], i);
      }
    }
  }

  /**
    In every run each state ever shown has the initial count plus the files counted, the initial flag
    flipped once per toggle, the last status and rules set, and the initial path and version.
  */
  lemma {:induction false} StatesAreHistory(st: AppState, actions: seq<Action>, n: nat)
    requires n < |From(NewServer(st), actions).log|
    ensures var s := From(NewServer(st), actions);
      && |s.log| == |s.changes| + 1 && s.log[|s.changes|] == s.st
      && var x, so_far := s.log[n], s.changes[..n];
      && x.processed == st.processed + Processed(so_far) && x.dryRun == (st.dryRun != Toggled(so_far))
      && x.configPath == st.configPath && x.version == st.version
      && (forall i :: LastStatus(so_far, i) ==> x.status == so_far[i].status)
      && ((forall i :: 0 <= i < n ==> !so_far[i].SetStatus?) ==> x.status == st.status)
      && (forall i :: LastRules(so_far, i) ==> x.rules == so_far[i].rules)
      && ((forall i :: 0 <= i < n ==> !so_far[i].SetRules?) ==> x.rules == st.rules)
  {
    var s := From(NewServer(st), actions);
    RunKeepsInv(NewServer(st), actions);
    RunsGrow(NewServer(st), actions);
    assert s.log[0] == [st][0];
    CountsByChanges(s.log, s.changes, n);
    StatusByChanges(s.log, s.changes, n);
    RulesByChanges(s.log, s.changes, n);
  }

  /** The latest broadcast is that of the last change other than SetRules. */
  predicate LatestInv(s: Server) {
    && s.latest <= |s.changes|
    && (s.latest > 0 ==> !s.changes[s.latest - 1].SetRules?)
    && forall i :: s.latest <= i < |s.changes| ==> s.changes[i].SetRules?
  }

  lemma {:induction false} StepKeepsLatest(s: Server, action: Action)
    requires LogInv(s) && LatestInv(s)
    ensures LatestInv(Step(s, action))
  {
  }

  lemma {:induction false} RunKeepsLatest(s: Server, actions: seq<Action>)
    requires Inv(s) && LatestInv(s)
    ensures LatestInv(From(s, actions))
    decreases |actions|
  {
    if actions != [] {
      StepKeepsInv(s, actions[0]);
      StepKeepsLatest(s, actions[0]);
      RunKeepsLatest(Step(s, actions[0]), actions[1..]);
    }
  }

  /** In every run everything but new rules has been broadcast: since the latest broadcast only rules were set. */
  lemma {:induction false} AllButRulesIsBroadcast(st: AppState, actions: seq<Action>)
    ensures LatestInv(From(NewServer(st), actions))
  {
    RunKeepsLatest(NewServer(st), actions);
  }

  // ---- closed connections ----

  lemma {:induction false} GoneStaysGone(s: Server, actions: seq<Action>, c: Conn)
    requires c in s.wires && c in s.broken && c !in s.clients
    ensures var t := From(s, actions); c in t.wires && t.wires[c] == s.wires[c] && c in t.broken && c !in t.clients
    decreases |actions|
  {
    if actions != [] {
      GoneStaysGone(Step(s, actions[0]), actions[1..], c);
    }
  }

  /** A client that has hung up is removed, and in every continuation nothing is written to it again. */
  lemma {:induction false} HangUpIsFinal(s: Server, actions: seq<Action>, c: Conn)
    requires c in s.wires && !Greeting(s.greeter, c)
    ensures var t := From(Step(s, HangUp(c)), actions);
      c in t.wires && t.wires[c] == s.wires[c] && c !in t.clients && c in t.broken
  {
    GoneStaysGone(Step(s, HangUp(c)), actions, c);
  }

  // ---- runs whose broadcasts and connect snapshots do not overlap ----

  predicate Writing(g: Greeter) {
    g.Snapshotted? || g.HelloSent?
  }

  predicate SerialStep(s: Server, action: Action) {
    match action
    case MakeChange(change, _) => IsBroadcast(change) ==> s.writers == map[] && !Writing(s.greeter)
    case TakeSnapshot => s.writers == map[]
    case _ => true
  }

  predicate SerialRun(s: Server, actions: seq<Action>)
    decreases |actions|
  {
    actions == [] || (SerialStep(s, actions[0]) && SerialRun(Step(s, actions[0]), actions[1..]))
  }

  predicate Ordered(wire: seq<Line>) {
    forall i, j :: 0 <= i < j < |wire| && wire[i].StateLine? && wire[j].StateLine? ==> wire[i].index <= wire[j].index
  }

  predicate AtMost(wire: seq<Line>, n: nat) {
    forall i :: 0 <= i < |wire| && wire[i].StateLine? ==> wire[i].index <= n
  }

  predicate EndsAtLeast(wire: seq<Line>, n: nat) {
    wire != [] && wire[|wire| - 1].StateLine? && n <= wire[|wire| - 1].index
  }

  /** A connection that is a client, works and has been greeted. */
  predicate Settled(s: Server, c: Conn) {
    c in s.clients && c in s.wires && c !in s.broken && !Greeting(s.greeter, c)
  }

  /** Some broadcast has yet to write to the connection. */
  predicate Awaits(writers: map<nat, Writer>, c: Conn) {
    exists k :: k in writers && c in writers[k].todo
  }

  ghost predicate SerialInv(s: Server) {
    && (forall c :: c in s.wires ==> Ordered(s.wires[c]))
    && (forall k, l :: k in s.writers && l in s.writers ==> k == l)
    && (s.writers != map[] ==> !Writing(s.greeter) && forall c :: c in s.wires ==> AtMost(s.wires[c], s.latest))
    && (forall k :: k in s.writers ==> s.writers[k].index == s.latest)
    && (Writing(s.greeter) && s.greeter.conn in s.wires ==>
          s.latest <= s.greeter.index && AtMost(s.wires[s.greeter.conn], s.greeter.index))
    && (s.greeter.HelloSent? && s.greeter.conn in s.wires ==> !NoHello(s.wires[s.greeter.conn]))
    && (forall c :: Settled(s, c) ==> !NoHello(s.wires[c]))
    && (forall c :: Settled(s, c) ==> EndsAtLeast(s.wires[c], s.latest) || Awaits(s.writers, c))
  }

  lemma {:induction false} SerialChange(s: Server, change: Change, writer: nat)
    requires Inv(s) && SerialInv(s) && SerialStep(s, MakeChange(change, writer))
    ensures SerialInv(Step(s, MakeChange(change, writer)))
  {
    var t := Step(s, MakeChange(change, writer));
    if writer !in s.writers && IsBroadcast(change) {
      forall c | c in t.wires
        ensures AtMost(t.wires[c], t.latest)
      {
        assert WireOk(s.wires[c], s.joined[c], |s.log|);
      }
      assert forall c :: Settled(t, c) ==> Settled(s, c) && writer in t.writers && c in t.writers[writer].todo;
    }
  }

  lemma {:induction false} SerialWrite(s: Server, writer: nat, c: Conn, ok: bool)
    requires Inv(s) && SerialInv(s)
    ensures SerialInv(Step(s, WriteTo(writer, c, ok)))
  {
    var t := Step(s, WriteTo(writer, c, ok));
    if writer in s.writers && c in s.writers[writer].todo && c in s.wires {
      forall d | Settled(t, d)
        ensures !NoHello(t.wires[d])
        ensures EndsAtLeast(t.wires[d], t.latest) || Awaits(t.writers, d)
      {
        assert Settled(s, d);
        if d == c {
          var h :| 0 <= h < |s.wires[c]| && s.wires[c][h].HelloLine?;
          assert t.wires[c][h].HelloLine?;
        } else if !EndsAtLeast(s.wires[d], s.latest) {
          assert d in t.writers[writer].todo;
        }
      }
    }
  }

  lemma {:induction false} SerialFinish(s: Server, writer: nat)
    requires Inv(s) && SerialInv(s)
    ensures SerialInv(Step(s, FinishBroadcast(writer)))
  {
    var t := Step(s, FinishBroadcast(writer));
    assert forall c :: Settled(t, c) ==> Settled(s, c);
  }

  lemma {:induction false} SerialSnapshot(s: Server)
    requires Inv(s) && SerialInv(s) && SerialStep(s, TakeSnapshot)
    ensures SerialInv(Step(s, TakeSnapshot))
  {
    var t := Step(s, TakeSnapshot);
    assert forall c :: Settled(t, c) ==> Settled(s, c);
    if s.greeter.Registered? {
      assert WireOk(s.wires[s.greeter.conn], s.joined[s.greeter.conn], |s.log|);
    }
  }

  lemma {:induction false} SerialHello(s: Server, ok: bool)
    requires Inv(s) && SerialInv(s)
    ensures SerialInv(Step(s, SendHello(ok)))
  {
    var t := Step(s, SendHello(ok));
    assert forall c :: Settled(t, c) ==> Settled(s, c);
    if t.greeter.HelloSent? && s.greeter.Snapshotted? {
      var c := s.greeter.conn;
      assert t.wires[c][|s.wires[c]|].HelloLine?;
    }
  }

  lemma {:induction false} SerialState(s: Server, ok: bool)
    requires Inv(s) && SerialInv(s)
    ensures SerialInv(Step(s, SendState(ok)))
  {
    var t := Step(s, SendState(ok));
    if s.greeter.HelloSent? {
      var c := s.greeter.conn;
      assert forall d :: Settled(t, d) && d != c ==> Settled(s, d);
      var h :| 0 <= h < |s.wires[c]| && s.wires[c][h].HelloLine?;
      assert t.wires[c][h].HelloLine?;
    }
  }

  lemma {:induction false} SerialAccept(s: Server, c: Conn)
    requires Inv(s) && SerialInv(s)
    ensures SerialInv(Step(s, Accept(c)))
  {
    assert forall d :: Settled(Step(s, Accept(c)), d) ==> Settled(s, d);
  }

  lemma {:induction false} SerialHangUp(s: Server, c: Conn)
    requires Inv(s) && SerialInv(s)
    ensures SerialInv(Step(s, HangUp(c)))
  {
    assert forall d :: Settled(Step(s, HangUp(c)), d) ==> Settled(s, d);
  }

  lemma {:induction false} SerialFrom(s: Server, actions: seq<Action>)
    requires Inv(s) && SerialInv(s) && SerialRun(s, actions)
    ensures SerialInv(From(s, actions))
    decreases |actions|
  {
    if actions != [] {
      var a := actions[0];
      StepKeepsInv(s, a);
      match a {
        case MakeChange(change, writer) => SerialChange(s, change, writer);
        case WriteTo(writer, c, ok) => SerialWrite(s, writer, c, ok);
        case FinishBroadcast(writer) => SerialFinish(s, writer);
        case Accept(c) => SerialAccept(s, c);
        case TakeSnapshot => SerialSnapshot(s);
        case SendHello(ok) => SerialHello(s, ok);
        case SendState(ok) => SerialState(s, ok);
        case HangUp(c) => SerialHangUp(s, c);
      }
      SerialFrom(Step(s, a), actions[1..]);
    }
  }

  lemma {:induction false} AcceptedOrdered(wire: seq<Line>)
    requires Ordered(wire)
    ensures forall i, j :: 0 <= i < j < |Accepted(wire)| ==> Accepted(wire)[i] <= Accepted(wire)[j]
  {
    if wire != [] {
      var shorter, last := wire[..|wire| - 1], wire[|wire| - 1];
      AcceptedOrdered(shorter);
      forall k | 0 <= k < |Accepted(shorter)| && last.StateLine?
        ensures Accepted(shorter)[k] <= last.index
      {
        AcceptedMeaning(shorter, Accepted(shorter)[k]);
        assert Accepted(shorter)[k] in Accepted(shorter);
        var i, h :| 0 <= h < i < |shorter| && shorter[h].HelloLine? && shorter[i] == StateLine(Accepted(shorter)[k]);
        assert wire[i] == shorter[i];
      }
    }
  }

  /**
    Without overlap a client accepts states in the order they were made; and once no write is
    pending, the last one it was sent is the last broadcast or a later connect snapshot -- the
    current state itself unless SetRules, which is not broadcast, came after the last broadcast.
  */
  lemma {:induction false} SerialDelivery(st: AppState, actions: seq<Action>, c: Conn)
    requires SerialRun(NewServer(st), actions) && c in From(NewServer(st), actions).wires
    ensures var s := From(NewServer(st), actions); var seen := Accepted(s.wires[c]);
      && (forall i, j :: 0 <= i < j < |seen| ==> seen[i] <= seen[j])
      && (s.writers == map[] && Settled(s, c) ==>
            seen != [] && s.latest <= seen[|seen| - 1] < |s.log|
            && (s.latest == |s.log| - 1 ==> s.log[seen[|seen| - 1]] == s.st))
  {
    var s := From(NewServer(st), actions);
    RunKeepsInv(NewServer(st), actions);
    SerialFrom(NewServer(st), actions);
    AcceptedOrdered(s.wires[c]);
    if s.writers == map[] && Settled(s, c) {
      var wire := s.wires[c];
      var h :| 0 <= h < |wire| && wire[h].HelloLine?;
      assert wire[..|wire| - 1][h].HelloLine?;
      assert WireOk(wire, s.joined[c], |s.log|);
    }
  }

  lemma {:induction false} RunAppend(s: Server, a: seq<Action>, b: seq<Action>)
    ensures From(s, a + b) == From(From(s, a), b)
    ensures SerialRun(s, a + b) ==> SerialRun(From(s, a), b)
    decreases |a|
  {
    if a == [] {
      assert a + b == b;
    } else {
      assert (a + b)[1..] == a[1..] + b;
      RunAppend(Step(s, a[0]), a[1..], b);
    }
  }

  lemma {:induction false} FourSteps(s: Server, a: Action, b: Action, c: Action, d: Action)
    ensures From(s, [a, b, c, d]) == Step(Step(Step(Step(s, a), b), c), d)
  {
    var t := Step(Step(s, a), b);
    assert From(t, [c, d]) == From(Step(t, c), [d]) == Step(Step(t, c), d);
    assert [a, b, c, d] == [a, b] + [c, d];
    RunAppend(s, [a, b], [c, d]);
    assert From(s, [a, b]) == From(Step(s, a), [b]) == t;
  }

  const GREET := [Accept(0), TakeSnapshot, SendHello(true), SendState(true)]

  function OneClient(st: AppState): Server {
    Server(st, {0}, [st], [], map[], NoGreeting, map[0 := [HelloLine, StateLine(0)]], {}, map[0 := 0], 0)
  }

  lemma {:induction false} GreetFirstClient(st: AppState)
    ensures From(NewServer(st), GREET) == OneClient(st)
  {
    FourSteps(NewServer(st), GREET[0], GREET[1], GREET[2], GREET[3]);
    var s := From(NewServer(st), GREET);
    assert s.wires[0] == [HelloLine, StateLine(0)];
    assert s.clients == {0} && s.wires == map[0 := [HelloLine, StateLine(0)]] && s.joined == map[0 := 0];
  }

  /** Two broadcasts that overlap reach the connection in the wrong order. */
  lemma {:induction false} OverlapInverts(s: Server, c: Conn, first: Change, second: Change)
    requires s.writers == map[] && c in s.clients && c in s.wires && c !in s.broken
    requires IsBroadcast(first) && IsBroadcast(second)
    ensures var overlap := [MakeChange(first, 0), MakeChange(second, 1), WriteTo(1, c, true), WriteTo(0, c, true)];
      var t := From(s, overlap);
      && t.wires == s.wires[c := s.wires[c] + [StateLine(|s.log| + 1), StateLine(|s.log|)]]
      && t.log == s.log + [Changed(s.st, first), Changed(Changed(s.st, first), second)]
      && t.changes == s.changes + [first, second] && t.latest == |s.log| + 1
      && t.clients == s.clients && t.broken == s.broken && t.greeter == s.greeter
      && t.writers.Keys == {0, 1} && t.writers[0].todo == s.clients - {c} && t.writers[1].todo == s.clients - {c}
      && !SerialRun(s, overlap)
  {
    var overlap := [MakeChange(first, 0), MakeChange(second, 1), WriteTo(1, c, true), WriteTo(0, c, true)];
    FourSteps(s, overlap[0], overlap[1], overlap[2], overlap[3]);
    var s1 := Step(s, overlap[0]);
    assert 0 in s1.writers && !SerialRun(s1, overlap[1..]);
    var s3 := Step(Step(s1, overlap[1]), overlap[2]);
    assert s3.wires == s.wires[c := s.wires[c] + [StateLine(|s.log| + 1)]];
    assert s.wires[c] + [StateLine(|s.log| + 1)] + [StateLine(|s.log|)]
      == s.wires[c] + [StateLine(|s.log| + 1), StateLine(|s.log|)];
  }

  /**
    Overlapping broadcasts, say of a toggle and of the pipeline's next status, can leave a client
    with a stale snapshot for good.
  */
  lemma {:induction false} OverlapDeliversStale(st: AppState, first: Change, second: Change)
    requires IsBroadcast(first) && IsBroadcast(second)
    ensures var overlap := [MakeChange(first, 0), MakeChange(second, 1), WriteTo(1, 0, true), WriteTo(0, 0, true)];
      var s := From(NewServer(st), GREET + overlap);
      && s.writers.Keys == {0, 1} && s.writers[0].todo == {} && s.writers[1].todo == {} && Settled(s, 0)
      && s.wires[0] == [HelloLine, StateLine(0), StateLine(2), StateLine(1)]
      && s.log == [st, Changed(st, first), Changed(Changed(st, first), second)] && s.latest == 2
      && !SerialRun(NewServer(st), GREET + overlap)
  {
    var overlap := [MakeChange(first, 0), MakeChange(second, 1), WriteTo(1, 0, true), WriteTo(0, 0, true)];
    GreetFirstClient(st);
    OverlapInverts(OneClient(st), 0, first, second);
    RunAppend(NewServer(st), GREET, overlap);
    assert [HelloLine, StateLine(0)] + [StateLine(2), StateLine(1)]
      == [HelloLine, StateLine(0), StateLine(2), StateLine(1)];
    assert [st] + [Changed(st, first), Changed(Changed(st, first), second)]
      == [st, Changed(st, first), Changed(Changed(st, first), second)];
  }

  /** One broadcast to the only client, from its snapshot to its end. */
  lemma {:induction false} OneBroadcast(s: Server, c: Conn, change: Change)
    requires s.writers == map[] && s.clients == {c} && c in s.wires && c !in s.broken && IsBroadcast(change)
    ensures var t := From(s, [MakeChange(change, 0), WriteTo(0, c, true), FinishBroadcast(0)]);
      t == s.(st := Changed(s.st, change), log := s.log + [Changed(s.st, change)], changes := s.changes + [change],
              latest := |s.log|, wires := s.wires[c := s.wires[c] + [StateLine(|s.log|)]])
  {
    var run := [MakeChange(change, 0), WriteTo(0, c, true), FinishBroadcast(0)];
    var s2 := Step(Step(s, run[0]), run[1]);
    assert run[1..][1..] == [run[2]] && [run[2]][1..] == [];
    assert From(s, run) == From(Step(s, run[0]), run[1..]) == From(s2, [run[2]]) == Step(s2, run[2]);
    assert s2.writers[0].todo == {} && s2.writers - {0} == map[];
  }
}
