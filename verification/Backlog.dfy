/**
  What a client ends up with when several writes to it are pending: the broadcasts that have still
  to write to it and, while it is being greeted, its connect snapshot. Nothing orders these writes,
  so any of them may come last.
*/
module Backlog {
  import opened Protocol
  import opened DaemonUi
  import opened DaemonRuns

  /** The snapshot the greeter has taken for its connection, or would take now. */
  function GreetingIndex(s: Server): nat {
    match s.greeter
    case Snapshotted(_, index) => index
    case HelloSent(_, index) => index
    case _ => Now(s)
  }

  predicate WriterOwes(s: Server, c: Conn, k: nat) {
    k in s.writers && c in s.writers[k].todo
  }

  /** Snapshot i has still to be written to the connection. */
  ghost predicate Pending(s: Server, c: Conn, i: nat) {
    || (exists k :: WriterOwes(s, c, k) && s.writers[k].index == i)
    || (Greeting(s.greeter, c) && GreetingIndex(s) == i)
  }

  ghost predicate NonePending(s: Server, c: Conn) {
    (forall k :: !WriterOwes(s, c, k)) && !Greeting(s.greeter, c)
  }

  predicate EndsWith(s: Server, c: Conn, i: nat) {
    c in s.wires && s.wires[c] != [] && s.wires[c][|s.wires[c]| - 1] == StateLine(i)
  }

  /** Any further run that changes no state, keeps the connection working and leaves nothing pending for it. */
  ghost predicate Completes(s: Server, c: Conn, later: seq<Action>) {
    && (forall a :: a in later ==> !a.MakeChange?)
    && c !in From(s, later).broken && NonePending(From(s, later), c)
  }

  /** Snapshot i can be the last one: it is pending, or nothing is and the wire ends with it. */
  ghost predicate CanBeLast(s: Server, c: Conn, i: nat) {
    Pending(s, c, i) || (NonePending(s, c) && EndsWith(s, c, i))
  }

  // ---- what comes last was pending ----

  lemma {:induction false} NothingNewPending(s: Server, action: Action, c: Conn, i: nat)
    requires c in s.wires && !action.MakeChange? && Pending(Step(s, action), c, i)
    ensures Pending(s, c, i)
  {
    var t := Step(s, action);
    if k :| WriterOwes(t, c, k) && t.writers[k].index == i {
      assert WriterOwes(s, c, k) && s.writers[k].index == i;
    }
  }

  lemma {:induction false} LastWrite(s: Server, action: Action, c: Conn, i: nat)
    requires c in s.wires && !action.MakeChange? && c !in Step(s, action).broken
    requires NonePending(Step(s, action), c) && EndsWith(Step(s, action), c, i) && !NonePending(s, c)
    ensures Pending(s, c, i)
  {
    var t := Step(s, action);
    if action.WriteTo? && WriterOwes(s, c, action.writer) && action.conn == c {
      assert s.writers[action.writer].index == i;
    } else if k :| WriterOwes(s, c, k) {
      assert WriterOwes(t, c, k);
    }
  }

  lemma {:induction false} StepKeepsLast(s: Server, action: Action, c: Conn, i: nat)
    requires c in s.wires && !action.MakeChange? && c !in Step(s, action).broken
    requires CanBeLast(Step(s, action), c, i)
    ensures CanBeLast(s, c, i)
  {
    if Pending(Step(s, action), c, i) {
      NothingNewPending(s, action, c, i);
    } else if !NonePending(s, c) {
      LastWrite(s, action, c, i);
    } else {
      assert action.WriteTo? ==> !WriterOwes(s, c, action.writer);
    }
  }

  /** Once everything pending has been written the wire ends with a snapshot. */
  lemma {:induction false} StepKeepsEnd(s: Server, action: Action, c: Conn)
    requires c in s.wires && !action.MakeChange? && c !in Step(s, action).broken
    requires NonePending(s, c) ==> exists i :: EndsWith(s, c, i)
    ensures NonePending(Step(s, action), c) ==> exists i :: EndsWith(Step(s, action), c, i)
  {
    var t := Step(s, action);
    if NonePending(t, c) {
      if NonePending(s, c) {
        var i :| EndsWith(s, c, i);
        assert action.WriteTo? ==> !WriterOwes(s, c, action.writer);
        assert EndsWith(t, c, i);
      } else if action.WriteTo? && WriterOwes(s, c, action.writer) && action.conn == c {
        assert EndsWith(t, c, s.writers[action.writer].index);
      } else if k :| WriterOwes(s, c, k) {
        assert WriterOwes(t, c, k);
      } else {
        assert EndsWith(t, c, GreetingIndex(s));
      }
    }
  }

  lemma {:induction false} BrokenStays(s: Server, later: seq<Action>)
    ensures s.broken <= From(s, later).broken
    decreases |later|
  {
    if later != [] {
      BrokenStays(Step(s, later[0]), later[1..]);
    }
  }

  lemma {:induction false} LastWasPending(s: Server, c: Conn, later: seq<Action>, i: nat)
    requires c in s.wires && Completes(s, c, later) && EndsWith(From(s, later), c, i)
    ensures CanBeLast(s, c, i)
    decreases |later|
  {
    if later != [] {
      var t := Step(s, later[0]);
      assert later[0] in later && forall a :: a in later[1..] ==> a in later;
      BrokenStays(t, later[1..]);
      LastWasPending(t, c, later[1..], i);
      StepKeepsLast(s, later[0], c, i);
    }
  }

  lemma {:induction false} CompletedEnds(s: Server, c: Conn, later: seq<Action>)
    requires c in s.wires && Completes(s, c, later)
    requires NonePending(s, c) ==> exists i :: EndsWith(s, c, i)
    ensures exists i :: EndsWith(From(s, later), c, i)
    decreases |later|
  {
    if later != [] {
      var t := Step(s, later[0]);
      assert later[0] in later && forall a :: a in later[1..] ==> a in later;
      BrokenStays(t, later[1..]);
      StepKeepsEnd(s, later[0], c);
      CompletedEnds(t, c, later[1..]);
    }
  }

  // ---- whatever is pending can come last ----

  function Owing(s: Server, c: Conn): (r: set<nat>) {
    set k | k in s.writers && c in s.writers[k].todo
  }

  function Stage(g: Greeter): nat {
    match g
    case NoGreeting => 0
    case Registered(_) => 3
    case Snapshotted(_, _) => 2
    case HelloSent(_, _) => 1
  }

  /** The greeter's next action. */
  function NextGreeting(g: Greeter): Action {
    match g
    case Snapshotted(_, _) => SendHello(true)
    case HelloSent(_, _) => SendState(true)
    case _ => TakeSnapshot
  }

  /** A successful write by writer k: its snapshot ends the wire, everything else pending stays so. */
  lemma {:induction false} WriterWrites(s: Server, c: Conn, k: nat)
    requires c in s.wires && c !in s.broken && WriterOwes(s, c, k)
    ensures var t := Step(s, WriteTo(k, c, true));
      && c in t.wires && c !in t.broken && EndsWith(t, c, s.writers[k].index)
      && Owing(t, c) == Owing(s, c) - {k} && t.greeter == s.greeter && GreetingIndex(t) == GreetingIndex(s)
      && !WriterOwes(t, c, k)
      && (forall j :: j != k ==> (WriterOwes(t, c, j) <==> WriterOwes(s, c, j)))
      && (forall j :: WriterOwes(t, c, j) ==> t.writers[j].index == s.writers[j].index)
  {
    var t := Step(s, WriteTo(k, c, true));
    assert t.wires[c] == s.wires[c] + [StateLine(s.writers[k].index)];
  }

  /** The greeter's next action for the connection; only the last one takes its snapshot off the list. */
  lemma {:induction false} GreeterActs(s: Server, c: Conn)
    requires c in s.wires && c !in s.broken && Greeting(s.greeter, c)
    ensures var t := Step(s, NextGreeting(s.greeter));
      && c in t.wires && c !in t.broken && Stage(t.greeter) == Stage(s.greeter) - 1
      && t.writers == s.writers && Owing(t, c) == Owing(s, c)
      && (if s.greeter.HelloSent? then !Greeting(t.greeter, c) && EndsWith(t, c, GreetingIndex(s))
          else Greeting(t.greeter, c) && GreetingIndex(t) == GreetingIndex(s))
  {
  }

  ghost predicate CanEndWith(s: Server, c: Conn, i: nat) {
    exists later :: Completes(s, c, later) && EndsWith(From(s, later), c, i)
  }

  lemma {:induction false} OneMore(s: Server, action: Action, c: Conn, i: nat)
    requires !action.MakeChange? && CanEndWith(Step(s, action), c, i)
    ensures CanEndWith(s, c, i)
  {
    var t := Step(s, action);
    var later :| Completes(t, c, later) && EndsWith(From(t, later), c, i);
    assert ([action] + later)[1..] == later;
    assert From(s, [action] + later) == From(t, later);
    assert Completes(s, c, [action] + later);
  }

  /** Some pending write can go next without spoiling i's chance to come last. */
  lemma {:induction false} NextWrite(s: Server, c: Conn, i: nat) returns (action: Action)
    requires c in s.wires && c !in s.broken && Pending(s, c, i)
    ensures var t := Step(s, action);
      && !action.MakeChange? && c in t.wires && c !in t.broken && CanBeLast(t, c, i)
      && (Owing(t, c) < Owing(s, c) || (Owing(t, c) == Owing(s, c) && Stage(t.greeter) < Stage(s.greeter)))
  {
    if Greeting(s.greeter, c) && GreetingIndex(s) == i {
      if k :| WriterOwes(s, c, k) {
        action := WriteTo(k, c, true);
        WriterWrites(s, c, k);
        assert k in Owing(s, c);
      } else {
        action := NextGreeting(s.greeter);
        GreeterActs(s, c);
        assert forall k :: WriterOwes(Step(s, action), c, k) <==> WriterOwes(s, c, k);
      }
    } else {
      var own :| WriterOwes(s, c, own) && s.writers[own].index == i;
      if Greeting(s.greeter, c) {
        action := NextGreeting(s.greeter);
        GreeterActs(s, c);
        assert WriterOwes(Step(s, action), c, own) && Step(s, action).writers[own].index == i;
      } else {
        var k := own;
        if j: nat :| WriterOwes(s, c, j) && j != own {
          k := j;
        }
        action := WriteTo(k, c, true);
        WriterWrites(s, c, k);
        assert k in Owing(s, c);
        var t := Step(s, action);
        if k != own {
          assert WriterOwes(t, c, own) && t.writers[own].index == i;
        } else {
          assert forall j :: !WriterOwes(t, c, j);
          assert NonePending(t, c) && EndsWith(t, c, i);
        }
      }
    }
  }

  lemma {:induction false} PendingCanComeLast(s: Server, c: Conn, i: nat)
    requires c in s.wires && c !in s.broken && CanBeLast(s, c, i)
    ensures CanEndWith(s, c, i)
    decreases |Owing(s, c)|, Stage(s.greeter)
  {
    if Pending(s, c, i) {
      var action := NextWrite(s, c, i);
      FewerOwing(Owing(Step(s, action), c), Owing(s, c));
      PendingCanComeLast(Step(s, action), c, i);
      OneMore(s, action, c, i);
    } else {
      assert From(s, []) == s && Completes(s, c, []);
    }
  }

  lemma FewerOwing(a: set<nat>, b: set<nat>)
    ensures a < b ==> |a| < |b|
  {
    if a < b {
      assert |b| == |a| + |b - a| && b - a != {} by {
        assert b == a + (b - a);
      }
    }
  }

  /**
    In every state, for every working connection: the snapshots it can end up with are exactly the
    pending ones, or the one it has when nothing is pending.
  */
  lemma {:induction false} LastIsPending(s: Server, c: Conn, i: nat)
    requires c in s.wires && c !in s.broken
    ensures CanEndWith(s, c, i) <==> CanBeLast(s, c, i)
  {
    if CanEndWith(s, c, i) {
      var later :| Completes(s, c, later) && EndsWith(From(s, later), c, i);
      LastWasPending(s, c, later, i);
    } else if CanBeLast(s, c, i) {
      PendingCanComeLast(s, c, i);
    }
  }

  /** Every order of the pending writes leaves the connection with snapshot n or a later one. */
  ghost predicate AlwaysReaches(s: Server, c: Conn, n: nat) {
    forall later :: Completes(s, c, later) ==> c in From(s, later).wires && EndsAtLeast(From(s, later).wires[c], n)
  }

  /** No pending write is older than n, and if nothing is pending the connection has n or later. */
  ghost predicate NothingStale(s: Server, c: Conn, n: nat) {
    && (forall i :: Pending(s, c, i) ==> n <= i)
    && (NonePending(s, c) ==> c in s.wires && EndsAtLeast(s.wires[c], n))
  }

  /** Exactly when delivery is up to date, read off the state before any of the pending writes. */
  lemma {:induction false} UpToDateExactly(s: Server, c: Conn, n: nat)
    requires c in s.wires && c !in s.broken
    ensures AlwaysReaches(s, c, n) <==> NothingStale(s, c, n)
  {
    if NothingStale(s, c, n) {
      assert NonePending(s, c) ==> EndsWith(s, c, s.wires[c][|s.wires[c]| - 1].index);
      forall later | Completes(s, c, later)
        ensures c in From(s, later).wires && EndsAtLeast(From(s, later).wires[c], n)
      {
        CompletedEnds(s, c, later);
        var i :| EndsWith(From(s, later), c, i);
        LastWasPending(s, c, later, i);
      }
    }
    if AlwaysReaches(s, c, n) {
      assert From(s, []) == s && (NonePending(s, c) ==> Completes(s, c, []));
      forall i | Pending(s, c, i)
        ensures n <= i
      {
        PendingCanComeLast(s, c, i);
      }
    }
  }

  // ---- in runs, as the tray sees it ----

  /** A working connection has been sent its hello, and once greeted its wire ends with a snapshot. */
  predicate Greeted(s: Server, c: Conn) {
    c in s.wires && c !in s.broken ==>
      && (NoHello(s.wires[c]) ==> Greeting(s.greeter, c) && (s.greeter.Registered? || s.greeter.Snapshotted?))
      && (!Greeting(s.greeter, c) ==> s.wires[c] != [] && s.wires[c][|s.wires[c]| - 1].StateLine?)
  }

  ghost predicate GreetedInv(s: Server) {
    forall c :: Greeted(s, c)
  }

  lemma HelloIsSeen(wire: seq<Line>)
    ensures !NoHello(wire + [HelloLine])
  {
    assert (wire + [HelloLine])[|wire|] == HelloLine;
  }

  lemma {:induction false} WriteKeepsGreeted(s: Server, writer: nat, d: Conn, ok: bool, c: Conn)
    requires Greeted(s, c)
    ensures Greeted(Step(s, WriteTo(writer, d, ok)), c)
  {
    if c in s.wires && WriterOwes(s, c, writer) {
      var wire := s.wires[c];
      assert NoHello(wire + [StateLine(s.writers[writer].index)]) ==> NoHello(wire) by {
        assert wire <= wire + [StateLine(s.writers[writer].index)];
      }
    }
  }

  lemma {:induction false} GreeterKeepsGreeted(s: Server, action: Action, c: Conn)
    requires Greeted(s, c) && (action.SendHello? || action.SendState?)
    ensures Greeted(Step(s, action), c)
  {
    if c in s.wires {
      var wire := s.wires[c];
      HelloIsSeen(wire);
      assert wire <= wire + [StateLine(GreetingIndex(s))];
    }
  }

  lemma {:induction false} StepKeepsGreeted(s: Server, action: Action)
    requires GreetedInv(s)
    ensures GreetedInv(Step(s, action))
  {
    forall c
      ensures Greeted(Step(s, action), c)
    {
      assert Greeted(s, c);
      if action.WriteTo? {
        WriteKeepsGreeted(s, action.writer, action.conn, action.ok, c);
      } else if action.SendHello? || action.SendState? {
        GreeterKeepsGreeted(s, action, c);
      }
    }
  }

  lemma {:induction false} RunKeepsGreeted(s: Server, actions: seq<Action>)
    requires GreetedInv(s)
    ensures GreetedInv(From(s, actions))
    decreases |actions|
  {
    if actions != [] {
      StepKeepsGreeted(s, actions[0]);
      RunKeepsGreeted(Step(s, actions[0]), actions[1..]);
    }
  }

  /** The client's last accepted snapshot is n or a later one. */
  predicate ShowsAtLeast(wire: seq<Line>, n: nat) {
    Accepted(wire) != [] && n <= Accepted(wire)[|Accepted(wire)| - 1]
  }

  /** On a wire with a hello that ends with a snapshot, the client shows that snapshot. */
  lemma {:induction false} ShowsTheEnd(wire: seq<Line>, n: nat)
    requires wire != [] && wire[|wire| - 1].StateLine? && !NoHello(wire)
    ensures ShowsAtLeast(wire, n) <==> EndsAtLeast(wire, n)
  {
    var h :| 0 <= h < |wire| && wire[h].HelloLine?;
    assert wire[..|wire| - 1][h].HelloLine?;
  }

  /** The tray shows the last line of the wire once nothing is pending for a working connection. */
  lemma {:induction false} GreetedShows(s: Server, c: Conn, n: nat)
    requires Greeted(s, c) && c in s.wires && c !in s.broken && !Greeting(s.greeter, c)
    ensures ShowsAtLeast(s.wires[c], n) <==> EndsAtLeast(s.wires[c], n)
  {
    ShowsTheEnd(s.wires[c], n);
  }

  /** However the pending writes are ordered, the tray ends up showing snapshot n or a later one. */
  ghost predicate AlwaysShows(s: Server, c: Conn, n: nat) {
    forall later :: Completes(s, c, later) ==> c in From(s, later).wires && ShowsAtLeast(From(s, later).wires[c], n)
  }

  /**
    In every state of every run, overlapping broadcasts or not: a client that keeps working ends up
    with snapshot n or a later one, however the pending writes are ordered, exactly if none of them
    is older. With n the latest broadcast, or the latest state, this is up-to-date delivery.
  */
  lemma {:induction false} LatestDeliveredExactly(st: AppState, actions: seq<Action>, c: Conn, n: nat)
    requires var s := From(NewServer(st), actions); c in s.wires && c !in s.broken
    ensures var s := From(NewServer(st), actions);
      AlwaysShows(s, c, n) <==>
        (forall i :: Pending(s, c, i) ==> n <= i) && (NonePending(s, c) ==> ShowsAtLeast(s.wires[c], n))
  {
    var s := From(NewServer(st), actions);
    RunKeepsGreeted(NewServer(st), actions);
    forall later | Completes(s, c, later)
      ensures c in From(s, later).wires
      ensures ShowsAtLeast(From(s, later).wires[c], n) <==> EndsAtLeast(From(s, later).wires[c], n)
    {
      RunsGrow(s, later);
      RunKeepsGreeted(s, later);
      GreetedShows(From(s, later), c, n);
    }
    if NonePending(s, c) {
      GreetedShows(s, c, n);
    }
    UpToDateExactly(s, c, n);
  }

  /** A broadcast overtaken before it has written to a working client can come last: the client may stay stale. */
  lemma {:induction false} OvertakenBroadcastIsStale(s: Server, c: Conn, k: nat)
    requires c in s.wires && c !in s.broken && WriterOwes(s, c, k) && s.writers[k].index < s.latest
    ensures CanEndWith(s, c, s.writers[k].index) && !AlwaysReaches(s, c, s.latest)
  {
    assert Pending(s, c, s.writers[k].index);
    LastIsPending(s, c, s.writers[k].index);
    UpToDateExactly(s, c, s.latest);
  }
}
