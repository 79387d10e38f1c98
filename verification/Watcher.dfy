/**
  The directory watcher: an event loop, one stabilising goroutine per admitted path, a shared map of
  pending paths, and an output channel that is closed last. Steps of the loop, of every goroutine
  and of cancellation interleave freely.
*/
module Watcher {
  import S = Stabilizer

  const STABLE_CHECKS := 3

  type Path = string

  /** A goroutine: waiting for its file, stable and about to send, on its way out, and off the pending map. */
  datatype Stage = Waiting | Ready(seen: seq<S.Observation>) | Leaving | Unlisted
  datatype Goroutine = Goroutine(path: Path, stage: Stage)

  datatype Loop = Running | Draining | Closed

  datatype Emission = Emission(path: Path, seen: seq<S.Observation>)

  datatype State = State(
    loop: Loop,
    cancelled: bool,
    pending: set<Path>,
    running: map<nat, Goroutine>,
    spawned: nat,               // goroutines started so far
    admitted: multiset<Path>,   // Create events that started a goroutine
    unstable: multiset<Path>,   // admitted paths whose wait failed
    abandoned: multiset<Path>,  // stable paths given up because the context was over
    out: seq<Emission>,         // paths sent, with the observations that made them stable
    passed: set<Path>,          // paths that passed the skip and ignore checks at some event
    panicked: bool)             // a send on the closed channel

  const IDLE := State(Running, false, {}, map[], 0, multiset{}, multiset{}, multiset{}, [], {}, false)

  datatype Action =
    | Cancel
    | Event(path: Path, create: bool, skip: bool, ignored: bool)
    | LeaveLoop                                          // context done or event channels closed
    | FinishWait(id: nat, seen: seq<S.Observation>)
    | Send(id: nat)
    | GiveUp(id: nat)                                    // context done before the receiver was ready
    | Unlist(id: nat)                                    // the deferred delete from the pending map
    | Exit(id: nat)                                      // the wait group's Done
    | CloseOut

  function Step(s: State, action: Action): State {
    match action
    case Cancel => s.(cancelled := true)
    case Event(path, create, skip, ignored) =>
      if !s.loop.Running? || !create || skip || ignored then s else
        var t := s.(passed := s.passed + {path});
        if path in s.pending then t else
          t.(pending := s.pending + {path},
             running := s.running[s.spawned := Goroutine(path, Waiting)],
             spawned := s.spawned + 1,
             admitted := s.admitted + multiset{path})
    case LeaveLoop =>
      if s.loop.Running? then s.(loop := Draining) else s
    case FinishWait(id, seen) =>
      if id !in s.running || !s.running[id].stage.Waiting? then s else
        var g := s.running[id];
        if S.Succeeds(seen, STABLE_CHECKS)
        then s.(running := s.running[id := g.(stage := Ready(seen))])
        else s.(running := s.running[id := g.(stage := Leaving)], unstable := s.unstable + multiset{g.path})
    case Send(id) =>
      if id !in s.running || !s.running[id].stage.Ready? then s else
        var g := s.running[id];
        s.(running := s.running[id := g.(stage := Leaving)],
           out := s.out + [Emission(g.path, g.stage.seen)],
           panicked := s.panicked || s.loop.Closed?)
    case GiveUp(id) =>
      if id !in s.running || !s.running[id].stage.Ready? || !s.cancelled then s else
        var g := s.running[id];
        s.(running := s.running[id := g.(stage := Leaving)], abandoned := s.abandoned + multiset{g.path})
    case Unlist(id) =>
      if id !in s.running || !s.running[id].stage.Leaving? then s else
        var g := s.running[id];
        s.(pending := s.pending - {g.path}, running := s.running[id := g.(stage := Unlisted)])
    case Exit(id) =>
      if id !in s.running || !s.running[id].stage.Unlisted? then s else s.(running := s.running - {id})
    case CloseOut =>
      if s.loop.Draining? && s.running == map[] then s.(loop := Closed) else s
  }

  function From(s: State, actions: seq<Action>): State
    decreases |actions|
  {
    if actions == [] then s else From(Step(s, actions[0]), actions[1..])
  }

  // ---- accounting ----

  function Paths(out: seq<Emission>): multiset<Path> {
    if out == [] then multiset{} else Paths(out[..|out| - 1]) + multiset{out[|out| - 1].path}
  }

  /** The goroutine belongs to the path and has not taken it off the pending map. */
  predicate Lists(running: map<nat, Goroutine>, id: nat, path: Path) {
    id in running && running[id].path == path && !running[id].stage.Unlisted?
  }

  /** Some goroutine of the path has not taken it off the pending map. */
  ghost predicate Runs(running: map<nat, Goroutine>, path: Path) {
    exists id :: Lists(running, id, path)
  }

  /** Some goroutine of the path has still to send or drop it. */
  ghost predicate InFlight(running: map<nat, Goroutine>, path: Path) {
    exists id :: Lists(running, id, path) && !running[id].stage.Leaving?
  }

  ghost predicate OnePerPath(running: map<nat, Goroutine>) {
    forall p, i, j :: Lists(running, i, p) && Lists(running, j, p) ==> i == j
  }

  ghost predicate PathInv(s: State) {
    && (forall id :: id in s.running ==> id < s.spawned)
    && OnePerPath(s.running)
    && (forall p :: p in s.pending <==> Runs(s.running, p))
  }

  /** How many goroutines of a path have sent or dropped it. */
  function Done(s: State, p: Path): nat {
    Paths(s.out)[p] + s.unstable[p] + s.abandoned[p]
  }

  /** Every admitted Create event of the path is sent, unstable, abandoned, or still in flight. */
  ghost predicate Tally(s: State, p: Path) {
    s.admitted[p] == Done(s, p) + if InFlight(s.running, p) then 1 else 0
  }

  ghost predicate CountInv(s: State) {
    && (forall p :: Tally(s, p))
    && (!s.cancelled ==> s.abandoned == multiset{})
  }

  ghost predicate EvidenceInv(s: State) {
    && (forall p :: p in s.admitted ==> p in s.passed)
    && (forall id :: id in s.running && s.running[id].stage.Ready? ==>
          S.Succeeds(s.running[id].stage.seen, STABLE_CHECKS))
    && (forall i :: 0 <= i < |s.out| ==> S.Succeeds(s.out[i].seen, STABLE_CHECKS))
  }

  ghost predicate Inv(s: State) {
    && PathInv(s) && CountInv(s) && EvidenceInv(s)
    && (s.loop.Closed? ==> s.running == map[])
    && !s.panicked
  }

  lemma PathsSnoc(out: seq<Emission>, e: Emission)
    ensures Paths(out + [e]) == Paths(out) + multiset{e.path}
  {
    assert (out + [e])[..|out|] == out;
  }

  /** Moving one listed goroutine to another stage affects only its own path. */
  lemma {:induction false} Restaged(running: map<nat, Goroutine>, id: nat, stage: Stage)
    requires id in running && OnePerPath(running) && !running[id].stage.Unlisted?
    ensures var after := running[id := running[id].(stage := stage)]; var path := running[id].path;
      && OnePerPath(after)
      && (forall p :: Runs(after, p) <==> Runs(running, p) && !(p == path && stage.Unlisted?))
      && (forall p :: InFlight(after, p) <==>
            if p == path then !stage.Leaving? && !stage.Unlisted? else InFlight(running, p))
  {
    var after, path := running[id := running[id].(stage := stage)], running[id].path;
    forall i, p
      ensures Lists(after, i, p) <==> if i == id then p == path && !stage.Unlisted? else Lists(running, i, p)
    {
    }
    assert Lists(running, id, path);
    forall p
      ensures Runs(after, p) <==> Runs(running, p) && !(p == path && stage.Unlisted?)
      ensures InFlight(after, p) <==> if p == path then !stage.Leaving? && !stage.Unlisted? else InFlight(running, p)
    {
      assert Lists(after, id, path) <==> !stage.Unlisted?;
      if i :| Lists(running, i, p) {
        assert i != id ==> Lists(after, i, p);
      }
      if i :| Lists(running, i, p) && !running[i].stage.Leaving? {
        assert i != id ==> Lists(after, i, p) && after[i] == running[i];
      }
    }
  }

  /** Starting a goroutine adds its path and nothing else. */
  lemma {:induction false} Spawned(running: map<nat, Goroutine>, id: nat, path: Path)
    requires id !in running && OnePerPath(running) && !Runs(running, path)
    ensures var after := running[id := Goroutine(path, Waiting)];
      && OnePerPath(after)
      && (forall p :: Runs(after, p) <==> p == path || Runs(running, p))
      && (forall p :: InFlight(after, p) <==> p == path || InFlight(running, p))
  {
    var after := running[id := Goroutine(path, Waiting)];
    forall i, p
      ensures Lists(after, i, p) <==> (i == id && p == path) || Lists(running, i, p)
    {
    }
    assert Lists(after, id, path);
    forall p
      ensures Runs(after, p) <==> p == path || Runs(running, p)
      ensures InFlight(after, p) <==> p == path || InFlight(running, p)
    {
      if i :| Lists(running, i, p) {
        assert Lists(after, i, p);
      }
      if i :| Lists(running, i, p) && !running[i].stage.Leaving? {
        assert Lists(after, i, p) && after[i] == running[i];
      }
    }
  }

  lemma {:induction false} EventKeepsCount(s: State, path: Path)
    requires PathInv(s) && CountInv(s) && s.loop.Running?
    ensures CountInv(Step(s, Event(path, true, false, false)))
  {
    var t := Step(s, Event(path, true, false, false));
    if path !in s.pending {
      Spawned(s.running, s.spawned, path);
    }
    forall p
      ensures Tally(t, p)
    {
      assert Tally(s, p);
      assert path !in s.pending ==> !InFlight(s.running, path);
    }
  }

  lemma {:induction false} EventKeepsInv(s: State, path: Path)
    requires Inv(s) && s.loop.Running?
    ensures Inv(Step(s, Event(path, true, false, false)))
  {
    EventKeepsCount(s, path);
    if path !in s.pending {
      Spawned(s.running, s.spawned, path);
    }
  }

  /** A goroutine that leaves is counted once more under out, unstable or abandoned. */
  lemma {:induction false} LeavingKeepsCount(s: State, id: nat, t: State)
    requires PathInv(s) && CountInv(s) && id in s.running
    requires !s.running[id].stage.Leaving? && !s.running[id].stage.Unlisted?
    requires t.running == s.running[id := s.running[id].(stage := Leaving)] && t.admitted == s.admitted
    requires forall p :: Done(t, p) == Done(s, p) + if p == s.running[id].path then 1 else 0
    ensures forall p :: Tally(t, p)
  {
    var path := s.running[id].path;
    Restaged(s.running, id, Leaving);
    assert InFlight(s.running, path);
    forall p
      ensures Tally(t, p)
    {
      assert Tally(s, p);
      assert InFlight(t.running, p) <==> p != path && InFlight(s.running, p);
    }
  }

  lemma {:induction false} SendKeepsCount(s: State, id: nat)
    requires PathInv(s) && CountInv(s) && id in s.running && s.running[id].stage.Ready?
    ensures CountInv(Step(s, Send(id)))
  {
    var g := s.running[id];
    PathsSnoc(s.out, Emission(g.path, g.stage.seen));
    LeavingKeepsCount(s, id, Step(s, Send(id)));
  }

  lemma {:induction false} SendKeepsInv(s: State, id: nat)
    requires Inv(s) && id in s.running && s.running[id].stage.Ready?
    ensures Inv(Step(s, Send(id)))
  {
    SendKeepsCount(s, id);
    Restaged(s.running, id, Leaving);
  }

  lemma {:induction false} UnstableKeepsInv(s: State, id: nat, seen: seq<S.Observation>)
    requires Inv(s) && id in s.running && s.running[id].stage.Waiting? && !S.Succeeds(seen, STABLE_CHECKS)
    ensures Inv(Step(s, FinishWait(id, seen)))
  {
    LeavingKeepsCount(s, id, Step(s, FinishWait(id, seen)));
    Restaged(s.running, id, Leaving);
  }

  lemma {:induction false} AbandonKeepsInv(s: State, id: nat)
    requires Inv(s) && id in s.running && s.running[id].stage.Ready? && s.cancelled
    ensures Inv(Step(s, GiveUp(id)))
  {
    LeavingKeepsCount(s, id, Step(s, GiveUp(id)));
    Restaged(s.running, id, Leaving);
  }

  lemma {:induction false} StableKeepsInv(s: State, id: nat, seen: seq<S.Observation>)
    requires Inv(s) && id in s.running && s.running[id].stage.Waiting? && S.Succeeds(seen, STABLE_CHECKS)
    ensures Inv(Step(s, FinishWait(id, seen)))
  {
    var t := Step(s, FinishWait(id, seen));
    Restaged(s.running, id, Ready(seen));
    forall p
      ensures Tally(t, p)
    {
      assert Tally(s, p);
      assert InFlight(s.running, s.running[id].path);
    }
  }

  lemma {:induction false} UnlistKeepsInv(s: State, id: nat)
    requires Inv(s) && id in s.running && s.running[id].stage.Leaving?
    ensures Inv(Step(s, Unlist(id)))
  {
    var t, path := Step(s, Unlist(id)), s.running[id].path;
    Restaged(s.running, id, Unlisted);
    forall p
      ensures Tally(t, p)
    {
      assert Tally(s, p) && Done(t, p) == Done(s, p);
      assert Lists(s.running, id, path);
      assert forall i :: Lists(s.running, i, path) ==> i == id;
    }
  }

  /** A goroutine that is off the pending map leaves no trace when it ends. */
  lemma {:induction false} Exited(running: map<nat, Goroutine>, id: nat)
    requires id in running && OnePerPath(running) && running[id].stage.Unlisted?
    ensures var after := running - {id};
      && OnePerPath(after)
      && (forall p :: Runs(after, p) <==> Runs(running, p))
      && (forall p :: InFlight(after, p) <==> InFlight(running, p))
  {
    var after := running - {id};
    assert forall i, p :: Lists(after, i, p) <==> Lists(running, i, p);
    forall p
      ensures InFlight(after, p) <==> InFlight(running, p)
    {
      if i :| Lists(running, i, p) && !running[i].stage.Leaving? {
        assert Lists(after, i, p) && after[i] == running[i];
      }
    }
  }

  lemma {:induction false} ExitKeepsInv(s: State, id: nat)
    requires Inv(s) && id in s.running && s.running[id].stage.Unlisted?
    ensures Inv(Step(s, Exit(id)))
  {
    Exited(s.running, id);
    var t := Step(s, Exit(id));
    forall p
      ensures Tally(t, p)
    {
      assert Tally(s, p) && Done(t, p) == Done(s, p);
    }
  }

  lemma {:induction false} WaitKeepsInv(s: State, id: nat, seen: seq<S.Observation>)
    requires Inv(s)
    ensures Inv(Step(s, FinishWait(id, seen)))
  {
    if id in s.running && s.running[id].stage.Waiting? {
      if S.Succeeds(seen, STABLE_CHECKS) {
        StableKeepsInv(s, id, seen);
      } else {
        UnstableKeepsInv(s, id, seen);
      }
    }
  }

  lemma {:induction false} SameTally(s: State, t: State)
    requires t.running == s.running && t.admitted == s.admitted && t.out == s.out
    requires t.unstable == s.unstable && t.abandoned == s.abandoned
    ensures forall p :: Tally(t, p) <==> Tally(s, p)
  {
    forall p
      ensures Tally(t, p) <==> Tally(s, p)
    {
      assert Done(t, p) == Done(s, p);
    }
  }

  lemma {:induction false} LoopKeepsInv(s: State, action: Action)
    requires Inv(s) && (action.Cancel? || action.LeaveLoop? || action.CloseOut?)
    ensures Inv(Step(s, action))
  {
    SameTally(s, Step(s, action));
  }

  lemma {:induction false} StepKeepsInv(s: State, action: Action)
    requires Inv(s)
    ensures Inv(Step(s, action))
  {
    match action {
      case Event(path, create, skip, ignored) =>
        if s.loop.Running? && create && !skip && !ignored {
          EventKeepsInv(s, path);
        }
      case FinishWait(id, seen) => WaitKeepsInv(s, id, seen);
      case Send(id) =>
        if id in s.running && s.running[id].stage.Ready? {
          SendKeepsInv(s, id);
        }
      case GiveUp(id) =>
        if id in s.running && s.running[id].stage.Ready? && s.cancelled {
          AbandonKeepsInv(s, id);
        }
      case Unlist(id) =>
        if id in s.running && s.running[id].stage.Leaving? {
          UnlistKeepsInv(s, id);
        }
      case Exit(id) =>
        if id in s.running && s.running[id].stage.Unlisted? {
          ExitKeepsInv(s, id);
        }
      case Cancel => LoopKeepsInv(s, action);
      case LeaveLoop => LoopKeepsInv(s, action);
      case CloseOut => LoopKeepsInv(s, action);
    }
  }

  lemma {:induction false} RunKeepsInv(s: State, actions: seq<Action>)
    requires Inv(s)
    ensures Inv(From(s, actions))
    decreases |actions|
  {
    if actions != [] {
      StepKeepsInv(s, actions[0]);
      RunKeepsInv(Step(s, actions[0]), actions[1..]);
    }
  }

  lemma IdleInv()
    ensures Inv(IDLE)
  {
    assert forall p :: Tally(IDLE, p);
  }

  /**
    At most one goroutine per path that has not taken the path off the pending map -- in particular
    at most one waiting or sending -- and the pending map names exactly the paths that have one.
  */
  lemma {:induction false} OneStabiliserPerPath(actions: seq<Action>)
    ensures var s := From(IDLE, actions);
      && (forall i, j :: (i in s.running && j in s.running && s.running[i].path == s.running[j].path
                          && !s.running[i].stage.Unlisted? && !s.running[j].stage.Unlisted?) ==> i == j)
      && (forall p :: p in s.pending <==>
            exists id :: id in s.running && s.running[id].path == p && !s.running[id].stage.Unlisted?)
  {
    IdleInv();
    RunKeepsInv(IDLE, actions);
    var s := From(IDLE, actions);
    forall i, j | i in s.running && j in s.running && s.running[i].path == s.running[j].path
        && !s.running[i].stage.Unlisted? && !s.running[j].stage.Unlisted?
      ensures i == j
    {
      assert Lists(s.running, i, s.running[i].path) && Lists(s.running, j, s.running[i].path);
    }
    forall p
      ensures p in s.pending <==>
        exists id :: id in s.running && s.running[id].path == p && !s.running[id].stage.Unlisted?
    {
      if id :| id in s.running && s.running[id].path == p && !s.running[id].stage.Unlisted? {
        assert Lists(s.running, id, p);
      }
    }
  }

  /**
    Every admitted event ends in at most one emission: emissions, unstable files, files abandoned
    because the context is over, and goroutines still at work add up to the admitted events, path by path.
  */
  lemma {:induction false} EmissionsAreAdmitted(actions: seq<Action>, p: Path)
    ensures var s := From(IDLE, actions);
      && var done := Paths(s.out)[p] + s.unstable[p] + s.abandoned[p];
      && done <= s.admitted[p] <= done + 1 && (!s.cancelled ==> s.abandoned[p] == 0)
      && (s.admitted[p] == done <==>
            forall id :: id in s.running && s.running[id].path == p ==>
              s.running[id].stage.Leaving? || s.running[id].stage.Unlisted?)
  {
    IdleInv();
    RunKeepsInv(IDLE, actions);
    var s := From(IDLE, actions);
    assert Tally(s, p);
    assert forall id :: Lists(s.running, id, p) <==>
      id in s.running && s.running[id].path == p && !s.running[id].stage.Unlisted?;
  }

  lemma {:induction false} EmittedIsCounted(out: seq<Emission>, i: nat)
    requires i < |out|
    ensures out[i].path in Paths(out)
  {
    if i < |out| - 1 {
      EmittedIsCounted(out[..|out| - 1], i);
    }
  }

  /** A path passes the checks only by an event of the run. */
  lemma {:induction false} PassedByEvent(s: State, actions: seq<Action>, p: Path)
    ensures p in From(s, actions).passed <==> p in s.passed || PassesIn(s, actions, p)
    decreases |actions|
  {
    if actions != [] {
      PassedByEvent(Step(s, actions[0]), actions[1..], p);
    }
  }

  /** Some Create event of the path, neither skipped nor ignored, is handled while the loop runs. */
  predicate PassesIn(s: State, actions: seq<Action>, p: Path)
    decreases |actions|
  {
    actions != [] &&
      ((actions[0] == Event(p, true, false, false) && s.loop.Running?)
       || PassesIn(Step(s, actions[0]), actions[1..], p))
  }

  lemma {:induction false} PassesByAction(s: State, actions: seq<Action>, p: Path)
    requires PassesIn(s, actions, p)
    ensures Event(p, true, false, false) in actions
    decreases |actions|
  {
    if actions[0] != Event(p, true, false, false) {
      PassesByAction(Step(s, actions[0]), actions[1..], p);
    }
  }

  /** Whatever comes out had a Create event that was neither skipped nor ignored, and then proved stable. */
  lemma {:induction false} EmissionsAreVetted(actions: seq<Action>, i: nat)
    requires i < |From(IDLE, actions).out|
    ensures var s := From(IDLE, actions);
      && Event(s.out[i].path, true, false, false) in actions
      && s.out[i].path in s.passed && S.Succeeds(s.out[i].seen, 3)
  {
    var s := From(IDLE, actions);
    IdleInv();
    RunKeepsInv(IDLE, actions);
    EmittedIsCounted(s.out, i);
    assert Tally(s, s.out[i].path);
    PassedByEvent(IDLE, actions, s.out[i].path);
    PassesByAction(IDLE, actions, s.out[i].path);
  }

  /**
    In every run, while the loop runs: a Create event that passes the checks starts a goroutine for its
    path exactly if none of that path is still on the pending map, whatever other paths are doing;
    any other event starts nothing.
  */
  lemma {:induction false} AdmitsExactly(actions: seq<Action>, path: Path, create: bool, skip: bool, ignored: bool)
    requires From(IDLE, actions).loop.Running?
    ensures var s := From(IDLE, actions); var t := Step(s, Event(path, create, skip, ignored));
      var idle := forall id :: id in s.running && s.running[id].path == path ==> s.running[id].stage.Unlisted?;
      if create && !skip && !ignored && idle
      then t.admitted == s.admitted + multiset{path}
        && s.spawned !in s.running && t.running == s.running[s.spawned := Goroutine(path, Waiting)]
      else t.admitted == s.admitted && t.running == s.running
  {
    IdleInv();
    RunKeepsInv(IDLE, actions);
    var s := From(IDLE, actions);
    assert forall id :: Lists(s.running, id, path) <==>
      id in s.running && s.running[id].path == path && !s.running[id].stage.Unlisted?;
    assert path in s.pending <==> Runs(s.running, path);
  }

  /** A wait that succeeds is followed by the emission of its path, one that fails never is. */
  lemma {:induction false} WaitThenSend(s: State, id: nat, seen: seq<S.Observation>)
    requires id in s.running && s.running[id].stage.Waiting?
    ensures var path := s.running[id].path;
      var waited := Step(s, FinishWait(id, seen)); var sent := Step(waited, Send(id));
      && waited.out == s.out
      && (if S.Succeeds(seen, STABLE_CHECKS)
          then sent.out == s.out + [Emission(path, seen)] && sent.unstable == s.unstable
          else sent.out == s.out && sent.unstable == s.unstable + multiset{path})
  {
  }

  /** Cancellation is never forgotten, and lets a goroutine that has still to send drop its path. */
  lemma {:induction false} CancelLetsGo(s: State, later: seq<Action>, id: nat)
    requires var t := From(Step(s, Cancel), later); id in t.running && t.running[id].stage.Ready?
    ensures var t := From(Step(s, Cancel), later); var u := Step(t, GiveUp(id));
      t.cancelled && u.out == t.out && u.abandoned == t.abandoned + multiset{t.running[id].path}
  {
    StaysCancelled(Step(s, Cancel), later);
  }

  lemma {:induction false} StaysCancelled(s: State, later: seq<Action>)
    requires s.cancelled
    ensures From(s, later).cancelled
    decreases |later|
  {
    if later != [] {
      StaysCancelled(Step(s, later[0]), later[1..]);
    }
  }

  // ---- the channel can always be closed ----

  function Finish(id: nat): seq<Action> {
    [FinishWait(id, []), Send(id), Unlist(id), Exit(id)]
  }

  lemma {:induction false} RunAppend(s: State, a: seq<Action>, b: seq<Action>)
    ensures From(s, a + b) == From(From(s, a), b)
    decreases |a|
  {
    if a == [] {
      assert a + b == b;
    } else {
      assert (a + b)[1..] == a[1..] + b;
      RunAppend(Step(s, a[0]), a[1..], b);
    }
  }

  lemma {:induction false} StopsWaiting(s: State, id: nat)
    requires id in s.running
    ensures var t := Step(Step(s, FinishWait(id, [])), Send(id));
      && id in t.running && (t.running[id].stage.Leaving? || t.running[id].stage.Unlisted?)
      && t.running - {id} == s.running - {id} && t.loop == s.loop
  {
  }

  lemma {:induction false} GoesAway(s: State, id: nat)
    requires id in s.running && (s.running[id].stage.Leaving? || s.running[id].stage.Unlisted?)
    ensures var t := Step(Step(s, Unlist(id)), Exit(id)); t.running == s.running - {id} && t.loop == s.loop
  {
  }

  lemma FourSteps(s: State, a: Action, b: Action, c: Action, d: Action)
    ensures From(s, [a, b, c, d]) == Step(Step(Step(Step(s, a), b), c), d)
  {
    var t := Step(Step(s, a), b);
    assert From(t, [c, d]) == From(Step(t, c), [d]) == Step(Step(t, c), d);
    assert [a, b, c, d][1..][1..] == [c, d];
  }

  /** From any stage a goroutine can finish. */
  lemma {:induction false} Finishes(s: State, id: nat)
    requires id in s.running
    ensures var t := From(s, Finish(id)); t.running == s.running - {id} && t.loop == s.loop
  {
    FourSteps(s, FinishWait(id, []), Send(id), Unlist(id), Exit(id));
    StopsWaiting(s, id);
    GoesAway(Step(Step(s, FinishWait(id, [])), Send(id)), id);
  }

  ghost predicate CanClose(s: State) {
    exists later :: From(s, later).loop.Closed?
  }

  lemma {:induction false} Drains(s: State)
    requires s.loop.Draining?
    ensures CanClose(s)
    decreases |s.running|
  {
    if s.running == map[] {
      assert From(s, [CloseOut]) == From(Step(s, CloseOut), [CloseOut][1..]);
    } else {
      var id :| id in s.running;
      var t := From(s, Finish(id));
      Finishes(s, id);
      Drains(t);
      var later :| From(t, later).loop.Closed?;
      RunAppend(s, Finish(id), later);
    }
  }

  /** Whatever is still at work, leaving the loop and letting the goroutines end closes the channel. */
  lemma {:induction false} ChannelCanClose(s: State)
    ensures CanClose(s)
  {
    if s.loop.Closed? {
      assert From(s, []) == s;
    } else if s.loop.Draining? {
      Drains(s);
    } else {
      var t := Step(s, LeaveLoop);
      Drains(t);
      var later :| From(t, later).loop.Closed?;
      assert ([LeaveLoop] + later)[1..] == later;
      assert From(s, [LeaveLoop] + later) == From(t, later);
    }
  }

  /** The channel closes only once all goroutines are gone; nothing is ever sent on it afterwards. */
  lemma {:induction false} ClosesLast(actions: seq<Action>, later: seq<Action>)
    ensures var s := From(IDLE, actions); var t := From(s, later);
      && !t.panicked
      && (s.loop.Closed? ==> s.running == map[] && t.loop.Closed? && t.out == s.out && t.running == map[])
  {
    IdleInv();
    RunKeepsInv(IDLE, actions);
    StaysClosed(From(IDLE, actions), later);
  }

  lemma {:induction false} StaysClosed(s: State, later: seq<Action>)
    requires Inv(s)
    ensures var t := From(s, later);
      !t.panicked && (s.loop.Closed? ==> t.loop.Closed? && t.out == s.out && t.running == map[])
    decreases |later|
  {
    if later != [] {
      StepKeepsInv(s, later[0]);
      StaysClosed(Step(s, later[0]), later[1..]);
    }
  }
}
