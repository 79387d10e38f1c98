/**
  The daemon's file pipeline over whole runs. One goroutine handles files one after the other
  (sweeps, prunes and watcher deliveries); dry-run toggles arrive from any number of tray clients
  and reach the runtime later; a reload builds a new engine and swaps it in.
*/
module Pipeline {
  import opened Basics
  import opened Tracker

  type Pool = nat

  /** Where the handling of the current file stands. */
  datatype Handling =
    | Idle
    | Statted(path: Path, fp: Fingerprint)
    | Asked(path: Path, fp: Fingerprint, dry: bool)      // runtime mode read for the tracker
    | Chosen(path: Path, fp: Fingerprint)
    | Running(path: Path, fp: Fingerprint, dry: bool)    // inside Process, holding the read lock
    | Finished(path: Path, fp: Fingerprint, dry: bool)   // a rule matched and succeeded

  datatype Reload =
    | NoReload
    | Loaded(pool: Option<Pool>)
    | Built(pool: Option<Pool>, dry: bool, at: nat)   // engine built with the mode read after `at` happenings
    | Swapped

  datatype Happening =
    | ModeSet(dry: bool)
    | EngineSwapped(dry: bool, at: nat)       // an engine built after `at` happenings
    | Executed(path: Path, fp: Fingerprint)   // one action was really executed

  /** A call of Process that returned a match without error. */
  datatype Success = Success(path: Path, record: Record)

  /** The tracker, what was ever done to it, and the file at hand. */
  datatype Files = Files(
    records: Records,
    ops: seq<Op>,
    handling: Handling,
    successes: set<Success>)

  /** The three copies of the dry-run flag. */
  datatype Modes = Modes(
    ui: bool,
    runtime: bool,
    engine: bool,
    callbacks: multiset<bool>,   // toggles announced by the UI, not yet carried to the runtime
    happened: seq<Happening>)

  datatype Pools = Pools(
    owned: seq<Pool>,            // runtimeState.sshPools
    built: nat,                  // pools are numbered in the order they are built
    closed: seq<Pool>,           // every call of Pool.Close
    engine: Option<Pool>,        // the pool of the engine in force
    shutDown: bool)

  datatype State = State(files: Files, modes: Modes, pools: Pools, reload: Reload)

  datatype Action =
    | Toggle
    | RunCallback(dry: bool)
    | LoadConfig(withHosts: bool)
    | BuildEngine(ok: bool)
    | SwapEngine
    | ResetTracker
    | StatFile(path: Path, fp: Fingerprint)
    | ReadMode
    | AskTracker
    | StartProcess
    | ExecuteAction
    | EndProcess(matched: bool, ok: bool)
    | MarkFile
    | PruneTracker(gone: set<Path>)
    | Shutdown

  /** The state in which the daemon starts: one engine, built with the mode of the command line. */
  function Boot(dry: bool, withHosts: bool): State {
    State(Files(map[], [], Idle, {}), Modes(dry, dry, dry, multiset{}, []),
          if withHosts then Pools([0], 1, [], Some(0), false) else Pools([], 0, [], None, false), NoReload)
  }

  function PoolList(pool: Option<Pool>): seq<Pool> {
    if pool.Some? then [pool.value] else []
  }

  function Track(f: Files, op: Op): Files {
    f.(records := Apply(f.records, op), ops := f.ops + [op])
  }

  /** Handling of files, given the runtime's and the engine's mode. */
  function StepFiles(f: Files, modes: Modes, action: Action): Files {
    var h := f.handling;
    match action
    case StatFile(path, fp) => if h.Idle? then f.(handling := Statted(path, fp)) else f
    case ReadMode => if h.Statted? then f.(handling := Asked(h.path, h.fp, modes.runtime)) else f
    case AskTracker =>
      if !h.Asked? then f
      else f.(handling := if IsDue(f.records, h.path, h.fp, h.dry) then Chosen(h.path, h.fp) else Idle)
    case StartProcess => if h.Chosen? then f.(handling := Running(h.path, h.fp, modes.engine)) else f
    case EndProcess(matched, ok) =>
      if !h.Running? then f
      else if !matched || !ok then f.(handling := Idle)
      else f.(handling := Finished(h.path, h.fp, h.dry),
              successes := f.successes + {Success(h.path, Record(h.fp, h.dry))})
    case MarkFile =>
      if h.Finished? then Track(f, Mark(h.path, Record(h.fp, h.dry))).(handling := Idle) else f
    case PruneTracker(gone) => if h.Idle? then Track(f, Op.Prune(gone)) else f
    case _ => f
  }

  /** Process holds the read lock: neither SetDryRun nor SwapEngine nor Close can get in between. */
  predicate Locked(s: State) {
    s.files.handling.Running?
  }

  function StepModes(m: Modes, locked: bool, running: Handling, reload: Reload, action: Action): Modes {
    match action
    case Toggle => m.(ui := !m.ui, callbacks := m.callbacks + multiset{!m.ui})
    case RunCallback(dry) =>
      if dry !in m.callbacks || locked then m else
        m.(callbacks := m.callbacks - multiset{dry}, runtime := dry, engine := dry,
           happened := m.happened + [ModeSet(dry)])
    case SwapEngine =>
      if !reload.Built? || locked then m else
        m.(engine := reload.dry, happened := m.happened + [EngineSwapped(reload.dry, reload.at)])
    case ExecuteAction =>
      if !running.Running? || running.dry then m else
        m.(happened := m.happened + [Executed(running.path, running.fp)])
    case _ => m
  }

  function StepPools(p: Pools, locked: bool, reload: Reload, action: Action): Pools {
    match action
    case LoadConfig(withHosts) => if reload.NoReload? && withHosts then p.(built := p.built + 1) else p
    case BuildEngine(ok) => if reload.Loaded? && !ok then p.(closed := p.closed + PoolList(reload.pool)) else p
    case SwapEngine =>
      if !reload.Built? || locked then p else p.(owned := p.owned + PoolList(reload.pool), engine := reload.pool)
    case Shutdown => if locked then p else p.(owned := [], closed := p.closed + p.owned, shutDown := true)
    case _ => p
  }

  function StepReload(r: Reload, locked: bool, built: nat, m: Modes, action: Action): Reload {
    match action
    case LoadConfig(withHosts) => if r.NoReload? then Loaded(if withHosts then Some(built) else None) else r
    case BuildEngine(ok) => if !r.Loaded? then r else if ok then Built(r.pool, m.runtime, |m.happened|) else NoReload
    case SwapEngine => if r.Built? && !locked then Swapped else r
    case ResetTracker => if r.Swapped? then NoReload else r
    case _ => r
  }

  /** An action that is not possible in the current state leaves it unchanged. */
  function Step(s: State, action: Action): State {
    State(
      if action.ResetTracker? && s.reload.Swapped? then Track(s.files, Op.Reset)
      else StepFiles(s.files, s.modes, action),
      StepModes(s.modes, Locked(s), s.files.handling, s.reload, action),
      StepPools(s.pools, Locked(s), s.reload, action),
      StepReload(s.reload, Locked(s), s.pools.built, s.modes, action))
  }

  function From(s: State, actions: seq<Action>): State
    decreases |actions|
  {
    if actions == [] then s else From(Step(s, actions[0]), actions[1..])
  }

  // ---- at most one real execution per recorded version ----

  /** The latest mark of the path is not a real one with this fingerprint. */
  ghost predicate NotRecorded(ops: seq<Op>, path: Path, fp: Fingerprint) {
    forall i :: LatestMark(ops, path, i) ==> ops[i].record.fingerprint != fp || ops[i].record.dryRun
  }

  /** Every mark was made where no real mark of the version stood, and for a success. */
  ghost predicate MarksOk(ops: seq<Op>, successes: set<Success>) {
    forall j :: 0 <= j < |ops| && ops[j].Mark? ==>
      NotRecorded(ops[..j], ops[j].path, ops[j].record.fingerprint) && Success(ops[j].path, ops[j].record) in successes
  }

  ghost predicate HandlingOk(ops: seq<Op>, h: Handling, successes: set<Success>) {
    && (h.Chosen? || h.Running? || h.Finished? ==> NotRecorded(ops, h.path, h.fp))
    && (h.Finished? ==> Success(h.path, Record(h.fp, h.dry)) in successes)
  }

  ghost predicate MarksInv(f: Files) {
    f.records == Replay(f.ops) && MarksOk(f.ops, f.successes) && HandlingOk(f.ops, f.handling, f.successes)
  }

  lemma {:induction false} MarksSnoc(ops: seq<Op>, successes: set<Success>, op: Op)
    requires MarksOk(ops, successes)
    requires op.Mark? ==> NotRecorded(ops, op.path, op.record.fingerprint)
    requires op.Mark? ==> Success(op.path, op.record) in successes
    ensures MarksOk(ops + [op], successes) && Replay(ops + [op]) == Apply(Replay(ops), op)
  {
    var longer := ops + [op];
    assert longer[..|ops|] == ops;
    forall j | 0 <= j < |longer| && longer[j].Mark?
      ensures NotRecorded(longer[..j], longer[j].path, longer[j].record.fingerprint)
        && Success(longer[j].path, longer[j].record) in successes
    {
      assert j < |ops| ==> longer[..j] == ops[..j];
    }
  }

  /** Nothing is recorded right after a reset. */
  lemma {:induction false} ResetForgets(ops: seq<Op>, path: Path, fp: Fingerprint)
    ensures NotRecorded(ops + [Op.Reset], path, fp)
  {
    assert (ops + [Op.Reset])[|ops|] == Op.Reset && Overrides(Op.Reset, path);
  }

  lemma {:induction false} ResetKeepsMarks(f: Files)
    requires MarksInv(f)
    ensures MarksInv(Track(f, Op.Reset))
  {
    MarksSnoc(f.ops, f.successes, Op.Reset);
    if !f.handling.Idle? {
      ResetForgets(f.ops, f.handling.path, f.handling.fp);
    }
  }

  lemma {:induction false} FilesKeepMarks(f: Files, modes: Modes, action: Action)
    requires MarksInv(f)
    ensures MarksInv(StepFiles(f, modes, action))
  {
    match action {
      case AskTracker =>
        if f.handling.Asked? {
          ReplayIsLatestMarks(f.ops, f.handling.path);
        }
      case EndProcess(matched, ok) =>
        assert MarksOk(f.ops, StepFiles(f, modes, action).successes);
      case MarkFile =>
        if f.handling.Finished? {
          MarksSnoc(f.ops, f.successes, Mark(f.handling.path, Record(f.handling.fp, f.handling.dry)));
        }
      case PruneTracker(gone) =>
        MarksSnoc(f.ops, f.successes, Op.Prune(gone));
      case _ =>
    }
  }

  lemma {:induction false} RunKeepsMarks(s: State, actions: seq<Action>)
    requires MarksInv(s.files)
    ensures MarksInv(From(s, actions).files)
    decreases |actions|
  {
    if actions != [] {
      ResetKeepsMarks(s.files);
      FilesKeepMarks(s.files, s.modes, actions[0]);
      RunKeepsMarks(Step(s, actions[0]), actions[1..]);
    }
  }

  lemma {:induction false} FirstOverride(ops: seq<Op>, path: Path, i: int, j: int) returns (k: int)
    requires 0 <= i < j <= |ops| && ops[i].Mark? && ops[i].path == path
    requires !LatestMark(ops[..j], path, i)
    ensures i < k < j && Overrides(ops[k], path) && LatestMark(ops[..k], path, i)
  {
    k := i + 1;
    while k < j && !Overrides(ops[k], path)
      invariant i < k <= j
      invariant forall l :: i < l < k ==> !Overrides(ops[l], path)
    {
      k := k + 1;
    }
  }

  /**
    Two real runs of a path recorded with the same fingerprint are separated by a recorded run of
    another version, by a prune of the path or by a reset.
  */
  lemma {:induction false} AtMostOncePerVersion(dry: bool, withHosts: bool, actions: seq<Action>, i: int, j: int)
    requires var ops := From(Boot(dry, withHosts), actions).files.ops;
      0 <= i < j < |ops| && ops[i].Mark? && ops[i] == ops[j] && !ops[i].record.dryRun
    ensures var ops := From(Boot(dry, withHosts), actions).files.ops;
      exists k :: i < k < j && match ops[k]
        case Mark(p, record) => p == ops[i].path && record.fingerprint != ops[i].record.fingerprint
        case Prune(gone) => ops[i].path in gone
        case Reset => true
  {
    RunKeepsMarks(Boot(dry, withHosts), actions);
    var ops := From(Boot(dry, withHosts), actions).files.ops;
    assert NotRecorded(ops[..j], ops[j].path, ops[j].record.fingerprint);
    assert ops[..j][i] == ops[i];
    var k := FirstOverride(ops, ops[i].path, i, j);
    if ops[k].Mark? {
      assert NotRecorded(ops[..k], ops[k].path, ops[k].record.fingerprint);
      assert ops[..k][i] == ops[i];
    }
  }

  /** A real record is never replaced by a record, dry or real, of the same fingerprint. */
  lemma {:induction false} RealRecordsStand(dry: bool, withHosts: bool, actions: seq<Action>, i: int, j: int)
    requires var ops := From(Boot(dry, withHosts), actions).files.ops;
      0 <= i < j < |ops| && ops[i].Mark? && LatestMark(ops[..j], ops[i].path, i) && !ops[i].record.dryRun
      && ops[j].Mark? && ops[j].path == ops[i].path
    ensures var ops := From(Boot(dry, withHosts), actions).files.ops;
      ops[j].record.fingerprint != ops[i].record.fingerprint
  {
    RunKeepsMarks(Boot(dry, withHosts), actions);
    var ops := From(Boot(dry, withHosts), actions).files.ops;
    assert NotRecorded(ops[..j], ops[j].path, ops[j].record.fingerprint);
    assert ops[..j][i] == ops[i];
  }

  /** A file is passed over only because the same version matched and succeeded before, for real or as dry as now. */
  lemma {:induction false} SkipsAreEarned(dry: bool, withHosts: bool, actions: seq<Action>)
    requires var s := From(Boot(dry, withHosts), actions);
      s.files.handling.Asked? && Step(s, AskTracker).files.handling.Idle?
    ensures var f := From(Boot(dry, withHosts), actions).files;
      exists d :: Success(f.handling.path, Record(f.handling.fp, d)) in f.successes && (!d || f.handling.dry)
  {
    RunKeepsMarks(Boot(dry, withHosts), actions);
    var f := From(Boot(dry, withHosts), actions).files;
    SkipIsJustified(f.ops, f.handling.path, f.handling.fp, f.handling.dry);
    var i :| LatestMark(f.ops, f.handling.path, i) && f.ops[i].record.fingerprint == f.handling.fp
      && (!f.ops[i].record.dryRun || f.handling.dry);
    assert Success(f.handling.path, f.ops[i].record) in f.successes;
  }

  lemma {:induction false} RunningIsDue(f: Files)
    requires MarksInv(f) && f.handling.Running?
    ensures IsDue(f.records, f.handling.path, f.handling.fp, false)
  {
    SkipIsJustified(f.ops, f.handling.path, f.handling.fp, false);
  }

  /** A file whose processing failed or matched nothing leaves no record and stays due for a real run. */
  lemma {:induction false} FailuresStayDue(dry: bool, withHosts: bool, actions: seq<Action>, matched: bool, ok: bool)
    requires From(Boot(dry, withHosts), actions).files.handling.Running?
    ensures var f := From(Boot(dry, withHosts), actions).files;
      var after := Step(From(Boot(dry, withHosts), actions), EndProcess(matched, ok)).files;
      && IsDue(f.records, f.handling.path, f.handling.fp, false)
      && after.records == f.records && after.ops == f.ops
      && (after.handling == Idle <==> !(matched && ok))
  {
    RunKeepsMarks(Boot(dry, withHosts), actions);
    RunningIsDue(From(Boot(dry, withHosts), actions).files);
  }

  // ---- at most one real execution ----

  /** Nothing in the actions makes the tracker forget the path, and its file stays at this version. */
  predicate LeavesVersion(actions: seq<Action>, path: Path, fp: Fingerprint) {
    forall a :: a in actions ==>
      && !a.ResetTracker? && (a.PruneTracker? ==> path !in a.gone)
      && (a.StatFile? && a.path == path ==> a.fp == fp)
  }

  /** The version has a real record, and it is not being processed. */
  ghost predicate Settled(s: State, path: Path, fp: Fingerprint, since: nat) {
    var h := s.files.handling;
    && path in s.files.records && s.files.records[path] == Record(fp, false)
    && (h.Chosen? || h.Running? || h.Finished? ==> h.path != path)
    && ((h.Statted? || h.Asked?) && h.path == path ==> h.fp == fp)
    && since <= |s.modes.happened|
    && (forall k :: since <= k < |s.modes.happened| && s.modes.happened[k].Executed? ==>
          s.modes.happened[k].path != path)
  }

  lemma {:induction false} SettledStays(s: State, later: seq<Action>, path: Path, fp: Fingerprint, since: nat)
    requires Settled(s, path, fp, since) && LeavesVersion(later, path, fp)
    ensures Settled(From(s, later), path, fp, since)
    decreases |later|
  {
    if later != [] {
      assert later[0] in later && forall a :: a in later[1..] ==> a in later;
      var t := Step(s, later[0]);
      SettledStays(t, later[1..], path, fp, since);
    }
  }

  /**
    Executions, not just records: once a real run of a version is over and marked, no continuation
    processes or executes anything for the path -- until a reset, a prune of the path, or another version.
  */
  lemma {:induction false} NeverExecutedAgain(s: State, later: seq<Action>)
    requires s.files.handling.Finished? && !s.files.handling.dry
    requires LeavesVersion(later, s.files.handling.path, s.files.handling.fp)
    ensures var path := s.files.handling.path; var t := From(Step(s, MarkFile), later); var h := t.files.handling;
      && !((h.Chosen? || h.Running? || h.Finished?) && h.path == path)
      && |s.modes.happened| <= |t.modes.happened|
      && (forall k :: |s.modes.happened| <= k < |t.modes.happened| && t.modes.happened[k].Executed? ==>
            t.modes.happened[k].path != path)
  {
    SettledStays(Step(s, MarkFile), later, s.files.handling.path, s.files.handling.fp, |s.modes.happened|);
  }

  lemma {:induction false} RunAppend(s: State, a: seq<Action>, b: seq<Action>)
    ensures From(s, a + b) == From(From(s, a), b)
    decreases |a|
  {
    if a == [] {
      assert a + b == b;
    } else {
      assert (a + b)[1..] == a[1..] + b;
      RunAppend(Step(s, a[0]), a[1..], b);
    }
  }

  lemma ThreeSteps(s: State, a: Action, b: Action, c: Action)
    ensures From(s, [a, b, c]) == Step(Step(Step(s, a), b), c)
  {
    assert [a, b, c][1..][1..] == [c] && [c][1..] == [];
    assert From(s, [a, b, c]) == From(Step(Step(s, a), b), [c]);
  }

  /** The handling of a file up to the question whether it is due. */
  lemma {:induction false} FileAsked(s: State, path: Path, fp: Fingerprint)
    requires s.files.handling.Idle?
    ensures From(s, [StatFile(path, fp), ReadMode, AskTracker]) ==
      s.(files := s.files.(handling :=
           if IsDue(s.files.records, path, fp, s.modes.runtime) then Chosen(path, fp) else Idle))
  {
    ThreeSteps(s, StatFile(path, fp), ReadMode, AskTracker);
  }

  /** A chosen file: what a real run executes, and where the outcome of Process leaves the handling. */
  lemma {:induction false} FileProcessed(s: State, path: Path, fp: Fingerprint, matched: bool, ok: bool)
    requires s.files.handling == Chosen(path, fp)
    ensures var t := From(s, [StartProcess, ExecuteAction, EndProcess(matched, ok)]); var dry := s.modes.engine;
      && t.files.handling == (if matched && ok then Finished(path, fp, dry) else Idle)
      && t.files.records == s.files.records && t.pools == s.pools && t.reload == s.reload
      && t.modes == (if dry then s.modes else s.modes.(happened := s.modes.happened + [Executed(path, fp)]))
  {
    ThreeSteps(s, StartProcess, ExecuteAction, EndProcess(matched, ok));
  }

  function HandleFile(path: Path, fp: Fingerprint, matched: bool, ok: bool): seq<Action> {
    [StatFile(path, fp), ReadMode, AskTracker] + [StartProcess, ExecuteAction, EndProcess(matched, ok)] + [MarkFile]
  }

  /**
    One file handled without anything in between: if it is due in the runtime's mode it is processed
    in the engine's mode, executing when that is real, and recorded exactly if it matched and succeeded.
  */
  lemma {:induction false} OneFileHandled(s: State, path: Path, fp: Fingerprint, matched: bool, ok: bool)
    requires s.files.handling.Idle?
    ensures var t := From(s, HandleFile(path, fp, matched, ok));
      var due, dry := IsDue(s.files.records, path, fp, s.modes.runtime), s.modes.engine;
      && t.files.handling == Idle && t.pools == s.pools && t.reload == s.reload
      && t.files.records ==
           (if due && matched && ok then s.files.records[path := Record(fp, dry)] else s.files.records)
      && t.modes ==
           (if due && !dry then s.modes.(happened := s.modes.happened + [Executed(path, fp)]) else s.modes)
  {
    var ask := [StatFile(path, fp), ReadMode, AskTracker];
    var run := [StartProcess, ExecuteAction, EndProcess(matched, ok)];
    var asked := From(s, ask);
    FileAsked(s, path, fp);
    RunAppend(s, ask + run, [MarkFile]);
    RunAppend(s, ask, run);
    ThreeSteps(asked, run[0], run[1], run[2]);
    if IsDue(s.files.records, path, fp, s.modes.runtime) {
      FileProcessed(asked, path, fp, matched, ok);
    }
    var done := From(asked, run);
    assert [MarkFile][1..] == [];
    assert From(done, [MarkFile]) == From(Step(done, MarkFile), []) == Step(done, MarkFile);
  }

  /** A prune between files forgets exactly the paths that are gone. */
  lemma {:induction false} PruneForgets(s: State, gone: set<Path>, path: Path)
    requires s.files.handling.Idle?
    ensures var records := Step(s, PruneTracker(gone)).files.records;
      && (path in records <==> path in s.files.records && path !in gone)
      && (path in records ==> records[path] == s.files.records[path])
  {
  }

  /**
    A reload without anything in between: the new engine is in force in the runtime's mode, with its own
    pool, and every file is due again; a failed one leaves modes, records and owned pools alone and
    closes the pool it had built.
  */
  lemma {:induction false} OneReload(s: State, withHosts: bool, ok: bool)
    requires s.reload.NoReload? && !s.files.handling.Running?
    ensures var t := From(s, [LoadConfig(withHosts), BuildEngine(ok), SwapEngine] + [ResetTracker]);
      var pool := if withHosts then [s.pools.built] else [];
      && t.reload == NoReload && t.pools.built == s.pools.built + |pool| && t.pools.shutDown == s.pools.shutDown
      && t.modes.ui == s.modes.ui && t.modes.runtime == s.modes.runtime && t.modes.callbacks == s.modes.callbacks
      && (if ok then
            && t.modes.engine == s.modes.runtime && t.files.records == map[]
            && t.pools.owned == s.pools.owned + pool && t.pools.closed == s.pools.closed
            && t.pools.engine == (if withHosts then Some(s.pools.built) else None)
          else
            && t.modes == s.modes && t.files == s.files
            && t.pools.owned == s.pools.owned && t.pools.closed == s.pools.closed + pool
            && t.pools.engine == s.pools.engine)
  {
    var reload := [LoadConfig(withHosts), BuildEngine(ok), SwapEngine];
    RunAppend(s, reload, [ResetTracker]);
    ThreeSteps(s, reload[0], reload[1], reload[2]);
    assert [ResetTracker][1..] == [];
    var u := From(s, reload);
    assert From(u, [ResetTracker]) == From(Step(u, ResetTracker), []) == Step(u, ResetTracker);
  }

  // ---- dry run ----

  /** The mode in force after some happenings: the last one set or swapped in. */
  function Mode(initial: bool, happened: seq<Happening>): bool {
    if happened == [] then initial else
      match happened[|happened| - 1]
      case ModeSet(dry) => dry
      case EngineSwapped(dry, _) => dry
      case _ => Mode(initial, happened[..|happened| - 1])
  }

  /** The last mode set explicitly. */
  function LastSet(initial: bool, happened: seq<Happening>): bool {
    if happened == [] then initial else
      var last := happened[|happened| - 1];
      if last.ModeSet? then last.dry else LastSet(initial, happened[..|happened| - 1])
  }

  ghost predicate ModeInv(initial: bool, m: Modes, h: Handling) {
    && m.engine == Mode(initial, m.happened) && m.runtime == LastSet(initial, m.happened)
    && (h.Running? ==> h.dry == m.engine)
    && (forall k :: 0 <= k < |m.happened| && m.happened[k].Executed? ==> !Mode(initial, m.happened[..k]))
  }

  lemma {:induction false} HappeningKeepsMode(initial: bool, happened: seq<Happening>, h: Happening)
    requires forall k :: 0 <= k < |happened| && happened[k].Executed? ==> !Mode(initial, happened[..k])
    requires h.Executed? ==> !Mode(initial, happened)
    ensures var longer := happened + [h];
      forall k :: 0 <= k < |longer| && longer[k].Executed? ==> !Mode(initial, longer[..k])
    ensures Mode(initial, happened + [h]) ==
      match h case ModeSet(dry) => dry case EngineSwapped(dry, _) => dry case _ => Mode(initial, happened)
    ensures LastSet(initial, happened + [h]) == if h.ModeSet? then h.dry else LastSet(initial, happened)
  {
    var longer := happened + [h];
    assert longer[..|happened|] == happened;
    forall k | 0 <= k < |longer| && longer[k].Executed?
      ensures !Mode(initial, longer[..k])
    {
      assert k < |happened| ==> longer[..k] == happened[..k];
    }
  }

  lemma {:induction false} StepKeepsMode(initial: bool, s: State, action: Action)
    requires ModeInv(initial, s.modes, s.files.handling)
    ensures ModeInv(initial, Step(s, action).modes, Step(s, action).files.handling)
  {
    var m, h := s.modes, s.files.handling;
    match action {
      case RunCallback(dry) => HappeningKeepsMode(initial, m.happened, ModeSet(dry));
      case SwapEngine =>
        if s.reload.Built? {
          HappeningKeepsMode(initial, m.happened, EngineSwapped(s.reload.dry, s.reload.at));
        }
      case ExecuteAction =>
        if h.Running? && !h.dry {
          HappeningKeepsMode(initial, m.happened, Executed(h.path, h.fp));
        }
      case _ =>
    }
  }

  lemma {:induction false} RunKeepsMode(initial: bool, s: State, actions: seq<Action>)
    requires ModeInv(initial, s.modes, s.files.handling)
    ensures var t := From(s, actions); ModeInv(initial, t.modes, t.files.handling)
    decreases |actions|
  {
    if actions != [] {
      StepKeepsMode(initial, s, actions[0]);
      RunKeepsMode(initial, Step(s, actions[0]), actions[1..]);
    }
  }

  /**
    No action is executed while the engine in force is dry: after a SetDryRun(true) nothing runs until a
    SetDryRun(false) or the swap to an engine built with dry-run off. A call of Process keeps the
    mode it started with, and that is the engine's mode throughout.
  */
  lemma {:induction false} NothingRunsDry(dry: bool, withHosts: bool, actions: seq<Action>, k: int)
    ensures var s := From(Boot(dry, withHosts), actions); var m, h := s.modes, s.files.handling;
      && (0 <= k < |m.happened| && m.happened[k].Executed? ==> !Mode(dry, m.happened[..k]))
      && (h.Running? ==> h.dry == m.engine == Mode(dry, m.happened))
  {
    RunKeepsMode(dry, Boot(dry, withHosts), actions);
  }

  /** Position k is the last swap, and no mode was set after it. */
  predicate LastWord(happened: seq<Happening>, k: int) {
    && 0 <= k < |happened| && happened[k].EngineSwapped?
    && forall j :: k < j < |happened| ==> happened[j].Executed?
  }

  lemma {:induction false} ModesByHistory(initial: bool, happened: seq<Happening>)
    ensures Mode(initial, happened) != LastSet(initial, happened) <==>
      exists k :: LastWord(happened, k) && happened[k].dry != LastSet(initial, happened)
    decreases |happened|
  {
    if happened != [] {
      var n := |happened| - 1;
      var shorter, last := happened[..n], happened[n];
      ModesByHistory(initial, shorter);
      if last.EngineSwapped? {
        assert LastWord(happened, n);
      } else if last.Executed? {
        assert forall k :: LastWord(happened, k) <==> LastWord(shorter, k);
      }
    }
  }

  /** An engine's mode is the one last set when it was built, before its swap. */
  predicate BuiltWhenRead(initial: bool, happened: seq<Happening>, dry: bool, at: nat) {
    at <= |happened| && dry == LastSet(initial, happened[..at])
  }

  ghost predicate BuiltInv(initial: bool, m: Modes, r: Reload) {
    && (r.Built? ==> BuiltWhenRead(initial, m.happened, r.dry, r.at))
    && forall k :: 0 <= k < |m.happened| && m.happened[k].EngineSwapped? ==>
         BuiltWhenRead(initial, m.happened[..k], m.happened[k].dry, m.happened[k].at)
  }

  lemma {:induction false} HappeningKeepsBuilt(initial: bool, m: Modes, r: Reload, h: Happening)
    requires BuiltInv(initial, m, r)
    requires h.EngineSwapped? ==> BuiltWhenRead(initial, m.happened, h.dry, h.at)
    ensures BuiltInv(initial, m.(happened := m.happened + [h]), r)
  {
    var longer := m.happened + [h];
    assert r.Built? ==> longer[..r.at] == m.happened[..r.at];
    forall k | 0 <= k < |longer| && longer[k].EngineSwapped?
      ensures BuiltWhenRead(initial, longer[..k], longer[k].dry, longer[k].at)
    {
      assert longer[..k] == m.happened[..k];
    }
  }

  lemma {:induction false} StepKeepsBuilt(initial: bool, s: State, action: Action)
    requires BuiltInv(initial, s.modes, s.reload) && s.modes.runtime == LastSet(initial, s.modes.happened)
    ensures BuiltInv(initial, Step(s, action).modes, Step(s, action).reload)
  {
    var m, r, h := s.modes, s.reload, s.files.handling;
    match action {
      case RunCallback(dry) => HappeningKeepsBuilt(initial, m, r, ModeSet(dry));
      case BuildEngine(_) => assert m.happened[..|m.happened|] == m.happened;
      case SwapEngine =>
        if r.Built? {
          HappeningKeepsBuilt(initial, m, r, EngineSwapped(r.dry, r.at));
        }
      case ExecuteAction =>
        if h.Running? {
          HappeningKeepsBuilt(initial, m, r, Executed(h.path, h.fp));
        }
      case _ =>
    }
  }

  lemma {:induction false} RunKeepsBuilt(initial: bool, s: State, actions: seq<Action>)
    requires BuiltInv(initial, s.modes, s.reload) && ModeInv(initial, s.modes, s.files.handling)
    ensures var t := From(s, actions); BuiltInv(initial, t.modes, t.reload)
    decreases |actions|
  {
    if actions != [] {
      StepKeepsBuilt(initial, s, actions[0]);
      StepKeepsMode(initial, s, actions[0]);
      RunKeepsBuilt(initial, Step(s, actions[0]), actions[1..]);
    }
  }

  /**
    In every run, however toggles and reloads overlap: runtime and engine disagree exactly when no
    mode has been set since the last swap, and those set between the building of the swapped engine
    and now have left another mode than the one it was built in.
  */
  lemma {:induction false} DisagreementExactly(dry: bool, withHosts: bool, actions: seq<Action>)
    ensures var m := From(Boot(dry, withHosts), actions).modes;
      && m.runtime == LastSet(dry, m.happened)
      && (forall k :: LastWord(m.happened, k) ==> m.happened[k].at <= k)
      && (m.engine != m.runtime <==>
            exists k :: LastWord(m.happened, k)
              && LastSet(dry, m.happened[..m.happened[k].at]) != LastSet(dry, m.happened))
  {
    var m := From(Boot(dry, withHosts), actions).modes;
    RunKeepsMode(dry, Boot(dry, withHosts), actions);
    RunKeepsBuilt(dry, Boot(dry, withHosts), actions);
    ModesByHistory(dry, m.happened);
    forall k | LastWord(m.happened, k)
      ensures m.happened[k].at <= k && LastSet(dry, m.happened[..m.happened[k].at]) == m.happened[k].dry
    {
      assert BuiltWhenRead(dry, m.happened[..k], m.happened[k].dry, m.happened[k].at);
      assert m.happened[..k][..m.happened[k].at] == m.happened[..m.happened[k].at];
    }
  }

  /** Toggles carried to the runtime so far. */
  function Carried(happened: seq<Happening>): nat {
    if happened == [] then 0
    else Carried(happened[..|happened| - 1]) + if happened[|happened| - 1].ModeSet? then 1 else 0
  }

  predicate Odd(n: nat) {
    n % 2 == 1
  }

  /** The flag shown has been flipped once per toggle, carried or still under way. */
  predicate Flipped(initial: bool, m: Modes) {
    m.ui == (initial != Odd(Carried(m.happened) + |m.callbacks|))
  }

  lemma CarriedSnoc(happened: seq<Happening>, h: Happening)
    ensures Carried(happened + [h]) == Carried(happened) + if h.ModeSet? then 1 else 0
  {
    assert (happened + [h])[..|happened|] == happened;
  }

  lemma {:induction false} CarriedOver(m: Modes, locked: bool, h: Handling, reload: Reload, action: Action)
    ensures var t := StepModes(m, locked, h, reload, action);
      && Carried(t.happened) + |t.callbacks| == Carried(m.happened) + |m.callbacks| + (if action.Toggle? then 1 else 0)
      && t.ui == (m.ui != action.Toggle?)
  {
    match action {
      case Toggle =>
        assert |m.callbacks + multiset{!m.ui}| == |m.callbacks| + 1;
      case RunCallback(dry) =>
        CarriedSnoc(m.happened, ModeSet(dry));
        assert dry in m.callbacks ==> |m.callbacks - multiset{dry}| == |m.callbacks| - 1;
      case SwapEngine =>
        if reload.Built? {
          CarriedSnoc(m.happened, EngineSwapped(reload.dry, reload.at));
        }
      case ExecuteAction =>
        if h.Running? {
          CarriedSnoc(m.happened, Executed(h.path, h.fp));
        }
      case _ =>
    }
  }

  lemma {:induction false} RunKeepsFlips(initial: bool, s: State, actions: seq<Action>)
    requires Flipped(initial, s.modes)
    ensures Flipped(initial, From(s, actions).modes)
    decreases |actions|
  {
    if actions != [] {
      var t := Step(s, actions[0]);
      CarriedOver(s.modes, Locked(s), s.files.handling, s.reload, actions[0]);
      assert t.modes == StepModes(s.modes, Locked(s), s.files.handling, s.reload, actions[0]);
      StillFlipped(initial, s.modes, t.modes, actions[0].Toggle?);
      RunKeepsFlips(initial, t, actions[1..]);
    }
  }

  lemma {:induction false} StillFlipped(initial: bool, m: Modes, t: Modes, toggled: bool)
    requires Flipped(initial, m) && t.ui == (m.ui != toggled)
    requires Carried(t.happened) + |t.callbacks| == Carried(m.happened) + |m.callbacks| + (if toggled then 1 else 0)
    ensures Flipped(initial, t)
  {
  }

  /** In every run the flag shown is the initial one, flipped once per toggle carried or under way. */
  lemma {:induction false} TogglesAreCounted(dry: bool, withHosts: bool, actions: seq<Action>)
    ensures var m := From(Boot(dry, withHosts), actions).modes;
      m.ui == (dry != Odd(Carried(m.happened) + |m.callbacks|))
  {
    RunKeepsFlips(dry, Boot(dry, withHosts), actions);
  }

  /** Any further run without a new toggle that leaves none under way. */
  predicate Settles(s: State, later: seq<Action>) {
    (forall a :: a in later ==> !a.Toggle?) && From(s, later).modes.callbacks == multiset{}
  }

  /** The mode d can be the runtime's in the end: it is under way, or nothing is and it is in force. */
  predicate CanSettleOn(m: Modes, d: bool) {
    d in m.callbacks || (m.callbacks == multiset{} && m.runtime == d)
  }

  lemma {:induction false} SettledOn(s: State, later: seq<Action>)
    requires Settles(s, later)
    ensures CanSettleOn(s.modes, From(s, later).modes.runtime) && From(s, later).modes.ui == s.modes.ui
    decreases |later|
  {
    if later != [] {
      assert later[0] in later && forall a :: a in later[1..] ==> a in later;
      SettledOn(Step(s, later[0]), later[1..]);
    }
  }

  ghost predicate Reaches(s: State, d: bool) {
    exists later :: Settles(s, later) && From(s, later).modes.runtime == d
  }

  lemma {:induction false} ReachesBefore(s: State, action: Action, d: bool)
    requires !action.Toggle? && Reaches(Step(s, action), d)
    ensures Reaches(s, d)
  {
    var t := Step(s, action);
    var later :| Settles(t, later) && From(t, later).modes.runtime == d;
    assert ([action] + later)[1..] == later;
    assert From(s, [action] + later) == From(t, later);
    assert Settles(s, [action] + later);
  }

  lemma EitherMode(callbacks: multiset<bool>)
    ensures callbacks == multiset{} || true in callbacks || false in callbacks
  {
    if true !in callbacks && false !in callbacks {
      assert forall d :: callbacks[d] == 0;
    }
  }

  lemma NextCallback(callbacks: multiset<bool>, d: bool) returns (next: bool)
    requires d in callbacks
    ensures next in callbacks
    ensures var rest := callbacks - multiset{next};
      |rest| == |callbacks| - 1 && (d in rest || (rest == multiset{} && next == d))
  {
    next := if !d in callbacks then !d else d;
    EitherMode(callbacks - multiset{next});
  }

  /** Every callback under way can be the last one: end the call of Process at hand, then run the others first. */
  lemma {:induction false} UnderWayCanBeLast(s: State, d: bool)
    requires CanSettleOn(s.modes, d)
    ensures Reaches(s, d)
    decreases |s.modes.callbacks|, if Locked(s) then 1 else 0
  {
    var m := s.modes;
    if m.callbacks == multiset{} {
      assert From(s, []) == s && Settles(s, []);
    } else if Locked(s) {
      var t := Step(s, EndProcess(false, false));
      assert t.modes == m;
      UnderWayCanBeLast(t, d);
      ReachesBefore(s, EndProcess(false, false), d);
    } else {
      var next := NextCallback(m.callbacks, d);
      var t := Step(s, RunCallback(next));
      assert t.modes.callbacks == m.callbacks - multiset{next} && t.modes.runtime == next;
      UnderWayCanBeLast(t, d);
      ReachesBefore(s, RunCallback(next), d);
    }
  }

  /**
    In every state: however the callbacks under way arrive and whatever else happens, the UI's flag ends
    up as the runtime's mode exactly if every callback under way carries the flag shown now, and
    with none under way exactly if the two agree already.
  */
  lemma {:induction false} ShownModeExactly(s: State)
    ensures var m := s.modes;
      (forall later :: Settles(s, later) ==> From(s, later).modes.ui == From(s, later).modes.runtime) <==>
        (forall d :: d in m.callbacks ==> d == m.ui) && (m.callbacks == multiset{} ==> m.runtime == m.ui)
  {
    forall later | Settles(s, later)
      ensures From(s, later).modes.ui == s.modes.ui && CanSettleOn(s.modes, From(s, later).modes.runtime)
    {
      SettledOn(s, later);
    }
    if CanSettleOn(s.modes, !s.modes.ui) {
      UnderWayCanBeLast(s, !s.modes.ui);
    }
    EitherMode(s.modes.callbacks);
  }

  /** Callbacks of two clients that arrive in the other order leave the UI with the wrong mode. */
  lemma {:induction false} OvertakingToggleMisleads(withHosts: bool)
    ensures var m := From(Boot(false, withHosts), [Toggle, Toggle, RunCallback(false), RunCallback(true)]).modes;
      m.callbacks == multiset{} && !m.ui && m.runtime && m.engine
  {
    var actions := [Toggle, Toggle, RunCallback(false), RunCallback(true)];
    var s0 := Boot(false, withHosts);
    var s2 := Step(Step(s0, Toggle), Toggle);
    assert s2.modes.callbacks == multiset{true, false};
    var s3 := Step(s2, RunCallback(false));
    assert s3.modes.callbacks == multiset{true};
    assert actions[1..][1..] == actions[2..] == [RunCallback(false), RunCallback(true)];
    assert From(s0, actions) == From(s2, actions[2..]);
    assert actions[2..][1..] == [RunCallback(true)] && [RunCallback(true)][1..] == [];
    assert From(s2, actions[2..]) == From(s3, [RunCallback(true)]) == Step(s3, RunCallback(true));
  }

  /** No toggle between the reading of the mode and the swap, one toggle at a time. */
  predicate SerialStep(s: State, action: Action) {
    match action
    case Toggle => s.modes.callbacks == multiset{} && !s.reload.Built?
    case BuildEngine(_) => s.modes.callbacks == multiset{}
    case _ => true
  }

  predicate SerialRun(s: State, actions: seq<Action>)
    decreases |actions|
  {
    actions == [] || (SerialStep(s, actions[0]) && SerialRun(Step(s, actions[0]), actions[1..]))
  }

  ghost predicate AgreementInv(m: Modes, r: Reload) {
    && m.engine == m.runtime
    && (r.Built? ==> r.dry == m.runtime && m.callbacks == multiset{})
    && (if m.callbacks == multiset{} then m.ui == m.runtime else m.callbacks == multiset{m.ui})
  }

  lemma {:induction false} ToggleKeepsAgreement(m: Modes, r: Reload)
    requires AgreementInv(m, r) && m.callbacks == multiset{} && !r.Built?
    ensures AgreementInv(m.(ui := !m.ui, callbacks := m.callbacks + multiset{!m.ui}), r)
  {
    assert m.callbacks + multiset{!m.ui} == multiset{!m.ui};
    assert !m.ui in multiset{!m.ui};
  }

  lemma {:induction false} CallbackKeepsAgreement(m: Modes, r: Reload, dry: bool, t: Modes)
    requires AgreementInv(m, r) && dry in m.callbacks
    requires t.ui == m.ui && t.callbacks == m.callbacks - multiset{dry} && t.runtime == t.engine == dry
    ensures AgreementInv(t, r)
  {
    assert m.callbacks != multiset{};
    assert t.callbacks == multiset{};
  }

  lemma {:induction false} StepKeepsAgreement(s: State, action: Action)
    requires AgreementInv(s.modes, s.reload) && SerialStep(s, action)
    ensures AgreementInv(Step(s, action).modes, Step(s, action).reload)
  {
    var m := s.modes;
    if action.Toggle? {
      ToggleKeepsAgreement(m, s.reload);
    } else if action.RunCallback? {
      if action.dry in m.callbacks {
        CallbackKeepsAgreement(m, s.reload, action.dry, m.(callbacks := m.callbacks - multiset{action.dry},
          runtime := action.dry, engine := action.dry, happened := m.happened + [ModeSet(action.dry)]));
      }
    }
  }

  lemma {:induction false} SerialAgreement(s: State, actions: seq<Action>)
    requires AgreementInv(s.modes, s.reload) && SerialRun(s, actions)
    ensures AgreementInv(From(s, actions).modes, From(s, actions).reload)
    decreases |actions|
  {
    if actions != [] {
      StepKeepsAgreement(s, actions[0]);
      SerialAgreement(Step(s, actions[0]), actions[1..]);
    }
  }

  /**
    The three copies of the flag agree whenever no toggle is under way, in runs where toggles
    neither overlap each other nor fall between an engine's construction and its swap.
  */
  lemma {:induction false} FlagsAgree(dry: bool, withHosts: bool, actions: seq<Action>)
    requires SerialRun(Boot(dry, withHosts), actions)
    ensures var m := From(Boot(dry, withHosts), actions).modes;
      m.engine == m.runtime && (m.callbacks == multiset{} ==> m.ui == m.runtime)
  {
    SerialAgreement(Boot(dry, withHosts), actions);
  }

  /** A toggle during a reload is lost on the new engine: everything says dry, the engine executes. */
  lemma {:induction false} ToggleDuringReloadIsLost(withHosts: bool)
    ensures var actions := [LoadConfig(false), BuildEngine(true), Toggle, RunCallback(true), SwapEngine];
      var m := From(Boot(false, withHosts), actions).modes;
      m.callbacks == multiset{} && m.ui && m.runtime && !m.engine
  {
    var actions := [LoadConfig(false), BuildEngine(true), Toggle, RunCallback(true), SwapEngine];
    var s0 := Boot(false, withHosts);
    var s2 := Step(Step(s0, actions[0]), actions[1]);
    var s3 := Step(s2, Toggle);
    assert s3.modes.callbacks == multiset{true};
    var s5 := Step(Step(s3, RunCallback(true)), SwapEngine);
    assert actions[1..][1..] == actions[2..] && actions[2..][1..] == actions[3..];
    assert actions[3..][1..] == [SwapEngine] && [SwapEngine][1..] == [];
    assert From(s3, actions[3..]) == From(Step(s3, RunCallback(true)), [SwapEngine]) == From(s5, []);
    assert From(s0, actions) == From(Step(s0, actions[0]), actions[1..]) == From(s2, actions[2..]);
  }

  // ---- SSH pools ----

  predicate Holds(r: Reload, p: Pool) {
    (r.Loaded? || r.Built?) && r.pool == Some(p)
  }

  predicate Distinct(s: seq<Pool>) {
    forall i, j :: 0 <= i < j < |s| ==> s[i] != s[j]
  }

  /** Every pool built so far is in exactly one place: held by the runtime, by a reload, or closed. */
  ghost predicate PoolInv(s: Pools, r: Reload) {
    && Distinct(s.owned) && Distinct(s.closed)
    && (forall p :: p in s.owned ==> p < s.built && p !in s.closed && !Holds(r, p))
    && (forall p :: p in s.closed ==> p < s.built && !Holds(r, p))
    && (forall p: nat :: Holds(r, p) ==> p < s.built)
    && (forall p: nat :: p < s.built ==> p in s.owned || p in s.closed || Holds(r, p))
    && (!s.shutDown && s.engine.Some? ==> s.engine.value in s.owned)
  }

  lemma {:induction false} DistinctAppend(a: seq<Pool>, b: seq<Pool>)
    requires Distinct(a) && Distinct(b) && forall p :: p in b ==> p !in a
    ensures Distinct(a + b)
  {
    forall i, j | 0 <= i < j < |a + b|
      ensures (a + b)[i] != (a + b)[j]
    {
      if i < |a| <= j {
        assert b[j - |a|] in b && a[i] in a;
      }
    }
  }

  lemma {:induction false} FailedBuildKeepsPools(p: Pools, r: Reload)
    requires PoolInv(p, r) && r.Loaded?
    ensures PoolInv(p.(closed := p.closed + PoolList(r.pool)), NoReload)
  {
    assert r.pool.Some? ==> Holds(r, r.pool.value);
    DistinctAppend(p.closed, PoolList(r.pool));
  }

  lemma {:induction false} SwapKeepsPools(p: Pools, r: Reload)
    requires PoolInv(p, r) && r.Built?
    ensures PoolInv(p.(owned := p.owned + PoolList(r.pool), engine := r.pool), Swapped)
  {
    assert r.pool.Some? ==> Holds(r, r.pool.value);
    DistinctAppend(p.owned, PoolList(r.pool));
  }

  lemma {:induction false} ShutdownKeepsPools(p: Pools, r: Reload)
    requires PoolInv(p, r)
    ensures PoolInv(p.(owned := [], closed := p.closed + p.owned, shutDown := true), r)
  {
    DistinctAppend(p.closed, p.owned);
  }

  lemma {:induction false} ReloadingKeepsPools(p: Pools, r: Reload, t: Reload)
    requires PoolInv(p, r) && forall q: nat :: Holds(t, q) <==> Holds(r, q)
    ensures PoolInv(p, t)
  {
  }

  lemma {:induction false} LoadKeepsPools(p: Pools)
    requires PoolInv(p, NoReload)
    ensures PoolInv(p.(built := p.built + 1), Loaded(Some(p.built)))
  {
    assert forall q: nat :: Holds(Loaded(Some(p.built)), q) <==> q == p.built;
  }

  lemma {:induction false} StepKeepsPools(s: State, action: Action)
    requires PoolInv(s.pools, s.reload)
    ensures PoolInv(Step(s, action).pools, Step(s, action).reload)
  {
    var p, r := s.pools, s.reload;
    if r.Loaded? && action == BuildEngine(false) {
      FailedBuildKeepsPools(p, r);
    } else if r.Built? && action.SwapEngine? && !Locked(s) {
      SwapKeepsPools(p, r);
    } else if action.Shutdown? {
      ShutdownKeepsPools(p, r);
    } else if r.NoReload? && action == LoadConfig(true) {
      LoadKeepsPools(p);
    } else {
      ReloadingKeepsPools(p, r, Step(s, action).reload);
    }
  }

  lemma {:induction false} RunKeepsPools(s: State, actions: seq<Action>)
    requires PoolInv(s.pools, s.reload)
    ensures PoolInv(From(s, actions).pools, From(s, actions).reload)
    decreases |actions|
  {
    if actions != [] {
      StepKeepsPools(s, actions[0]);
      RunKeepsPools(Step(s, actions[0]), actions[1..]);
    }
  }

  /**
    Conservation of pools: in every run each pool built is either owned by the runtime, or in the
    hands of the reload that built it, or has been closed exactly once; and until shutdown the pool
    of the engine in force is owned and open.
  */
  lemma {:induction false} PoolsAreConserved(dry: bool, withHosts: bool, actions: seq<Action>, p: Pool)
    ensures var s := From(Boot(dry, withHosts), actions); var pools := s.pools;
      && (p < pools.built <==> p in pools.owned || p in pools.closed || Holds(s.reload, p))
      && multiset(pools.owned)[p] + multiset(pools.closed)[p] + (if Holds(s.reload, p) then 1 else 0) <= 1
      && (!pools.shutDown && pools.engine == Some(p) ==> p in pools.owned && p !in pools.closed)
  {
    RunKeepsPools(Boot(dry, withHosts), actions);
    var s := From(Boot(dry, withHosts), actions);
    CountDistinct(s.pools.owned, p);
    CountDistinct(s.pools.closed, p);
  }

  /** Shutting down, in any run, closes every pool that is not in the hands of a reload. */
  lemma {:induction false} ShutdownClosesAll(dry: bool, withHosts: bool, actions: seq<Action>, p: Pool)
    requires !From(Boot(dry, withHosts), actions).files.handling.Running?
    ensures var s := From(Boot(dry, withHosts), actions); var t := Step(s, Shutdown);
      t.pools.owned == [] && (p < t.pools.built ==> p in t.pools.closed || Holds(t.reload, p))
  {
    RunKeepsPools(Boot(dry, withHosts), actions);
  }

  lemma {:induction false} CountDistinct(s: seq<Pool>, p: Pool)
    requires Distinct(s)
    ensures multiset(s)[p] == if p in s then 1 else 0
  {
    if s != [] {
      var n := |s| - 1;
      CountDistinct(s[..n], p);
      assert s == s[..n] + [s[n]];
    }
  }
}
