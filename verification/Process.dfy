/** Running the chosen rule on a file: which actions run, in which order, and what they leave behind. */
module Process {
  import opened Basics
  import opened Config
  import opened Engine
  import opened Disk

  /** The file at hand and how destinations are derived for it. */
  datatype Layout = Layout(
    source: Path,
    hasPlaceholders: string -> bool,
    expand: string -> Option<string>,    // template expansion with the file's metadata
    localPath: string -> Path,           // directory joined with the file's name
    remotePath: string -> string)

  /** ResolveDest: expanding a template needs the file to be there. */
  function Resolve(l: Layout, fs: Fs, template: string): Option<string> {
    if !l.hasPlaceholders(template) then Some(template)
    else if l.source !in fs.names then None
    else l.expand(template)
  }

  /** One action; the flag tells success. */
  function Perform(l: Layout, fs: Fs, action: Action, a: Answers): (r: (Fs, bool))
    requires WellFormed(fs)
    ensures WellFormed(r.0)
  {
    match action
    case Move(dest) =>
      var dir := Resolve(l, fs, dest);
      if dir.None? then (fs, false) else MoveFile(fs, l.source, l.localPath(dir.value), a)
    case Scp(host, dest, deleteSource) =>
      var dir := Resolve(l, fs, dest);
      if dir.None? then (fs, false)
      else Upload(fs, l.source, Remote(host, l.remotePath(dir.value)), deleteSource, a)
    case Exec(_) => (if WellFormed(a.afterCommand) then a.afterCommand else fs, a.check)
    case ValidateZip(_) => (fs, l.source in fs.names && a.open && a.check)
    case Notify(message) => (fs, Resolve(l, fs, message).Some?)
  }

  datatype Ran = Ran(action: Action, ok: bool)

  datatype Run = Run(fs: Fs, trace: seq<Ran>)

  type Oracle = nat -> Answers

  function Do(l: Layout, r: Run, action: Action, answers: Oracle): (t: Run)
    requires WellFormed(r.fs)
    ensures WellFormed(t.fs) && |t.trace| == |r.trace| + 1 && r.trace <= t.trace
  {
    var (fs, ok) := Perform(l, r.fs, action, answers(|r.trace|));
    Run(fs, r.trace + [Ran(action, ok)])
  }

  /** The primary actions stop at the first failure. */
  function UntilFailure(l: Layout, r: Run, actions: seq<Action>, answers: Oracle): (t: Run)
    requires WellFormed(r.fs)
    ensures WellFormed(t.fs)
    decreases |actions|
  {
    if actions == [] then r else
      var s := Do(l, r, actions[0], answers);
      if s.trace[|r.trace|].ok then UntilFailure(l, s, actions[1..], answers) else s
  }

  /** Hooks all run, whatever fails. */
  function AllHooks(l: Layout, r: Run, hooks: seq<Action>, answers: Oracle): (t: Run)
    requires WellFormed(r.fs)
    ensures WellFormed(t.fs)
    decreases |hooks|
  {
    if hooks == [] then r else AllHooks(l, Do(l, r, hooks[0], answers), hooks[1..], answers)
  }

  predicate AllOk(trace: seq<Ran>) {
    forall i :: 0 <= i < |trace| ==> trace[i].ok
  }

  function RunRule(l: Layout, fs: Fs, rule: CompiledRule, answers: Oracle): (t: Run)
    requires WellFormed(fs)
    ensures WellFormed(t.fs)
  {
    var r := UntilFailure(l, Run(fs, []), rule.actions, answers);
    AllHooks(l, r, if AllOk(r.trace) then rule.onSuccess else rule.onFail, answers)
  }

  // ---- the trace, declaratively ----

  function ActionsOf(trace: seq<Ran>): (r: seq<Action>)
    ensures |r| == |trace|
  {
    seq(|trace|, i requires 0 <= i < |trace| => trace[i].action)
  }

  predicate Succeeded(trace: seq<Ran>, rule: CompiledRule) {
    && ActionsOf(trace) == rule.actions + rule.onSuccess
    && forall j :: 0 <= j < |rule.actions| ==> trace[j].ok
  }

  predicate FailedAt(trace: seq<Ran>, rule: CompiledRule, k: int) {
    && 0 <= k < |rule.actions|
    && ActionsOf(trace) == rule.actions[..k + 1] + rule.onFail
    && (forall j :: 0 <= j < k ==> trace[j].ok) && !trace[k].ok
  }

  /** From position n on, the trace runs through the list or a first part of it. */
  predicate RunsThrough(trace: seq<Ran>, n: nat, list: seq<Action>) {
    && n <= |trace| <= n + |list|
    && (forall j :: n <= j < |trace| ==> trace[j].action == list[j - n])
  }

  /** The trace after position n is that of running the list up to the first failure. */
  predicate StopsAtFailure(trace: seq<Ran>, n: nat, list: seq<Action>) {
    && RunsThrough(trace, n, list)
    && (forall j :: n <= j < |trace| - 1 ==> trace[j].ok)
    && (|trace| == n + |list| || (n < |trace| && !trace[|trace| - 1].ok))
  }

  lemma {:induction false} LongerTrace(before: seq<Ran>, first: Ran, trace: seq<Ran>, list: seq<Action>)
    requires list != [] && first.action == list[0] && before + [first] <= trace
    ensures RunsThrough(trace, |before| + 1, list[1..]) ==> before <= trace && RunsThrough(trace, |before|, list)
    ensures first.ok && StopsAtFailure(trace, |before| + 1, list[1..]) ==> StopsAtFailure(trace, |before|, list)
    ensures !first.ok && trace == before + [first] ==> StopsAtFailure(trace, |before|, list)
  {
    assert trace[|before|] == first;
  }

  lemma {:induction false} UntilFailureTrace(l: Layout, r: Run, actions: seq<Action>, answers: Oracle)
    requires WellFormed(r.fs)
    ensures var t := UntilFailure(l, r, actions, answers).trace;
      r.trace <= t && StopsAtFailure(t, |r.trace|, actions)
    decreases |actions|
  {
    if actions != [] {
      var s := Do(l, r, actions[0], answers);
      if s.trace[|r.trace|].ok {
        UntilFailureTrace(l, s, actions[1..], answers);
      }
      LongerTrace(r.trace, s.trace[|r.trace|], UntilFailure(l, r, actions, answers).trace, actions);
    }
  }

  lemma {:induction false} HooksTrace(l: Layout, r: Run, hooks: seq<Action>, answers: Oracle)
    requires WellFormed(r.fs)
    ensures var t := AllHooks(l, r, hooks, answers).trace;
      r.trace <= t && |t| == |r.trace| + |hooks| && RunsThrough(t, |r.trace|, hooks)
    decreases |hooks|
  {
    if hooks != [] {
      var s := Do(l, r, hooks[0], answers);
      HooksTrace(l, s, hooks[1..], answers);
      LongerTrace(r.trace, s.trace[|r.trace|], AllHooks(l, r, hooks, answers).trace, hooks);
    }
  }

  lemma {:induction false} RuleTraceShape(first: seq<Ran>, trace: seq<Ran>, rule: CompiledRule)
    requires StopsAtFailure(first, 0, rule.actions) && first <= trace
    requires var hooks := if AllOk(first) then rule.onSuccess else rule.onFail;
      RunsThrough(trace, |first|, hooks) && |trace| == |first| + |hooks|
    ensures if AllOk(first) then Succeeded(trace, rule) else FailedAt(trace, rule, |first| - 1)
    ensures AllOk(first) <==> Succeeded(trace, rule)
  {
    var n := |first|;
    assert forall j :: 0 <= j < n ==> trace[j] == first[j];
    if AllOk(first) {
      assert ActionsOf(trace) == rule.actions + rule.onSuccess;
    } else {
      assert ActionsOf(trace) == rule.actions[..n] + rule.onFail;
    }
  }

  /**
    What runs is all actions then all success hooks, or the shortest failing prefix of the actions
    then all failure hooks -- whatever the hooks themselves do.
  */
  lemma {:induction false} TraceOfRule(l: Layout, fs: Fs, rule: CompiledRule, answers: Oracle)
    requires WellFormed(fs)
    ensures var trace := RunRule(l, fs, rule, answers).trace;
      Succeeded(trace, rule) || exists k :: FailedAt(trace, rule, k)
    ensures AllOk(UntilFailure(l, Run(fs, []), rule.actions, answers).trace) <==>
      Succeeded(RunRule(l, fs, rule, answers).trace, rule)
  {
    var r := UntilFailure(l, Run(fs, []), rule.actions, answers);
    UntilFailureTrace(l, Run(fs, []), rule.actions, answers);
    HooksTrace(l, r, if AllOk(r.trace) then rule.onSuccess else rule.onFail, answers);
    RuleTraceShape(r.trace, RunRule(l, fs, rule, answers).trace, rule);
  }

  // ---- what decides each entry of a trace ----

  /** The disk after the first n entries of a trace, each performed with its own answers. */
  function DiskAfter(l: Layout, fs: Fs, trace: seq<Ran>, answers: Oracle, n: nat): (t: Fs)
    requires WellFormed(fs) && n <= |trace|
    ensures WellFormed(t)
  {
    if n == 0 then fs else Perform(l, DiskAfter(l, fs, trace, answers, n - 1), trace[n - 1].action, answers(n - 1)).0
  }

  /** Entry k says what performing its action on the disk it finds says. */
  predicate IsVerdict(l: Layout, fs: Fs, trace: seq<Ran>, answers: Oracle, k: nat)
    requires WellFormed(fs) && k < |trace|
  {
    trace[k].ok == Perform(l, DiskAfter(l, fs, trace, answers, k), trace[k].action, answers(k)).1
  }

  /** The run is what performing its entries one after the other gives. */
  ghost predicate IsReplay(l: Layout, fs: Fs, r: Run, answers: Oracle)
    requires WellFormed(fs)
  {
    && r.fs == DiskAfter(l, fs, r.trace, answers, |r.trace|)
    && forall k :: 0 <= k < |r.trace| ==> IsVerdict(l, fs, r.trace, answers, k)
  }

  lemma DiskStep(l: Layout, fs: Fs, trace: seq<Ran>, answers: Oracle, n: nat)
    requires WellFormed(fs) && 0 < n <= |trace|
    ensures DiskAfter(l, fs, trace, answers, n) ==
      Perform(l, DiskAfter(l, fs, trace, answers, n - 1), trace[n - 1].action, answers(n - 1)).0
  {
  }

  lemma {:induction false} SameDisks(l: Layout, fs: Fs, trace: seq<Ran>, longer: seq<Ran>, answers: Oracle, n: nat)
    requires WellFormed(fs) && trace <= longer && n <= |trace|
    ensures DiskAfter(l, fs, longer, answers, n) == DiskAfter(l, fs, trace, answers, n)
  {
    if n > 0 {
      SameDisks(l, fs, trace, longer, answers, n - 1);
      assert trace[n - 1] == longer[n - 1];
      DiskStep(l, fs, trace, answers, n);
      DiskStep(l, fs, longer, answers, n);
    }
  }

  lemma {:induction false} SameVerdict(l: Layout, fs: Fs, trace: seq<Ran>, longer: seq<Ran>, answers: Oracle, k: nat)
    requires WellFormed(fs) && trace <= longer && k < |trace|
    ensures IsVerdict(l, fs, longer, answers, k) <==> IsVerdict(l, fs, trace, answers, k)
  {
    SameDisks(l, fs, trace, longer, answers, k);
    assert trace[k] == longer[k];
  }

  lemma {:induction false} LastVerdict(l: Layout, fs: Fs, r: Run, action: Action, answers: Oracle)
    requires WellFormed(fs) && WellFormed(r.fs) && r.fs == DiskAfter(l, fs, r.trace, answers, |r.trace|)
    ensures var s := Do(l, r, action, answers); var n := |r.trace|;
      IsVerdict(l, fs, s.trace, answers, n) && s.fs == DiskAfter(l, fs, s.trace, answers, n + 1)
  {
    var s := Do(l, r, action, answers);
    SameDisks(l, fs, r.trace, s.trace, answers, |r.trace|);
    assert s.trace[|r.trace|].action == action;
  }

  lemma {:induction false} ReplaySnoc(l: Layout, fs: Fs, r: Run, s: Run, answers: Oracle)
    requires WellFormed(fs) && IsReplay(l, fs, r, answers)
    requires |s.trace| == |r.trace| + 1 && r.trace <= s.trace && IsVerdict(l, fs, s.trace, answers, |r.trace|)
    requires s.fs == DiskAfter(l, fs, s.trace, answers, |s.trace|)
    ensures IsReplay(l, fs, s, answers)
  {
    forall k | 0 <= k < |r.trace|
      ensures IsVerdict(l, fs, s.trace, answers, k)
    {
      assert IsVerdict(l, fs, r.trace, answers, k);
      SameVerdict(l, fs, r.trace, s.trace, answers, k);
    }
  }

  lemma {:induction false} DoReplays(l: Layout, fs: Fs, r: Run, action: Action, answers: Oracle)
    requires WellFormed(fs) && WellFormed(r.fs) && IsReplay(l, fs, r, answers)
    ensures IsReplay(l, fs, Do(l, r, action, answers), answers)
  {
    LastVerdict(l, fs, r, action, answers);
    ReplaySnoc(l, fs, r, Do(l, r, action, answers), answers);
  }

  lemma {:induction false} UntilFailureReplays(l: Layout, fs: Fs, r: Run, actions: seq<Action>, answers: Oracle)
    requires WellFormed(fs) && WellFormed(r.fs) && IsReplay(l, fs, r, answers)
    ensures IsReplay(l, fs, UntilFailure(l, r, actions, answers), answers)
    decreases |actions|
  {
    if actions != [] {
      var s := Do(l, r, actions[0], answers);
      DoReplays(l, fs, r, actions[0], answers);
      if s.trace[|r.trace|].ok {
        UntilFailureReplays(l, fs, s, actions[1..], answers);
      }
    }
  }

  lemma {:induction false} HooksReplay(l: Layout, fs: Fs, r: Run, hooks: seq<Action>, answers: Oracle)
    requires WellFormed(fs) && WellFormed(r.fs) && IsReplay(l, fs, r, answers)
    ensures IsReplay(l, fs, AllHooks(l, r, hooks, answers), answers)
    decreases |hooks|
  {
    if hooks != [] {
      DoReplays(l, fs, r, hooks[0], answers);
      HooksReplay(l, fs, Do(l, r, hooks[0], answers), hooks[1..], answers);
    }
  }

  /** The template can be expanded on this disk, or needs no expansion. */
  predicate Expands(l: Layout, fs: Fs, template: string) {
    !l.hasPlaceholders(template) || (l.source in fs.names && l.expand(template).Some?)
  }

  /** When an action succeeds, by kind. */
  predicate Works(l: Layout, fs: Fs, action: Action, a: Answers) {
    match action
    case Move(dest) =>
      Expands(l, fs, dest) && l.source in fs.names && a.mkdir
      && (a.rename.Renamed? || (a.rename.LinkError? && Copies(a) && a.remove))
    case Scp(_, dest, deleteSource) =>
      Expands(l, fs, dest) && l.source in fs.names && a.connect && Copies(a)
      && (deleteSource ==> a.remove) && a.closeSession
    case Exec(_) => a.check
    case ValidateZip(_) => l.source in fs.names && a.open && a.check
    case Notify(message) => Expands(l, fs, message)
  }

  lemma {:induction false} WorksExactly(l: Layout, fs: Fs, action: Action, a: Answers)
    requires WellFormed(fs)
    ensures Perform(l, fs, action, a).1 <==> Works(l, fs, action, a)
  {
    match action {
      case Move(dest) =>
        if Resolve(l, fs, dest).Some? {
          MoveSucceedsExactly(fs, l.source, l.localPath(Resolve(l, fs, dest).value), a);
        }
      case Scp(host, dest, deleteSource) =>
        if Resolve(l, fs, dest).Some? {
          UploadSucceedsExactly(fs, l.source, Remote(host, l.remotePath(Resolve(l, fs, dest).value)), deleteSource, a);
        }
      case _ =>
    }
  }

  /** What an action other than a move or an upload does to the disk: a command what it does, the others nothing. */
  lemma {:induction false} LeftOnDisk(l: Layout, fs: Fs, action: Action, a: Answers)
    requires WellFormed(fs) && !action.Move? && !action.Scp?
    ensures Perform(l, fs, action, a).0 == if action.Exec? && WellFormed(a.afterCommand) then a.afterCommand else fs
  {
  }

  /**
    In the trace of every rule: an entry is ok exactly if its action works on the disk its predecessors
    left -- a command if it exits successfully, a validation if the file is there and checks, a
    notification if its message expands, moves and uploads if their steps work.
  */
  lemma {:induction false} TraceVerdicts(l: Layout, fs: Fs, rule: CompiledRule, answers: Oracle)
    requires WellFormed(fs)
    ensures var r := RunRule(l, fs, rule, answers);
      && r.fs == DiskAfter(l, fs, r.trace, answers, |r.trace|)
      && forall k :: 0 <= k < |r.trace| ==>
           (r.trace[k].ok <==> Works(l, DiskAfter(l, fs, r.trace, answers, k), r.trace[k].action, answers(k)))
  {
    var first := UntilFailure(l, Run(fs, []), rule.actions, answers);
    var r := RunRule(l, fs, rule, answers);
    UntilFailureReplays(l, fs, Run(fs, []), rule.actions, answers);
    HooksReplay(l, fs, first, if AllOk(first.trace) then rule.onSuccess else rule.onFail, answers);
    forall k | 0 <= k < |r.trace|
      ensures r.trace[k].ok <==> Works(l, DiskAfter(l, fs, r.trace, answers, k), r.trace[k].action, answers(k))
    {
      assert IsVerdict(l, fs, r.trace, answers, k);
      WorksExactly(l, DiskAfter(l, fs, r.trace, answers, k), r.trace[k].action, answers(k));
    }
  }

  lemma {:induction false} SucceededAt(trace: seq<Ran>, rule: CompiledRule, k: nat)
    requires Succeeded(trace, rule) && k < |rule.actions|
    ensures |rule.actions| <= |trace| && trace[k] == Ran(rule.actions[k], true)
  {
    assert ActionsOf(trace)[k] == rule.actions[k];
  }

  lemma {:induction false} PassedBefore(trace: seq<Ran>, rule: CompiledRule, j: int, k: nat)
    requires FailedAt(trace, rule, j) && k < j
    ensures j < |trace| && trace[k] == Ran(rule.actions[k], true)
  {
    assert ActionsOf(trace)[k] == rule.actions[..j + 1][k];
  }

  /** A command that fails makes the rule fail at it or before it: no later action runs, the failure hooks do. */
  lemma {:induction false} FailingCommandFails(l: Layout, fs: Fs, rule: CompiledRule, answers: Oracle, k: nat)
    requires WellFormed(fs) && k < |rule.actions| && rule.actions[k].Exec? && !answers(k).check
    ensures var trace := RunRule(l, fs, rule, answers).trace;
      !Succeeded(trace, rule) && exists j :: j <= k && FailedAt(trace, rule, j)
  {
    var trace := RunRule(l, fs, rule, answers).trace;
    TraceOfRule(l, fs, rule, answers);
    TraceVerdicts(l, fs, rule, answers);
    if Succeeded(trace, rule) {
      SucceededAt(trace, rule, k);
      assert false;
    }
    var j :| FailedAt(trace, rule, j);
    if k < j {
      PassedBefore(trace, rule, j, k);
      assert false;
    }
  }

  // ---- choosing the rule ----

  predicate Applies(lib: Library, f: FileInfo, cr: CompiledRule) {
    Matches(lib, f, cr.criteria, cr.regex, cr.minAge) && cr.actions != []
  }

  /** Index of the rule that runs: the first that matches and has actions; the length if none. */
  predicate IsChosen(lib: Library, rules: seq<CompiledRule>, f: FileInfo, c: int) {
    && 0 <= c <= |rules|
    && (forall i :: 0 <= i < c ==> !Applies(lib, f, rules[i]))
    && (c < |rules| ==> Applies(lib, f, rules[c]))
  }

  lemma {:induction false} ChosenIsUnique(lib: Library, rules: seq<CompiledRule>, f: FileInfo)
    ensures forall c, d :: IsChosen(lib, rules, f, c) && IsChosen(lib, rules, f, d) ==> c == d
  {
  }

  /** The rule the compiled engine runs is the first configured rule that has actions and whose criteria hold. */
  lemma {:induction false} ChosenIsFirstDeclared(lib: Library, stat: string -> Stat, cfg: Config, e: Compiled,
                                                 f: FileInfo, c: int)
    requires ValidConfig(lib, stat, cfg) && IsEngine(lib, cfg.rules, cfg.ignored, cfg.sshHosts != map[], e)
    requires forall r :: r in cfg.rules ==> AgeFits(lib, r.criteria)
    ensures IsChosen(lib, e.rules, f, c) <==>
      && 0 <= c <= |cfg.rules|
      && (forall i :: 0 <= i < c ==> !(Satisfies(lib, f, cfg.rules[i].criteria) && cfg.rules[i].actions != []))
      && (c < |cfg.rules| ==> Satisfies(lib, f, cfg.rules[c].criteria) && cfg.rules[c].actions != [])
  {
    forall i | 0 <= i < |cfg.rules|
      ensures Applies(lib, f, e.rules[i]) <==> Satisfies(lib, f, cfg.rules[i].criteria) && cfg.rules[i].actions != []
    {
      assert cfg.rules[i] in cfg.rules;
      assert IsCompiled(lib, cfg.rules[i], cfg.sshHosts != map[], e.rules[i]);
      CompiledMatchingIsDeclared(lib, f, cfg.rules[i].criteria);
    }
  }

  /** An action as shown to the user: with its template expanded if that works, as configured otherwise. */
  function Describe(l: Layout, fs: Fs, action: Action): Action {
    match action
    case Move(dest) => Move(Shown(l, fs, dest))
    case Scp(host, dest, deleteSource) => Scp(host, Shown(l, fs, dest), deleteSource)
    case Notify(message) => Notify(Shown(l, fs, message))
    case _ => action
  }

  function Shown(l: Layout, fs: Fs, template: string): string {
    var text := Resolve(l, fs, template);
    if text.Some? then text.value else template
  }

  /** Same length, same order, each entry the description of its action on this disk. */
  predicate AreDescriptions(l: Layout, fs: Fs, actions: seq<Action>, shown: seq<Action>) {
    |shown| == |actions| && forall i :: 0 <= i < |actions| ==> shown[i] == Describe(l, fs, actions[i])
  }

  /** The text a user gets to see for a template: expanded if the file is there and that works, else as configured. */
  predicate IsShownFor(l: Layout, fs: Fs, template: string, text: string) {
    if l.source in fs.names && l.hasPlaceholders(template) && l.expand(template).Some?
    then l.expand(template) == Some(text)
    else text == template
  }

  /** The description of an action: same kind and other fields, destination or message as it is shown. */
  lemma {:induction false} DescriptionIsExpanded(l: Layout, fs: Fs, action: Action, shown: Action)
    ensures shown == Describe(l, fs, action) <==>
      match action
      case Move(dest) => shown.Move? && IsShownFor(l, fs, dest, shown.dest)
      case Scp(host, dest, deleteSource) =>
        && shown.Scp? && shown.host == host && shown.deleteSource == deleteSource
        && IsShownFor(l, fs, dest, shown.dest)
      case Notify(message) => shown.Notify? && IsShownFor(l, fs, message, shown.message)
      case _ => shown == action
  {
  }

  /**
    What is shown is what is done: an action whose template can be expanded to text without
    placeholders acts on any disk with the source in place as its description says.
  */
  lemma {:induction false} DescribedIsDone(l: Layout, before: Fs, fs: Fs, action: Action, a: Answers)
    requires WellFormed(fs) && l.source in before.names && l.source in fs.names
    requires forall t, text :: l.hasPlaceholders(t) && l.expand(t) == Some(text) ==> !l.hasPlaceholders(text)
    ensures Perform(l, fs, Describe(l, before, action), a) == Perform(l, fs, action, a)
  {
  }

  datatype Result = Result(matched: bool, ruleName: string, actions: seq<Action>, dryRun: bool)

  datatype Error = StatFailed | CtxDone | ActionFailed(rule: string)

  const NO_RESULT := Result(false, "", [], false)

  /** The context is over when some rule up to the chosen one is looked at. */
  ghost predicate Interrupted(lib: Library, rules: seq<CompiledRule>, f: FileInfo, done: nat -> bool) {
    exists i :: 0 <= i < |rules| && done(i) && forall j :: 0 <= j < i ==> !Applies(lib, f, rules[j])
  }

  /** Everything a call that chose rule c reports and leaves behind. */
  ghost predicate Handled(l: Layout, rules: seq<CompiledRule>, c: nat, dryRun: bool, answers: Oracle, before: Fs,
                          after: Fs, result: Result, error: Option<Error>, trace: seq<Ran>)
    requires WellFormed(before) && c <= |rules|
  {
    if c == |rules| then
      result == NO_RESULT && error.None? && trace == [] && after == before
    else
      && result == Result(true, rules[c].name, result.actions, dryRun)
      && AreDescriptions(l, before, rules[c].actions, result.actions)
      && (if dryRun then error.None? && trace == [] && after == before
          else Run(after, trace) == RunRule(l, before, rules[c], answers)
               && error == if Succeeded(trace, rules[c]) then None else Some(ActionFailed(rules[c].name)))
  }

  class RuleEngine {
    const compiled: Compiled
    var dryRun: bool

    constructor (compiled: Compiled, dryRun: bool)
      ensures this.compiled == compiled && this.dryRun == dryRun
    {
      this.compiled := compiled;
      this.dryRun := dryRun;
    }

    method SetDryRun(enabled: bool)
      modifies this
      ensures dryRun == enabled
    {
      dryRun := enabled;
    }

    method Execute(l: Layout, volume: Volume, action: Action, a: Answers) returns (ok: bool)
      requires WellFormed(volume.fs)
      modifies volume
      ensures (volume.fs, ok) == Perform(l, old(volume.fs), action, a) && WellFormed(volume.fs)
    {
      match action {
        case Move(dest) =>
          var dir := Resolve(l, volume.fs, dest);
          if dir.None? {
            return false;
          }
          ok := volume.Move(l.source, l.localPath(dir.value), a);
        case Scp(host, dest, deleteSource) =>
          var dir := Resolve(l, volume.fs, dest);
          if dir.None? {
            return false;
          }
          ok := volume.Send(l.source, Remote(host, l.remotePath(dir.value)), deleteSource, a);
        case Exec(_) =>
          if WellFormed(a.afterCommand) {
            volume.fs := a.afterCommand;
          }
          ok := a.check;
        case ValidateZip(_) =>
          ok := l.source in volume.fs.names && a.open && a.check;
        case Notify(message) =>
          ok := Resolve(l, volume.fs, message).Some?;
      }
    }

    /** Descriptions are collected before anything runs: the file may be gone afterwards. */
    method DescribeActions(l: Layout, volume: Volume, actions: seq<Action>) returns (shown: seq<Action>)
      ensures AreDescriptions(l, volume.fs, actions, shown)
    {
      shown := [];
      for i := 0 to |actions|
        invariant AreDescriptions(l, volume.fs, actions[..i], shown)
      {
        shown := shown + [Describe(l, volume.fs, actions[i])];
      }
    }

    method RunHooks(l: Layout, volume: Volume, hooks: seq<Action>, answers: Oracle, trace: seq<Ran>)
      returns (after: seq<Ran>)
      requires WellFormed(volume.fs)
      modifies volume
      ensures WellFormed(volume.fs)
      ensures Run(volume.fs, after) == AllHooks(l, Run(old(volume.fs), trace), hooks, answers)
    {
      after := trace;
      for i := 0 to |hooks|
        invariant WellFormed(volume.fs)
        invariant AllHooks(l, Run(volume.fs, after), hooks[i..], answers)
          == AllHooks(l, Run(old(volume.fs), trace), hooks, answers)
      {
        assert hooks[i..][1..] == hooks[i + 1..];
        var ok := Execute(l, volume, hooks[i], answers(|after|));
        after := after + [Ran(hooks[i], ok)];
      }
    }

    /**
      Evaluates the file against all rules. `info` is what stat says, `done(i)` whether the context is
      over when rule i is looked at.
    */
    method Process(lib: Library, info: Option<FileInfo>, l: Layout, volume: Volume, done: nat -> bool, answers: Oracle)
      returns (result: Result, error: Option<Error>, trace: seq<Ran>)
      requires WellFormed(volume.fs)
      modifies volume
      ensures match info
        case None => result == NO_RESULT && error == Some(StatFailed) && trace == [] && volume.fs == old(volume.fs)
        case Some(f) =>
          if Interrupted(lib, compiled.rules, f, done)
          then result == NO_RESULT && error == Some(CtxDone) && trace == [] && volume.fs == old(volume.fs)
          else exists c :: && IsChosen(lib, compiled.rules, f, c)
                           && Handled(l, compiled.rules, c, dryRun, answers, old(volume.fs), volume.fs,
                                      result, error, trace)
    {
      result, error, trace := NO_RESULT, None, [];
      if info.None? {
        error := Some(StatFailed);
        return;
      }
      for i := 0 to |compiled.rules|
        invariant volume.fs == old(volume.fs) && result == NO_RESULT && error.None? && trace == []
        invariant forall j :: 0 <= j < i ==> !Applies(lib, info.value, compiled.rules[j])
        invariant forall j :: 0 <= j < i ==> !done(j)
      {
        var cr := compiled.rules[i];
        if done(i) {
          error := Some(CtxDone);
          return;
        }
        if !Matches(lib, info.value, cr.criteria, cr.regex, cr.minAge) {
          continue;
        }
        if |cr.actions| == 0 {
          continue;
        }
        assert IsChosen(lib, compiled.rules, info.value, i);
        assert !Interrupted(lib, compiled.rules, info.value, done);
        var shown := DescribeActions(l, volume, cr.actions);
        result := Result(true, cr.name, shown, dryRun);
        if dryRun {
          return;
        }
        error, trace := RunChosen(l, volume, cr, answers);
        return;
      }
      assert IsChosen(lib, compiled.rules, info.value, |compiled.rules|);
    }

    /** The part of Process that executes a matching rule. */
    method RunChosen(l: Layout, volume: Volume, cr: CompiledRule, answers: Oracle)
      returns (error: Option<Error>, trace: seq<Ran>)
      requires WellFormed(volume.fs)
      modifies volume
      ensures WellFormed(volume.fs)
      ensures Run(volume.fs, trace) == RunRule(l, old(volume.fs), cr, answers)
      ensures error == if Succeeded(trace, cr) then None else Some(ActionFailed(cr.name))
    {
      trace := [];
      var failed := false;
      var i := 0;
      ghost var goal := UntilFailure(l, Run(volume.fs, []), cr.actions, answers);
      while i < |cr.actions| && !failed
        invariant 0 <= i <= |cr.actions| && WellFormed(volume.fs)
        invariant !failed ==> AllOk(trace) && UntilFailure(l, Run(volume.fs, trace), cr.actions[i..], answers) == goal
        invariant failed ==> !AllOk(trace) && Run(volume.fs, trace) == goal
      {
        assert cr.actions[i..][1..] == cr.actions[i + 1..];
        ghost var before := Run(volume.fs, trace);
        var ok := Execute(l, volume, cr.actions[i], answers(|trace|));
        trace := trace + [Ran(cr.actions[i], ok)];
        assert Run(volume.fs, trace) == Do(l, before, cr.actions[i], answers);
        if !ok {
          assert !trace[|before.trace|].ok;
          failed := true;
        }
        i := i + 1;
      }
      TraceOfRule(l, old(volume.fs), cr, answers);
      if failed {
        trace := RunHooks(l, volume, cr.onFail, answers, trace);
        error := Some(ActionFailed(cr.name));
      } else {
        trace := RunHooks(l, volume, cr.onSuccess, answers, trace);
        error := None;
      }
    }
  }
}
