/**
  What becomes of the file's bytes when a rule runs. They survive every pattern of failures exactly
  when the rule is not exposed: some run reaches, with the source still in place, a move whose
  destination is another name of the source, and no uploaded copy outlives that run.
*/
module Custody {
  import opened Basics
  import opened Framing
  import opened Config
  import opened Engine
  import opened Disk
  import opened Process

  /** The text a template stands for while the file is there. */
  function Target(l: Layout, template: string): Option<string> {
    if l.hasPlaceholders(template) then l.expand(template) else Some(template)
  }

  predicate MovesTo(l: Layout, action: Action, p: Path) {
    action.Move? && Target(l, action.dest).Some? && l.localPath(Target(l, action.dest).value) == p
  }

  predicate SendsTo(l: Layout, action: Action, r: Remote) {
    action.Scp? && Target(l, action.dest).Some? && r == Remote(action.host, l.remotePath(Target(l, action.dest).value))
  }

  /** The bytes are at the source, at a move destination or at an upload target of the actions. */
  ghost predicate Somewhere(l: Layout, fs: Fs, actions: seq<Action>, bytes: Bytes) {
    || Has(fs, l.source, bytes)
    || (exists a, p :: a in actions && MovesTo(l, a, p) && Has(fs, p, bytes))
    || (exists a, r :: a in actions && SendsTo(l, a, r) && r in fs.remote && fs.remote[r] == bytes)
  }

  // ---- when a rule is exposed ----

  /** The action moves the source onto another name of itself. */
  predicate Aliased(l: Layout, fs: Fs, action: Action) {
    action.Move? && Target(l, action.dest).Some? && SameFile(fs, l.source, l.localPath(Target(l, action.dest).value))
  }

  predicate AnyAliased(l: Layout, fs: Fs, list: seq<Action>) {
    exists a :: a in list && Aliased(l, fs, a)
  }

  predicate Uploads(l: Layout, list: seq<Action>, r: Remote) {
    exists a :: a in list && SendsTo(l, a, r)
  }

  /** The action can succeed and leave the source in place. */
  predicate CanPass(l: Layout, fs: Fs, action: Action) {
    match action
    case Move(_) => Aliased(l, fs, action)
    case Scp(_, dest, deleteSource) => Target(l, dest).Some? && !deleteSource
    case Exec(_) => false
    case ValidateZip(_) => true
    case Notify(message) => Target(l, message).Some?
  }

  predicate CanFail(l: Layout, action: Action) {
    action.Notify? ==> Target(l, action.message).None?
  }

  predicate Passable(l: Layout, fs: Fs, list: seq<Action>) {
    forall a :: a in list ==> CanPass(l, fs, a)
  }

  /** After `before` has passed, `after` can destroy the source and every uploaded copy. */
  ghost predicate Endangers(l: Layout, fs: Fs, before: seq<Action>, after: seq<Action>) {
    AnyAliased(l, fs, after) && forall r :: Uploads(l, before, r) ==> Uploads(l, after, r)
  }

  ghost predicate ExposedAt(l: Layout, fs: Fs, rule: CompiledRule, k: int) {
    && 0 <= k < |rule.actions|
    && Passable(l, fs, rule.actions[..k]) && CanFail(l, rule.actions[k])
    && Endangers(l, fs, rule.actions[..k], [rule.actions[k]] + rule.onFail)
  }

  ghost predicate Exposed(l: Layout, fs: Fs, rule: CompiledRule) {
    || (exists k :: ExposedAt(l, fs, rule, k))
    || (Passable(l, fs, rule.actions) && Endangers(l, fs, rule.actions, rule.onSuccess))
  }

  function AllLists(rule: CompiledRule): seq<Action> {
    rule.actions + rule.onSuccess + rule.onFail
  }

  predicate NoExec(list: seq<Action>) {
    forall a :: a in list ==> !a.Exec?
  }

  lemma ListsSnoc(l: Layout, fs: Fs, list: seq<Action>, a: Action)
    ensures forall r :: Uploads(l, list + [a], r) <==> Uploads(l, list, r) || SendsTo(l, a, r)
    ensures AnyAliased(l, fs, list + [a]) <==> AnyAliased(l, fs, list) || Aliased(l, fs, a)
  {
    assert forall b :: b in list + [a] <==> b in list || b == a;
    forall r
      ensures Uploads(l, list + [a], r) <==> Uploads(l, list, r) || SendsTo(l, a, r)
    {
      if b :| b in list && SendsTo(l, b, r) {
        assert b in list + [a];
      }
      if SendsTo(l, a, r) {
        assert a in list + [a];
      }
    }
  }

  // ---- one action ----

  /** As long as the source exists, its other names are those it had. */
  ghost predicate SameAliases(l: Layout, was: Fs, fs: Fs) {
    l.source in fs.names ==>
      l.source in was.names && forall p :: SameFile(fs, l.source, p) <==> SameFile(was, l.source, p)
  }

  predicate Holds(fs: Fs, r: Remote, bytes: Bytes) {
    r in fs.remote && fs.remote[r] == bytes
  }

  lemma {:induction false} AliasesKept(l: Layout, fs: Fs, action: Action, a: Answers)
    requires WellFormed(fs) && !action.Exec?
    ensures SameAliases(l, fs, Perform(l, fs, action, a).0)
  {
  }

  /** Without the source nothing changes any more. */
  lemma {:induction false} NothingWithoutSource(l: Layout, fs: Fs, action: Action, a: Answers)
    requires WellFormed(fs) && !action.Exec? && l.source !in fs.names
    ensures Perform(l, fs, action, a).0 == fs
  {
  }

  /** An action leaves every remote file but its own target alone. */
  lemma {:induction false} OthersKept(l: Layout, fs: Fs, action: Action, a: Answers, r: Remote, bytes: Bytes)
    requires WellFormed(fs) && !action.Exec? && !SendsTo(l, action, r) && Holds(fs, r, bytes)
    ensures Holds(Perform(l, fs, action, a).0, r, bytes)
  {
  }

  /** A move that is not aliased: the bytes stay at the source or arrive at the destination. */
  lemma {:induction false} MoveOutcome(l: Layout, fs: Fs, action: Action, a: Answers, bytes: Bytes)
    requires WellFormed(fs) && Has(fs, l.source, bytes) && action.Move? && !Aliased(l, fs, action)
    ensures var (t, ok) := Perform(l, fs, action, a);
      if ok then l.source !in t.names && Somewhere(l, t, [action], bytes) else Has(t, l.source, bytes)
  {
    var dir := Resolve(l, fs, action.dest);
    if dir.Some? {
      var p := l.localPath(dir.value);
      var (t, ok) := MoveFile(fs, l.source, p, a);
      assert !SameFile(fs, l.source, p);
      assert action in [action] && MovesTo(l, action, p);
      assert if ok then l.source !in t.names && Has(t, p, bytes) else Has(t, l.source, bytes);
    }
  }

  /** A move onto another name of the source passes, fails without effect, or ruins the file. */
  lemma {:induction false} AliasedOutcome(l: Layout, fs: Fs, action: Action, a: Answers)
    requires WellFormed(fs) && l.source in fs.names && Aliased(l, fs, action)
    ensures var (t, ok) := Perform(l, fs, action, a);
      t == fs || !ok || l.source !in t.names
  {
  }

  /** An upload: a success leaves a copy; the source goes only when there is one. */
  lemma {:induction false} UploadOutcome(l: Layout, fs: Fs, action: Action, a: Answers, bytes: Bytes)
    requires WellFormed(fs) && Has(fs, l.source, bytes) && action.Scp?
    ensures var (t, ok) := Perform(l, fs, action, a);
      && (Has(t, l.source, bytes) || (action.deleteSource && l.source !in t.names && Somewhere(l, t, [action], bytes)))
      && (ok ==> Target(l, action.dest).Some? && forall r :: SendsTo(l, action, r) ==> Holds(t, r, bytes))
      && (ok && action.deleteSource ==> l.source !in t.names)
  {
    var dir := Resolve(l, fs, action.dest);
    if dir.Some? {
      var r := Remote(action.host, l.remotePath(dir.value));
      assert action in [action] && SendsTo(l, action, r);
    }
  }

  lemma SomewhereAmong(l: Layout, fs: Fs, few: seq<Action>, all: seq<Action>, bytes: Bytes)
    requires Somewhere(l, fs, few, bytes) && forall a :: a in few ==> a in all
    ensures Somewhere(l, fs, all, bytes)
  {
    if !Has(fs, l.source, bytes) {
      if a, p :| a in few && MovesTo(l, a, p) && Has(fs, p, bytes) {
        assert a in all && MovesTo(l, a, p);
      } else {
        var a, r :| a in few && SendsTo(l, a, r) && r in fs.remote && fs.remote[r] == bytes;
        assert a in all && SendsTo(l, a, r);
      }
    }
  }

  // ---- a rule that is not exposed keeps the bytes ----

  function Finish(l: Layout, rule: CompiledRule, r: Run, answers: Oracle): (t: Run)
    requires WellFormed(r.fs)
    ensures WellFormed(t.fs)
  {
    AllHooks(l, r, if AllOk(r.trace) then rule.onSuccess else rule.onFail, answers)
  }

  /** The source is there with its bytes and its names, and every upload of `before` has left a copy. */
  ghost predicate Intact(l: Layout, was: Fs, fs: Fs, before: seq<Action>, bytes: Bytes) {
    && WellFormed(fs) && SameAliases(l, was, fs) && Has(fs, l.source, bytes)
    && forall r :: Uploads(l, before, r) ==> Holds(fs, r, bytes)
  }

  /** The source is gone and the bytes are elsewhere. */
  ghost predicate Moved(l: Layout, fs: Fs, all: seq<Action>, bytes: Bytes) {
    WellFormed(fs) && l.source !in fs.names && Somewhere(l, fs, all, bytes)
  }

  /** After an action: a pass, a move of the bytes, a harmless failure, or a ruined file. */
  ghost predicate Outcome(l: Layout, was: Fs, before: seq<Action>, action: Action, t: Fs, ok: bool, bytes: Bytes) {
    || (ok && CanPass(l, was, action) && Intact(l, was, t, before + [action], bytes))
    || Moved(l, t, [action], bytes)
    || (!ok && CanFail(l, action) && Has(t, l.source, bytes))
    || (Aliased(l, was, action) && (!ok || l.source !in t.names))
  }

  lemma {:induction false} IntactSnoc(l: Layout, was: Fs, t: Fs, before: seq<Action>, action: Action, bytes: Bytes)
    requires Intact(l, was, t, before, bytes) && forall r :: SendsTo(l, action, r) ==> Holds(t, r, bytes)
    ensures Intact(l, was, t, before + [action], bytes)
  {
    ListsSnoc(l, was, before, action);
  }

  /** Copies other than the action's own target survive it. */
  lemma {:induction false} CopiesKept(l: Layout, fs: Fs, before: seq<Action>, action: Action, a: Answers, bytes: Bytes)
    requires WellFormed(fs) && !action.Exec? && forall r :: Uploads(l, before, r) ==> Holds(fs, r, bytes)
    ensures forall r :: Uploads(l, before, r) && !SendsTo(l, action, r) ==> Holds(Perform(l, fs, action, a).0, r, bytes)
  {
    forall r | Uploads(l, before, r) && !SendsTo(l, action, r)
      ensures Holds(Perform(l, fs, action, a).0, r, bytes)
    {
      OthersKept(l, fs, action, a, r, bytes);
    }
  }

  lemma {:induction false} OneAction(l: Layout, was: Fs, fs: Fs, before: seq<Action>, action: Action, a: Answers,
                                     bytes: Bytes)
    requires Intact(l, was, fs, before, bytes) && !action.Exec?
    ensures var (t, ok) := Perform(l, fs, action, a);
      && WellFormed(t) && SameAliases(l, was, t)
      && Outcome(l, was, before, action, t, ok, bytes)
  {
    var (t, ok) := Perform(l, fs, action, a);
    AliasesKept(l, fs, action, a);
    CopiesKept(l, fs, before, action, a, bytes);
    match action {
      case Move(_) =>
        if Aliased(l, fs, action) {
          AliasedOutcome(l, fs, action, a);
          if t == fs && ok {
            IntactSnoc(l, was, t, before, action, bytes);
          }
        } else {
          MoveOutcome(l, fs, action, a, bytes);
        }
      case Scp(_, _, _) =>
        UploadOutcome(l, fs, action, a, bytes);
        if ok && !action.deleteSource {
          IntactSnoc(l, was, t, before, action, bytes);
        }
      case ValidateZip(_) =>
        IntactSnoc(l, was, t, before, action, bytes);
      case Notify(_) =>
        IntactSnoc(l, was, t, before, action, bytes);
    }
  }

  lemma {:induction false} HooksWithoutSource(l: Layout, r: Run, hooks: seq<Action>, answers: Oracle)
    requires WellFormed(r.fs) && l.source !in r.fs.names && NoExec(hooks)
    ensures AllHooks(l, r, hooks, answers).fs == r.fs
    decreases |hooks|
  {
    if hooks != [] {
      assert hooks[0] in hooks;
      NothingWithoutSource(l, r.fs, hooks[0], answers(|r.trace|));
      HooksWithoutSource(l, Do(l, r, hooks[0], answers), hooks[1..], answers);
    }
  }

  lemma {:induction false} ActionsWithoutSource(l: Layout, r: Run, list: seq<Action>, answers: Oracle)
    requires WellFormed(r.fs) && l.source !in r.fs.names && NoExec(list)
    ensures UntilFailure(l, r, list, answers).fs == r.fs
    decreases |list|
  {
    if list != [] {
      assert list[0] in list;
      NothingWithoutSource(l, r.fs, list[0], answers(|r.trace|));
      ActionsWithoutSource(l, Do(l, r, list[0], answers), list[1..], answers);
    }
  }

  /** A copy that no hook uploads to survives them. */
  lemma {:induction false} HooksKeepCopy(l: Layout, run: Run, hooks: seq<Action>, answers: Oracle, r: Remote,
                                         bytes: Bytes)
    requires WellFormed(run.fs) && NoExec(hooks) && Holds(run.fs, r, bytes) && !Uploads(l, hooks, r)
    ensures Holds(AllHooks(l, run, hooks, answers).fs, r, bytes)
    decreases |hooks|
  {
    if hooks != [] {
      assert hooks[0] in hooks && forall a :: a in hooks[1..] ==> a in hooks;
      OthersKept(l, run.fs, hooks[0], answers(|run.trace|), r, bytes);
      HooksKeepCopy(l, Do(l, run, hooks[0], answers), hooks[1..], answers, r, bytes);
    }
  }

  /** Hooks none of which is aliased keep the bytes. */
  lemma {:induction false} HooksKeepBytes(l: Layout, was: Fs, run: Run, hooks: seq<Action>, answers: Oracle,
                                          bytes: Bytes)
    requires Intact(l, was, run.fs, [], bytes) && NoExec(hooks) && !AnyAliased(l, was, hooks)
    ensures Somewhere(l, AllHooks(l, run, hooks, answers).fs, hooks, bytes)
    decreases |hooks|
  {
    if hooks != [] {
      var a := hooks[0];
      assert a in hooks && forall b :: b in hooks[1..] ==> b in hooks;
      OneAction(l, was, run.fs, [], a, answers(|run.trace|), bytes);
      var next := Do(l, run, a, answers);
      if l.source in next.fs.names {
        HooksKeepBytes(l, was, next, hooks[1..], answers, bytes);
        SomewhereAmong(l, AllHooks(l, run, hooks, answers).fs, hooks[1..], hooks, bytes);
      } else {
        HooksWithoutSource(l, next, hooks[1..], answers);
        SomewhereAmong(l, next.fs, [a], hooks, bytes);
      }
    }
  }

  /** Either no hook is aliased, or some uploaded copy is out of reach of the last action and the hooks. */
  lemma {:induction false} SurvivingCopy(l: Layout, was: Fs, before: seq<Action>, last: seq<Action>, hooks: seq<Action>)
    returns (copy: Option<Remote>)
    requires !Endangers(l, was, before, last + hooks)
    ensures match copy
      case None => !AnyAliased(l, was, last) && !AnyAliased(l, was, hooks)
      case Some(r) => Uploads(l, before, r) && !Uploads(l, last, r) && !Uploads(l, hooks, r)
  {
    assert forall a :: a in last || a in hooks ==> a in last + hooks;
    if AnyAliased(l, was, last + hooks) {
      var r :| Uploads(l, before, r) && !Uploads(l, last + hooks, r);
      copy := Some(r);
    } else {
      copy := None;
    }
  }

  /** Action k fails; the rule is not exposed there. */
  lemma {:induction false} FailureKeepsBytes(l: Layout, was: Fs, rule: CompiledRule, r: Run, k: nat,
                                             answers: Oracle, bytes: Bytes)
    requires k < |rule.actions| && NoExec(AllLists(rule)) && Passable(l, was, rule.actions[..k])
    requires Intact(l, was, r.fs, rule.actions[..k], bytes) && !ExposedAt(l, was, rule, k)
    requires !Perform(l, r.fs, rule.actions[k], answers(|r.trace|)).1
    ensures var s := Do(l, r, rule.actions[k], answers);
      Somewhere(l, AllHooks(l, s, rule.onFail, answers).fs, AllLists(rule), bytes)
  {
    var before, a, hooks := rule.actions[..k], rule.actions[k], rule.onFail;
    var s := Do(l, r, a, answers);
    var end := AllHooks(l, s, hooks, answers).fs;
    assert a in AllLists(rule) && forall b :: b in before || b in hooks ==> b in AllLists(rule);
    OneAction(l, was, r.fs, before, a, answers(|r.trace|), bytes);
    CopiesKept(l, r.fs, before, a, answers(|r.trace|), bytes);
    if l.source !in s.fs.names && Somewhere(l, s.fs, [a], bytes) {
      HooksWithoutSource(l, s, hooks, answers);
      SomewhereAmong(l, s.fs, [a], AllLists(rule), bytes);
    } else {
      assert CanFail(l, a);
      var copy := SurvivingCopy(l, was, before, [a], hooks);
      if copy.Some? {
        assert a in [a];
        HooksKeepCopy(l, s, hooks, answers, copy.value, bytes);
        CopyIsSomewhere(l, end, before, copy.value, AllLists(rule), bytes);
      } else {
        assert a in [a];
        HooksKeepBytes(l, was, s, hooks, answers, bytes);
        SomewhereAmong(l, end, hooks, AllLists(rule), bytes);
      }
    }
  }

  lemma CopyIsSomewhere(l: Layout, fs: Fs, before: seq<Action>, r: Remote, all: seq<Action>, bytes: Bytes)
    requires Uploads(l, before, r) && Holds(fs, r, bytes) && forall a :: a in before ==> a in all
    ensures Somewhere(l, fs, all, bytes)
  {
    var a :| a in before && SendsTo(l, a, r);
    assert a in all && SendsTo(l, a, r);
  }

  /** All actions have passed. */
  lemma {:induction false} SuccessKeepsBytes(l: Layout, was: Fs, rule: CompiledRule, r: Run, answers: Oracle,
                                             bytes: Bytes)
    requires NoExec(AllLists(rule)) && Intact(l, was, r.fs, rule.actions, bytes)
    requires !Endangers(l, was, rule.actions, rule.onSuccess)
    ensures Somewhere(l, AllHooks(l, r, rule.onSuccess, answers).fs, AllLists(rule), bytes)
  {
    var hooks := rule.onSuccess;
    var end := AllHooks(l, r, hooks, answers).fs;
    assert forall b :: b in rule.actions || b in hooks ==> b in AllLists(rule);
    assert [] + hooks == hooks;
    var copy := SurvivingCopy(l, was, rule.actions, [], hooks);
    if copy.Some? {
      HooksKeepCopy(l, r, hooks, answers, copy.value, bytes);
      CopyIsSomewhere(l, end, rule.actions, copy.value, AllLists(rule), bytes);
    } else {
      HooksKeepBytes(l, was, r, hooks, answers, bytes);
      SomewhereAmong(l, end, hooks, AllLists(rule), bytes);
    }
  }

  /** Action k succeeds and takes the source away. */
  lemma {:induction false} DepartureKeepsBytes(l: Layout, was: Fs, rule: CompiledRule, r: Run, k: nat,
                                               answers: Oracle, bytes: Bytes)
    requires k < |rule.actions| && NoExec(AllLists(rule)) && Passable(l, was, rule.actions[..k])
    requires Intact(l, was, r.fs, rule.actions[..k], bytes) && !ExposedAt(l, was, rule, k)
    requires l.source !in Do(l, r, rule.actions[k], answers).fs.names
    ensures Somewhere(l, Do(l, r, rule.actions[k], answers).fs, AllLists(rule), bytes)
  {
    var before, a := rule.actions[..k], rule.actions[k];
    var t := Do(l, r, a, answers).fs;
    assert a in AllLists(rule) && forall b :: b in before ==> b in AllLists(rule);
    OneAction(l, was, r.fs, before, a, answers(|r.trace|), bytes);
    CopiesKept(l, r.fs, before, a, answers(|r.trace|), bytes);
    if Somewhere(l, t, [a], bytes) {
      SomewhereAmong(l, t, [a], AllLists(rule), bytes);
    } else {
      assert a in [a] && Aliased(l, was, a);
      var copy := SurvivingCopy(l, was, before, [a], rule.onFail);
      CopyIsSomewhere(l, t, before, copy.value, AllLists(rule), bytes);
    }
  }

  lemma {:induction false} ActionsKeepBytes(l: Layout, was: Fs, rule: CompiledRule, r: Run, k: nat,
                                            answers: Oracle, bytes: Bytes)
    requires k <= |rule.actions| && NoExec(AllLists(rule)) && Passable(l, was, rule.actions[..k])
    requires Intact(l, was, r.fs, rule.actions[..k], bytes) && AllOk(r.trace) && !Exposed(l, was, rule)
    ensures var t := UntilFailure(l, r, rule.actions[k..], answers);
      Somewhere(l, Finish(l, rule, t, answers).fs, AllLists(rule), bytes)
    decreases |rule.actions| - k
  {
    var before, rest := rule.actions[..k], rule.actions[k..];
    if rest == [] {
      assert before == rule.actions;
      SuccessKeepsBytes(l, was, rule, r, answers, bytes);
    } else {
      var a := rule.actions[k];
      var s := Do(l, r, a, answers);
      var (t, ok) := Perform(l, r.fs, a, answers(|r.trace|));
      assert a in AllLists(rule) && rest[1..] == rule.actions[k + 1..];
      assert before + [a] == rule.actions[..k + 1];
      OneAction(l, was, r.fs, before, a, answers(|r.trace|), bytes);
      if !ok {
        assert !s.trace[|r.trace|].ok;
        FailureKeepsBytes(l, was, rule, r, k, answers, bytes);
      } else if l.source in t.names {
        ActionsKeepBytes(l, was, rule, s, k + 1, answers, bytes);
      } else {
        DepartureKeepsBytes(l, was, rule, r, k, answers, bytes);
        assert NoExec(rule.actions[k + 1..]) && NoExec(rule.onSuccess) && NoExec(rule.onFail);
        ActionsWithoutSource(l, s, rule.actions[k + 1..], answers);
        HooksWithoutSource(l, UntilFailure(l, s, rule.actions[k + 1..], answers), rule.onSuccess, answers);
        HooksWithoutSource(l, UntilFailure(l, s, rule.actions[k + 1..], answers), rule.onFail, answers);
      }
    }
  }

  /**
    However renames, copies, closes and removes fail: a rule of moves, uploads, validations and
    notifications that is not exposed leaves the bytes at the source, at a move destination or at
    an upload target.
  */
  lemma {:induction false} NoBytesLost(l: Layout, fs: Fs, rule: CompiledRule, bytes: Bytes, answers: Oracle)
    requires WellFormed(fs) && Has(fs, l.source, bytes) && NoExec(AllLists(rule)) && !Exposed(l, fs, rule)
    ensures Somewhere(l, RunRule(l, fs, rule, answers).fs, AllLists(rule), bytes)
  {
    assert rule.actions[..0] == [] && rule.actions[0..] == rule.actions;
    ActionsKeepBytes(l, fs, rule, Run(fs, []), 0, answers, bytes);
  }

  // ---- an exposed rule can lose them ----

  const NOTHING := Fs(map[], map[], 0, map[])

  /** Everything works. */
  const PASS := Answers(true, Renamed, true, true, true, None, true, true, true, true, true, true, NOTHING)

  /** Renames report a link error, every copy breaks off at once, validations fail. */
  const WRECK := Answers(true, LinkError, true, true, true, Some(0), true, true, false, true, true, false, NOTHING)

  /** Everything works for the first n actions, nothing afterwards. */
  function WorksUntil(n: nat): Oracle {
    i => if i < n then PASS else WRECK
  }

  /** The bytes are at the source only. */
  ghost predicate OnlyAtSource(l: Layout, fs: Fs, bytes: Bytes) {
    && Has(fs, l.source, bytes) && bytes != []
    && (forall p :: Has(fs, p, bytes) ==> SameFile(fs, l.source, p))
    && forall r :: r in fs.remote ==> fs.remote[r] != bytes
  }

  /** Only copies at upload targets of `before` have been added. */
  ghost predicate OnlyCopied(l: Layout, was: Fs, fs: Fs, before: seq<Action>, bytes: Bytes) {
    && fs.names == was.names && fs.data == was.data && fs.next == was.next
    && forall r :: Holds(fs, r, bytes) ==> Uploads(l, before, r)
  }

  lemma {:induction false} PassingAction(l: Layout, was: Fs, fs: Fs, before: seq<Action>, action: Action, bytes: Bytes)
    requires WellFormed(was) && l.source in was.names
    requires OnlyCopied(l, was, fs, before, bytes) && CanPass(l, was, action)
    ensures WellFormed(fs) && Perform(l, fs, action, PASS).1
    ensures OnlyCopied(l, was, Perform(l, fs, action, PASS).0, before + [action], bytes)
  {
    ListsSnoc(l, was, before, action);
    assert WellFormed(fs);
    if action.Scp? {
      var dir := Resolve(l, fs, action.dest);
      assert SendsTo(l, action, Remote(action.host, l.remotePath(dir.value)));
    }
  }

  /** Running `list` leads from r to t, only copies being added; `rest` is still to run. */
  ghost predicate PassesTo(l: Layout, was: Fs, r: Run, before: seq<Action>, list: seq<Action>, rest: seq<Action>,
                           n: nat, bytes: Bytes, t: Run)
    requires WellFormed(r.fs)
  {
    && WellFormed(t.fs) && OnlyCopied(l, was, t.fs, before + list, bytes)
    && AllOk(t.trace) && |t.trace| == |r.trace| + |list|
    && UntilFailure(l, r, list + rest, WorksUntil(n)) == UntilFailure(l, t, rest, WorksUntil(n))
  }

  lemma {:induction false} PassingActions(l: Layout, was: Fs, r: Run, before: seq<Action>, list: seq<Action>,
                                          rest: seq<Action>, n: nat, bytes: Bytes)
    requires WellFormed(was) && l.source in was.names && OnlyCopied(l, was, r.fs, before, bytes) && AllOk(r.trace)
    requires Passable(l, was, list) && |r.trace| + |list| <= n && WellFormed(r.fs)
    ensures exists t :: PassesTo(l, was, r, before, list, rest, n, bytes, t)
    decreases |list|
  {
    if list == [] {
      assert list + rest == rest && before + list == before;
      assert PassesTo(l, was, r, before, list, rest, n, bytes, r);
    } else {
      var a := list[0];
      assert a in list && (list + rest)[0] == a && (list + rest)[1..] == list[1..] + rest;
      assert before + [a] + list[1..] == before + list;
      PassingAction(l, was, r.fs, before, a, bytes);
      var s := Do(l, r, a, WorksUntil(n));
      PassingActions(l, was, s, before + [a], list[1..], rest, n, bytes);
      var t :| PassesTo(l, was, s, before + [a], list[1..], rest, n, bytes, t);
      assert PassesTo(l, was, r, before, list, rest, n, bytes, t);
    }
  }

  /** The source file may be ruined; no other file has the bytes, and only untouched copies do. */
  ghost predicate Wrecked(l: Layout, was: Fs, fs: Fs, before: seq<Action>, done: seq<Action>, bytes: Bytes) {
    && WellFormed(fs) && l.source in fs.names && SameAliases(l, was, fs)
    && (forall p :: Has(fs, p, bytes) ==> SameFile(fs, l.source, p))
    && (forall r :: Holds(fs, r, bytes) ==> Uploads(l, before, r) && !Uploads(l, done, r))
    && (AnyAliased(l, was, done) ==> !Has(fs, l.source, bytes))
  }

  lemma {:induction false} WreckingMove(l: Layout, fs: Fs, action: Action, bytes: Bytes)
    requires WellFormed(fs) && l.source in fs.names && action.Move? && bytes != []
    requires forall p :: Has(fs, p, bytes) ==> SameFile(fs, l.source, p)
    ensures var (t, ok) := Perform(l, fs, action, WRECK);
      && WellFormed(t) && !ok && l.source in t.names && SameAliases(l, fs, t) && t.remote == fs.remote
      && (forall p :: Has(t, p, bytes) ==> SameFile(t, l.source, p))
      && (Aliased(l, fs, action) || !Has(fs, l.source, bytes) ==> !Has(t, l.source, bytes))
  {
    AliasesKept(l, fs, action, WRECK);
  }

  lemma {:induction false} WreckingAction(l: Layout, was: Fs, r: Run, before: seq<Action>, done: seq<Action>,
                                          action: Action, answers: Oracle, bytes: Bytes)
    requires Wrecked(l, was, r.fs, before, done, bytes) && !action.Exec? && bytes != [] && answers(|r.trace|) == WRECK
    ensures var s := Do(l, r, action, answers);
      && Wrecked(l, was, s.fs, before, done + [action], bytes)
      && (CanFail(l, action) ==> !s.trace[|r.trace|].ok)
  {
    ListsSnoc(l, was, done, action);
    AliasesKept(l, r.fs, action, WRECK);
    if action.Move? {
      WreckingMove(l, r.fs, action, bytes);
    }
  }

  lemma {:induction false} WreckingHooks(l: Layout, was: Fs, r: Run, before: seq<Action>, done: seq<Action>,
                                         hooks: seq<Action>, n: nat, bytes: Bytes)
    requires Wrecked(l, was, r.fs, before, done, bytes) && NoExec(hooks) && bytes != [] && n <= |r.trace|
    ensures Wrecked(l, was, AllHooks(l, r, hooks, WorksUntil(n)).fs, before, done + hooks, bytes)
    decreases |hooks|
  {
    if hooks == [] {
      assert done + hooks == done;
    } else {
      var a := hooks[0];
      assert a in hooks && forall b :: b in hooks[1..] ==> b in hooks;
      assert done + [a] + hooks[1..] == done + hooks;
      WreckingAction(l, was, r, before, done, a, WorksUntil(n), bytes);
      WreckingHooks(l, was, Do(l, r, a, WorksUntil(n)), before, done + [a], hooks[1..], n, bytes);
    }
  }

  lemma {:induction false} NothingLeft(l: Layout, was: Fs, fs: Fs, before: seq<Action>, done: seq<Action>,
                                       all: seq<Action>, bytes: Bytes)
    requires Wrecked(l, was, fs, before, done, bytes) && Endangers(l, was, before, done)
    ensures !Somewhere(l, fs, all, bytes)
  {
    forall p
      ensures !Has(fs, p, bytes)
    {
      assert Has(fs, p, bytes) ==> SameFile(fs, l.source, p);
    }
    forall r
      ensures !Holds(fs, r, bytes)
    {
      assert Holds(fs, r, bytes) ==> Uploads(l, before, r) && !Uploads(l, done, r);
    }
    assert forall a, r :: a in all && SendsTo(l, a, r) ==> !Holds(fs, r, bytes);
  }

  lemma {:induction false} WreckAfter(l: Layout, fs: Fs, r: Run, before: seq<Action>, bytes: Bytes)
    requires WellFormed(fs) && OnlyAtSource(l, fs, bytes) && OnlyCopied(l, fs, r.fs, before, bytes) && WellFormed(r.fs)
    ensures Wrecked(l, fs, r.fs, before, [], bytes)
  {
  }

  /** Where the actions before k have passed and only copies been added, action k and the hooks destroy everything. */
  lemma {:induction false} WreckedByFailure(l: Layout, fs: Fs, rule: CompiledRule, t: Run, k: nat, bytes: Bytes)
    requires WellFormed(fs) && OnlyAtSource(l, fs, bytes) && NoExec(AllLists(rule)) && ExposedAt(l, fs, rule, k)
    requires WellFormed(t.fs) && OnlyCopied(l, fs, t.fs, rule.actions[..k], bytes) && |t.trace| == k
    ensures var s := Do(l, t, rule.actions[k], WorksUntil(k));
      && !s.trace[k].ok
      && !Somewhere(l, AllHooks(l, s, rule.onFail, WorksUntil(k)).fs, AllLists(rule), bytes)
  {
    var before, a := rule.actions[..k], rule.actions[k];
    assert a in AllLists(rule) && forall b :: b in rule.onFail ==> b in AllLists(rule);
    assert [] + [a] == [a];
    WreckAfter(l, fs, t, before, bytes);
    WreckingAction(l, fs, t, before, [], a, WorksUntil(k), bytes);
    var s := Do(l, t, a, WorksUntil(k));
    WreckingHooks(l, fs, s, before, [a], rule.onFail, k, bytes);
    NothingLeft(l, fs, AllHooks(l, s, rule.onFail, WorksUntil(k)).fs, before, [a] + rule.onFail, AllLists(rule), bytes);
  }

  lemma {:induction false} LostByFailure(l: Layout, fs: Fs, rule: CompiledRule, k: nat, bytes: Bytes)
    requires WellFormed(fs) && OnlyAtSource(l, fs, bytes) && NoExec(AllLists(rule)) && ExposedAt(l, fs, rule, k)
    ensures !Somewhere(l, RunRule(l, fs, rule, WorksUntil(k)).fs, AllLists(rule), bytes)
  {
    var before, rest := rule.actions[..k], rule.actions[k..];
    var start := Run(fs, []);
    assert before + rest == rule.actions && [] + before == before && rest[0] == rule.actions[k];
    PassingActions(l, fs, start, [], before, rest, k, bytes);
    var t :| PassesTo(l, fs, start, [], before, rest, k, bytes, t);
    WreckedByFailure(l, fs, rule, t, k, bytes);
    assert UntilFailure(l, start, rule.actions, WorksUntil(k)) == Do(l, t, rule.actions[k], WorksUntil(k));
  }

  lemma {:induction false} LostBySuccess(l: Layout, fs: Fs, rule: CompiledRule, bytes: Bytes)
    requires WellFormed(fs) && OnlyAtSource(l, fs, bytes) && NoExec(AllLists(rule))
    requires Passable(l, fs, rule.actions) && Endangers(l, fs, rule.actions, rule.onSuccess)
    ensures !Somewhere(l, RunRule(l, fs, rule, WorksUntil(|rule.actions|)).fs, AllLists(rule), bytes)
  {
    var n := |rule.actions|;
    var start := Run(fs, []);
    assert rule.actions + [] == rule.actions && [] + rule.actions == rule.actions;
    assert forall b :: b in rule.onSuccess ==> b in AllLists(rule);
    PassingActions(l, fs, start, [], rule.actions, [], n, bytes);
    var t :| PassesTo(l, fs, start, [], rule.actions, [], n, bytes, t);
    assert UntilFailure(l, start, rule.actions, WorksUntil(n)) == t;
    WreckAfter(l, fs, t, rule.actions, bytes);
    WreckingHooks(l, fs, t, rule.actions, [], rule.onSuccess, n, bytes);
    assert [] + rule.onSuccess == rule.onSuccess;
    NothingLeft(l, fs, RunRule(l, fs, rule, WorksUntil(n)).fs, rule.actions, rule.onSuccess, AllLists(rule), bytes);
  }

  /** The bytes survive whatever fails if and only if the rule is not exposed. */
  lemma {:induction false} BytesSurviveExactly(l: Layout, fs: Fs, rule: CompiledRule, bytes: Bytes)
    requires WellFormed(fs) && OnlyAtSource(l, fs, bytes) && NoExec(AllLists(rule))
    ensures (forall answers :: Somewhere(l, RunRule(l, fs, rule, answers).fs, AllLists(rule), bytes)) <==>
      !Exposed(l, fs, rule)
  {
    if Exposed(l, fs, rule) {
      if k :| ExposedAt(l, fs, rule, k) {
        LostByFailure(l, fs, rule, k, bytes);
      } else {
        LostBySuccess(l, fs, rule, bytes);
      }
    } else {
      forall answers
        ensures Somewhere(l, RunRule(l, fs, rule, answers).fs, AllLists(rule), bytes)
      {
        NoBytesLost(l, fs, rule, bytes, answers);
      }
    }
  }

  /** In particular a rule none of whose moves aims at another name of the source is safe. */
  lemma {:induction false} UnaliasedIsSafe(l: Layout, fs: Fs, rule: CompiledRule)
    requires !AnyAliased(l, fs, AllLists(rule))
    ensures !Exposed(l, fs, rule)
  {
    assert forall a :: a in rule.actions || a in rule.onSuccess || a in rule.onFail ==> a in AllLists(rule);
  }

  // ---- what is not asked for is not done ----

  /** The action does not touch the local disk. */
  predicate LeavesDisk(action: Action) {
    match action
    case Scp(_, _, deleteSource) => !deleteSource
    case ValidateZip(_) => true
    case Notify(_) => true
    case _ => false
  }

  lemma {:induction false} ActionsLeaveDisk(l: Layout, r: Run, list: seq<Action>, answers: Oracle)
    requires WellFormed(r.fs) && forall a :: a in list ==> LeavesDisk(a)
    ensures var t := UntilFailure(l, r, list, answers); t.fs.names == r.fs.names && t.fs.data == r.fs.data
    ensures var t := AllHooks(l, r, list, answers); t.fs.names == r.fs.names && t.fs.data == r.fs.data
    decreases |list|
  {
    if list != [] {
      assert list[0] in list && forall a :: a in list[1..] ==> a in list;
      ActionsLeaveDisk(l, Do(l, r, list[0], answers), list[1..], answers);
    }
  }

  /** The entry asks for an upload that keeps the source, a validation or a notification. */
  predicate AsksNothingLocal(ac: ActionConfig) {
    && ac.move.None? && ac.exec.None?
    && (ac.scp.Some? ==> !ac.scp.value.deleteSource)
  }

  /**
    A rule configured without moves, commands and deleting uploads leaves every local file in its place
    with its bytes, whatever fails.
  */
  lemma {:induction false} NothingLostUnasked(lib: Library, l: Layout, fs: Fs, rule: Rule, hasPool: bool,
                                              compiled: CompiledRule, answers: Oracle)
    requires WellFormed(fs) && IsCompiled(lib, rule, hasPool, compiled)
    requires forall ac :: ac in rule.actions + rule.onSuccess + rule.onFail ==> AsksNothingLocal(ac)
    ensures var t := RunRule(l, fs, compiled, answers).fs; t.names == fs.names && t.data == fs.data
  {
    var r := UntilFailure(l, Run(fs, []), compiled.actions, answers);
    LeftAlone(rule.actions, hasPool, compiled.actions);
    LeftAlone(rule.onSuccess, hasPool, compiled.onSuccess);
    LeftAlone(rule.onFail, hasPool, compiled.onFail);
    ActionsLeaveDisk(l, Run(fs, []), compiled.actions, answers);
    ActionsLeaveDisk(l, r, if AllOk(r.trace) then compiled.onSuccess else compiled.onFail, answers);
  }

  lemma {:induction false} LeftAlone(list: seq<ActionConfig>, hasPool: bool, actions: seq<Action>)
    requires ListsMatch(list, hasPool, actions) && forall ac :: ac in list ==> AsksNothingLocal(ac)
    ensures forall a :: a in actions ==> LeavesDisk(a)
  {
    forall i | 0 <= i < |actions|
      ensures LeavesDisk(actions[i])
    {
      assert list[i] in list;
      BuiltAsDeclared(list[i], hasPool, actions[i]);
    }
  }
}
