/** The rule engine's compile step: configuration in, compiled rules and ignores out. */
module Engine {
  import opened Basics
  import opened Config

  datatype Action =
    | Move(dest: string)
    | Exec(command: string)
    | Scp(host: string, dest: string, deleteSource: bool)
    | ValidateZip(full: bool)
    | Notify(message: string)

  /** Builds the action of a configuration entry; SCP needs a connection pool. */
  function FromConfig(ac: ActionConfig, hasPool: bool): Option<Action> {
    if ac.move.Some? then Some(Move(ac.move.value))
    else if ac.exec.Some? then Some(Exec(ac.exec.value))
    else if ac.scp.Some? then
      if hasPool then Some(Scp(ac.scp.value.host, ac.scp.value.dest, ac.scp.value.deleteSource)) else None
    else if ac.validateZip.Some? then Some(ValidateZip(ac.validateZip.value == "full"))
    else if ac.notify.Some? then Some(Notify(ac.notify.value))
    else None
  }

  function KindOf(a: Action): Kind {
    match a
    case Move(_) => MoveKind
    case Exec(_) => ExecKind
    case Scp(_, _, _) => ScpKind
    case ValidateZip(_) => ValidateZipKind
    case Notify(_) => NotifyKind
  }

  /**
    The tray shows the kind of action that is really built, exactly unless an entry sets both scp and
    exec and no move: the two case analyses try these in different orders.
  */
  lemma {:induction false} ShownKindIsBuiltKind(ac: ActionConfig, hasPool: bool)
    requires FromConfig(ac, hasPool).Some?
    ensures KindOf(FromConfig(ac, hasPool).value) == TypeName(ac) <==> !(ac.move.None? && ac.scp.Some? && ac.exec.Some?)
  {
  }

  /** The action carries what the entry configures; of several fields set, the first in this order counts. */
  predicate Declares(ac: ActionConfig, action: Action) {
    match action
    case Move(dest) => ac.move == Some(dest)
    case Exec(command) => ac.move.None? && ac.exec == Some(command)
    case Scp(host, dest, deleteSource) =>
      ac.move.None? && ac.exec.None? && ac.scp == Some(ScpConfig(host, dest, deleteSource))
    case ValidateZip(full) =>
      && ac.move.None? && ac.exec.None? && ac.scp.None?
      && ac.validateZip.Some? && (full <==> ac.validateZip.value == "full")
    case Notify(message) =>
      ac.move.None? && ac.exec.None? && ac.scp.None? && ac.validateZip.None? && ac.notify == Some(message)
  }

  /** Every field of the action built is the configured one; only an upload needs the pool. */
  lemma {:induction false} BuiltAsDeclared(ac: ActionConfig, hasPool: bool, action: Action)
    ensures FromConfig(ac, hasPool) == Some(action) <==> Declares(ac, action) && (action.Scp? ==> hasPool)
  {
  }

  datatype CompiledRule = CompiledRule(
    name: string,
    criteria: MatchRule,
    regex: Option<string>,
    minAge: Int64,
    actions: seq<Action>,
    onSuccess: seq<Action>,
    onFail: seq<Action>)

  datatype CompiledIgnore = CompiledIgnore(name: string, criteria: MatchRule, regex: Option<string>, minAge: Int64)

  datatype Compiled = Compiled(rules: seq<CompiledRule>, ignores: seq<CompiledIgnore>)

  const NANOS_PER_SECOND := 1_000_000_000

  /** Conversion of an unbounded product to a 64-bit duration. */
  function Wrap(x: int): Int64 {
    (x + 0x8000_0000_0000_0000) % 0x1_0000_0000_0000_0000 - 0x8000_0000_0000_0000
  }

  function CompileMinAge(lib: Library, m: MatchRule): Int64 {
    if m.minAge != "" && lib.parseDuration(m.minAge).Some? then lib.parseDuration(m.minAge).value
    else if m.minAgeSeconds > 0 then Wrap(m.minAgeSeconds * NANOS_PER_SECOND)
    else 0
  }

  function CompileRegex(m: MatchRule): Option<string> {
    if m.filenameRegex == "" then None else Some(m.filenameRegex)
  }

  predicate RegexOk(lib: Library, m: MatchRule) {
    m.filenameRegex != "" ==> lib.regexCompiles(m.filenameRegex)
  }

  // ---- what NewEngine promises ----

  predicate ActionsCompile(list: seq<ActionConfig>, hasPool: bool) {
    forall i :: 0 <= i < |list| ==> FromConfig(list[i], hasPool).Some?
  }

  predicate RuleCompiles(lib: Library, r: Rule, hasPool: bool) {
    && RegexOk(lib, r.criteria)
    && ActionsCompile(r.actions, hasPool) && ActionsCompile(r.onSuccess, hasPool) && ActionsCompile(r.onFail, hasPool)
  }

  predicate Compiles(lib: Library, rules: seq<Rule>, ignored: map<string, MatchRule>, hasPool: bool) {
    && (forall i :: 0 <= i < |rules| ==> RuleCompiles(lib, rules[i], hasPool))
    && (forall name :: name in ignored ==> RegexOk(lib, ignored[name]))
  }

  /** Same length, same order, each action built from its entry. */
  predicate ListsMatch(list: seq<ActionConfig>, hasPool: bool, actions: seq<Action>) {
    |actions| == |list| && forall i :: 0 <= i < |list| ==> FromConfig(list[i], hasPool) == Some(actions[i])
  }

  predicate IsCompiled(lib: Library, r: Rule, hasPool: bool, cr: CompiledRule) {
    && cr.name == r.name && cr.criteria == r.criteria
    && cr.regex == CompileRegex(r.criteria) && cr.minAge == CompileMinAge(lib, r.criteria)
    && ListsMatch(r.actions, hasPool, cr.actions)
    && ListsMatch(r.onSuccess, hasPool, cr.onSuccess)
    && ListsMatch(r.onFail, hasPool, cr.onFail)
  }

  function CompileIgnore(lib: Library, name: string, m: MatchRule): CompiledIgnore {
    CompiledIgnore(name, m, CompileRegex(m), CompileMinAge(lib, m))
  }

  predicate Listed(ignores: seq<CompiledIgnore>, name: string) {
    exists i :: 0 <= i < |ignores| && ignores[i].name == name
  }

  lemma ListedSnoc(ignores: seq<CompiledIgnore>, last: CompiledIgnore)
    ensures forall name :: Listed(ignores + [last], name) <==> Listed(ignores, name) || name == last.name
  {
    var longer := ignores + [last];
    forall name
      ensures Listed(longer, name) <==> Listed(ignores, name) || name == last.name
    {
      assert longer[|ignores|] == last;
      if i :| 0 <= i < |ignores| && ignores[i].name == name {
        assert longer[i].name == name;
      }
    }
  }

  /** The ignore list holds every entry of the map once, in whatever order the map was walked. */
  ghost predicate IgnoresMatch(lib: Library, ignored: map<string, MatchRule>, ignores: seq<CompiledIgnore>) {
    && (forall i :: 0 <= i < |ignores| ==>
          ignores[i].name in ignored && ignores[i] == CompileIgnore(lib, ignores[i].name, ignored[ignores[i].name]))
    && (forall i, j :: 0 <= i < j < |ignores| ==> ignores[i].name != ignores[j].name)
    && (forall name :: name in ignored ==> Listed(ignores, name))
  }

  ghost predicate IsEngine(lib: Library, rules: seq<Rule>, ignored: map<string, MatchRule>, hasPool: bool,
                           c: Compiled) {
    && |c.rules| == |rules|
    && (forall i :: 0 <= i < |rules| ==> IsCompiled(lib, rules[i], hasPool, c.rules[i]))
    && IgnoresMatch(lib, ignored, c.ignores)
  }

  method CompileActions(list: seq<ActionConfig>, hasPool: bool) returns (r: Option<seq<Action>>)
    ensures r.Some? <==> ActionsCompile(list, hasPool)
    ensures r.Some? ==> ListsMatch(list, hasPool, r.value)
  {
    var actions: seq<Action> := [];
    for j := 0 to |list|
      invariant |actions| == j
      invariant forall i :: 0 <= i < j ==> FromConfig(list[i], hasPool) == Some(actions[i])
    {
      var action := FromConfig(list[j], hasPool);
      if action.None? {
        return None;
      }
      actions := actions + [action.value];
    }
    return Some(actions);
  }

  method CompileRules(lib: Library, rules: seq<Rule>, hasPool: bool) returns (r: Option<seq<CompiledRule>>)
    ensures r.Some? <==> forall i :: 0 <= i < |rules| ==> RuleCompiles(lib, rules[i], hasPool)
    ensures r.Some? ==> |r.value| == |rules|
    ensures r.Some? ==> forall i :: 0 <= i < |rules| ==> IsCompiled(lib, rules[i], hasPool, r.value[i])
  {
    var compiled: seq<CompiledRule> := [];
    for i := 0 to |rules|
      invariant |compiled| == i
      invariant forall j :: 0 <= j < i ==> RuleCompiles(lib, rules[j], hasPool)
      invariant forall j :: 0 <= j < i ==> IsCompiled(lib, rules[j], hasPool, compiled[j])
    {
      var rule := rules[i];
      var regex := None;
      if rule.criteria.filenameRegex != "" {
        if !lib.regexCompiles(rule.criteria.filenameRegex) {
          return None;
        }
        regex := Some(rule.criteria.filenameRegex);
      }
      var actions := CompileActions(rule.actions, hasPool);
      if actions.None? {
        return None;
      }
      var onSuccess := CompileActions(rule.onSuccess, hasPool);
      if onSuccess.None? {
        return None;
      }
      var onFail := CompileActions(rule.onFail, hasPool);
      if onFail.None? {
        return None;
      }
      compiled := compiled + [CompiledRule(rule.name, rule.criteria, regex, CompileMinAge(lib, rule.criteria),
                                           actions.value, onSuccess.value, onFail.value)];
    }
    return Some(compiled);
  }

  method CompileIgnores(lib: Library, ignored: map<string, MatchRule>) returns (r: Option<seq<CompiledIgnore>>)
    ensures r.Some? <==> forall name :: name in ignored ==> RegexOk(lib, ignored[name])
    ensures r.Some? ==> IgnoresMatch(lib, ignored, r.value)
  {
    var ignores: seq<CompiledIgnore> := [];
    var todo := ignored.Keys;
    while todo != {}
      invariant todo <= ignored.Keys
      invariant forall i :: 0 <= i < |ignores| ==> ignores[i].name in ignored && ignores[i].name !in todo
      invariant forall i :: 0 <= i < |ignores| ==>
        ignores[i] == CompileIgnore(lib, ignores[i].name, ignored[ignores[i].name])
      invariant forall i, j :: 0 <= i < j < |ignores| ==> ignores[i].name != ignores[j].name
      invariant forall name :: name in ignored && name !in todo ==> Listed(ignores, name)
      invariant forall name :: name in ignored && name !in todo ==> RegexOk(lib, ignored[name])
      decreases |todo|
    {
      var name :| name in todo;
      todo := todo - {name};
      var regex := None;
      if ignored[name].filenameRegex != "" {
        if !lib.regexCompiles(ignored[name].filenameRegex) {
          return None;
        }
        regex := Some(ignored[name].filenameRegex);
      }
      var compiled := CompiledIgnore(name, ignored[name], regex, CompileMinAge(lib, ignored[name]));
      ListedSnoc(ignores, compiled);
      ignores := ignores + [compiled];
    }
    return Some(ignores);
  }

  method NewEngine(lib: Library, rules: seq<Rule>, ignored: map<string, MatchRule>, hasPool: bool)
    returns (r: Option<Compiled>)
    ensures r.Some? <==> Compiles(lib, rules, ignored, hasPool)
    ensures r.Some? ==> IsEngine(lib, rules, ignored, hasPool, r.value)
  {
    var compiled := CompileRules(lib, rules, hasPool);
    if compiled.None? {
      return None;
    }
    var ignores := CompileIgnores(lib, ignored);
    if ignores.None? {
      return None;
    }
    return Some(Compiled(compiled.value, ignores.value));
  }

  predicate AllDeclared(list: seq<ActionConfig>, actions: seq<Action>) {
    |actions| == |list| && forall i :: 0 <= i < |list| ==> Declares(list[i], actions[i])
  }

  lemma {:induction false} ListIsDeclared(list: seq<ActionConfig>, hasPool: bool, actions: seq<Action>)
    requires ListsMatch(list, hasPool, actions)
    ensures AllDeclared(list, actions)
  {
    forall i | 0 <= i < |list|
      ensures Declares(list[i], actions[i])
    {
      BuiltAsDeclared(list[i], hasPool, actions[i]);
    }
  }

  /** A compiled rule has the configured name and criteria, and each of its lists the configured actions in order. */
  lemma {:induction false} CompiledAsDeclared(lib: Library, rules: seq<Rule>, ignored: map<string, MatchRule>,
                                              hasPool: bool, c: Compiled, i: nat)
    requires IsEngine(lib, rules, ignored, hasPool, c) && i < |rules|
    ensures |c.rules| == |rules| && c.rules[i].name == rules[i].name && c.rules[i].criteria == rules[i].criteria
    ensures AllDeclared(rules[i].actions, c.rules[i].actions)
    ensures AllDeclared(rules[i].onSuccess, c.rules[i].onSuccess)
    ensures AllDeclared(rules[i].onFail, c.rules[i].onFail)
  {
    assert IsCompiled(lib, rules[i], hasPool, c.rules[i]);
    ListIsDeclared(rules[i].actions, hasPool, c.rules[i].actions);
    ListIsDeclared(rules[i].onSuccess, hasPool, c.rules[i].onSuccess);
    ListIsDeclared(rules[i].onFail, hasPool, c.rules[i].onFail);
  }

  /** Validated configurations always compile, whether the engine gets a pool being decided by newSSH. */
  lemma {:induction false} ValidatedConfigsCompile(lib: Library, stat: string -> Stat, c: Config)
    requires ValidConfig(lib, stat, c)
    ensures Compiles(lib, c.rules, c.ignored, c.sshHosts != map[])
  {
    forall i | 0 <= i < |c.rules|
      ensures RuleCompiles(lib, c.rules[i], c.sshHosts != map[])
    {
      assert c.rules[i] in c.rules;
      ValidActionsCompile(c, c.rules[i].actions);
      ValidActionsCompile(c, c.rules[i].onSuccess);
      ValidActionsCompile(c, c.rules[i].onFail);
    }
  }

  lemma {:induction false} ValidActionsCompile(c: Config, list: seq<ActionConfig>)
    requires ValidActions(c.sshHosts, list)
    ensures ActionsCompile(list, c.sshHosts != map[])
  {
    forall i | 0 <= i < |list|
      ensures FromConfig(list[i], c.sshHosts != map[]).Some?
    {
      assert list[i] in list && ValidAction(c.sshHosts, list[i]);
    }
  }

  // ---- matching ----

  /** What matching looks at: base name, extension, size, and time since the last modification. */
  datatype FileInfo = FileInfo(base: string, ext: string, size: Int64, elapsed: Int64)

  function Matches(lib: Library, f: FileInfo, m: MatchRule, regex: Option<string>, minAge: Int64): bool {
    if regex.Some? && !lib.regexMatches(regex.value, f.base) then false
    else if m.filenameGlob != "" && !lib.globMatches(m.filenameGlob, f.base) then false
    else if m.fileType != "" && !lib.equalFold(lib.classifyExt(f.ext), m.fileType) then false
    else
      var effective := if minAge == 0 && m.minAgeSeconds > 0 then Wrap(m.minAgeSeconds * NANOS_PER_SECOND) else minAge;
      if effective > 0 && f.elapsed < effective then false
      else if m.minSize > 0 && f.size < m.minSize then false
      else if m.maxSize > 0 && f.size > m.maxSize then false
      else true
  }

  /** The age a configuration asks for: a parsed non-zero min_age, else min_age_seconds, else none. */
  function DeclaredAge(lib: Library, m: MatchRule): int {
    var parsed := if m.minAge == "" then None else lib.parseDuration(m.minAge);
    if parsed.Some? && parsed.value != 0 then parsed.value
    else if m.minAgeSeconds > 0 then m.minAgeSeconds * NANOS_PER_SECOND
    else 0
  }

  /** The meaning of the configured criteria. */
  predicate Satisfies(lib: Library, f: FileInfo, m: MatchRule) {
    && (m.filenameRegex != "" ==> lib.regexMatches(m.filenameRegex, f.base))
    && (m.filenameGlob != "" ==> lib.globMatches(m.filenameGlob, f.base))
    && (m.fileType != "" ==> lib.equalFold(lib.classifyExt(f.ext), m.fileType))
    && (DeclaredAge(lib, m) > 0 ==> f.elapsed >= DeclaredAge(lib, m))
    && (m.minSize > 0 ==> f.size >= m.minSize)
    && (m.maxSize > 0 ==> f.size <= m.maxSize)
  }

  /** The seconds fit a 64-bit duration, or are not used at all. */
  predicate AgeFits(lib: Library, m: MatchRule) {
    DeclaredAge(lib, m) <= MAX_INT64
  }

  function CompiledMatch(lib: Library, f: FileInfo, m: MatchRule): bool {
    Matches(lib, f, m, CompileRegex(m), CompileMinAge(lib, m))
  }

  lemma {:induction false} WrapFacts(x: int)
    requires 0 < x < 0x8000_0000_0000_0000 * NANOS_PER_SECOND
    ensures Wrap(x) == x <==> x <= MAX_INT64
  {
  }

  /** The compiled age is the parsed min_age, and without one the declared seconds. */
  lemma {:induction false} CompiledAge(lib: Library, m: MatchRule)
    ensures m.minAge != "" && lib.parseDuration(m.minAge).Some? ==>
      CompileMinAge(lib, m) == lib.parseDuration(m.minAge).value
    ensures AgeFits(lib, m) && (m.minAge == "" || lib.parseDuration(m.minAge).None?) ==>
      CompileMinAge(lib, m) == DeclaredAge(lib, m)
  {
    if m.minAgeSeconds > 0 {
      WrapFacts(m.minAgeSeconds * NANOS_PER_SECOND);
    }
  }

  /** Compiled matching is the declared meaning of the criteria. */
  lemma {:induction false} CompiledMatchingIsDeclared(lib: Library, f: FileInfo, m: MatchRule)
    requires AgeFits(lib, m)
    ensures CompiledMatch(lib, f, m) <==> Satisfies(lib, f, m)
  {
    if m.minAgeSeconds > 0 {
      WrapFacts(m.minAgeSeconds * NANOS_PER_SECOND);
    }
  }

  /**
    The condition is exact: beyond 9223372036 seconds the product overflows, and a file too young
    for the declared age can pass.
  */
  lemma {:induction false} AgeFitsExactly(lib: Library, m: MatchRule, f: FileInfo)
    requires Satisfies(lib, f, m.(minAge := "", minAgeSeconds := 0))
    ensures AgeFits(lib, m) <==> forall e: Int64 ::
      CompiledMatch(lib, f.(elapsed := e), m) <==> Satisfies(lib, f.(elapsed := e), m)
    ensures m.minAge == "" && m.minAgeSeconds > 0 ==> (AgeFits(lib, m) <==> m.minAgeSeconds <= 9223372036)
  {
    if AgeFits(lib, m) {
      forall e: Int64
        ensures CompiledMatch(lib, f.(elapsed := e), m) <==> Satisfies(lib, f.(elapsed := e), m)
      {
        CompiledMatchingIsDeclared(lib, f.(elapsed := e), m);
      }
    } else {
      WrapFacts(m.minAgeSeconds * NANOS_PER_SECOND);
      assert CompiledMatch(lib, f.(elapsed := MAX_INT64), m) && !Satisfies(lib, f.(elapsed := MAX_INT64), m);
    }
  }

  predicate AnyMatches(lib: Library, ignores: seq<CompiledIgnore>, f: FileInfo) {
    exists i :: 0 <= i < |ignores| && Matches(lib, f, ignores[i].criteria, ignores[i].regex, ignores[i].minAge)
  }

  /** ShouldIgnore; `info` is absent when the file cannot be examined. */
  method ShouldIgnore(lib: Library, ignores: seq<CompiledIgnore>, info: Option<FileInfo>) returns (r: bool)
    ensures r <==> info.Some? && AnyMatches(lib, ignores, info.value)
  {
    if info.None? {
      return false;
    }
    for i := 0 to |ignores|
      invariant forall j :: 0 <= j < i ==>
        !Matches(lib, info.value, ignores[j].criteria, ignores[j].regex, ignores[j].minAge)
    {
      if Matches(lib, info.value, ignores[i].criteria, ignores[i].regex, ignores[i].minAge) {
        return true;
      }
    }
    return false;
  }

  /** Whether a file is ignored depends on the configured map only, not on the order it was walked in. */
  lemma {:induction false} IgnoringIsOrderFree(lib: Library, ignored: map<string, MatchRule>,
                                               ignores: seq<CompiledIgnore>, f: FileInfo)
    requires IgnoresMatch(lib, ignored, ignores)
    ensures AnyMatches(lib, ignores, f) <==> exists name :: name in ignored && CompiledMatch(lib, f, ignored[name])
  {
    if name :| name in ignored && CompiledMatch(lib, f, ignored[name]) {
      var i :| 0 <= i < |ignores| && ignores[i].name == name;
      assert Matches(lib, f, ignores[i].criteria, ignores[i].regex, ignores[i].minAge);
    }
  }

  /** A file is ignored exactly if some configured entry's criteria hold, given that the ages fit. */
  lemma {:induction false} IgnoringIsDeclared(lib: Library, ignored: map<string, MatchRule>,
                                              ignores: seq<CompiledIgnore>, f: FileInfo)
    requires IgnoresMatch(lib, ignored, ignores)
    requires forall name :: name in ignored ==> AgeFits(lib, ignored[name])
    ensures AnyMatches(lib, ignores, f) <==> exists name :: name in ignored && Satisfies(lib, f, ignored[name])
  {
    IgnoringIsOrderFree(lib, ignored, ignores, f);
    forall name | name in ignored
      ensures CompiledMatch(lib, f, ignored[name]) <==> Satisfies(lib, f, ignored[name])
    {
      CompiledMatchingIsDeclared(lib, f, ignored[name]);
    }
  }
}
