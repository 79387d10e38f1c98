/** The configuration, its validation, and the library answers validation rests on. */
module Config {
  import opened Basics
  import P = SshPool

  const MAX_INT64 := 0x7fff_ffff_ffff_ffff
  const MIN_INT64 := -0x8000_0000_0000_0000
  type Int64 = x: int | MIN_INT64 <= x <= MAX_INT64

  datatype MatchRule = MatchRule(
    filenameRegex: string,
    filenameGlob: string,
    fileType: string,
    minAge: string,
    minAgeSeconds: Int64,
    minSize: Int64,
    maxSize: Int64)

  datatype ScpConfig = ScpConfig(host: string, dest: string, deleteSource: bool)

  datatype ActionConfig = ActionConfig(
    move: Option<string>,          // destination
    scp: Option<ScpConfig>,
    exec: Option<string>,          // command
    validateZip: Option<string>,   // mode
    notify: Option<string>)        // message

  datatype Rule = Rule(
    name: string,
    criteria: MatchRule,
    actions: seq<ActionConfig>,
    onSuccess: seq<ActionConfig>,
    onFail: seq<ActionConfig>)

  datatype Config = Config(
    watch: seq<string>,
    sshHosts: map<string, P.HostConfig>,
    ignored: map<string, MatchRule>,
    rules: seq<Rule>)

  /** Library functions: deterministic, otherwise arbitrary. */
  datatype Library = Library(
    regexCompiles: string -> bool,
    regexMatches: (string, string) -> bool,
    globIsValid: string -> bool,
    globMatches: (string, string) -> bool,
    parseDuration: string -> Option<Int64>,
    classifyExt: string -> string,
    equalFold: (string, string) -> bool)

  datatype Kind = MoveKind | ScpKind | ExecKind | ValidateZipKind | NotifyKind | UnknownKind

  /** The type name shown in the tray. */
  function TypeName(ac: ActionConfig): Kind {
    if ac.move.Some? then MoveKind
    else if ac.scp.Some? then ScpKind
    else if ac.exec.Some? then ExecKind
    else if ac.validateZip.Some? then ValidateZipKind
    else if ac.notify.Some? then NotifyKind
    else UnknownKind
  }

  const FILE_TYPES := {"Video", "Image", "Audio", "Document", "Archive", "Other"}

  predicate ValidMatch(lib: Library, m: MatchRule) {
    && (m.filenameRegex != "" ==> lib.regexCompiles(m.filenameRegex))
    && (m.filenameGlob != "" ==> lib.globIsValid(m.filenameGlob))
    && (m.fileType != "" ==> m.fileType in FILE_TYPES)
    && (m.minAge != "" ==> lib.parseDuration(m.minAge).Some?)
  }

  predicate ValidAction(hosts: map<string, P.HostConfig>, ac: ActionConfig) {
    && (ac.move.Some? || ac.scp.Some? || ac.exec.Some? || ac.validateZip.Some? || ac.notify.Some?)
    && (ac.scp.Some? ==> ac.scp.value.host in hosts)
    && (ac.validateZip.Some? ==> ac.validateZip.value in {"true", "full"})
  }

  predicate ValidActions(hosts: map<string, P.HostConfig>, list: seq<ActionConfig>) {
    forall ac :: ac in list ==> ValidAction(hosts, ac)
  }

  predicate ValidRule(lib: Library, hosts: map<string, P.HostConfig>, r: Rule) {
    && r.name != "" && ValidMatch(lib, r.criteria)
    && ValidActions(hosts, r.actions) && ValidActions(hosts, r.onSuccess) && ValidActions(hosts, r.onFail)
  }

  datatype Stat = IsDirectory | NotADirectory | StatError

  predicate ValidConfig(lib: Library, stat: string -> Stat, c: Config) {
    && c.watch != [] && (forall dir :: dir in c.watch ==> stat(dir).IsDirectory?)
    && (forall name :: name in c.ignored ==> ValidMatch(lib, c.ignored[name]))
    && (forall r :: r in c.rules ==> ValidRule(lib, c.sshHosts, r))
  }

  // ---- what can be wrong with a configuration ----

  datatype ListName = Actions | OnSuccess | OnFail

  function ListOf(r: Rule, which: ListName): seq<ActionConfig> {
    match which
    case Actions => r.actions
    case OnSuccess => r.onSuccess
    case OnFail => r.onFail
  }

  datatype MatchFault = BadRegex | BadGlob | UnknownType | BadAge

  predicate MatchHas(lib: Library, m: MatchRule, fault: MatchFault) {
    match fault
    case BadRegex => m.filenameRegex != "" && !lib.regexCompiles(m.filenameRegex)
    case BadGlob => m.filenameGlob != "" && !lib.globIsValid(m.filenameGlob)
    case UnknownType =>
      && m.fileType != "" && m.fileType != "Video" && m.fileType != "Image" && m.fileType != "Audio"
      && m.fileType != "Document" && m.fileType != "Archive" && m.fileType != "Other"
    case BadAge => m.minAge != "" && lib.parseDuration(m.minAge).None?
  }

  datatype ActionFault = NoAction | UnknownHost | BadMode

  predicate ActionHas(hosts: map<string, P.HostConfig>, ac: ActionConfig, fault: ActionFault) {
    match fault
    case NoAction => ac.move == None && ac.scp == None && ac.exec == None && ac.validateZip == None && ac.notify == None
    case UnknownHost => ac.scp.Some? && ac.scp.value.host !in hosts
    case BadMode => ac.validateZip.Some? && ac.validateZip.value != "true" && ac.validateZip.value != "full"
  }

  datatype Fault =
    | NothingWatched
    | NotADirectoryAt(index: nat)
    | BadIgnoreAt(name: string, what: MatchFault)
    | NamelessRule(index: nat)
    | BadCriteria(index: nat, what: MatchFault)
    | BadActionAt(index: nat, list: ListName, position: nat, problem: ActionFault)

  predicate HasFault(lib: Library, stat: string -> Stat, c: Config, fault: Fault) {
    match fault
    case NothingWatched => |c.watch| == 0
    case NotADirectoryAt(i) => i < |c.watch| && stat(c.watch[i]) != IsDirectory
    case BadIgnoreAt(name, what) => name in c.ignored && MatchHas(lib, c.ignored[name], what)
    case NamelessRule(i) => i < |c.rules| && c.rules[i].name == ""
    case BadCriteria(i, what) => i < |c.rules| && MatchHas(lib, c.rules[i].criteria, what)
    case BadActionAt(i, list, k, what) =>
      i < |c.rules| && k < |ListOf(c.rules[i], list)| && ActionHas(c.sshHosts, ListOf(c.rules[i], list)[k], what)
  }

  lemma {:induction false} ValidMatchHasNone(lib: Library, m: MatchRule)
    ensures ValidMatch(lib, m) <==> forall fault :: !MatchHas(lib, m, fault)
  {
    if !ValidMatch(lib, m) {
      assert MatchHas(lib, m, BadRegex) || MatchHas(lib, m, BadGlob) || MatchHas(lib, m, UnknownType)
        || MatchHas(lib, m, BadAge);
    }
  }

  lemma {:induction false} ValidActionHasNone(hosts: map<string, P.HostConfig>, ac: ActionConfig)
    ensures ValidAction(hosts, ac) <==> forall fault :: !ActionHas(hosts, ac, fault)
  {
    if !ValidAction(hosts, ac) {
      assert ActionHas(hosts, ac, NoAction) || ActionHas(hosts, ac, UnknownHost) || ActionHas(hosts, ac, BadMode);
    }
  }

  lemma {:induction false} ValidListHasNone(hosts: map<string, P.HostConfig>, list: seq<ActionConfig>)
    ensures ValidActions(hosts, list) <==>
      forall k, fault :: 0 <= k < |list| ==> !ActionHas(hosts, list[k], fault)
  {
    forall k | 0 <= k < |list|
      ensures list[k] in list && (ValidAction(hosts, list[k]) <==> forall fault :: !ActionHas(hosts, list[k], fault))
    {
      ValidActionHasNone(hosts, list[k]);
    }
  }

  lemma {:induction false} ValidRuleHasNone(lib: Library, stat: string -> Stat, c: Config, i: nat)
    requires i < |c.rules|
    ensures ValidRule(lib, c.sshHosts, c.rules[i]) <==>
      && !HasFault(lib, stat, c, NamelessRule(i)) && (forall what :: !HasFault(lib, stat, c, BadCriteria(i, what)))
      && forall list, k, what :: !HasFault(lib, stat, c, BadActionAt(i, list, k, what))
  {
    var r := c.rules[i];
    ValidMatchHasNone(lib, r.criteria);
    forall what
      ensures HasFault(lib, stat, c, BadCriteria(i, what)) <==> MatchHas(lib, r.criteria, what)
    {
    }
    forall list, k: nat, what | k < |ListOf(r, list)|
      ensures HasFault(lib, stat, c, BadActionAt(i, list, k, what)) <==> ActionHas(c.sshHosts, ListOf(r, list)[k], what)
    {
    }
    ValidListHasNone(c.sshHosts, ListOf(r, Actions));
    ValidListHasNone(c.sshHosts, ListOf(r, OnSuccess));
    ValidListHasNone(c.sshHosts, ListOf(r, OnFail));
  }

  /** A configuration is accepted exactly if none of these faults is anywhere in it. */
  lemma {:induction false} ValidMeansFaultless(lib: Library, stat: string -> Stat, c: Config)
    ensures ValidConfig(lib, stat, c) <==> forall fault :: !HasFault(lib, stat, c, fault)
  {
    forall name | name in c.ignored
      ensures ValidMatch(lib, c.ignored[name]) <==> forall what :: !HasFault(lib, stat, c, BadIgnoreAt(name, what))
    {
      ValidMatchHasNone(lib, c.ignored[name]);
      assert forall what :: HasFault(lib, stat, c, BadIgnoreAt(name, what)) <==> MatchHas(lib, c.ignored[name], what);
    }
    forall i: nat | i < |c.rules|
      ensures ValidRule(lib, c.sshHosts, c.rules[i]) <==>
        && !HasFault(lib, stat, c, NamelessRule(i)) && (forall what :: !HasFault(lib, stat, c, BadCriteria(i, what)))
        && forall list, k, what :: !HasFault(lib, stat, c, BadActionAt(i, list, k, what))
    {
      ValidRuleHasNone(lib, stat, c, i);
    }
    assert c.watch == [] <==> HasFault(lib, stat, c, NothingWatched);
    assert forall i: nat ::
      HasFault(lib, stat, c, NotADirectoryAt(i)) <==> i < |c.watch| && !stat(c.watch[i]).IsDirectory?;
    if forall fault :: !HasFault(lib, stat, c, fault) {
      assert forall i :: 0 <= i < |c.rules| ==> ValidRule(lib, c.sshHosts, c.rules[i]);
    }
  }

  datatype Error =
    | NoWatchDirectories
    | BadWatchDirectory(index: nat)
    | BadIgnore(name: string)
    | BadRule(index: nat)

  /** Each error names the first watch directory or rule, or some ignore entry, that is to blame. */
  predicate Blames(lib: Library, stat: string -> Stat, c: Config, e: Error) {
    match e
    case NoWatchDirectories => c.watch == []
    case BadWatchDirectory(i) =>
      i < |c.watch| && !stat(c.watch[i]).IsDirectory? && forall j :: 0 <= j < i ==> stat(c.watch[j]).IsDirectory?
    case BadIgnore(name) => name in c.ignored && !ValidMatch(lib, c.ignored[name])
    case BadRule(i) =>
      && i < |c.rules| && !ValidRule(lib, c.sshHosts, c.rules[i])
      && (forall j :: 0 <= j < i ==> ValidRule(lib, c.sshHosts, c.rules[j]))
      && (forall name :: name in c.ignored ==> ValidMatch(lib, c.ignored[name]))
  }

  method ValidateMatchRule(lib: Library, m: MatchRule) returns (ok: bool)
    ensures ok <==> ValidMatch(lib, m)
  {
    if m.filenameRegex != "" {
      if !lib.regexCompiles(m.filenameRegex) {
        return false;
      }
    }
    if m.filenameGlob != "" {
      if !lib.globIsValid(m.filenameGlob) {
        return false;
      }
    }
    if m.fileType != "" {
      if m.fileType !in FILE_TYPES {
        return false;
      }
    }
    if m.minAge != "" {
      if lib.parseDuration(m.minAge).None? {
        return false;
      }
    }
    return true;
  }

  method ValidateAction(hosts: map<string, P.HostConfig>, ac: ActionConfig) returns (ok: bool)
    ensures ok <==> ValidAction(hosts, ac)
  {
    if ac.move.None? && ac.scp.None? && ac.exec.None? && ac.validateZip.None? && ac.notify.None? {
      return false;
    }
    if ac.scp.Some? {
      if ac.scp.value.host !in hosts {
        return false;
      }
    }
    if ac.validateZip.Some? {
      if ac.validateZip.value != "true" && ac.validateZip.value != "full" {
        return false;
      }
    }
    return true;
  }

  method ValidateRule(lib: Library, hosts: map<string, P.HostConfig>, r: Rule) returns (ok: bool)
    ensures ok <==> ValidRule(lib, hosts, r)
  {
    if r.name == "" {
      return false;
    }
    ok := ValidateMatchRule(lib, r.criteria);
    if !ok {
      return false;
    }
    var lists := [r.actions, r.onSuccess, r.onFail];
    for l := 0 to |lists|
      invariant forall i :: 0 <= i < l ==> ValidActions(hosts, lists[i])
    {
      for j := 0 to |lists[l]|
        invariant forall i :: 0 <= i < j ==> ValidAction(hosts, lists[l][i])
      {
        ok := ValidateAction(hosts, lists[l][j]);
        if !ok {
          assert !ValidActions(hosts, lists[l]);
          return false;
        }
      }
    }
    assert ValidActions(hosts, lists[0]) && ValidActions(hosts, lists[1]) && ValidActions(hosts, lists[2]);
    return true;
  }

  method Validate(lib: Library, stat: string -> Stat, c: Config) returns (error: Option<Error>)
    ensures error.None? <==> ValidConfig(lib, stat, c)
    ensures error.Some? ==> Blames(lib, stat, c, error.value)
  {
    if |c.watch| == 0 {
      return Some(NoWatchDirectories);
    }
    for i := 0 to |c.watch|
      invariant forall j :: 0 <= j < i ==> stat(c.watch[j]).IsDirectory?
    {
      if !stat(c.watch[i]).IsDirectory? {
        assert c.watch[i] in c.watch;
        return Some(BadWatchDirectory(i));
      }
    }
    var todo := c.ignored.Keys;
    while todo != {}
      invariant todo <= c.ignored.Keys
      invariant forall name :: name in c.ignored && name !in todo ==> ValidMatch(lib, c.ignored[name])
      decreases |todo|
    {
      var name :| name in todo;
      todo := todo - {name};
      var ok := ValidateMatchRule(lib, c.ignored[name]);
      if !ok {
        return Some(BadIgnore(name));
      }
    }
    for i := 0 to |c.rules|
      invariant forall j :: 0 <= j < i ==> ValidRule(lib, c.sshHosts, c.rules[j])
    {
      var ok := ValidateRule(lib, c.sshHosts, c.rules[i]);
      if !ok {
        assert c.rules[i] in c.rules;
        return Some(BadRule(i));
      }
    }
    return None;
  }
}
