/** The daemon's runtime state: the engine in force, the dry-run flag, the SSH pools and the tracker. */
module Runtime {
  import opened Basics
  import opened Config
  import opened Engine
  import opened Process
  import D = Disk
  import P = SshPool
  import T = Tracker

  /** What handlePath reports to the UI. */
  datatype Recent = Recent(path: T.Path, rule: string, action: Option<Action>, dryRun: bool)

  /** Rule c is the one chosen, and running it succeeds or is not called for. */
  predicate IsSuccess(lib: Library, l: Layout, rules: seq<CompiledRule>, f: FileInfo, c: int, dryRun: bool,
                      fs: D.Fs, answers: Oracle)
    requires D.WellFormed(fs)
  {
    && IsChosen(lib, rules, f, c) && c < |rules|
    && (dryRun || Succeeded(RunRule(l, fs, rules[c], answers).trace, rules[c]))
  }

  class RuntimeState {
    var engine: RuleEngine
    var dryRun: bool
    var sshPools: seq<P.Pool>
    const tracker: T.ProcessTracker

    ghost predicate Valid()
      reads this
    {
      forall i, j :: 0 <= i < j < |sshPools| ==> sshPools[i] != sshPools[j]
    }

    constructor (engine: RuleEngine, dryRun: bool, pool: P.Pool?)
      ensures Valid() && this.engine == engine && this.dryRun == dryRun
      ensures sshPools == (if pool == null then [] else [pool])
      ensures fresh(tracker) && tracker.processed == map[]
    {
      this.engine := engine;
      this.dryRun := dryRun;
      if pool == null {
        sshPools := [];
      } else {
        sshPools := [pool];
      }
      tracker := new T.ProcessTracker();
    }

    /** Runtime and engine agree afterwards, whatever they said before. */
    method SetDryRun(enabled: bool)
      modifies this`dryRun, engine
      ensures dryRun == engine.dryRun == enabled
    {
      dryRun := enabled;
      engine.SetDryRun(enabled);
    }

    method SwapEngine(engine: RuleEngine, pool: P.Pool?)
      requires Valid() && (pool != null ==> pool !in sshPools)
      modifies this`engine, this`sshPools
      ensures Valid() && this.engine == engine
      ensures sshPools == old(sshPools) + if pool == null then [] else [pool]
    {
      this.engine := engine;
      if pool != null {
        sshPools := sshPools + [pool];
      }
    }

    /** Closes every pool ever swapped in and forgets them; reports the first error of the first pool that has one. */
    method Close(failures: nat -> P.Failures) returns (error: Option<(nat, P.CloseError)>)
      requires Valid()
      modifies this`sshPools, sshPools
      ensures sshPools == []
      ensures forall p :: p in old(sshPools) ==> P.IsClosing(old(p.View()), p.View())
      ensures error.None? ==>
        forall j :: 0 <= j < |old(sshPools)| ==> P.Reports(old(sshPools[j].View()), failures(j), None)
      ensures error.Some? ==>
        && error.value.0 < |old(sshPools)|
        && P.Reports(old(sshPools[error.value.0].View()), failures(error.value.0), Some(error.value.1))
        && forall j :: 0 <= j < error.value.0 ==> P.Reports(old(sshPools[j].View()), failures(j), None)
    {
      error := None;
      for i := 0 to |sshPools|
        invariant sshPools == old(sshPools) && Valid()
        invariant forall j :: 0 <= j < i ==> P.IsClosing(old(sshPools[j].View()), sshPools[j].View())
        invariant forall j :: i <= j < |sshPools| ==> sshPools[j].View() == old(sshPools[j].View())
        invariant error.Some? ==> error.value.0 < i
        invariant forall j :: 0 <= j < (if error.Some? then error.value.0 else i) ==>
          P.Reports(old(sshPools[j].View()), failures(j), None)
        invariant error.Some? ==>
          P.Reports(old(sshPools[error.value.0].View()), failures(error.value.0), Some(error.value.1))
      {
        var e := sshPools[i].Close(failures(i));
        if e.Some? && error.None? {
          error := Some((i, e.value));
        }
      }
      sshPools := [];
    }

    /** Handling of one path; `fp` is what stat says, `info` what the engine's own stat says. */
    method HandlePath(lib: Library, path: T.Path, skip: bool, ignored: bool, fp: Option<T.Fingerprint>,
                      info: Option<FileInfo>, l: Layout, volume: D.Volume, done: nat -> bool, answers: Oracle)
      returns (recent: Option<Recent>)
      requires D.WellFormed(volume.fs)
      modifies volume, tracker
      ensures (skip || ignored || fp.None? || !T.IsDue(old(tracker.processed), path, fp.value, dryRun)) ==>
        recent.None? && volume.fs == old(volume.fs)
      ensures recent.Some? <==>
        && !skip && !ignored && fp.Some? && T.IsDue(old(tracker.processed), path, fp.value, dryRun)
        && info.Some? && !Interrupted(lib, engine.compiled.rules, info.value, done)
        && exists c :: IsSuccess(lib, l, engine.compiled.rules, info.value, c, engine.dryRun, old(volume.fs), answers)
      ensures recent.Some? ==> info.Some? && forall c ::
        IsSuccess(lib, l, engine.compiled.rules, info.value, c, engine.dryRun, old(volume.fs), answers) ==>
          && recent.value.rule == engine.compiled.rules[c].name
          && recent.value.action == Some(Describe(l, old(volume.fs), engine.compiled.rules[c].actions[0]))
      ensures recent.None? ==> tracker.processed == old(tracker.processed)
      ensures recent.Some? ==>
        && fp.Some? && recent.value.path == path && recent.value.dryRun == engine.dryRun
        && tracker.processed == T.Apply(old(tracker.processed), T.Mark(path, T.Record(fp.value, engine.dryRun)))
        && (engine.dryRun ==> volume.fs == old(volume.fs))
    {
      if skip {
        return None;
      }
      if ignored {
        return None;
      }
      if fp.None? {
        return None;
      }
      var due := tracker.ShouldProcess(path, fp.value, dryRun);
      if !due {
        return None;
      }
      var result, error, trace := engine.Process(lib, info, l, volume, done, answers);
      ghost var rules := engine.compiled.rules;
      if info.Some? {
        ChosenIsUnique(lib, rules, info.value);
      }
      if error.Some? {
        return None;
      }
      if !result.matched {
        return None;
      }
      ghost var c :| IsChosen(lib, rules, info.value, c)
        && Handled(l, rules, c, engine.dryRun, answers, old(volume.fs), volume.fs, result, error, trace);
      assert IsSuccess(lib, l, rules, info.value, c, engine.dryRun, old(volume.fs), answers);
      tracker.MarkProcessed(path, fp.value, result.dryRun);
      var action := if |result.actions| > 0 then Some(result.actions[0]) else None;
      return Some(Recent(path, result.ruleName, action, result.dryRun));
    }

    /**
      Reloading, without anything in between: a configuration that cannot be loaded or compiled
      changes nothing and leaves no open pool behind; otherwise the new engine is in force, in the
      current mode, and every file is looked at afresh.
    */
    method ReloadConfig(lib: Library, loaded: Option<Config>) returns (ok: bool, pool: P.Pool?)
      requires Valid()
      modifies this`engine, this`sshPools, tracker
      ensures Valid()
      ensures ok <==>
        loaded.Some? && Compiles(lib, loaded.value.rules, loaded.value.ignored, loaded.value.sshHosts != map[])
      ensures pool != null ==> fresh(pool)
      ensures pool != null <==> loaded.Some? && loaded.value.sshHosts != map[]
      ensures !ok ==> engine == old(engine) && sshPools == old(sshPools) && tracker.processed == old(tracker.processed)
      ensures !ok && pool != null ==> pool.conns == map[] && pool.agentConns == []
      ensures ok ==> sshPools == old(sshPools) + (if pool == null then [] else [pool]) && tracker.processed == map[]
      ensures ok ==> fresh(engine) && engine.dryRun == dryRun
      ensures ok ==> IsEngine(lib, loaded.value.rules, loaded.value.ignored, pool != null, engine.compiled)
    {
      pool := null;
      if loaded.None? {
        return false, null;
      }
      var cfg := loaded.value;
      if cfg.sshHosts != map[] {
        pool := new P.Pool(cfg.sshHosts);
      }
      var compiled := NewEngine(lib, cfg.rules, cfg.ignored, pool != null);
      if compiled.None? {
        if pool != null {
          var _ := pool.Close(P.Failures(_ => false, _ => false));
        }
        return false, pool;
      }
      var newEngine := new RuleEngine(compiled.value, dryRun);
      SwapEngine(newEngine, pool);
      tracker.Reset();
      return true, pool;
    }
  }
}
