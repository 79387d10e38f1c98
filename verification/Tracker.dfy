/** Which file versions have been processed, and what of the past that decision rests on. */
module Tracker {

  type Path = string

  datatype Fingerprint = Fingerprint(size: int, modTime: int)

  datatype Record = Record(fingerprint: Fingerprint, dryRun: bool)

  type Records = map<Path, Record>

  /** Changes to the tracker; a prune names the paths whose files are gone. */
  datatype Op =
    | Mark(path: Path, record: Record)
    | Prune(gone: set<Path>)
    | Reset

  function Apply(m: Records, op: Op): Records {
    match op
    case Mark(path, record) => m[path := record]
    case Prune(gone) => m - gone
    case Reset => map[]
  }

  function Replay(ops: seq<Op>): Records {
    if ops == [] then map[] else Apply(Replay(ops[..|ops| - 1]), ops[|ops| - 1])
  }

  /** Does the operation replace or remove what was known about the path? */
  predicate Overrides(op: Op, path: Path) {
    match op
    case Mark(p, _) => p == path
    case Prune(gone) => path in gone
    case Reset => true
  }

  /** Operation i is the latest mark of the path and nothing has overridden it since. */
  predicate LatestMark(ops: seq<Op>, path: Path, i: int) {
    0 <= i < |ops| && ops[i].Mark? && ops[i].path == path
    && forall j :: i < j < |ops| ==> !Overrides(ops[j], path)
  }

  predicate IsDue(m: Records, path: Path, fingerprint: Fingerprint, dryRun: bool) {
    path !in m || m[path].fingerprint != fingerprint || (m[path].dryRun && !dryRun)
  }

  /** The map is exactly the history's latest marks. */
  lemma {:induction false} ReplayIsLatestMarks(ops: seq<Op>, path: Path)
    ensures path in Replay(ops) <==> exists i :: LatestMark(ops, path, i)
    ensures forall i :: LatestMark(ops, path, i) ==> path in Replay(ops) && Replay(ops)[path] == ops[i].record
    decreases |ops|
  {
    if ops != [] {
      var n := |ops| - 1;
      var shorter, last := ops[..n], ops[n];
      ReplayIsLatestMarks(shorter, path);
      forall i | LatestMark(ops, path, i) && i < n
        ensures LatestMark(shorter, path, i) && !Overrides(last, path)
      {
      }
      forall i | LatestMark(shorter, path, i) && !Overrides(last, path)
        ensures LatestMark(ops, path, i)
      {
      }
      if last.Mark? && last.path == path {
        assert LatestMark(ops, path, n);
      }
    }
  }

  /**
    A file is skipped exactly when history holds, not overridden since, a mark of the path with this
    very fingerprint that was real or suffices because the run is dry.
  */
  lemma {:induction false} SkipIsJustified(ops: seq<Op>, path: Path, fingerprint: Fingerprint, dryRun: bool)
    ensures !IsDue(Replay(ops), path, fingerprint, dryRun) <==>
      exists i :: LatestMark(ops, path, i) && ops[i].record.fingerprint == fingerprint
        && (!ops[i].record.dryRun || dryRun)
  {
    ReplayIsLatestMarks(ops, path);
  }

  class ProcessTracker {
    var processed: Records

    constructor ()
      ensures processed == Replay([])
    {
      processed := map[];
    }

    method ShouldProcess(path: Path, fingerprint: Fingerprint, dryRun: bool) returns (r: bool)
      ensures r == IsDue(processed, path, fingerprint, dryRun)
    {
      if path !in processed {
        return true;
      }
      var rec := processed[path];
      if rec.fingerprint != fingerprint {
        return true;
      }
      return rec.dryRun && !dryRun;
    }

    method MarkProcessed(path: Path, fingerprint: Fingerprint, dryRun: bool)
      modifies this
      ensures processed == Apply(old(processed), Mark(path, Record(fingerprint, dryRun)))
    {
      processed := processed[path := Record(fingerprint, dryRun)];
    }

    /** `missing` is what stat says about each path. */
    method Prune(missing: Path -> bool)
      modifies this
      ensures processed == Apply(old(processed), Op.Prune(set p | p in old(processed) && missing(p)))
    {
      var todo := processed.Keys;
      while todo != {}
        invariant todo <= old(processed).Keys
        invariant processed == old(processed) - (set p | p in old(processed) && missing(p) && p !in todo)
        decreases |todo|
      {
        var path :| path in todo;
        todo := todo - {path};
        if missing(path) {
          processed := processed - {path};
        }
      }
    }

    method Reset()
      modifies this
      ensures processed == Apply(old(processed), Op.Reset)
    {
      processed := map[];
    }
  }
}
