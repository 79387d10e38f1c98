/**
  Recent files across the two programs: the daemon prepends to a list capped at ten, the tray
  compares the head of the list it saw last with the list it gets and posts the entries before it.
*/
module Notifications {
  import opened Basics
  import opened Protocol
  import opened DaemonUi

  type History = seq<RecentFile>   // every file ever added, oldest first

  /** The daemon's list after the additions of a history. */
  function Listed(history: History): seq<RecentFile> {
    Prefix(Reversed(history), MAX_RECENT_FILES)
  }

  function AddAll(st: AppState, files: History): AppState
    decreases |files|
  {
    if files == [] then st else AddAll(Changed(st, AddRecentFile(files[0])), files[1..])
  }

  /** However many files are added, the daemon's list is the ten newest, newest first. */
  lemma {:induction false} ListIsNewestTen(st: AppState, before: History, files: History)
    requires st.recentFiles == Listed(before)
    ensures AddAll(st, files).recentFiles == Listed(before + files) == Prefix(Reversed(before + files), 10)
    decreases |files|
  {
    if files == [] {
      assert before + files == before;
    } else {
      var f := files[0];
      assert Reversed(before + [f]) == [f] + Reversed(before);
      assert (before + [f]) + files[1..] == before + files;
      ListIsNewestTen(Changed(st, AddRecentFile(f)), before + [f], files[1..]);
    }
  }

  /** What the tray compares: dry-run flag and action text may change while the entry stays the same. */
  predicate SameFile(a: RecentFile, b: RecentFile) {
    a.filename == b.filename && a.time == b.time && a.rule == b.rule
  }

  function FirstMatch(current: seq<RecentFile>, file: RecentFile): (i: nat)
    ensures i <= |current|
    ensures forall j :: 0 <= j < i ==> !SameFile(current[j], file)
    ensures i < |current| ==> SameFile(current[i], file)
  {
    if current == [] || SameFile(current[0], file) then 0 else 1 + FirstMatch(current[1..], file)
  }

  function CountNewFiles(current: seq<RecentFile>, previous: seq<RecentFile>): (n: nat)
    ensures n <= |current|
  {
    if previous == [] then |current| else FirstMatch(current, previous[0])
  }

  /**
    The head of the previous list counts as seen exactly by name, time and rule: shown again with
    another dry-run flag or action text it is not new, and a list with no such entry is all new.
  */
  lemma {:induction false} SeenByNameTimeAndRule(current: seq<RecentFile>, previous: seq<RecentFile>, i: nat)
    requires previous != [] && i < |current|
    ensures CountNewFiles(current, previous) <= i <==>
      exists j :: 0 <= j <= i
        && current[j].(action := previous[0].action, dryRun := previous[0].dryRun) == previous[0]
  {
    var n := CountNewFiles(current, previous);
    forall j | 0 <= j < |current|
      ensures SameFile(current[j], previous[0]) <==>
        current[j].(action := previous[0].action, dryRun := previous[0].dryRun) == previous[0]
    {
    }
    if n <= i {
      assert SameFile(current[n], previous[0]);
    }
  }

  function Least(a: nat, b: nat): nat {
    if a < b then a else b
  }

  /**
    The count is exact -- the number added, as far as the list still holds them -- if and only if
    none of the added entries still listed looks like the entry that headed the previous list.
  */
  lemma {:induction false} CountIsExact(before: History, added: History)
    ensures var shown := Least(|added|, MAX_RECENT_FILES);
      CountNewFiles(Listed(before + added), Listed(before)) == shown <==>
      (before != [] ==> forall k :: |added| - shown <= k < |added| ==> !SameFile(added[k], before[|before| - 1]))
  {
    var all := before + added;
    var current := Listed(all);
    var shown := Least(|added|, MAX_RECENT_FILES);
    assert forall i :: 0 <= i < |current| ==> current[i] == all[|all| - 1 - i];
    if before != [] {
      var head := before[|before| - 1];
      assert Listed(before)[0] == head;
      var i := FirstMatch(current, head);
      assert |added| < |current| ==> current[|added|] == head;
      if i == shown {
        forall k | |added| - shown <= k < |added|
          ensures !SameFile(added[k], head)
        {
          assert current[|added| - 1 - k] == added[k];
        }
      } else if i < shown {
        assert current[i] == added[|added| - 1 - i];
      }
    }
  }

  // ---- runs of updates ----

  /** One update: the history length at its snapshot, and whether notifications can be posted then. */
  datatype Update = Update(length: nat, posting: bool)

  /** The tray's notification state. */
  datatype Manager = Manager(firstUpdate: bool, lastSeen: seq<RecentFile>, posted: seq<RecentFile>)

  const NEW_MANAGER := Manager(true, [], [])

  function Handle(m: Manager, recentFiles: seq<RecentFile>, posting: bool): Manager {
    Manager(false, recentFiles,
            if m.firstUpdate || !posting then m.posted
            else m.posted + recentFiles[..CountNewFiles(recentFiles, m.lastSeen)])
  }

  predicate Within(history: History, updates: seq<Update>) {
    forall i :: 0 <= i < |updates| ==> updates[i].length <= |history|
  }

  predicate InOrder(history: History, updates: seq<Update>) {
    && Within(history, updates)
    && (forall i, j :: 0 <= i < j < |updates| ==> updates[i].length <= updates[j].length)
  }

  predicate Differ(files: seq<RecentFile>, i: int, j: int)
    requires 0 <= i < |files| && 0 <= j < |files|
  {
    !SameFile(files[i], files[j])
  }

  predicate DistinctFiles(files: seq<RecentFile>) {
    forall i, j :: 0 <= i < j < |files| ==> Differ(files, i, j)
  }

  lemma OneEach(files: seq<RecentFile>, i: int, j: int)
    requires DistinctFiles(files) && 0 <= i < |files| && 0 <= j < |files| && i != j
    ensures !SameFile(files[i], files[j]) && files[i] != files[j]
  {
    assert i < j ==> Differ(files, i, j);
    assert j < i ==> Differ(files, j, i);
  }

  lemma {:induction false} DistinctConcat(a: seq<RecentFile>, b: seq<RecentFile>)
    ensures DistinctFiles(a + b) <==>
      DistinctFiles(a) && DistinctFiles(b) && forall x, y :: x in a && y in b ==> !SameFile(x, y)
  {
    var all := a + b;
    if DistinctFiles(all) {
      forall i, j | 0 <= i < j < |a|
        ensures Differ(a, i, j)
      {
        assert Differ(all, i, j);
      }
      forall i, j | 0 <= i < j < |b|
        ensures Differ(b, i, j)
      {
        assert Differ(all, |a| + i, |a| + j);
      }
      forall x, y | x in a && y in b
        ensures !SameFile(x, y)
      {
        var i :| 0 <= i < |a| && a[i] == x;
        var j :| 0 <= j < |b| && b[j] == y;
        assert Differ(all, i, |a| + j);
      }
    } else {
      var i, j :| 0 <= i < j < |all| && !Differ(all, i, j);
      if j < |a| {
        assert !Differ(a, i, j);
      } else if |a| <= i {
        assert !Differ(b, i - |a|, j - |a|);
      } else {
        assert a[i] in a && b[j - |a|] in b;
      }
    }
  }

  function HandleAll(history: History, updates: seq<Update>): Manager
    requires Within(history, updates)
  {
    if updates == [] then NEW_MANAGER else
      var u := updates[|updates| - 1];
      Handle(HandleAll(history, updates[..|updates| - 1]), Listed(history[..u.length]), u.posting)
  }

  /** Start of the part of the history that an update should announce. */
  function NewFrom(previous: nat, length: nat): nat {
    if length < MAX_RECENT_FILES || length - MAX_RECENT_FILES < previous then previous
    else length - MAX_RECENT_FILES
  }

  /** The entries at positions from `start` up to but not including `end`, newest first. */
  function NewestFirst(history: History, start: nat, end: nat): (r: seq<RecentFile>)
    requires start <= end <= |history|
    ensures |r| == end - start
    decreases end
  {
    if start == end then [] else [history[end - 1]] + NewestFirst(history, start, end - 1)
  }

  lemma {:induction false} NewestFirstAt(history: History, start: nat, end: nat, i: nat)
    requires start <= end <= |history| && i < end - start
    ensures NewestFirst(history, start, end)[i] == history[end - 1 - i]
    decreases end
  {
    if i > 0 {
      NewestFirstAt(history, start, end - 1, i - 1);
    }
  }

  /** What one update should announce: the entries added since the previous one, newest first; none if overtaken. */
  function Due(history: History, previous: Update, update: Update): seq<RecentFile>
    requires update.length <= |history|
  {
    if update.posting && previous.length <= update.length
    then NewestFirst(history, NewFrom(previous.length, update.length), update.length)
    else []
  }

  /** What should be announced over a run. */
  function Announced(history: History, updates: seq<Update>): seq<RecentFile>
    requires Within(history, updates)
  {
    if |updates| <= 1 then [] else
      var n := |updates| - 1;
      Announced(history, updates[..n]) + Due(history, updates[n - 1], updates[n])
  }

  lemma {:induction false} DueAt(history: History, p: Update, u: Update, i: nat)
    requires p.length <= u.length <= |history| && i < |Due(history, p, u)|
    ensures p.length <= NewFrom(p.length, u.length) <= u.length - 1 - i
    ensures Due(history, p, u)[i] == history[u.length - 1 - i]
  {
    NewestFirstAt(history, NewFrom(p.length, u.length), u.length, i);
  }

  lemma {:induction false} NewestOfPrefix(history: History, p: nat, u: nat)
    requires p <= u <= |history|
    ensures var shown := Least(u - p, MAX_RECENT_FILES);
      && shown <= |Listed(history[..u])|
      && Listed(history[..u])[..shown] == NewestFirst(history, NewFrom(p, u), u)
  {
    var shown := Least(u - p, MAX_RECENT_FILES);
    var current, part := Listed(history[..u]), NewestFirst(history, NewFrom(p, u), u);
    assert |current| == Least(u, MAX_RECENT_FILES) && |part| == shown;
    forall i | 0 <= i < shown
      ensures current[..shown][i] == part[i]
    {
      assert current[i] == history[..u][u - 1 - i] == history[u - 1 - i];
      NewestFirstAt(history, NewFrom(p, u), u, i);
    }
  }

  lemma {:induction false} CountIsNew(history: History, p: nat, u: nat)
    requires DistinctFiles(history) && p <= u <= |history|
    ensures CountNewFiles(Listed(history[..u]), Listed(history[..p])) == Least(u - p, MAX_RECENT_FILES)
  {
    var before, added := history[..p], history[p..u];
    assert before + added == history[..u];
    CountIsExact(before, added);
    if before != [] {
      assert before[|before| - 1] == history[p - 1];
      forall k | 0 <= k < |added|
        ensures !SameFile(added[k], before[|before| - 1])
      {
        assert added[k] == history[p + k];
        OneEach(history, p + k, p - 1);
      }
    }
  }

  /** One update posts what is due. */
  lemma {:induction false} UpdatePostsDue(history: History, m: Manager, p: Update, u: Update)
    requires DistinctFiles(history) && p.length <= u.length <= |history|
    requires !m.firstUpdate && m.lastSeen == Listed(history[..p.length])
    ensures Handle(m, Listed(history[..u.length]), u.posting).posted == m.posted + Due(history, p, u)
  {
    CountIsNew(history, p.length, u.length);
    NewestOfPrefix(history, p.length, u.length);
  }

  /** Over any run of in-order updates exactly the announcements called for are posted. */
  lemma {:induction false} PostedIsAnnounced(history: History, updates: seq<Update>)
    requires DistinctFiles(history) && InOrder(history, updates)
    ensures var m := HandleAll(history, updates);
      && m.posted == Announced(history, updates)
      && (m.firstUpdate <==> updates == [])
      && (updates != [] ==> m.lastSeen == Listed(history[..updates[|updates| - 1].length]))
  {
    if |updates| == 1 {
      assert HandleAll(history, updates[..0]) == NEW_MANAGER;
    } else if |updates| > 1 {
      var n := |updates| - 1;
      PostedIsAnnounced(history, updates[..n]);
      assert updates[..n][n - 1] == updates[n - 1];
      UpdatePostsDue(history, HandleAll(history, updates[..n]), updates[n - 1], updates[n]);
    }
  }

  /** The entry was added after the first update and before the last one. */
  predicate InRun(history: History, updates: seq<Update>, file: RecentFile)
    requires InOrder(history, updates) && updates != []
  {
    exists k :: updates[0].length <= k < updates[|updates| - 1].length && file == history[k]
  }

  lemma {:induction false} AnnouncedInRun(history: History, updates: seq<Update>)
    requires InOrder(history, updates) && updates != []
    ensures forall i :: 0 <= i < |Announced(history, updates)| ==>
      InRun(history, updates, Announced(history, updates)[i])
  {
    var n := |updates| - 1;
    if n > 0 {
      var earlier, due := Announced(history, updates[..n]), Due(history, updates[n - 1], updates[n]);
      AnnouncedInRun(history, updates[..n]);
      forall i | 0 <= i < |earlier|
        ensures InRun(history, updates, earlier[i])
      {
        assert InRun(history, updates[..n], earlier[i]);
      }
      forall i | 0 <= i < |due|
        ensures InRun(history, updates, due[i])
      {
        DueAt(history, updates[n - 1], updates[n], i);
      }
    }
  }

  /** Nothing is announced twice. */
  lemma {:induction false} NothingPostedTwice(history: History, updates: seq<Update>)
    requires DistinctFiles(history) && InOrder(history, updates)
    ensures DistinctFiles(HandleAll(history, updates).posted)
  {
    PostedIsAnnounced(history, updates);
    AnnouncedDistinct(history, updates);
  }

  lemma {:induction false} AnnouncedDistinct(history: History, updates: seq<Update>)
    requires DistinctFiles(history) && InOrder(history, updates)
    ensures DistinctFiles(Announced(history, updates))
  {
    var n := |updates| - 1;
    if n > 0 {
      var earlier, due := Announced(history, updates[..n]), Due(history, updates[n - 1], updates[n]);
      AnnouncedDistinct(history, updates[..n]);
      AnnouncedInRun(history, updates[..n]);
      forall i, j | 0 <= i < j < |due|
        ensures Differ(due, i, j)
      {
        DueAt(history, updates[n - 1], updates[n], i);
        DueAt(history, updates[n - 1], updates[n], j);
        OneEach(history, updates[n].length - 1 - i, updates[n].length - 1 - j);
      }
      forall i, j | 0 <= i < |earlier| && 0 <= j < |due|
        ensures !SameFile(earlier[i], due[j])
      {
        assert InRun(history, updates[..n], earlier[i]);
        NotDueBefore(history, updates[n - 1], updates[n], earlier[i], j);
      }
      DistinctConcat(earlier, due);
    }
  }

  lemma {:induction false} NotDueBefore(history: History, p: Update, u: Update, x: RecentFile, j: nat)
    requires DistinctFiles(history) && p.length <= u.length <= |history| && j < |Due(history, p, u)|
    requires exists k :: 0 <= k < p.length && x == history[k]
    ensures !SameFile(x, Due(history, p, u)[j])
  {
    var k :| 0 <= k < p.length && x == history[k];
    DueAt(history, p, u, j);
    OneEach(history, k, u.length - 1 - j);
  }

  /** What one update announces: the entries added since the previous one that are among the ten newest. */
  lemma {:induction false} DueExactly(history: History, p: Update, u: Update, k: nat)
    requires DistinctFiles(history) && p.length <= u.length <= |history| && k < |history|
    ensures history[k] in Due(history, p, u) <==>
      u.posting && p.length <= k < u.length && u.length - k <= MAX_RECENT_FILES
  {
    var due := Due(history, p, u);
    forall i | 0 <= i < |due|
      ensures due[i] == history[u.length - 1 - i] && NewFrom(p.length, u.length) <= u.length - 1 - i
      ensures due[i] == history[k] ==> u.length - 1 - i == k
    {
      DueAt(history, p, u, i);
      if u.length - 1 - i != k {
        OneEach(history, u.length - 1 - i, k);
      }
    }
    if u.posting && NewFrom(p.length, u.length) <= k < u.length {
      DueAt(history, p, u, u.length - 1 - k);
    }
  }

  lemma {:induction false} LastAnnounces(history: History, updates: seq<Update>, k: nat)
    requires DistinctFiles(history) && InOrder(history, updates) && |updates| >= 2 && k < |history|
    ensures var n := |updates| - 1;
      && InOrder(history, updates[..n])
      && (history[k] in Announced(history, updates) <==>
            || history[k] in Announced(history, updates[..n])
            || (updates[n].posting && updates[n - 1].length <= k < updates[n].length
                && updates[n].length - k <= MAX_RECENT_FILES))
  {
    var n := |updates| - 1;
    assert InOrder(history, updates[..n]);
    var earlier, due := Announced(history, updates[..n]), Due(history, updates[n - 1], updates[n]);
    assert Announced(history, updates) == earlier + due;
    DueExactly(history, updates[n - 1], updates[n], k);
  }

  /** A later update announces nothing that was added before the previous one. */
  lemma {:induction false} LaterUpdateAddsNothing(history: History, updates: seq<Update>, k: nat)
    requires DistinctFiles(history) && InOrder(history, updates) && |updates| >= 2
    requires k < updates[|updates| - 2].length
    ensures InOrder(history, updates[..|updates| - 1])
    ensures history[k] in Announced(history, updates) <==> history[k] in Announced(history, updates[..|updates| - 1])
  {
    LastAnnounces(history, updates, k);
  }

  /** Entries added after the last update have not been announced. */
  lemma {:induction false} NotAnnouncedBefore(history: History, updates: seq<Update>, k: nat)
    requires DistinctFiles(history) && InOrder(history, updates) && updates != []
    requires updates[|updates| - 1].length <= k < |history|
    ensures history[k] !in Announced(history, updates)
  {
    AnnouncedInRun(history, updates);
    var announced := Announced(history, updates);
    forall i | 0 <= i < |announced|
      ensures announced[i] != history[k]
    {
      assert InRun(history, updates, announced[i]);
      var l :| updates[0].length <= l < updates[|updates| - 1].length && announced[i] == history[l];
      OneEach(history, l, k);
    }
  }

  lemma {:induction false} LastAnnouncesExactly(history: History, updates: seq<Update>, k: nat)
    requires DistinctFiles(history) && InOrder(history, updates) && |updates| >= 2
    requires updates[|updates| - 2].length <= k < updates[|updates| - 1].length
    ensures history[k] in Announced(history, updates) <==>
      updates[|updates| - 1].posting && updates[|updates| - 1].length - k <= MAX_RECENT_FILES
  {
    LastAnnounces(history, updates, k);
    NotAnnouncedBefore(history, updates[..|updates| - 1], k);
  }

  lemma {:induction false} AnnouncedExactly(history: History, updates: seq<Update>, j: nat, k: nat)
    requires DistinctFiles(history) && InOrder(history, updates) && 0 < j < |updates|
    requires updates[j - 1].length <= k < updates[j].length
    ensures history[k] in Announced(history, updates) <==>
      updates[j].posting && updates[j].length - k <= MAX_RECENT_FILES
    decreases |updates|
  {
    if j == |updates| - 1 {
      LastAnnouncesExactly(history, updates, k);
    } else {
      LaterUpdateAddsNothing(history, updates, k);
      AnnouncedExactly(history, updates[..|updates| - 1], j, k);
    }
  }

  /**
    An entry added between two successive updates of a run is ever posted exactly if the second of
    them posts and fewer than ten newer entries were added before it.
  */
  lemma {:induction false} MissedOnlyIfPushedOff(history: History, updates: seq<Update>, j: nat, k: nat)
    requires DistinctFiles(history) && InOrder(history, updates) && 0 < j < |updates|
    requires updates[j - 1].length <= k < updates[j].length
    ensures history[k] in HandleAll(history, updates).posted <==>
      updates[j].posting && updates[j].length - k <= 10
  {
    PostedIsAnnounced(history, updates);
    AnnouncedExactly(history, updates, j, k);
  }

  class NotificationManager {
    var lastSeenFiles: seq<RecentFile>
    var firstUpdate: bool
    var setupDone: bool
    var notificationsEnabled: bool
    var posted: seq<RecentFile>   // what has been handed to the notification centre

    ghost function Value(): Manager
      reads this
    {
      Manager(firstUpdate, lastSeenFiles, posted)
    }

    constructor (enabled: bool)
      ensures Value() == NEW_MANAGER && notificationsEnabled == enabled && !setupDone
    {
      lastSeenFiles, firstUpdate, setupDone, notificationsEnabled, posted := [], true, false, enabled, [];
    }

    method Setup()
      modifies this`setupDone
      ensures setupDone
    {
      setupDone := true;
    }

    method SetEnabled(enabled: bool)
      modifies this`notificationsEnabled
      ensures notificationsEnabled == enabled
    {
      notificationsEnabled := enabled;
    }

    method HandleStateUpdate(recentFiles: seq<RecentFile>)
      modifies this`firstUpdate, this`lastSeenFiles, this`posted
      ensures Value() == Handle(old(Value()), recentFiles, notificationsEnabled && setupDone)
    {
      if firstUpdate {
        firstUpdate := false;
        lastSeenFiles := recentFiles;
        return;
      }
      if !notificationsEnabled || !setupDone {
        lastSeenFiles := recentFiles;
        return;
      }
      var newCount := CountNewFiles(recentFiles, lastSeenFiles);
      for i := 0 to newCount
        invariant posted == old(posted) + recentFiles[..i]
        invariant lastSeenFiles == old(lastSeenFiles) && !firstUpdate
      {
        assert recentFiles[..i + 1] == recentFiles[..i] + [recentFiles[i]];
        posted := posted + [recentFiles[i]];
      }
      lastSeenFiles := recentFiles;
    }
  }
}
