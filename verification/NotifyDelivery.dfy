/** Notifications end to end: what the tray posts for the files the daemon has processed. */
module NotifyDelivery {
  import opened Basics
  import opened Protocol
  import opened DaemonUi
  import opened Notifications
  import D = DaemonRuns

  /** The files added by a list of changes, oldest first. */
  function FilesOf(changes: seq<Change>): History {
    if changes == [] then [] else
      var last := changes[|changes| - 1];
      FilesOf(changes[..|changes| - 1]) + if last.AddRecentFile? then [last.file] else []
  }

  lemma {:induction false} FilesPrefix(changes: seq<Change>, i: nat)
    requires i <= |changes|
    ensures FilesOf(changes[..i]) <= FilesOf(changes)
  {
    if i < |changes| {
      var shorter := changes[..|changes| - 1];
      FilesPrefix(shorter, i);
      assert shorter[..i] == changes[..i];
    } else {
      assert changes[..i] == changes;
    }
  }

  lemma {:induction false} ListedSnoc(before: History, file: RecentFile)
    ensures Listed(before + [file]) == Prefix([file] + Listed(before), MAX_RECENT_FILES)
  {
    assert Reversed(before + [file]) == [file] + Reversed(before);
  }

  /** In any run each logged state lists the ten newest of the files added up to it. */
  lemma {:induction false} LoggedLists(log: seq<AppState>, changes: seq<Change>, i: nat)
    requires |log| == |changes| + 1 && i < |log| && log[0].recentFiles == []
    requires forall k :: 0 <= k < |changes| ==> log[k + 1] == Changed(log[k], changes[k])
    ensures log[i].recentFiles == Listed(FilesOf(changes[..i]))
    decreases i
  {
    if i > 0 {
      var last := changes[i - 1];
      LoggedLists(log, changes, i - 1);
      assert changes[..i][..i - 1] == changes[..i - 1];
      assert log[i - 1 + 1] == Changed(log[i - 1], last);
      if last.AddRecentFile? {
        ListedSnoc(FilesOf(changes[..i - 1]), last.file);
      }
    }
  }

  predicate Bounded(seen: seq<nat>, bound: nat) {
    forall i :: 0 <= i < |seen| ==> seen[i] < bound
  }

  /** The notification manager fed with snapshots. */
  function HandleSnapshots(log: seq<AppState>, seen: seq<nat>, posting: seq<bool>): Manager
    requires |seen| == |posting| && Bounded(seen, |log|)
  {
    if seen == [] then NEW_MANAGER else
      var m := |seen| - 1;
      Handle(HandleSnapshots(log, seen[..m], posting[..m]), log[seen[m]].recentFiles, posting[m])
  }

  function UpdatesOf(changes: seq<Change>, seen: seq<nat>, posting: seq<bool>): (r: seq<Update>)
    requires |seen| == |posting| && Bounded(seen, |changes| + 1)
    ensures |r| == |seen|
  {
    seq(|seen|, i requires 0 <= i < |seen| => Update(|FilesOf(changes[..seen[i]])|, posting[i]))
  }

  lemma {:induction false} OrderedUpdates(changes: seq<Change>, seen: seq<nat>, posting: seq<bool>)
    requires |seen| == |posting| && Bounded(seen, |changes| + 1)
    requires Sorted(seen)
    ensures InOrder(FilesOf(changes), UpdatesOf(changes, seen, posting))
  {
    forall i, j | 0 <= i <= j < |seen|
      ensures |FilesOf(changes[..seen[i]])| <= |FilesOf(changes[..seen[j]])| <= |FilesOf(changes)|
    {
      FilesPrefix(changes, seen[j]);
      if i < j {
        FilesPrefix(changes[..seen[j]], seen[i]);
        assert changes[..seen[j]][..seen[i]] == changes[..seen[i]];
      }
    }
  }

  /** The list in a snapshot is what the history up to its update lists. */
  lemma {:induction false} SnapshotLists(log: seq<AppState>, changes: seq<Change>, n: nat)
    requires |log| == |changes| + 1 && n < |log| && log[0].recentFiles == []
    requires forall k :: 0 <= k < |changes| ==> log[k + 1] == Changed(log[k], changes[k])
    ensures |FilesOf(changes[..n])| <= |FilesOf(changes)|
    ensures log[n].recentFiles == Listed(FilesOf(changes)[..|FilesOf(changes[..n])|])
  {
    LoggedLists(log, changes, n);
    FilesPrefix(changes, n);
    var files := FilesOf(changes[..n]);
    assert FilesOf(changes)[..|files|] == files;
  }

  /** Snapshots that list what the history lists at the updates drive the manager like the updates. */
  lemma {:induction false} SameManager(log: seq<AppState>, seen: seq<nat>, posting: seq<bool>,
                                       history: History, updates: seq<Update>)
    requires |seen| == |posting| == |updates| && Bounded(seen, |log|) && Within(history, updates)
    requires forall i :: 0 <= i < |seen| ==>
      updates[i].posting == posting[i] && log[seen[i]].recentFiles == Listed(history[..updates[i].length])
    ensures HandleSnapshots(log, seen, posting) == HandleAll(history, updates)
    decreases |seen|
  {
    if seen != [] {
      var m := |seen| - 1;
      SameManager(log, seen[..m], posting[..m], history, updates[..m]);
    }
  }

  predicate Sorted(seen: seq<nat>) {
    forall i, j :: 0 <= i < j < |seen| ==> seen[i] <= seen[j]
  }

  lemma {:induction false} UpdatesWithin(changes: seq<Change>, seen: seq<nat>, posting: seq<bool>)
    requires |seen| == |posting| && Bounded(seen, |changes| + 1)
    ensures Within(FilesOf(changes), UpdatesOf(changes, seen, posting))
  {
    forall i | 0 <= i < |seen|
      ensures |FilesOf(changes[..seen[i]])| <= |FilesOf(changes)|
    {
      FilesPrefix(changes, seen[i]);
    }
  }

  /** Snapshots in any order are updates of the history. */
  lemma {:induction false} SnapshotsAreUpdates(log: seq<AppState>, changes: seq<Change>,
                                               seen: seq<nat>, posting: seq<bool>)
    requires |log| == |changes| + 1 && log[0].recentFiles == []
    requires forall k :: 0 <= k < |changes| ==> log[k + 1] == Changed(log[k], changes[k])
    requires |seen| == |posting| && Bounded(seen, |log|)
    ensures var updates := UpdatesOf(changes, seen, posting);
      && Within(FilesOf(changes), updates) && (Sorted(seen) ==> InOrder(FilesOf(changes), updates))
      && HandleSnapshots(log, seen, posting) == HandleAll(FilesOf(changes), updates)
  {
    UpdatesWithin(changes, seen, posting);
    if Sorted(seen) {
      OrderedUpdates(changes, seen, posting);
    }
    forall i | 0 <= i < |seen|
      ensures log[seen[i]].recentFiles == Listed(FilesOf(changes)[..UpdatesOf(changes, seen, posting)[i].length])
    {
      SnapshotLists(log, changes, seen[i]);
    }
    SameManager(log, seen, posting, FilesOf(changes), UpdatesOf(changes, seen, posting));
  }

  /**
    Both programs together: along a connection of a serial run, a tray that handles the accepted
    snapshots in turn posts, update by update, exactly the files processed since its previous update
    that the daemon still lists -- and nothing twice.
  */
  lemma {:induction false} NotificationsAreExact(st: AppState, daemon: seq<D.Action>, c: Conn, posting: seq<bool>)
    requires st.recentFiles == [] && D.SerialRun(D.NewServer(st), daemon)
    requires var s := D.From(D.NewServer(st), daemon);
      c in s.wires && |posting| == |D.Accepted(s.wires[c])| && DistinctFiles(FilesOf(s.changes))
    ensures var s := D.From(D.NewServer(st), daemon);
      var seen := D.Accepted(s.wires[c]);
      && |s.log| == |s.changes| + 1
      && Bounded(seen, |s.changes| + 1)
      && (var updates := UpdatesOf(s.changes, seen, posting);
          && InOrder(FilesOf(s.changes), updates)
          && (var posted := HandleSnapshots(s.log, seen, posting).posted;
              posted == Announced(FilesOf(s.changes), updates) && DistinctFiles(posted)))
  {
    var s := D.From(D.NewServer(st), daemon);
    var seen := D.Accepted(s.wires[c]);
    D.RunKeepsInv(D.NewServer(st), daemon);
    D.RunsGrow(D.NewServer(st), daemon);
    D.SerialDelivery(st, daemon, c);
    forall i | 0 <= i < |seen|
      ensures seen[i] < |s.log|
    {
      D.AcceptedStatesAreReal(st, daemon, c, seen[i]);
    }
    assert s.log[0] == [st][0];
    SnapshotsAreUpdates(s.log, s.changes, seen, posting);
    PostedIsAnnounced(FilesOf(s.changes), UpdatesOf(s.changes, seen, posting));
    NothingPostedTwice(FilesOf(s.changes), UpdatesOf(s.changes, seen, posting));
  }
}
