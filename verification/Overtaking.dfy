/**
  The notification manager when snapshots reach it in any order. A snapshot that was overtaken by a
  newer one does not hold the entry that headed the newer list, so all its entries count as new.
*/
module Overtaking {
  import opened Basics
  import opened Protocol
  import opened DaemonUi
  import opened Notifications
  import opened NotifyDelivery
  import D = DaemonRuns

  /** Entries added between two lengths of the history that the list at the second one still holds. */
  function StillNew(p: nat, u: nat): nat {
    if p <= u then Least(u - p, MAX_RECENT_FILES) else 0
  }

  lemma {:induction false} OvertakenCount(history: History, p: nat, u: nat)
    requires DistinctFiles(history) && u < p <= |history|
    ensures CountNewFiles(Listed(history[..u]), Listed(history[..p])) == |Listed(history[..u])|
  {
    var current, previous := Listed(history[..u]), Listed(history[..p]);
    assert previous[0] == history[p - 1];
    forall i | 0 <= i < |current|
      ensures !SameFile(current[i], previous[0])
    {
      assert current[i] == history[u - 1 - i];
      OneEach(history, u - 1 - i, p - 1);
    }
  }

  /**
    For snapshots in any order: the count of new files is the number added since the previous
    snapshot and still listed, exactly if the snapshot was not overtaken or lists nothing; if it was
    overtaken the count is the whole list.
  */
  lemma {:induction false} CountInAnyOrder(history: History, p: nat, u: nat)
    requires DistinctFiles(history) && p <= |history| && u <= |history|
    ensures var count := CountNewFiles(Listed(history[..u]), Listed(history[..p]));
      && (count == StillNew(p, u) <==> p <= u || u == 0)
      && (u < p ==> count == |Listed(history[..u])|)
  {
    if p <= u {
      CountIsNew(history, p, u);
    } else {
      OvertakenCount(history, p, u);
    }
  }

  // ---- runs ----

  /** Start of the part of the history that an update posts. */
  function PostedFrom(p: nat, u: nat): (from: nat)
    ensures from <= u
  {
    if p <= u then NewFrom(p, u) else NewFrom(0, u)
  }

  /** What an update posts, whatever came before it. */
  function Posts(history: History, previous: Update, update: Update): seq<RecentFile>
    requires update.length <= |history|
  {
    if update.posting
    then NewestFirst(history, PostedFrom(previous.length, update.length), update.length)
    else []
  }

  lemma {:induction false} UpdatePosts(history: History, m: Manager, p: Update, u: Update)
    requires DistinctFiles(history) && p.length <= |history| && u.length <= |history|
    requires !m.firstUpdate && m.lastSeen == Listed(history[..p.length])
    ensures Handle(m, Listed(history[..u.length]), u.posting).posted == m.posted + Posts(history, p, u)
  {
    CountInAnyOrder(history, p.length, u.length);
    if p.length <= u.length {
      NewestOfPrefix(history, p.length, u.length);
    } else {
      var current := Listed(history[..u.length]);
      assert current[..|current|] == current;
      NewestOfPrefix(history, 0, u.length);
    }
  }

  /** Everything posted over a run. */
  function AllPosts(history: History, updates: seq<Update>): seq<RecentFile>
    requires Within(history, updates)
  {
    if |updates| <= 1 then [] else
      var n := |updates| - 1;
      AllPosts(history, updates[..n]) + Posts(history, updates[n - 1], updates[n])
  }

  lemma {:induction false} PostedInAnyOrder(history: History, updates: seq<Update>)
    requires DistinctFiles(history) && Within(history, updates)
    ensures var m := HandleAll(history, updates);
      && m.posted == AllPosts(history, updates)
      && (m.firstUpdate <==> updates == [])
      && (updates != [] ==> m.lastSeen == Listed(history[..updates[|updates| - 1].length]))
  {
    if |updates| == 1 {
      assert HandleAll(history, updates[..0]) == NEW_MANAGER;
    } else if |updates| > 1 {
      var n := |updates| - 1;
      PostedInAnyOrder(history, updates[..n]);
      assert updates[..n][n - 1] == updates[n - 1];
      UpdatePosts(history, HandleAll(history, updates[..n]), updates[n - 1], updates[n]);
    }
  }

  // ---- exactly what is due ----

  predicate StepInOrder(p: Update, u: Update) {
    u.posting ==> p.length <= u.length || u.length == 0
  }

  predicate InOrderAt(updates: seq<Update>, j: int)
    requires 0 < j < |updates|
  {
    StepInOrder(updates[j - 1], updates[j])
  }

  /** No posting update was overtaken by the one before it, unless it lists nothing. */
  predicate NoneOvertaken(updates: seq<Update>) {
    forall j :: 0 < j < |updates| ==> InOrderAt(updates, j)
  }

  lemma {:induction false} NoneOvertakenSplit(updates: seq<Update>)
    requires |updates| >= 2
    ensures var n := |updates| - 1;
      NoneOvertaken(updates) <==> NoneOvertaken(updates[..n]) && InOrderAt(updates, n)
  {
    var shorter := updates[..|updates| - 1];
    assert forall j :: 0 < j < |shorter| ==> (InOrderAt(shorter, j) <==> InOrderAt(updates, j));
  }

  /** An update posts at least what is due, and no more exactly if it was not overtaken. */
  lemma {:induction false} PostsAtLeastDue(history: History, p: Update, u: Update)
    requires u.length <= |history|
    ensures |Posts(history, p, u)| >= |Due(history, p, u)|
    ensures |Posts(history, p, u)| == |Due(history, p, u)| <==> StepInOrder(p, u)
    ensures StepInOrder(p, u) ==> Posts(history, p, u) == Due(history, p, u)
  {
  }

  lemma {:induction false} PostedAtLeastAnnounced(history: History, updates: seq<Update>)
    requires Within(history, updates)
    ensures |AllPosts(history, updates)| >= |Announced(history, updates)|
    ensures |AllPosts(history, updates)| == |Announced(history, updates)| <==> NoneOvertaken(updates)
    ensures NoneOvertaken(updates) ==> AllPosts(history, updates) == Announced(history, updates)
  {
    if |updates| >= 2 {
      var n := |updates| - 1;
      PostedAtLeastAnnounced(history, updates[..n]);
      PostsAtLeastDue(history, updates[n - 1], updates[n]);
      NoneOvertakenSplit(updates);
    }
  }

  /**
    For updates in any order: what is posted is, update by update, what was added since the previous
    one and is still listed, exactly if no posting update with a non-empty list was overtaken.
  */
  lemma {:induction false} PostedExactly(history: History, updates: seq<Update>)
    requires DistinctFiles(history) && Within(history, updates)
    ensures HandleAll(history, updates).posted == Announced(history, updates) <==> NoneOvertaken(updates)
  {
    PostedInAnyOrder(history, updates);
    PostedAtLeastAnnounced(history, updates);
  }

  // ---- exactly when something is posted twice ----

  /** Update i posts the entry at position k of the history. */
  predicate PostedBy(updates: seq<Update>, i: int, k: int) {
    && 0 < i < |updates| && updates[i].posting
    && PostedFrom(updates[i - 1].length, updates[i].length) <= k < updates[i].length
  }

  /** The ranges of the history that updates i and j post do not meet. */
  predicate Separate(updates: seq<Update>, i: int, j: int)
    requires 0 < i < |updates| && 0 < j < |updates|
  {
    var a, b := updates[i], updates[j];
    var from, start := PostedFrom(updates[i - 1].length, a.length), PostedFrom(updates[j - 1].length, b.length);
    !a.posting || !b.posting || from == a.length || start == b.length || a.length <= start || b.length <= from
  }

  predicate PostsOnce(updates: seq<Update>) {
    forall i, j :: 0 < i < j < |updates| ==> Separate(updates, i, j)
  }

  lemma {:induction false} SeparateMeans(updates: seq<Update>, i: int, j: int)
    requires 0 < i < |updates| && 0 < j < |updates|
    ensures Separate(updates, i, j) <==> forall k :: !(PostedBy(updates, i, k) && PostedBy(updates, j, k))
  {
    var from := PostedFrom(updates[i - 1].length, updates[i].length);
    var start := PostedFrom(updates[j - 1].length, updates[j].length);
    if !Separate(updates, i, j) {
      var k := if from < start then start else from;
      assert PostedBy(updates, i, k) && PostedBy(updates, j, k);
    }
  }

  lemma {:induction false} PostsAt(history: History, p: Update, u: Update, x: int)
    requires u.length <= |history| && 0 <= x < |Posts(history, p, u)|
    ensures u.posting && PostedFrom(p.length, u.length) <= u.length - 1 - x
    ensures Posts(history, p, u)[x] == history[u.length - 1 - x]
  {
    NewestFirstAt(history, PostedFrom(p.length, u.length), u.length, x);
  }

  lemma {:induction false} PostsAre(history: History, updates: seq<Update>, i: int, k: int)
    requires Within(history, updates) && 0 < i < |updates| && 0 <= k < |history| && DistinctFiles(history)
    ensures history[k] in Posts(history, updates[i - 1], updates[i]) <==> PostedBy(updates, i, k)
  {
    var p, u := updates[i - 1], updates[i];
    var posts := Posts(history, p, u);
    if history[k] in posts {
      var x :| 0 <= x < |posts| && posts[x] == history[k];
      PostsAt(history, p, u, x);
      if u.length - 1 - x != k {
        OneEach(history, u.length - 1 - x, k);
      }
    }
    if PostedBy(updates, i, k) {
      PostsAt(history, p, u, u.length - 1 - k);
    }
  }

  lemma {:induction false} PostsInHistory(history: History, p: Update, u: Update)
    requires u.length <= |history| && DistinctFiles(history)
    ensures DistinctFiles(Posts(history, p, u))
    ensures forall x :: x in Posts(history, p, u) ==> x in history
  {
    var posts := Posts(history, p, u);
    forall x | 0 <= x < |posts|
      ensures posts[x] in history
    {
      PostsAt(history, p, u, x);
    }
    forall x, y | 0 <= x < y < |posts|
      ensures Differ(posts, x, y)
    {
      PostsAt(history, p, u, x);
      PostsAt(history, p, u, y);
      OneEach(history, u.length - 1 - x, u.length - 1 - y);
    }
  }

  /** What is posted over a run, in terms of positions in the history. */
  lemma {:induction false} AllPostsAre(history: History, updates: seq<Update>, k: int)
    requires Within(history, updates) && 0 <= k < |history| && DistinctFiles(history)
    ensures history[k] in AllPosts(history, updates) <==> exists i :: PostedBy(updates, i, k)
    ensures forall x :: x in AllPosts(history, updates) ==> x in history
  {
    if |updates| >= 2 {
      var n := |updates| - 1;
      var shorter := updates[..n];
      AllPostsAre(history, shorter, k);
      PostsAre(history, updates, n, k);
      PostsInHistory(history, updates[n - 1], updates[n]);
      assert forall i :: i < n ==> (PostedBy(updates, i, k) <==> PostedBy(shorter, i, k));
      assert !PostedBy(shorter, n, k);
    }
  }

  /** The last update repeats nothing exactly if its range meets none before it. */
  lemma {:induction false} LastRepeats(history: History, updates: seq<Update>)
    requires DistinctFiles(history) && Within(history, updates) && |updates| >= 2
    ensures var n := |updates| - 1;
      (forall x, y :: x in AllPosts(history, updates[..n]) && y in Posts(history, updates[n - 1], updates[n]) ==>
         !SameFile(x, y))
      <==> forall i :: 0 < i < n ==> Separate(updates, i, n)
  {
    var n := |updates| - 1;
    var earlier, posts := AllPosts(history, updates[..n]), Posts(history, updates[n - 1], updates[n]);
    if i :| 0 < i < n && !Separate(updates, i, n) {
      SeparateMeans(updates, i, n);
      var k :| PostedBy(updates, i, k) && PostedBy(updates, n, k);
      assert PostedBy(updates[..n], i, k);
      AllPostsAre(history, updates[..n], k);
      PostsAre(history, updates, n, k);
      assert history[k] in earlier && history[k] in posts && SameFile(history[k], history[k]);
    } else {
      forall x, y | x in earlier && y in posts
        ensures !SameFile(x, y)
      {
        NothingInCommon(history, updates, x, y);
      }
    }
  }

  lemma {:induction false} NoCommonPosition(history: History, updates: seq<Update>, k: int)
    requires DistinctFiles(history) && Within(history, updates) && |updates| >= 2 && 0 <= k < |history|
    requires var n := |updates| - 1; forall i :: 0 < i < n ==> Separate(updates, i, n)
    ensures var n := |updates| - 1;
      history[k] in AllPosts(history, updates[..n]) ==> history[k] !in Posts(history, updates[n - 1], updates[n])
  {
    var n := |updates| - 1;
    AllPostsAre(history, updates[..n], k);
    PostsAre(history, updates, n, k);
    forall i | PostedBy(updates[..n], i, k)
      ensures !PostedBy(updates, n, k)
    {
      assert PostedBy(updates, i, k);
      SeparateMeans(updates, i, n);
    }
  }

  lemma {:induction false} NothingInCommon(history: History, updates: seq<Update>, x: RecentFile, y: RecentFile)
    requires DistinctFiles(history) && Within(history, updates) && |updates| >= 2
    requires var n := |updates| - 1; forall i :: 0 < i < n ==> Separate(updates, i, n)
    requires x in AllPosts(history, updates[..|updates| - 1])
    requires y in Posts(history, updates[|updates| - 2], updates[|updates| - 1])
    ensures !SameFile(x, y)
  {
    var n := |updates| - 1;
    PostsInHistory(history, updates[n - 1], updates[n]);
    var l :| 0 <= l < |history| && history[l] == y;
    AllPostsAre(history, updates[..n], l);
    var k :| 0 <= k < |history| && history[k] == x;
    NoCommonPosition(history, updates, k);
    OneEach(history, k, l);
  }

  /** For updates in any order: an entry is ever posted exactly if some update's range holds it. */
  lemma {:induction false} PostedEntryExactly(history: History, updates: seq<Update>, k: int)
    requires DistinctFiles(history) && Within(history, updates) && 0 <= k < |history|
    ensures history[k] in HandleAll(history, updates).posted <==> exists i :: PostedBy(updates, i, k)
  {
    PostedInAnyOrder(history, updates);
    AllPostsAre(history, updates, k);
  }

  /**
    For updates in any order: nothing is posted twice exactly if the ranges of the history that the
    posting updates announce do not meet.
  */
  lemma {:induction false} PostedOnceExactly(history: History, updates: seq<Update>)
    requires DistinctFiles(history) && Within(history, updates)
    ensures DistinctFiles(HandleAll(history, updates).posted) <==> PostsOnce(updates)
  {
    PostedInAnyOrder(history, updates);
    AllPostsOnce(history, updates);
  }

  lemma {:induction false} AllPostsOnce(history: History, updates: seq<Update>)
    requires DistinctFiles(history) && Within(history, updates)
    ensures DistinctFiles(AllPosts(history, updates)) <==> PostsOnce(updates)
  {
    if |updates| >= 2 {
      var n := |updates| - 1;
      var shorter := updates[..n];
      AllPostsOnce(history, shorter);
      DistinctConcat(AllPosts(history, shorter), Posts(history, updates[n - 1], updates[n]));
      PostsInHistory(history, updates[n - 1], updates[n]);
      LastRepeats(history, updates);
      assert forall i, j :: 0 < i < j < n ==> (Separate(updates, i, j) <==> Separate(shorter, i, j));
    }
  }

  /** The last update's share of everything posted. */
  lemma {:induction false} AllPostsLast(history: History, updates: seq<Update>, n: nat)
    requires Within(history, updates) && |updates| == n + 1 && n > 0
    ensures AllPosts(history, updates) == AllPosts(history, updates[..n]) + Posts(history, updates[n - 1], updates[n])
  {
  }

  lemma {:induction false} TwoUpdates(history: History, updates: seq<Update>)
    requires Within(history, updates) && |updates| == 2
    ensures AllPosts(history, updates) == Posts(history, updates[0], updates[1])
  {
    AllPostsLast(history, updates, 1);
    assert AllPosts(history, updates[..1]) == [];
  }

  lemma {:induction false} ThreeUpdates(history: History, updates: seq<Update>)
    requires Within(history, updates) && |updates| == 3
    ensures AllPosts(history, updates) ==
      Posts(history, updates[0], updates[1]) + Posts(history, updates[1], updates[2])
  {
    var shorter := updates[..2];
    AllPostsLast(history, updates, 2);
    TwoUpdates(history, shorter);
    assert shorter[0] == updates[0] && shorter[1] == updates[1];
  }

  lemma {:induction false} FourUpdates(history: History, updates: seq<Update>)
    requires Within(history, updates) && |updates| == 4
    ensures AllPosts(history, updates) == Posts(history, updates[0], updates[1])
      + Posts(history, updates[1], updates[2]) + Posts(history, updates[2], updates[3])
  {
    AllPostsLast(history, updates, 3);
    ThreeUpdates(history, updates[..3]);
  }

  lemma PostsOne(history: History, p: Update, u: Update, k: nat)
    requires k < |history| && u == Update(k + 1, true) && PostedFrom(p.length, u.length) == k
    ensures Posts(history, p, u) == [history[k]]
  {
    NewestFirstAt(history, k, k + 1, 0);
  }

  /**
    An overtaken snapshot announces a file again: with the lists [], [f], [g, f], [f] -- the last one
    older than the one before -- f is posted twice.
  */
  lemma {:induction false} OvertakenIsPostedAgain(f: RecentFile, g: RecentFile)
    requires !SameFile(f, g)
    ensures var updates := [Update(0, true), Update(1, true), Update(2, true), Update(1, true)];
      HandleAll([f, g], updates).posted == [f, g, f] && !NoneOvertaken(updates) && !PostsOnce(updates)
  {
    var history := [f, g];
    var updates := [Update(0, true), Update(1, true), Update(2, true), Update(1, true)];
    assert DistinctFiles(history) && Within(history, updates);
    PostedInAnyOrder(history, updates);
    FourUpdates(history, updates);
    PostsOne(history, updates[0], updates[1], 0);
    PostsOne(history, updates[1], updates[2], 1);
    PostsOne(history, updates[2], updates[3], 0);
    assert !InOrderAt(updates, 3) && !Separate(updates, 1, 3);
  }

  // ---- along a connection of any run of the daemon ----

  /** The updates that the snapshots accepted on a connection amount to. */
  function AcceptedUpdates(s: D.Server, c: Conn, posting: seq<bool>): seq<Update>
    requires c in s.wires && |posting| == |D.Accepted(s.wires[c])|
    requires Bounded(D.Accepted(s.wires[c]), |s.changes| + 1)
  {
    UpdatesOf(s.changes, D.Accepted(s.wires[c]), posting)
  }

  /**
    In every run, serial or not: a tray that handles the accepted snapshots of a connection posts
    exactly the files processed since its previous update exactly if no posting update was overtaken,
    and posts nothing twice exactly if the ranges posted do not meet.
  */
  lemma {:induction false} NotificationsInAnyRun(st: AppState, daemon: seq<D.Action>, c: Conn, posting: seq<bool>)
    requires st.recentFiles == []
    requires var s := D.From(D.NewServer(st), daemon);
      c in s.wires && |posting| == |D.Accepted(s.wires[c])| && DistinctFiles(FilesOf(s.changes))
    ensures var s := D.From(D.NewServer(st), daemon);
      var seen := D.Accepted(s.wires[c]);
      && |s.log| == |s.changes| + 1 && Bounded(seen, |s.changes| + 1)
      && (var updates := AcceptedUpdates(s, c, posting);
          var posted := HandleSnapshots(s.log, seen, posting).posted;
          && Within(FilesOf(s.changes), updates)
          && (posted == Announced(FilesOf(s.changes), updates) <==> NoneOvertaken(updates))
          && (DistinctFiles(posted) <==> PostsOnce(updates)))
  {
    var s := D.From(D.NewServer(st), daemon);
    var seen := D.Accepted(s.wires[c]);
    D.RunKeepsInv(D.NewServer(st), daemon);
    D.RunsGrow(D.NewServer(st), daemon);
    forall i | 0 <= i < |seen|
      ensures seen[i] < |s.log|
    {
      D.AcceptedStatesAreReal(st, daemon, c, seen[i]);
    }
    assert s.log[0] == [st][0];
    SnapshotsAreUpdates(s.log, s.changes, seen, posting);
    PostedExactly(FilesOf(s.changes), UpdatesOf(s.changes, seen, posting));
    PostedOnceExactly(FilesOf(s.changes), UpdatesOf(s.changes, seen, posting));
  }

  /** A file is processed; then a toggle's broadcast is overtaken by that of the next file. */
  function ToggleOvertaken(f: RecentFile, g: RecentFile): seq<D.Action> {
    D.GREET + [D.MakeChange(AddRecentFile(f), 0), D.WriteTo(0, 0, true), D.FinishBroadcast(0)]
    + [D.MakeChange(ToggleDryRun, 0), D.MakeChange(AddRecentFile(g), 1), D.WriteTo(1, 0, true), D.WriteTo(0, 0, true)]
  }

  lemma {:induction false} ToggleOvertakenWire(st: AppState, f: RecentFile, g: RecentFile)
    ensures var s := D.From(D.NewServer(st), ToggleOvertaken(f, g));
      && s.wires.Keys == {0}
      && s.wires[0] == [D.HelloLine, D.StateLine(0), D.StateLine(1), D.StateLine(3), D.StateLine(2)]
      && s.changes == [AddRecentFile(f), ToggleDryRun, AddRecentFile(g)]
  {
    var one := [D.MakeChange(AddRecentFile(f), 0), D.WriteTo(0, 0, true), D.FinishBroadcast(0)];
    var two := [D.MakeChange(ToggleDryRun, 0), D.MakeChange(AddRecentFile(g), 1),
                D.WriteTo(1, 0, true), D.WriteTo(0, 0, true)];
    D.GreetFirstClient(st);
    D.OneBroadcast(D.OneClient(st), 0, AddRecentFile(f));
    D.RunAppend(D.NewServer(st), D.GREET, one);
    D.RunAppend(D.NewServer(st), D.GREET + one, two);
    D.OverlapInverts(D.From(D.NewServer(st), D.GREET + one), 0, ToggleDryRun, AddRecentFile(g));
  }

  lemma {:induction false} AcceptedAfterHello(wire: seq<D.Line>)
    requires wire == [D.HelloLine, D.StateLine(0), D.StateLine(1), D.StateLine(3), D.StateLine(2)]
    ensures D.Accepted(wire) == [0, 1, 3, 2]
  {
    assert wire[0].HelloLine?;
    assert D.Accepted(wire[..1]) == [];
    assert wire[..2][..1] == wire[..1] && wire[..3][..2] == wire[..2] && wire[..4][..3] == wire[..3];
    assert forall n :: 0 < n <= 4 ==> wire[..n][0].HelloLine?;
    assert D.Accepted(wire[..2]) == [0] && D.Accepted(wire[..3]) == [0, 1] && D.Accepted(wire[..4]) == [0, 1, 3];
  }

  lemma {:induction false} ThreeChanges(f: RecentFile, g: RecentFile)
    ensures var changes := [AddRecentFile(f), ToggleDryRun, AddRecentFile(g)];
      && FilesOf(changes) == [f, g]
      && UpdatesOf(changes, [0, 1, 3, 2], [true, true, true, true])
           == [Update(0, true), Update(1, true), Update(2, true), Update(1, true)]
  {
    var changes := [AddRecentFile(f), ToggleDryRun, AddRecentFile(g)];
    assert changes[..3] == changes && changes[..3][..2] == changes[..2] && changes[..2][..1] == changes[..1];
    assert changes[..1][..0] == changes[..0] == [];
    assert FilesOf(changes[..0]) == [] && FilesOf(changes[..1]) == [f] && FilesOf(changes[..2]) == [f];
  }

  /** That run makes the tray announce the first file twice. */
  lemma {:induction false} ToggleOvertakenRepeats(st: AppState, f: RecentFile, g: RecentFile)
    requires st.recentFiles == [] && !SameFile(f, g)
    ensures var s := D.From(D.NewServer(st), ToggleOvertaken(f, g));
      && 0 in s.wires && D.Accepted(s.wires[0]) == [0, 1, 3, 2] && |s.log| == 4
      && HandleSnapshots(s.log, [0, 1, 3, 2], [true, true, true, true]).posted == [f, g, f]
  {
    var daemon := ToggleOvertaken(f, g);
    var s := D.From(D.NewServer(st), daemon);
    ToggleOvertakenWire(st, f, g);
    AcceptedAfterHello(s.wires[0]);
    D.RunKeepsInv(D.NewServer(st), daemon);
    D.RunsGrow(D.NewServer(st), daemon);
    assert s.log[0] == [st][0];
    ThreeChanges(f, g);
    SnapshotsAreUpdates(s.log, s.changes, [0, 1, 3, 2], [true, true, true, true]);
    OvertakenIsPostedAgain(f, g);
  }
}
