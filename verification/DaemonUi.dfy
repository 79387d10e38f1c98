/** The daemon's socket UI: its state, its client set and the sections that run under its lock. */
module DaemonUi {
  import opened Basics
  import opened Protocol

  const MAX_RECENT_FILES := 10

  type Conn = nat

  /** State changes; all but SetRules are broadcast. */
  datatype Change =
    | SetStatus(status: string)
    | IncProcessed
    | AddRecentFile(file: RecentFile)
    | ToggleDryRun
    | SetRules(rules: seq<RuleInfo>)

  function Changed(st: AppState, c: Change): AppState {
    match c
    case SetStatus(status) => st.(status := status)
    case IncProcessed => st.(processed := st.processed + 1)
    case AddRecentFile(file) => st.(recentFiles := Prefix([file] + st.recentFiles, MAX_RECENT_FILES))
    case ToggleDryRun => st.(dryRun := !st.dryRun)
    case SetRules(rules) => st.(rules := rules)
  }

  predicate IsBroadcast(c: Change) {
    !c.SetRules?
  }

  /**
    Each public method of the daemon's UI holds the lock up to the snapshot of its broadcast, releases
    it while writing and retakes it to drop failed clients. The methods here are those sections.
  */
  class SocketUI {
    var st: AppState
    var clients: set<Conn>

    constructor (st: AppState)
      ensures this.st == st && clients == {}
    {
      this.st := st;
      clients := {};
    }

    method SetStatus(status: string) returns (line: AppState, targets: set<Conn>)
      modifies this`st
      ensures line == st == Changed(old(st), Change.SetStatus(status)) && targets == clients
    {
      st := st.(status := status);
      line, targets := BroadcastSnapshot();
    }

    method IncProcessed() returns (line: AppState, targets: set<Conn>)
      modifies this`st
      ensures line == st == Changed(old(st), Change.IncProcessed) && targets == clients
    {
      st := st.(processed := st.processed + 1);
      line, targets := BroadcastSnapshot();
    }

    method AddRecentFile(file: RecentFile) returns (line: AppState, targets: set<Conn>)
      modifies this`st
      ensures line == st == Changed(old(st), Change.AddRecentFile(file)) && targets == clients
    {
      st := st.(recentFiles := [file] + st.recentFiles);
      if |st.recentFiles| > MAX_RECENT_FILES {
        st := st.(recentFiles := st.recentFiles[..MAX_RECENT_FILES]);
      }
      line, targets := BroadcastSnapshot();
    }

    /** The toggle command; `enabled` goes to the daemon's callback once the lock is released. */
    method ToggleDryRun() returns (enabled: bool, line: AppState, targets: set<Conn>)
      modifies this`st
      ensures line == st == Changed(old(st), Change.ToggleDryRun) && targets == clients
      ensures enabled == st.dryRun != old(st.dryRun)
    {
      st := st.(dryRun := !st.dryRun);
      enabled := st.dryRun;
      line, targets := BroadcastSnapshot();
    }

    method SetRules(rules: seq<RuleInfo>)
      modifies this`st
      ensures st == Changed(old(st), Change.SetRules(rules))
    {
      st := st.(rules := rules);
    }

    method BroadcastSnapshot() returns (line: AppState, targets: set<Conn>)
      ensures line == st && targets == clients
    {
      line, targets := st, clients;
    }

    /** Retakes the lock after the writes: failed clients leave the set. */
    method FinishBroadcast(failed: seq<Conn>)
      modifies this`clients
      ensures clients == old(clients) - (set c | c in failed)
    {
      for i := 0 to |failed|
        invariant clients == old(clients) - (set c | c in failed[..i])
      {
        assert failed[..i + 1] == failed[..i] + [failed[i]];
        clients := clients - {failed[i]};
      }
      assert failed[..|failed|] == failed;
    }

    method Register(conn: Conn)
      modifies this`clients
      ensures clients == old(clients) + {conn}
    {
      clients := clients + {conn};
    }

    method RemoveClient(conn: Conn)
      modifies this`clients
      ensures clients == old(clients) - {conn}
    {
      clients := clients - {conn};
    }
  }

  /** Writes one line to every client and returns those that failed; `writable` is the network's answer. */
  method WriteToClients(clients: seq<Conn>, writable: Conn -> bool) returns (failed: seq<Conn>, reached: seq<Conn>)
    ensures forall c :: c in failed <==> c in clients && !writable(c)
    ensures forall c :: c in reached <==> c in clients && writable(c)
    ensures |failed| + |reached| == |clients|
  {
    failed, reached := [], [];
    for i := 0 to |clients|
      invariant forall c :: c in failed <==> c in clients[..i] && !writable(c)
      invariant forall c :: c in reached <==> c in clients[..i] && writable(c)
      invariant |failed| + |reached| == i
    {
      assert clients[..i + 1] == clients[..i] + [clients[i]];
      if writable(clients[i]) {
        reached := reached + [clients[i]];
      } else {
        failed := failed + [clients[i]];
      }
    }
    assert clients[..|clients|] == clients;
  }
}
