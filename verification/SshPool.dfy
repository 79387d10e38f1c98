/** The SSH connection pool as resource accounting: who holds each client and agent socket. */
module SshPool {
  import opened Basics

  type Client = nat
  type Socket = nat

  datatype HostConfig = HostConfig(host: string, user: string, key: string, agentSock: string)

  /** What the outside world answers during one call of getConn. */
  datatype World = World(
    alive: bool,          // the cached connection answers the keepalive
    keyUsable: bool,      // the key file can be read and parsed
    envSock: string,      // SSH_AUTH_SOCK
    agentReachable: bool,
    dials: bool)

  /** Pool fields, and the clients and sockets the pool has opened and closed. */
  datatype State = State(
    conns: map<string, Client>,
    agentConns: seq<Socket>,
    clients: nat,                 // opened clients are numbered
    closedClients: seq<Client>,   // every call of Close on a client
    sockets: nat,
    closedSockets: seq<Socket>)

  const EMPTY := State(map[], [], 0, [], 0, [])

  /** Authentication: opens and keeps an agent socket unless a key file is configured. */
  function Authenticated(s: State, host: HostConfig, world: World): (State, bool) {
    if host.key != "" then (s, world.keyUsable)
    else
      var sock := if host.agentSock == "" then world.envSock else host.agentSock;
      if sock == "" || !world.agentReachable then (s, false)
      else (s.(agentConns := s.agentConns + [s.sockets], sockets := s.sockets + 1), true)
  }

  function Dialled(s: State, hosts: map<string, HostConfig>, name: string, world: World): (State, Option<Client>) {
    if name !in hosts then (s, None) else
      var (t, authenticated) := Authenticated(s, hosts[name], world);
      if authenticated && world.dials then (t.(clients := t.clients + 1), Some(t.clients)) else (t, None)
  }

  /** Drops a cached connection that does not answer. */
  function DropStale(s: State, name: string): State {
    if name in s.conns
    then s.(conns := s.conns - {name}, closedClients := s.closedClients + [s.conns[name]])
    else s
  }

  function Got(s: State, hosts: map<string, HostConfig>, name: string, world: World): (State, Option<Client>) {
    if name in s.conns && world.alive then (s, Some(s.conns[name])) else
      var (t, client) := Dialled(DropStale(s, name), hosts, name, world);
      if client.Some? then (t.(conns := t.conns[name := client.value]), client) else (t, client)
  }

  predicate Distinct<T(==)>(s: seq<T>) {
    forall i, j :: 0 <= i < j < |s| ==> s[i] != s[j]
  }

  predicate OwnedOnce(conns: map<string, Client>) {
    forall m, n :: m in conns && n in conns && conns[m] == conns[n] ==> m == n
  }

  /** Each client opened is cached under exactly one name or has been closed exactly once; sockets alike. */
  ghost predicate Inv(s: State) {
    && OwnedOnce(s.conns) && Distinct(s.closedClients)
    && (forall n :: n in s.conns ==> s.conns[n] < s.clients && s.conns[n] !in s.closedClients)
    && (forall c :: c in s.closedClients ==> c < s.clients)
    && (forall c: nat :: c < s.clients ==> c in s.closedClients || exists n :: n in s.conns && s.conns[n] == c)
    && Distinct(s.agentConns) && Distinct(s.closedSockets)
    && (forall k :: k in s.agentConns ==> k < s.sockets && k !in s.closedSockets)
    && (forall k :: k in s.closedSockets ==> k < s.sockets)
    && (forall k: nat :: k < s.sockets ==> k in s.agentConns || k in s.closedSockets)
  }

  lemma {:induction false} DropStaleKeepsInv(s: State, name: string)
    requires Inv(s)
    ensures Inv(DropStale(s, name))
  {
    var t := DropStale(s, name);
    if name in s.conns {
      forall c: nat | c < t.clients
        ensures c in t.closedClients || exists n :: n in t.conns && t.conns[n] == c
      {
        if c !in s.closedClients {
          var n :| n in s.conns && s.conns[n] == c;
          assert n != name ==> n in t.conns && t.conns[n] == c;
        }
      }
    }
  }

  lemma {:induction false} DialKeepsInv(s: State, hosts: map<string, HostConfig>, name: string, world: World)
    requires Inv(s)
    ensures var (t, client) := Dialled(s, hosts, name, world);
      if client.None? then Inv(t)
      else
        && client.value == s.clients && t.clients == s.clients + 1 && t.conns == s.conns
        && Inv(t.(clients := s.clients))
  {
    DistinctAppend(s.agentConns, [s.sockets]);
  }

  lemma {:induction false} GetConnKeepsInv(s: State, hosts: map<string, HostConfig>, name: string, world: World)
    requires Inv(s)
    ensures Inv(Got(s, hosts, name, world).0)
  {
    DropStaleKeepsInv(s, name);
    var d := DropStale(s, name);
    DialKeepsInv(d, hosts, name, world);
    var (t, client) := Dialled(d, hosts, name, world);
    if client.Some? {
      var u := t.(conns := t.conns[name := client.value]);
      forall c: nat | c < u.clients
        ensures c in u.closedClients || exists n :: n in u.conns && u.conns[n] == c
      {
        if c == s.clients {
          assert u.conns[name] == c;
        } else if c !in u.closedClients {
          var n :| n in d.conns && d.conns[n] == c;
          assert n in u.conns && (n != name ==> u.conns[n] == c);
        }
      }
    }
  }

  /** Whatever a call hands out is open, and cached under the name it was asked for. */
  lemma {:induction false} HandedOutIsOpen(s: State, hosts: map<string, HostConfig>, name: string, world: World)
    requires Inv(s) && Got(s, hosts, name, world).1.Some?
    ensures var (t, client) := Got(s, hosts, name, world);
      && name in t.conns && t.conns[name] == client.value && client.value !in t.closedClients
      && (name in s.conns && !world.alive ==> client.value != s.conns[name] && s.conns[name] in t.closedClients)
  {
    GetConnKeepsInv(s, hosts, name, world);
  }

  /** Which Close calls report an error; they release the resource all the same. */
  datatype Failures = Failures(client: Client -> bool, socket: Socket -> bool)

  datatype CloseError = ClientError(name: string) | SocketError(socket: Socket)

  ghost predicate ClientsCloseCleanly(s: State, f: Failures) {
    forall n :: n in s.conns ==> !f.client(s.conns[n])
  }

  /** What closing reports: a failing client, else the first failing agent socket, else nothing. */
  ghost predicate Reports(s: State, f: Failures, error: Option<CloseError>) {
    match error
    case None => ClientsCloseCleanly(s, f) && forall k :: k in s.agentConns ==> !f.socket(k)
    case Some(ClientError(name)) => name in s.conns && f.client(s.conns[name])
    case Some(SocketError(socket)) =>
      && ClientsCloseCleanly(s, f) && f.socket(socket)
      && exists i :: 0 <= i < |s.agentConns| && s.agentConns[i] == socket
           && forall j :: 0 <= j < i ==> !f.socket(s.agentConns[j])
  }

  /** Authentication works: the key file where one is configured, else some agent that can be reached. */
  predicate CanAuthenticate(host: HostConfig, world: World) {
    if host.key != "" then world.keyUsable
    else (host.agentSock != "" || world.envSock != "") && world.agentReachable
  }

  /**
    What one call of getConn hands out, in every state: a live cached client is handed out again and
    nothing is opened or closed; otherwise a client never opened before, exactly if the host is
    configured, authentication works and the dial does; a stale client is closed and forgotten in any
    case, an agent socket opened exactly if there is no key file and the agent is reached.
  */
  lemma {:induction false} GotExactly(s: State, hosts: map<string, HostConfig>, name: string, world: World)
    ensures var (t, client) := Got(s, hosts, name, world);
      if name in s.conns && world.alive then
        t == s && client == Some(s.conns[name])
      else
        && (client.Some? <==> name in hosts && CanAuthenticate(hosts[name], world) && world.dials)
        && t.conns == (if client.Some? then s.conns[name := s.clients] else s.conns - {name})
        && client == (if client.Some? then Some(s.clients) else None)
        && t.clients == s.clients + (if client.Some? then 1 else 0)
        && t.closedClients == s.closedClients + (if name in s.conns then [s.conns[name]] else [])
        && t.closedSockets == s.closedSockets
        && t.agentConns == s.agentConns +
             (if name in hosts && hosts[name].key == "" && CanAuthenticate(hosts[name], world) then [s.sockets] else [])
  {
  }

  // ---- runs ----

  datatype Call = Get(name: string, world: World) | CloseAll

  function ClientsOf(conns: map<string, Client>, names: seq<string>): (r: seq<Client>)
    requires forall n :: n in names ==> n in conns
    ensures |r| == |names| && forall i :: 0 <= i < |r| ==> r[i] == conns[names[i]]
  {
    seq(|names|, i requires 0 <= i < |names| => conns[names[i]])
  }

  lemma ClientsOfSnoc(conns: map<string, Client>, names: seq<string>, name: string)
    requires name in conns && forall n :: n in names ==> n in conns
    ensures ClientsOf(conns, names + [name]) == ClientsOf(conns, names) + [conns[name]]
  {
  }

  ghost predicate Enumerates(names: seq<string>, conns: map<string, Client>) {
    Distinct(names) && forall n :: n in names <==> n in conns
  }

  /** Closing: each cached client and each agent socket is closed once; the clients in any order. */
  ghost predicate IsClosing(s: State, t: State) {
    exists names :: Enumerates(names, s.conns)
      && t == s.(conns := map[], agentConns := [], closedClients := s.closedClients + ClientsOf(s.conns, names),
                 closedSockets := s.closedSockets + s.agentConns)
  }

  ghost predicate Follows(s: State, hosts: map<string, HostConfig>, call: Call, t: State) {
    match call
    case Get(name, world) => t == Got(s, hosts, name, world).0
    case CloseAll => IsClosing(s, t)
  }

  ghost predicate IsRun(hosts: map<string, HostConfig>, calls: seq<Call>, states: seq<State>) {
    && |states| == |calls| + 1 && states[0] == EMPTY
    && forall i :: 0 <= i < |calls| ==> Follows(states[i], hosts, calls[i], states[i + 1])
  }

  lemma {:induction false} DistinctAppend(a: seq<nat>, b: seq<nat>)
    requires Distinct(a) && Distinct(b) && forall x :: x in b ==> x !in a
    ensures Distinct(a + b)
  {
    forall i, j | 0 <= i < j < |a + b|
      ensures (a + b)[i] != (a + b)[j]
    {
      if i < |a| <= j {
        assert b[j - |a|] in b && a[i] in a;
      }
    }
  }

  lemma {:induction false} ClosingKeepsInv(s: State, t: State)
    requires Inv(s) && IsClosing(s, t)
    ensures Inv(t)
    ensures t.conns == map[] && t.agentConns == []
    ensures forall c: nat :: c < t.clients <==> c in t.closedClients
    ensures forall k: nat :: k < t.sockets <==> k in t.closedSockets
  {
    var names :| Enumerates(names, s.conns)
      && t == s.(conns := map[], agentConns := [], closedClients := s.closedClients + ClientsOf(s.conns, names),
                 closedSockets := s.closedSockets + s.agentConns);
    var newly := ClientsOf(s.conns, names);
    forall c
      ensures c in newly <==> exists n :: n in s.conns && s.conns[n] == c
    {
      if n :| n in s.conns && s.conns[n] == c {
        assert n in names;
        var i :| 0 <= i < |names| && names[i] == n;
        assert newly[i] == c;
      }
    }
    DistinctAppend(s.closedClients, newly);
    DistinctAppend(s.closedSockets, s.agentConns);
  }

  /**
    Conservation over every run of calls: each client ever opened is cached under exactly one name
    or has been closed, exactly once, each agent socket is kept or has been closed, exactly once;
    and closing the pool leaves everything opened so far closed and the caches empty.
  */
  lemma {:induction false} ResourcesAreConserved(hosts: map<string, HostConfig>, calls: seq<Call>, states: seq<State>)
    requires IsRun(hosts, calls, states)
    ensures var s := states[|calls|];
      && Inv(s)
      && (calls != [] && calls[|calls| - 1].CloseAll? ==>
            s.conns == map[] && s.agentConns == []
            && (forall c: nat :: c < s.clients <==> c in s.closedClients)
            && (forall k: nat :: k < s.sockets <==> k in s.closedSockets))
  {
    if calls != [] {
      var n := |calls| - 1;
      ResourcesAreConserved(hosts, calls[..n], states[..n + 1]);
      match calls[n] {
        case Get(name, world) => GetConnKeepsInv(states[n], hosts, name, world);
        case CloseAll => ClosingKeepsInv(states[n], states[n + 1]);
      }
    }
  }

  class Pool {
    const hosts: map<string, HostConfig>
    var conns: map<string, Client>
    var agentConns: seq<Socket>
    var clients: nat
    var closedClients: seq<Client>
    var sockets: nat
    var closedSockets: seq<Socket>

    ghost function View(): State
      reads this
    {
      State(conns, agentConns, clients, closedClients, sockets, closedSockets)
    }

    constructor (hosts: map<string, HostConfig>)
      ensures View() == EMPTY && this.hosts == hosts
    {
      this.hosts := hosts;
      conns, agentConns, clients, closedClients, sockets, closedSockets := map[], [], 0, [], 0, [];
    }

    method AuthMethod(host: HostConfig, world: World) returns (ok: bool)
      modifies this
      ensures (View(), ok) == Authenticated(old(View()), host, world)
    {
      if host.key != "" {
        return world.keyUsable;
      }
      var sock := host.agentSock;
      if sock == "" {
        sock := world.envSock;
      }
      if sock == "" {
        return false;
      }
      if !world.agentReachable {
        return false;
      }
      agentConns := agentConns + [sockets];
      sockets := sockets + 1;
      return true;
    }

    method Dial(name: string, world: World) returns (client: Option<Client>)
      modifies this
      ensures (View(), client) == Dialled(old(View()), hosts, name, world)
    {
      if name !in hosts {
        return None;
      }
      var ok := AuthMethod(hosts[name], world);
      if !ok || !world.dials {
        return None;
      }
      client := Some(clients);
      clients := clients + 1;
    }

    method GetConn(name: string, world: World) returns (client: Option<Client>)
      modifies this
      ensures (View(), client) == Got(old(View()), hosts, name, world)
    {
      if name in conns {
        if world.alive {
          return Some(conns[name]);
        }
        closedClients := closedClients + [conns[name]];
        conns := conns - {name};
      }
      client := Dial(name, world);
      if client.Some? {
        conns := conns[name := client.value];
      }
    }

    method CloseClients(failures: Failures) returns (error: Option<CloseError>, ghost names: seq<string>)
      modifies this
      ensures Enumerates(names, old(conns))
      ensures View() == old(View()).(conns := map[],
                                     closedClients := old(closedClients) + ClientsOf(old(conns), names))
      ensures error.None? <==> ClientsCloseCleanly(old(View()), failures)
      ensures error.Some? ==> error.value.ClientError? && Reports(old(View()), failures, error)
    {
      error, names := None, [];
      while conns != map[]
        invariant conns.Keys <= old(conns).Keys && forall n :: n in conns ==> conns[n] == old(conns)[n]
        invariant Distinct(names) && forall n :: n in names <==> n in old(conns) && n !in conns
        invariant View() == old(View()).(conns := conns, closedClients := closedClients)
        invariant closedClients == old(closedClients) + ClientsOf(old(conns), names)
        invariant error.None? <==> forall n :: n in old(conns) && n !in conns ==> !failures.client(old(conns)[n])
        invariant error.Some? ==> error.value.ClientError? && error.value.name in old(conns)
                                  && failures.client(old(conns)[error.value.name])
        decreases |conns|
      {
        var name :| name in conns;
        if failures.client(conns[name]) && error.None? {
          error := Some(ClientError(name));
        }
        closedClients := closedClients + [conns[name]];
        conns := conns - {name};
        ClientsOfSnoc(old(conns), names, name);
        names := names + [name];
      }
    }

    method Close(failures: Failures) returns (error: Option<CloseError>)
      modifies this
      ensures IsClosing(old(View()), View())
      ensures Reports(old(View()), failures, error)
    {
      ghost var names;
      error, names := CloseClients(failures);
      ghost var half := View();
      for i := 0 to |agentConns|
        invariant agentConns == half.agentConns == old(agentConns)
        invariant View() == half.(closedSockets := half.closedSockets + agentConns[..i])
        invariant !ClientsCloseCleanly(old(View()), failures) ==>
          error.Some? && error.value.ClientError? && Reports(old(View()), failures, error)
        invariant ClientsCloseCleanly(old(View()), failures) && error.Some? ==>
          error.value.SocketError? && Reports(old(View()), failures, error)
        invariant error.None? ==> forall j :: 0 <= j < i ==> !failures.socket(agentConns[j])
      {
        assert agentConns[..i + 1] == agentConns[..i] + [agentConns[i]];
        if failures.socket(agentConns[i]) && error.None? {
          error := Some(SocketError(agentConns[i]));
        }
        closedSockets := closedSockets + [agentConns[i]];
      }
      assert agentConns[..|agentConns|] == agentConns;
      agentConns := [];
      assert Enumerates(names, old(conns));
    }
  }
}
