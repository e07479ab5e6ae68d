/** Port allocation of the race servers, one server per group. */
module ServerPorts {
  import opened Wrappers

  type Id = string

  const BASE_UDP := 9600
  const BASE_TCP := 9600
  const BASE_HTTP := 8080

  datatype Server = Server(port: int, httpPort: int, pid: nat)

  type Servers = map<Id, Server>

  function Offset(s: Server): int {
    s.port - BASE_UDP
  }

  function TcpPort(s: Server): int {
    BASE_TCP + Offset(s)
  }

  function Offsets(servers: Servers): set<int> {
    set g | g in servers :: Offset(servers[g])
  }

  predicate IsLeastFree(used: set<int>, n: int) {
    n >= 0 && n !in used && forall j :: 0 <= j < n ==> j in used
  }

  /** No more offsets are skipped than are in use. */
  lemma {:induction false} LeastFreeBound(used: set<int>, n: nat)
    requires forall j :: 0 <= j < n ==> j in used
    ensures n <= |used|
  {
    if n > 0 {
      LeastFreeBound(used - {n - 1}, n - 1);
    }
  }

  lemma {:induction false} OffsetsSize(servers: Servers)
    ensures |Offsets(servers)| <= |servers|
    decreases |servers|
  {
    if servers == map[] {
      assert Offsets(servers) == {};
    } else {
      var g :| g in servers;
      var rest := servers - {g};
      RemovedSize(servers, g);
      OffsetsSize(rest);
      assert servers == rest[g := servers[g]];
      assert Offsets(servers) == Offsets(rest) + {Offset(servers[g])};
    }
  }

  lemma RemovedSize(servers: Servers, g: Id)
    requires g in servers
    ensures |servers - {g}| == |servers| - 1
  {
    assert (servers - {g}).Keys == servers.Keys - {g};
    assert |servers.Keys| == |servers| && |(servers - {g}).Keys| == |servers - {g}|;
  }

  /** How a start ends once the old server is stopped: the process runs, or some step failed. */
  datatype Starting = Running(pid: nat) | NoExecutable | Failed

  /** A start at a given offset. */
  function Started(servers: Servers, g: Id, o: Starting, n: int): Servers {
    if o.Running? then (servers - {g})[g := Server(BASE_UDP + n, BASE_HTTP + n, o.pid)] else servers - {g}
  }

  datatype Op = Start(g: Id, o: Starting) | Stop(g: Id) | StopAll

  /** One step from `p` to `q`. */
  ghost predicate Steps(p: Servers, op: Op, q: Servers) {
    match op
    case Start(g, o) => exists n :: IsLeastFree(Offsets(p - {g}), n) && q == Started(p, g, o, n)
    case Stop(g) => q == p - {g}
    case StopAll => q == map[]
  }

  ghost predicate IsRun(states: seq<Servers>, ops: seq<Op>) {
    && |states| == |ops| + 1 && states[0] == map[]
    && forall i :: 0 <= i < |ops| ==> Steps(states[i], ops[i], states[i + 1])
  }

  ghost predicate Apart(servers: Servers) {
    && (forall g :: g in servers ==> Offset(servers[g]) >= 0 && servers[g].httpPort == BASE_HTTP + Offset(servers[g]))
    && (forall g, h :: g in servers && h in servers && g != h ==> Offset(servers[g]) != Offset(servers[h]))
  }

  ghost predicate Below(servers: Servers, n: nat) {
    forall g :: g in servers ==> Offset(servers[g]) < n
  }

  lemma StartedApart(rest: Servers, g: Id, n: int, pid: nat)
    requires Apart(rest) && g !in rest && IsLeastFree(Offsets(rest), n)
    ensures Apart(rest[g := Server(BASE_UDP + n, BASE_HTTP + n, pid)])
    ensures n <= |rest|
  {
    forall h | h in rest ensures Offset(rest[h]) != n {
      assert Offset(rest[h]) in Offsets(rest);
    }
    LeastFreeBound(Offsets(rest), n);
    OffsetsSize(rest);
  }

  lemma StartApart(p: Servers, g: Id, o: Starting, n: int, peak: nat)
    requires Apart(p) && Below(p, peak) && IsLeastFree(Offsets(p - {g}), n) && |Started(p, g, o, n)| <= peak
    ensures Apart(Started(p, g, o, n)) && Below(Started(p, g, o, n), peak)
  {
    hide Offsets, IsLeastFree, Apart;
    var rest := p - {g};
    FewerApart(p, g);
    if o.Running? {
      StartedApart(rest, g, n, o.pid);
      var q := Started(p, g, o, n);
      RemovedSize(q, g);
      assert q - {g} == rest;
    }
  }

  lemma StepApart(p: Servers, op: Op, q: Servers, peak: nat)
    requires Steps(p, op, q) && Apart(p) && Below(p, peak) && |q| <= peak
    ensures Apart(q) && Below(q, peak)
  {
    hide Offsets, IsLeastFree, Apart, Started;
    match op
    case Start(g, o) =>
      var n :| IsLeastFree(Offsets(p - {g}), n) && q == Started(p, g, o, n);
      StartApart(p, g, o, n, peak);
    case Stop(g) => FewerApart(p, g);
    case StopAll => NoneApart();
  }

  lemma FewerApart(p: Servers, g: Id)
    requires Apart(p)
    ensures Apart(p - {g})
  {}

  lemma NoneApart()
    ensures Apart(map[])
  {}

  /**
    Over every run the offsets are pairwise distinct and stay below the greatest
    number of servers that ever ran together.
  */
  lemma {:induction false} OffsetsApart(states: seq<Servers>, ops: seq<Op>, peak: nat)
    requires IsRun(states, ops) && forall i :: 0 <= i < |states| ==> |states[i]| <= peak
    ensures Apart(states[|ops|]) && Below(states[|ops|], peak)
  {
    if ops != [] {
      var n := |ops| - 1;
      assert IsRun(states[..n + 1], ops[..n]);
      OffsetsApart(states[..n + 1], ops[..n], peak);
      assert Steps(states[n], ops[n], states[n + 1]);
      StepApart(states[n], ops[n], states[n + 1], peak);
    }
  }

  /** So while at most 1520 servers have ever run together no two share a port, TCP and HTTP taken together. */
  lemma PortsApart(states: seq<Servers>, ops: seq<Op>, g: Id, h: Id)
    requires IsRun(states, ops) && forall i :: 0 <= i < |states| ==> |states[i]| <= 1520
    requires g in states[|ops|] && h in states[|ops|]
    ensures var s, t := states[|ops|][g], states[|ops|][h];
      s.httpPort != TcpPort(t) && (g != h ==> s.port != t.port && TcpPort(s) != TcpPort(t) && s.httpPort != t.httpPort)
  {
    OffsetsApart(states, ops, BASE_TCP - BASE_HTTP);
  }

  /** A server of another group has the port. */
  predicate TakenBeside(servers: Servers, g: Id, port: int) {
    exists h :: h in servers && h != g && servers[h].port == port
  }

  lemma TakenIff(p: Servers, g: Id, port: int)
    ensures TakenBeside(p, g, port) <==> port - 9600 in Offsets(p - {g})
  {
    if h :| h in p && h != g && p[h].port == port {
      assert Offset((p - {g})[h]) in Offsets(p - {g});
    }
  }

  lemma LeastPort(p: Servers, g: Id, n: int)
    requires IsLeastFree(Offsets(p - {g}), n)
    ensures !TakenBeside(p, g, 9600 + n) && forall j :: 9600 <= j < 9600 + n ==> TakenBeside(p, g, j)
  {
    hide Offsets, TakenBeside;
    TakenIff(p, g, 9600 + n);
    forall j | 9600 <= j < 9600 + n ensures TakenBeside(p, g, j) {
      TakenIff(p, g, j);
    }
  }

  // ----- the manager

  class ServerManager {
    var servers: Servers

    constructor ()
      ensures servers == map[]
    {
      servers := map[];
    }

    method StopServer(g: Id) returns (found: bool)
      modifies this
      ensures servers == old(servers) - {g}
      ensures found <==> g in old(servers)
    {
      found := g in servers;
      servers := servers - {g};
    }

    /** Stops the group's old server, then takes the least free offset; a start that fails keeps nothing. */
    method StartServer(g: Id, o: Starting) returns (port: Option<int>)
      modifies this
      ensures Steps(old(servers), Start(g, o), servers)
      ensures port.Some? <==> o.Running?
      ensures port.Some? ==>
        var n := port.value - 9600;
        && g in servers && servers[g] == Server(9600 + n, 8080 + n, o.pid) && 0 <= n <= |old(servers) - {g}|
        && !TakenBeside(old(servers), g, port.value)
        && forall j :: 9600 <= j < port.value ==> TakenBeside(old(servers), g, j)
      ensures forall h :: h != g ==>
        (h in servers <==> h in old(servers)) && (h in servers ==> servers[h] == old(servers)[h])
    {
      hide TakenBeside;
      if g in servers {
        var _ := StopServer(g);
      }
      assert servers == old(servers) - {g};
      ghost var rest := servers;
      var used := Offsets(servers);
      var offset := LowestFree(used);
      LeastFreeBound(used, offset);
      OffsetsSize(servers);
      LeastPort(old(servers), g, offset);
      assert Started(old(servers), g, o, offset)
        == if o.Running? then rest[g := Server(BASE_UDP + offset, BASE_HTTP + offset, o.pid)] else rest;
      match o {
        case NoExecutable => return None;
        case Failed => return None;
        case Running(pid) =>
          servers := servers[g := Server(BASE_UDP + offset, BASE_HTTP + offset, pid)];
          return Some(BASE_UDP + offset);
      }
    }

    method StopAllServers()
      modifies this
      ensures servers == map[]
    {
      var left := servers.Keys;
      while left != {}
        invariant servers.Keys == left
      {
        var g :| g in left;
        var _ := StopServer(g);
        left := left - {g};
      }
    }
  }

  method LowestFree(used: set<int>) returns (offset: nat)
    ensures IsLeastFree(used, offset)
  {
    offset := 0;
    while offset in used
      invariant forall j :: 0 <= j < offset ==> j in used
      decreases |used| - offset
    {
      LeastFreeBound(used, offset + 1);
      offset := offset + 1;
    }
  }
}
