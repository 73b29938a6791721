/** Addresses and ports for new tunnels, computed from the tunnels in the database, and what creating
    and deleting tunnels in any order does to them. */
module Allocator {
  import opened Options
  import opened Addresses

  const PORTS := 65536

  type Port = p: nat | p < PORTS

  /** A row of the tunnel table. All rows are WireGuard tunnels. */
  datatype Tunnel = Tunnel(id: nat, ip: IPv4, client: bool, port: Port)

  datatype Config = Config(startIP: IPv4, startPort: Port)

  // Addresses.

  /** The allocator compares addresses by their last two bytes only. */
  function Key(ip: IPv4): nat { ip.c as nat * 256 + ip.d as nat }

  /** The highest of the starting address and the server tunnels' addresses; the earliest wins ties. */
  function Highest(start: IPv4, tunnels: seq<Tunnel>): (r: IPv4)
    ensures Key(r) >= Key(start)
  {
    if tunnels == [] then start
    else
      var best := Highest(start, tunnels[..|tunnels| - 1]);
      var t := tunnels[|tunnels| - 1];
      if !t.client && Key(t.ip) > Key(best) then t.ip else best
  }

  /** The address after the highest one, in byte arithmetic. */
  function After(ip: IPv4): Option<IPv4> {
    if ip.d == 252 then
      (var c := Inc(ip.c); if c >= 254 then None else Some(ip.(c := c, d := 0)))
    else Some(ip.(d := if ip.d < 252 then ip.d + 4 else ip.d - 252))
  }

  /** Some address is that of the highest: the start's or a server tunnel's, with no server tunnel above. */
  ghost predicate IsHighest(high: IPv4, start: IPv4, tunnels: seq<Tunnel>) {
    && (high == start || exists t :: t in tunnels && !t.client && t.ip == high)
    && Key(start) <= Key(high) && forall t :: t in tunnels && !t.client ==> Key(t.ip) <= Key(high)
  }

  /** The step from the highest address in numbers: four further in the last two bytes; within its block of
      256 below an aligned last byte; and none from 253.252 and 254.252. */
  lemma AfterIs(high: IPv4)
    ensures After(high).None? <==> high.d == 252 && (high.c == 253 || high.c == 254)
    ensures After(high).Some? ==> var ip := After(high).value;
      && ip.a == high.a && ip.b == high.b
      && (high.d <= 252 ==> Key(ip) == (Key(high) + 4) % 0x1_0000)
      && (high.d > 252 ==> ip.c == high.c && ip.d as nat == high.d as nat + 4 - 256)
  {
  }

  /** The address four further than the highest, if there is one. */
  ghost predicate IsNextIP(tunnels: seq<Tunnel>, start: IPv4, r: Option<IPv4>) {
    exists high ::
      && IsHighest(high, start, tunnels)
      && (r.None? <==> high.d == 252 && (high.c == 253 || high.c == 254))
      && (r.Some? ==> r.value.a == high.a && r.value.b == high.b)
      && (r.Some? && high.d <= 252 ==> Key(r.value) == (Key(high) + 4) % 0x1_0000)
  }

  lemma NextIPIs(tunnels: seq<Tunnel>, start: IPv4)
    ensures IsNextIP(tunnels, start, After(Highest(start, tunnels)))
  {
    HighestIsHighest(start, tunnels);
    AfterIs(Highest(start, tunnels));
    assert IsHighest(Highest(start, tunnels), start, tunnels);
  }

  method GetNextWireguardIP(tunnels: seq<Tunnel>, start: IPv4) returns (r: Option<IPv4>)
    ensures r == After(Highest(start, tunnels)) && IsNextIP(tunnels, start, r)
  {
    NextIPIs(tunnels, start);
    hide IsNextIP;
    var highest := start;
    for i := 0 to |tunnels|
      invariant highest == Highest(start, tunnels[..i])
    {
      assert tunnels[..i + 1][..i] == tunnels[..i];
      var t := tunnels[i];
      if t.client {
        continue;
      }
      if t.ip.c > highest.c {
        highest := t.ip;
      } else if t.ip.c == highest.c {
        if t.ip.d > highest.d {
          highest := t.ip;
        }
      }
    }
    assert tunnels[..|tunnels|] == tunnels;
    if highest.d == 252 {
      highest := highest.(c := Inc(highest.c));
      if highest.c >= 254 {
        return None;
      }
      highest := highest.(d := 0);
    } else {
      highest := highest.(d := if highest.d < 252 then highest.d + 4 else highest.d - 252);
    }
    return Some(highest);
  }

  lemma {:induction false} HighestIsHighest(start: IPv4, tunnels: seq<Tunnel>)
    ensures forall t :: t in tunnels && !t.client ==> Key(t.ip) <= Key(Highest(start, tunnels))
    ensures Highest(start, tunnels) == start || exists t :: t in tunnels && !t.client && t.ip == Highest(start, tunnels)
  {
    if tunnels != [] {
      var front, last := tunnels[..|tunnels| - 1], tunnels[|tunnels| - 1];
      HighestIsHighest(start, front);
      assert tunnels == front + [last];
      if Highest(start, tunnels) != start && Highest(start, tunnels) == Highest(start, front) {
        var t :| t in front && !t.client && t.ip == Highest(start, front);
        assert t in tunnels;
      }
    }
  }

  // Ports.

  function Ports(tunnels: seq<Tunnel>): set<nat> { set t | t in tunnels :: t.port as nat }

  /** The least port from p on that is not used. */
  function LeastFree(p: nat, used: set<nat>): (r: Option<Port>)
    ensures r.Some? ==> p <= r.value && r.value !in used && forall q :: p <= q < r.value ==> q in used
    ensures r.None? ==> forall q :: p <= q < PORTS ==> q in used
    decreases PORTS - p
  {
    if p >= PORTS then None else if p !in used then Some(p) else LeastFree(p + 1, used)
  }

  function NextPort(start: Port, used: set<nat>): Option<Port> {
    if start == 0 then None else LeastFree(start, used)
  }

  predicate HasPort(tunnels: seq<Tunnel>, port: nat) {
    exists k :: 0 <= k < |tunnels| && tunnels[k].port == port
  }

  /** The least port from the start on that no tunnel has, if the start is above zero and there is one. */
  ghost predicate IsNextPort(tunnels: seq<Tunnel>, start: Port, r: Option<Port>) {
    match r
    case Some(p) => 0 < start <= p && !HasPort(tunnels, p) && forall q: nat :: start <= q < p ==> HasPort(tunnels, q)
    case None => start == 0 || forall q: nat :: start <= q < PORTS ==> HasPort(tunnels, q)
  }

  lemma NextPortIs(tunnels: seq<Tunnel>, start: Port)
    ensures IsNextPort(tunnels, start, NextPort(start, Ports(tunnels)))
  {
    forall q: nat ensures HasPort(tunnels, q) <==> q in Ports(tunnels) {
      if q in Ports(tunnels) {
        var t :| t in tunnels && t.port as nat == q;
        var k :| 0 <= k < |tunnels| && tunnels[k] == t;
      }
      if HasPort(tunnels, q) {
        var k :| 0 <= k < |tunnels| && tunnels[k].port == q;
        assert tunnels[k] in tunnels;
      }
    }
  }

  /** The search counts up in 16 bits and ends when it wraps around to zero. */
  method GetNextWireguardPort(tunnels: seq<Tunnel>, start: Port) returns (r: Option<Port>)
    ensures r == NextPort(start, Ports(tunnels))
    ensures r.Some? ==> 0 < start <= r.value && !HasPort(tunnels, r.value)
    ensures r.Some? ==> forall q: nat :: start <= q < r.value ==> HasPort(tunnels, q)
    ensures r.None? ==> start == 0 || forall q: nat :: start <= q < PORTS ==> HasPort(tunnels, q)
  {
    NextPortIs(tunnels, start);
    var used: set<nat> := {};
    for i := 0 to |tunnels|
      invariant used == Ports(tunnels[..i])
    {
      assert tunnels[..i + 1] == tunnels[..i] + [tunnels[i]];
      used := used + {tunnels[i].port};
    }
    assert tunnels[..|tunnels|] == tunnels;
    var port: nat := start;
    while port != 0
      invariant port < PORTS
      invariant NextPort(start, used) == if port == 0 then None else LeastFree(port, used)
      decreases if port == 0 then 0 else PORTS - port
    {
      if port !in used {
        return Some(port);
      }
      port := (port + 1) % PORTS;
    }
    return None;
  }

  function Range(lo: nat, hi: nat): (r: set<nat>)
    requires lo <= hi
    ensures |r| == hi - lo && forall p: nat :: p in r <==> lo <= p < hi
    decreases hi
  {
    if lo == hi then {} else Range(lo, hi - 1) + {hi - 1}
  }

  lemma {:induction false} FewPorts(tunnels: seq<Tunnel>)
    ensures |Ports(tunnels)| <= |tunnels|
  {
    if tunnels == [] {
      assert Ports(tunnels) == {};
    } else {
      FewPorts(tunnels[1..]);
      assert tunnels == [tunnels[0]] + tunnels[1..];
      assert Ports(tunnels) == Ports(tunnels[1..]) + {tunnels[0].port};
    }
  }

  lemma SubsetIsNoLarger(a: set<nat>, b: set<nat>)
    requires a <= b
    ensures |a| <= |b|
  {
    assert b == a + (b - a);
  }

  /** A port is found whenever there are fewer tunnels than ports from the start on. */
  lemma PortIsFound(tunnels: seq<Tunnel>, start: Port)
    requires 0 < start && |tunnels| < PORTS - start
    ensures NextPort(start, Ports(tunnels)).Some?
  {
    if NextPort(start, Ports(tunnels)).None? {
      SubsetIsNoLarger(Range(start, PORTS), Ports(tunnels));
      FewPorts(tunnels);
    }
  }

  // Histories.

  datatype State = State(tunnels: seq<Tunnel>, nextId: nat)

  /** Requests that pass their checks on names and keys. */
  datatype Request = CreateServer | CreateClient(ip: IPv4) | Delete(id: nat)

  function WithoutId(tunnels: seq<Tunnel>, id: nat): seq<Tunnel> {
    if tunnels == [] then []
    else if tunnels[0].id == id then WithoutId(tunnels[1..], id)
    else [tunnels[0]] + WithoutId(tunnels[1..], id)
  }

  predicate HasIP(tunnels: seq<Tunnel>, ip: IPv4) { exists k :: 0 <= k < |tunnels| && tunnels[k].ip == ip }

  function Insert(s: State, ip: IPv4, client: bool, port: Port): State {
    State(s.tunnels + [Tunnel(s.nextId, ip, client, port)], s.nextId + 1)
  }

  function Handle(cfg: Config, s: State, r: Request): State {
    match r
    case CreateServer =>
      var ip, port := After(Highest(cfg.startIP, s.tunnels)), NextPort(cfg.startPort, Ports(s.tunnels));
      if ip.None? || port.None? then s else Insert(s, ip.value, false, port.value)
    case CreateClient(ip) => if HasIP(s.tunnels, ip) then s else Insert(s, ip, true, 0)
    case Delete(id) => s.(tunnels := WithoutId(s.tunnels, id))
  }

  function HandleAll(cfg: Config, s: State, rs: seq<Request>): State
    decreases |rs|
  {
    if rs == [] then s else HandleAll(cfg, Handle(cfg, s, rs[0]), rs[1..])
  }

  /** The tunnel table behind the create and delete handlers. */
  class TunnelTable {
    var tunnels: seq<Tunnel>
    var nextId: nat

    constructor ()
      ensures Abstract() == State([], 1)
    {
      tunnels, nextId := [], 1;
    }

    function Abstract(): State
      reads this
    {
      State(tunnels, nextId)
    }

    method Create(ip: IPv4, client: bool, port: Port)
      modifies this
      ensures Abstract() == Insert(old(Abstract()), ip, client, port)
    {
      tunnels := tunnels + [Tunnel(nextId, ip, client, port)];
      nextId := nextId + 1;
    }

    method PostServer(cfg: Config) returns (ok: bool)
      modifies this
      ensures Abstract() == Handle(cfg, old(Abstract()), CreateServer)
      ensures !ok ==> tunnels == old(tunnels)
      ensures !ok ==> IsNextIP(old(tunnels), cfg.startIP, None) || IsNextPort(old(tunnels), cfg.startPort, None)
      ensures ok ==> exists ip, port ::
        && tunnels == old(tunnels) + [Tunnel(old(nextId), ip, false, port)]
        && IsNextIP(old(tunnels), cfg.startIP, Some(ip))
        && IsNextPort(old(tunnels), cfg.startPort, Some(port))
    {
      hide IsNextIP, IsNextPort;
      var ip := GetNextWireguardIP(tunnels, cfg.startIP);
      if ip.None? {
        return false;
      }
      NextPortIs(tunnels, cfg.startPort);
      var port := GetNextWireguardPort(tunnels, cfg.startPort);
      if port.None? {
        return false;
      }
      Create(ip.value, false, port.value);
      return true;
    }

    method PostClient(cfg: Config, ip: IPv4) returns (ok: bool)
      modifies this
      ensures Abstract() == Handle(cfg, old(Abstract()), CreateClient(ip))
      ensures ok <==> forall t :: t in old(tunnels) ==> t.ip != ip
      ensures tunnels == old(tunnels) + if ok then [Tunnel(old(nextId), ip, true, 0)] else []
    {
      if HasIP(tunnels, ip) {
        return false;
      }
      Create(ip, true, 0);
      return true;
    }

    method DeleteTunnel(cfg: Config, id: nat)
      modifies this
      ensures Abstract() == Handle(cfg, old(Abstract()), Delete(id))
      ensures forall t :: t in tunnels <==> t in old(tunnels) && t.id != id
    {
      WithoutIdMembers(tunnels, id);
      tunnels := WithoutId(tunnels, id);
    }
  }

  // What holds over all histories.

  /** Starting addresses from which the allocator never repeats itself. */
  predicate GoodStart(start: IPv4) { Aligned(start) && start.c != 255 }

  ghost predicate ServerOf(start: IPv4, ip: IPv4) {
    && ip.a == start.a && ip.b == start.b && Aligned(ip)
    && (ip.c <= 253 || ip.c == start.c) && Key(start) < Key(ip)
  }

  ghost predicate InOrder(cfg: Config, t: Tunnel) {
    if t.client then t.port == 0 else ServerOf(cfg.startIP, t.ip) && cfg.startPort <= t.port
  }

  predicate ServersApart(t: Tunnel, u: Tunnel) { !t.client && !u.client ==> t.ip != u.ip && t.port != u.port }

  ghost predicate Orderly(cfg: Config, tunnels: seq<Tunnel>) {
    && (forall i :: 0 <= i < |tunnels| ==> InOrder(cfg, tunnels[i]))
    && AllPairs(tunnels, ServersApart)
  }

  lemma AfterIsNew(start: IPv4, high: IPv4)
    requires GoodStart(start) && (high == start || ServerOf(start, high)) && After(high).Some?
    ensures ServerOf(start, After(high).value) && Key(After(high).value) > Key(high)
  {
    var ip := After(high).value;
    if high.d == 252 {
      assert Key(ip) == (high.c as nat + 1) * 256;
    } else {
      assert high.d < 252 && Key(ip) == Key(high) + 4;
    }
  }

  lemma {:induction false} WithoutIdMembers(tunnels: seq<Tunnel>, id: nat)
    ensures forall t :: t in WithoutId(tunnels, id) <==> t in tunnels && t.id != id
  {
    if tunnels != [] {
      WithoutIdMembers(tunnels[1..], id);
      assert forall t :: t in tunnels <==> t == tunnels[0] || t in tunnels[1..];
    }
  }

  ghost predicate AllPairs(tunnels: seq<Tunnel>, related: (Tunnel, Tunnel) -> bool) {
    forall i, j :: 0 <= i < j < |tunnels| ==> related(tunnels[i], tunnels[j])
  }

  lemma {:induction false} WithoutIdPairs(tunnels: seq<Tunnel>, id: nat, related: (Tunnel, Tunnel) -> bool)
    requires AllPairs(tunnels, related)
    ensures AllPairs(WithoutId(tunnels, id), related)
  {
    if tunnels != [] {
      var tail := tunnels[1..];
      WithoutIdPairs(tail, id, related);
      WithoutIdMembers(tail, id);
      var rest := WithoutId(tail, id);
      forall j | 0 <= j < |rest| ensures related(tunnels[0], rest[j]) {
        assert rest[j] in tail;
        var k :| 0 <= k < |tail| && tail[k] == rest[j];
        assert tunnels[k + 1] == rest[j];
      }
      assert WithoutId(tunnels, id) == if tunnels[0].id == id then rest else [tunnels[0]] + rest;
    }
  }

  lemma WithoutIdKeeps(cfg: Config, tunnels: seq<Tunnel>, id: nat)
    requires Orderly(cfg, tunnels)
    ensures Orderly(cfg, WithoutId(tunnels, id))
  {
    var left := WithoutId(tunnels, id);
    WithoutIdMembers(tunnels, id);
    WithoutIdPairs(tunnels, id, ServersApart);
    forall i | 0 <= i < |left| ensures InOrder(cfg, left[i]) {
      assert left[i] in left;
    }
  }

  lemma OrderlyAfterCreate(cfg: Config, s: State)
    requires GoodStart(cfg.startIP) && Orderly(cfg, s.tunnels)
    ensures Orderly(cfg, Handle(cfg, s, CreateServer).tunnels)
  {
    var high := Highest(cfg.startIP, s.tunnels);
    var ip, port := After(high), NextPort(cfg.startPort, Ports(s.tunnels));
    if ip.Some? && port.Some? {
      HighestIsHighest(cfg.startIP, s.tunnels);
      AfterIsNew(cfg.startIP, high);
      forall i | 0 <= i < |s.tunnels| && !s.tunnels[i].client
        ensures s.tunnels[i].ip != ip.value && s.tunnels[i].port != port.value
      {
        assert s.tunnels[i] in s.tunnels;
        assert s.tunnels[i].port in Ports(s.tunnels);
      }
    }
  }

  lemma {:induction false} OrderlyOverHistory(cfg: Config, s: State, rs: seq<Request>)
    requires GoodStart(cfg.startIP) && Orderly(cfg, s.tunnels)
    ensures Orderly(cfg, HandleAll(cfg, s, rs).tunnels)
    decreases |rs|
  {
    if rs != [] {
      match rs[0] {
        case CreateServer => OrderlyAfterCreate(cfg, s);
        case CreateClient(_) =>
        case Delete(id) => WithoutIdKeeps(cfg, s.tunnels, id);
      }
      OrderlyOverHistory(cfg, Handle(cfg, s, rs[0]), rs[1..]);
    }
  }

  lemma AlignedBlocksDisjoint(x: IPv4, y: IPv4)
    requires Aligned(x) && Aligned(y) && x.a == y.a && x.b == y.b && x != y
    ensures !SameBlock(x, y)
  {
    assert Value(x) % 4 == 0 && Value(y) % 4 == 0;
    assert Value(x) != Value(y);
  }

  /** After any creates and deletes, live server tunnels have 4-aligned addresses with the starting
      first two bytes, in pairwise disjoint blocks of four, and pairwise different ports from the
      starting port on; and the next address is refused exactly when the highest address of start
      and live is x.y.253.252, or x.y.254.252 when the start is in x.y.254. */
  lemma AllocationHistories(cfg: Config, rs: seq<Request>)
    requires GoodStart(cfg.startIP)
    ensures var tunnels := HandleAll(cfg, State([], 1), rs).tunnels;
      && (forall i :: 0 <= i < |tunnels| && !tunnels[i].client ==>
            Aligned(tunnels[i].ip) && tunnels[i].ip.a == cfg.startIP.a && tunnels[i].ip.b == cfg.startIP.b
            && cfg.startPort <= tunnels[i].port)
      && (forall i, j :: 0 <= i < j < |tunnels| && !tunnels[i].client && !tunnels[j].client ==>
            !SameBlock(tunnels[i].ip, tunnels[j].ip) && tunnels[i].port != tunnels[j].port)
      && (After(Highest(cfg.startIP, tunnels)).None? <==>
            Highest(cfg.startIP, tunnels) == cfg.startIP.(c := if cfg.startIP.c == 254 then 254 else 253, d := 252))
  {
    var tunnels := HandleAll(cfg, State([], 1), rs).tunnels;
    OrderlyOverHistory(cfg, State([], 1), rs);
    HighestIsHighest(cfg.startIP, tunnels);
    forall i, j | 0 <= i < j < |tunnels| && !tunnels[i].client && !tunnels[j].client
      ensures !SameBlock(tunnels[i].ip, tunnels[j].ip)
    {
      AlignedBlocksDisjoint(tunnels[i].ip, tunnels[j].ip);
    }
  }

  /** Every live server tunnel's two ends agree on their addresses. */
  lemma EndsAgree(cfg: Config, rs: seq<Request>, i: nat)
    requires GoodStart(cfg.startIP)
    requires i < |HandleAll(cfg, State([], 1), rs).tunnels| && !HandleAll(cfg, State([], 1), rs).tunnels[i].client
    ensures var x := HandleAll(cfg, State([], 1), rs).tunnels[i].ip;
      && ClientAddress(x) == DerivedPeer(Server, x) == Incremented(x) && SameBlock(ClientAddress(x), x)
      && DerivedPeer(Client, ClientAddress(x)) == LookupAddress(Client, ClientAddress(x)) == x
  {
    OrderlyOverHistory(cfg, State([], 1), rs);
    EndpointsAgree(HandleAll(cfg, State([], 1), rs).tunnels[i].ip);
  }

  /** And no address of one live server tunnel is an address of another. */
  lemma EndsOfAllocatedTunnels(cfg: Config, rs: seq<Request>, i: nat, j: nat)
    requires GoodStart(cfg.startIP)
    requires i < j < |HandleAll(cfg, State([], 1), rs).tunnels|
    requires !HandleAll(cfg, State([], 1), rs).tunnels[i].client && !HandleAll(cfg, State([], 1), rs).tunnels[j].client
    ensures var x, y := HandleAll(cfg, State([], 1), rs).tunnels[i].ip, HandleAll(cfg, State([], 1), rs).tunnels[j].ip;
      && x != y && ClientAddress(x) != y && x != ClientAddress(y) && ClientAddress(x) != ClientAddress(y)
  {
    var tunnels := HandleAll(cfg, State([], 1), rs).tunnels;
    OrderlyOverHistory(cfg, State([], 1), rs);
    EndpointsAgree(tunnels[i].ip);
    EndpointsAgree(tunnels[j].ip);
    AlignedBlocksDisjoint(tunnels[i].ip, tunnels[j].ip);
  }

  /** Every client address requested is one of these. */
  predicate ClientsFrom(rs: seq<Request>, clients: set<IPv4>) {
    forall k :: 0 <= k < |rs| && rs[k].CreateClient? ==> rs[k].ip in clients
  }

  ghost predicate ServersDiffer(tunnels: seq<Tunnel>) {
    forall i, j :: 0 <= i < j < |tunnels| && !tunnels[i].client && !tunnels[j].client ==> tunnels[i].ip != tunnels[j].ip
  }

  lemma HighestAfterInsert(cfg: Config, s: State, ip: IPv4, port: Port)
    ensures Highest(cfg.startIP, Insert(s, ip, false, port).tunnels)
         == if Key(ip) > Key(Highest(cfg.startIP, s.tunnels)) then ip else Highest(cfg.startIP, s.tunnels)
  {
    var more := Insert(s, ip, false, port).tunnels;
    assert more[..|more| - 1] == s.tunnels;
  }

  /** An allocated address that is not higher than the highest is allocated a second time. */
  lemma RepeatsAtOnce(cfg: Config, s: State)
    requires 0 < cfg.startPort && |s.tunnels| + 1 < PORTS - cfg.startPort
    requires var high := Highest(cfg.startIP, s.tunnels); After(high).Some? && Key(After(high).value) <= Key(high)
    ensures !ServersDiffer(HandleAll(cfg, s, [CreateServer, CreateServer]).tunnels)
  {
    hide After;
    var ip := After(Highest(cfg.startIP, s.tunnels)).value;
    PortIsFound(s.tunnels, cfg.startPort);
    HighestAfterInsert(cfg, s, ip, NextPort(cfg.startPort, Ports(s.tunnels)).value);
    var s1 := Handle(cfg, s, CreateServer);
    PortIsFound(s1.tunnels, cfg.startPort);
    var s2 := Handle(cfg, s1, CreateServer);
    var n := |s.tunnels|;
    assert s2.tunnels[n].ip == s2.tunnels[n + 1].ip == ip;
    var rs := [CreateServer, CreateServer];
    assert rs[1..] == [CreateServer] && rs[1..][1..] == [];
    assert HandleAll(cfg, s, rs) == HandleAll(cfg, s1, rs[1..]) == HandleAll(cfg, s2, []);
  }

  lemma BadStaysBad(high: IPv4)
    requires !GoodStart(high)
    ensures After(high).Some?
    ensures var ip := After(high).value; Key(ip) <= Key(high) || (!GoodStart(ip) && ip.d > high.d)
  {
  }

  /** From a bad starting address, creating tunnels one after another comes to an address that is not
      higher than the highest, and that is then handed out twice. */
  lemma BadStartRepeats(cfg: Config, s: State) returns (rs: seq<Request>)
    requires !GoodStart(Highest(cfg.startIP, s.tunnels))
    requires 0 < cfg.startPort && |s.tunnels| + 258 - Highest(cfg.startIP, s.tunnels).d as nat < PORTS - cfg.startPort
    ensures !ServersDiffer(HandleAll(cfg, s, rs).tunnels) && ClientsFrom(rs, {})
    decreases 256 - Highest(cfg.startIP, s.tunnels).d as nat
  {
    hide After, ServersDiffer, GoodStart;
    var high := Highest(cfg.startIP, s.tunnels);
    BadStaysBad(high);
    var ip := After(high).value;
    if Key(ip) <= Key(high) {
      RepeatsAtOnce(cfg, s);
      return [CreateServer, CreateServer];
    }
    PortIsFound(s.tunnels, cfg.startPort);
    HighestAfterInsert(cfg, s, ip, NextPort(cfg.startPort, Ports(s.tunnels)).value);
    var s1 := Handle(cfg, s, CreateServer);
    var rest := BadStartRepeats(cfg, s1);
    rs := [CreateServer] + rest;
    assert rs[1..] == rest;
  }

  /** Given enough ports, no history ever gives two live server tunnels one address if and only if the
      starting address is 4-aligned and its third byte is not 255. */
  lemma NeverRepeatsIff(cfg: Config)
    requires 0 < cfg.startPort < PORTS - 258
    ensures (forall rs :: ServersDiffer(HandleAll(cfg, State([], 1), rs).tunnels)) <==> GoodStart(cfg.startIP)
  {
    if GoodStart(cfg.startIP) {
      forall rs ensures ServersDiffer(HandleAll(cfg, State([], 1), rs).tunnels) {
        OrderlyOverHistory(cfg, State([], 1), rs);
      }
    } else {
      var rs := BadStartRepeats(cfg, State([], 1));
    }
  }
}
