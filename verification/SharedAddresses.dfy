/** Addresses over all tunnels, those of clients included, which are given and not allocated. */
module SharedAddresses {
  import opened Options
  import opened Addresses
  import opened Allocator

  predicate AddressesApart(t: Tunnel, u: Tunnel) { t.ip != u.ip }

  /** A tunnel has two addresses: the server's, which its row holds, and the client's. */
  predicate Overlap(x: IPv4, y: IPv4) {
    x == y || ClientAddress(x) == y || x == ClientAddress(y) || ClientAddress(x) == ClientAddress(y)
  }

  predicate EndsApart(t: Tunnel, u: Tunnel) { !Overlap(t.ip, u.ip) }

  predicate ClientsApart(t: Tunnel, u: Tunnel) { t.client && u.client ==> t.ip != u.ip }

  /** No client address is one of the allocator's pool. */
  ghost predicate OutsidePool(cfg: Config, clients: set<IPv4>) {
    forall ip :: ip in clients ==> !ServerOf(cfg.startIP, ip)
  }

  /** No client tunnel overlaps one from the pool, or another client's. */
  ghost predicate NoOverlaps(cfg: Config, clients: set<IPv4>) {
    && (forall x, y :: x in clients && y in clients && x != y ==> !Overlap(x, y))
    && (forall x, p :: x in clients && ServerOf(cfg.startIP, p) ==> !Overlap(x, p))
  }

  // What every history keeps.

  ghost predicate Mixed(cfg: Config, clients: set<IPv4>, tunnels: seq<Tunnel>) {
    && Orderly(cfg, tunnels) && AllPairs(tunnels, ClientsApart)
    && forall i :: 0 <= i < |tunnels| && tunnels[i].client ==> tunnels[i].ip in clients
  }

  lemma MixedAfter(cfg: Config, clients: set<IPv4>, s: State, r: Request)
    requires GoodStart(cfg.startIP) && Mixed(cfg, clients, s.tunnels) && (r.CreateClient? ==> r.ip in clients)
    ensures Mixed(cfg, clients, Handle(cfg, s, r).tunnels)
  {
    match r
    case CreateServer => OrderlyAfterCreate(cfg, s);
    case CreateClient(_) =>
    case Delete(id) =>
      WithoutIdKeeps(cfg, s.tunnels, id);
      WithoutIdPairs(s.tunnels, id, ClientsApart);
      WithoutIdMembers(s.tunnels, id);
      var left := WithoutId(s.tunnels, id);
      forall i | 0 <= i < |left| && left[i].client ensures left[i].ip in clients {
        assert left[i] in left;
      }
  }

  lemma {:induction false} MixedOverHistory(cfg: Config, clients: set<IPv4>, s: State, rs: seq<Request>)
    requires GoodStart(cfg.startIP) && Mixed(cfg, clients, s.tunnels) && ClientsFrom(rs, clients)
    ensures Mixed(cfg, clients, HandleAll(cfg, s, rs).tunnels)
    decreases |rs|
  {
    if rs != [] {
      MixedAfter(cfg, clients, s, rs[0]);
      MixedOverHistory(cfg, clients, Handle(cfg, s, rs[0]), rs[1..]);
    }
  }

  lemma MixedAreApart(cfg: Config, clients: set<IPv4>, tunnels: seq<Tunnel>)
    requires Mixed(cfg, clients, tunnels)
    ensures OutsidePool(cfg, clients) ==> AllPairs(tunnels, AddressesApart)
    ensures NoOverlaps(cfg, clients) ==> AllPairs(tunnels, EndsApart)
  {
    if NoOverlaps(cfg, clients) {
      forall i, j | 0 <= i < j < |tunnels| ensures EndsApart(tunnels[i], tunnels[j]) {
        var t, u := tunnels[i], tunnels[j];
        assert ServersApart(t, u) && ClientsApart(t, u);
        assert !t.client ==> ServerOf(cfg.startIP, t.ip);
        assert !u.client ==> ServerOf(cfg.startIP, u.ip);
        if !t.client && !u.client {
          PoolDoesNotOverlap(cfg.startIP, t.ip, u.ip);
        } else if !t.client {
          assert !Overlap(u.ip, t.ip);
        }
      }
    }
  }

  lemma PoolDoesNotOverlap(start: IPv4, x: IPv4, y: IPv4)
    requires ServerOf(start, x) && ServerOf(start, y) && x != y
    ensures !Overlap(x, y)
  {
    AlignedBlocksDisjoint(x, y);
    EndpointsAgree(x);
    EndpointsAgree(y);
  }

  // Every address of the pool can be reached beside a client's tunnel.

  /** The pool is what the allocator goes through: it never steps over one of its addresses. */
  lemma NotSteppedOver(start: IPv4, high: IPv4, ip: IPv4)
    requires GoodStart(start) && (high == start || ServerOf(start, high)) && ServerOf(start, ip) && Key(high) < Key(ip)
    ensures After(high).Some? && ServerOf(start, After(high).value)
    ensures var next := After(high).value; Key(high) < Key(next) && (next == ip || Key(next) < Key(ip))
  {
    assert ip.d as nat % 4 == 0 && high.d as nat % 4 == 0;
    if high.d == 252 {
      assert high.c < ip.c;
    }
  }

  /** A client's tunnel and at most one server's tunnel, below the address to reach. */
  ghost predicate Climbing(cfg: Config, s: State, ip: IPv4) {
    && 1 <= |s.tunnels| <= 2 && s.tunnels[0].client && s.tunnels[0].id < s.nextId
    && (|s.tunnels| == 2 ==> !s.tunnels[1].client && s.tunnels[0].id < s.tunnels[1].id < s.nextId)
    && (Highest(cfg.startIP, s.tunnels) == cfg.startIP || ServerOf(cfg.startIP, Highest(cfg.startIP, s.tunnels)))
    && Key(Highest(cfg.startIP, s.tunnels)) < Key(ip)
  }

  /** Create the next server tunnel and delete the one before it. */
  function Climb(s: State): seq<Request> {
    if |s.tunnels| == 2 then [CreateServer, Delete(s.tunnels[1].id)] else [CreateServer]
  }

  /** The client's tunnel is still there, and the newest one is a server's at the address. */
  predicate Reached(s: State, c: Tunnel, ip: IPv4) {
    |s.tunnels| > 1 && s.tunnels[0] == c && s.tunnels[|s.tunnels| - 1].ip == ip
  }

  lemma ClimbOn(cfg: Config, s: State, ip: IPv4)
    requires GoodStart(cfg.startIP) && ServerOf(cfg.startIP, ip) && Climbing(cfg, s, ip)
    requires 0 < cfg.startPort < PORTS - 3
    ensures var s1 := Handle(cfg, s, CreateServer); var s' := HandleAll(cfg, s, Climb(s));
      || Reached(s1, s.tunnels[0], ip)
      || (s'.tunnels != [] && s'.tunnels[0] == s.tunnels[0] && Climbing(cfg, s', ip)
          && Key(Highest(cfg.startIP, s'.tunnels)) > Key(Highest(cfg.startIP, s.tunnels)))
  {
    var start, high := cfg.startIP, Highest(cfg.startIP, s.tunnels);
    NotSteppedOver(start, high, ip);
    PortIsFound(s.tunnels, cfg.startPort);
    hide ServerOf, GoodStart, After;
    var next := After(high).value;
    var s1 := Handle(cfg, s, CreateServer);
    var c, v := s.tunnels[0], s1.tunnels[|s1.tunnels| - 1];
    assert v.ip == next && !v.client;
    if next != ip {
      var s' := HandleAll(cfg, s, Climb(s));
      assert s' == State([c, v], s1.nextId) by { TopLeft(cfg, s, s1); }
      assert [c, v][..1] == [c] && [c][..0] == [];
      assert Highest(start, [c]) == start;
      assert Key(start) <= Key(high) < Key(next);
      assert Highest(start, [c, v]) == next;
    }
  }

  lemma TopLeft(cfg: Config, s: State, s1: State)
    requires 1 <= |s.tunnels| <= 2 && s1 == Handle(cfg, s, CreateServer) && |s1.tunnels| == |s.tunnels| + 1
    requires forall i, j :: 0 <= i < j < |s1.tunnels| ==> s1.tunnels[i].id != s1.tunnels[j].id
    ensures HandleAll(cfg, s, Climb(s)) == State([s.tunnels[0], s1.tunnels[|s.tunnels|]], s1.nextId)
  {
    var rs := Climb(s);
    var c, v := s.tunnels[0], s1.tunnels[|s.tunnels|];
    if |s.tunnels| == 2 {
      var u := s.tunnels[1];
      assert s1.tunnels == [c, u, v];
      assert [c, u, v][1..] == [u, v] && [u, v][1..] == [v] && [v][1..] == [];
      assert s1.tunnels[0].id != s1.tunnels[1].id && s1.tunnels[1].id != s1.tunnels[2].id;
      assert WithoutId([v], u.id) == [v];
      assert WithoutId([u, v], u.id) == [v];
      assert WithoutId(s1.tunnels, u.id) == [c, v];
      assert rs[1..] == [Delete(u.id)] && rs[1..][1..] == [];
      assert HandleAll(cfg, s, rs) == HandleAll(cfg, s1, rs[1..]) == HandleAll(cfg, Handle(cfg, s1, Delete(u.id)), []);
    } else {
      assert s1.tunnels == [c, v];
      assert rs[1..] == [];
    }
  }

  lemma {:induction false} HandleAllAppend(cfg: Config, s: State, rs: seq<Request>, more: seq<Request>)
    ensures HandleAll(cfg, s, rs + more) == HandleAll(cfg, HandleAll(cfg, s, rs), more)
    decreases |rs|
  {
    if rs == [] {
      assert rs + more == more;
    } else {
      assert (rs + more)[1..] == rs[1..] + more;
      HandleAllAppend(cfg, Handle(cfg, s, rs[0]), rs[1..], more);
    }
  }

  lemma {:induction false} ClimbsTo(cfg: Config, s: State, ip: IPv4) returns (rs: seq<Request>)
    requires GoodStart(cfg.startIP) && ServerOf(cfg.startIP, ip) && Climbing(cfg, s, ip)
    requires 0 < cfg.startPort < PORTS - 3
    ensures Reached(HandleAll(cfg, s, rs), s.tunnels[0], ip) && ClientsFrom(rs, {})
    decreases Key(ip) - Key(Highest(cfg.startIP, s.tunnels))
  {
    ClimbOn(cfg, s, ip);
    var s1 := Handle(cfg, s, CreateServer);
    if Reached(s1, s.tunnels[0], ip) {
      rs := [CreateServer];
      assert rs[1..] == [];
    } else {
      var rest := ClimbsTo(cfg, HandleAll(cfg, s, Climb(s)), ip);
      HandleAllAppend(cfg, s, Climb(s), rest);
      rs := Climb(s) + rest;
    }
  }

  /** With a client's tunnel in place, creating and deleting servers comes to any address of the pool. */
  lemma ReachesPool(cfg: Config, c: IPv4, ip: IPv4) returns (rs: seq<Request>)
    requires GoodStart(cfg.startIP) && ServerOf(cfg.startIP, ip) && 0 < cfg.startPort < PORTS - 3
    ensures ClientsFrom(rs, {c})
    ensures var tunnels := HandleAll(cfg, State([], 1), rs).tunnels;
      |tunnels| > 1 && tunnels[0].ip == c && tunnels[|tunnels| - 1].ip == ip
  {
    var s := Handle(cfg, State([], 1), CreateClient(c));
    assert s.tunnels == [Tunnel(1, c, true, 0)] && s.tunnels[..0] == [];
    var rest := ClimbsTo(cfg, s, ip);
    rs := [CreateClient(c)] + rest;
    assert rs[1..] == rest;
  }

  lemma TwoClients(cfg: Config, x: IPv4, y: IPv4) returns (rs: seq<Request>)
    requires x != y
    ensures HandleAll(cfg, State([], 1), rs).tunnels == [Tunnel(1, x, true, 0), Tunnel(2, y, true, 0)]
    ensures ClientsFrom(rs, {x, y})
  {
    rs := [CreateClient(x), CreateClient(y)];
    var s1 := Handle(cfg, State([], 1), CreateClient(x));
    assert rs[1..] == [CreateClient(y)] && rs[1..][1..] == [];
    assert s1 == State([Tunnel(1, x, true, 0)], 2) && !HasIP(s1.tunnels, y);
    assert HandleAll(cfg, State([], 1), rs) == HandleAll(cfg, s1, rs[1..]) == Handle(cfg, s1, CreateClient(y));
  }

  // When tunnels share addresses.

  /** No history with these client addresses ever has two live tunnels that are not `apart`. */
  ghost predicate Always(cfg: Config, clients: set<IPv4>, apart: (Tunnel, Tunnel) -> bool) {
    forall rs :: ClientsFrom(rs, clients) ==> AllPairs(HandleAll(cfg, State([], 1), rs).tunnels, apart)
  }

  lemma BadStartIsNotApart(cfg: Config, clients: set<IPv4>)
    requires !GoodStart(cfg.startIP) && 0 < cfg.startPort < PORTS - 258
    ensures !Always(cfg, clients, AddressesApart) && !Always(cfg, clients, EndsApart)
  {
    var rs := BadStartRepeats(cfg, State([], 1));
    var tunnels := HandleAll(cfg, State([], 1), rs).tunnels;
    var i, j :| 0 <= i < j < |tunnels| && !tunnels[i].client && !tunnels[j].client && tunnels[i].ip == tunnels[j].ip;
    assert !AddressesApart(tunnels[i], tunnels[j]) && !EndsApart(tunnels[i], tunnels[j]);
  }

  /** Given enough ports, the rows of live tunnels, of servers or clients, never share an address if and
      only if the starting address is good and no client is ever given an address of the pool: the
      4-aligned ones above the start, with its first two bytes and a third byte of at most 253 (or the
      start's own). */
  lemma NeverSharesIff(cfg: Config, clients: set<IPv4>)
    requires 0 < cfg.startPort < PORTS - 258
    ensures Always(cfg, clients, AddressesApart) <==> GoodStart(cfg.startIP) && OutsidePool(cfg, clients)
  {
    if !GoodStart(cfg.startIP) {
      BadStartIsNotApart(cfg, clients);
    } else if OutsidePool(cfg, clients) {
      forall rs | ClientsFrom(rs, clients) ensures AllPairs(HandleAll(cfg, State([], 1), rs).tunnels, AddressesApart) {
        MixedOverHistory(cfg, clients, State([], 1), rs);
        MixedAreApart(cfg, clients, HandleAll(cfg, State([], 1), rs).tunnels);
      }
    } else {
      var ip :| ip in clients && ServerOf(cfg.startIP, ip);
      var rs := ReachesPool(cfg, ip, ip);
      var tunnels := HandleAll(cfg, State([], 1), rs).tunnels;
      assert !AddressesApart(tunnels[0], tunnels[|tunnels| - 1]);
    }
  }

  /** And no address at either end of a live tunnel is ever one at either end of another if and only if,
      beside a good start, no client's tunnel overlaps one of the pool or another client's. */
  lemma NeverMeetIff(cfg: Config, clients: set<IPv4>)
    requires 0 < cfg.startPort < PORTS - 258
    ensures Always(cfg, clients, EndsApart) <==> GoodStart(cfg.startIP) && NoOverlaps(cfg, clients)
  {
    if !GoodStart(cfg.startIP) {
      BadStartIsNotApart(cfg, clients);
    } else if NoOverlaps(cfg, clients) {
      forall rs | ClientsFrom(rs, clients) ensures AllPairs(HandleAll(cfg, State([], 1), rs).tunnels, EndsApart) {
        MixedOverHistory(cfg, clients, State([], 1), rs);
        MixedAreApart(cfg, clients, HandleAll(cfg, State([], 1), rs).tunnels);
      }
    } else if x, y :| x in clients && y in clients && x != y && Overlap(x, y) {
      var rs := TwoClients(cfg, x, y);
      var tunnels := HandleAll(cfg, State([], 1), rs).tunnels;
      assert !EndsApart(tunnels[0], tunnels[1]);
    } else {
      var x, p :| x in clients && ServerOf(cfg.startIP, p) && Overlap(x, p);
      var rs := ReachesPool(cfg, x, p);
      var tunnels := HandleAll(cfg, State([], 1), rs).tunnels;
      assert !EndsApart(tunnels[0], tunnels[|tunnels| - 1]);
    }
  }

  /** A client's address outside the pool can still overlap it: the one just below a server's. */
  lemma OutsidePoolCanOverlap()
    ensures var cfg, x := Config(IPv4(172, 31, 180, 12), 5527), IPv4(172, 31, 180, 15);
      GoodStart(cfg.startIP) && OutsidePool(cfg, {x}) && !NoOverlaps(cfg, {x})
  {
    var cfg, x := Config(IPv4(172, 31, 180, 12), 5527), IPv4(172, 31, 180, 15);
    assert ServerOf(cfg.startIP, IPv4(172, 31, 180, 16)) && Overlap(x, IPv4(172, 31, 180, 16));
  }
}
