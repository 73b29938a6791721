/** The link-quality monitor's table of trackers: neighbours come in and age out, and every dump of
    installed routes is charged to the trackers of the routes' next hops. */
module RouteAccounting {
  import opened Babel
  import opened Options
  import opened Tally
  import opened LinkQuality

  /** A line of the route dump: anything else, or an installed route. */
  datatype Line = Other | Route(ipv4: bool, hostRoute: bool, metric: nat, via: string)

  const MAX_INT32 := 0x7fff_ffff

  predicate Accepted(line: Line) { line.Route? && line.ipv4 && line.metric != UNREACHABLE }

  type Lookup = map<string, Tracker>

  /** The route counts for this tracker. */
  predicate Charged(line: Line, lookup: Lookup, t: Tracker) {
    Accepted(line) && line.via in lookup && lookup[line.via] == t
  }

  // The direct definition, over the first lines of a dump.

  function RouteCount(lines: seq<Line>, lookup: Lookup, t: Tracker): nat {
    if lines == [] then 0
    else RouteCount(lines[..|lines| - 1], lookup, t) + if Charged(lines[|lines| - 1], lookup, t) then 1 else 0
  }

  function HostRouteCount(lines: seq<Line>, lookup: Lookup, t: Tracker): nat {
    if lines == [] then 0
    else
      var last := lines[|lines| - 1];
      HostRouteCount(lines[..|lines| - 1], lookup, t) + if Charged(last, lookup, t) && last.hostRoute then 1 else 0
  }

  function AcceptedCount(lines: seq<Line>): nat {
    if lines == [] then 0 else AcceptedCount(lines[..|lines| - 1]) + if Accepted(lines[|lines| - 1]) then 1 else 0
  }

  /** Accepted routes whose next hop is known. */
  function KnownCount(lines: seq<Line>, lookup: Lookup): nat {
    if lines == [] then 0
    else
      var last := lines[|lines| - 1];
      KnownCount(lines[..|lines| - 1], lookup) + if Accepted(last) && last.via in lookup then 1 else 0
  }

  function KnownHostCount(lines: seq<Line>, lookup: Lookup): nat {
    if lines == [] then 0
    else
      var last := lines[|lines| - 1];
      KnownHostCount(lines[..|lines| - 1], lookup)
      + if Accepted(last) && last.via in lookup && last.hostRoute then 1 else 0
  }

  /** The least metric of the tracker's routes; the sentinel stands for none, and bounds it. */
  function LeastMetric(lines: seq<Line>, lookup: Lookup, t: Tracker): int {
    if lines == [] then MAX_INT32
    else
      var least, last := LeastMetric(lines[..|lines| - 1], lookup, t), lines[|lines| - 1];
      if Charged(last, lookup, t) && last.metric < least then last.metric else least
  }

  lemma {:induction false} LeastMetricIsLeast(lines: seq<Line>, lookup: Lookup, t: Tracker)
    ensures var m := LeastMetric(lines, lookup, t);
      && m <= MAX_INT32
      && (forall k :: 0 <= k < |lines| && Charged(lines[k], lookup, t) ==> m <= lines[k].metric)
      && (m == MAX_INT32 || exists k :: 0 <= k < |lines| && Charged(lines[k], lookup, t) && lines[k].metric == m)
  {
    if lines != [] {
      var front, last := lines[..|lines| - 1], lines[|lines| - 1];
      LeastMetricIsLeast(front, lookup, t);
      assert forall k :: 0 <= k < |front| ==> lines[k] == front[k];
      var m := LeastMetric(front, lookup, t);
      if LeastMetric(lines, lookup, t) != MAX_INT32 {
        if Charged(last, lookup, t) && last.metric < m {
          assert lines[|lines| - 1].metric == LeastMetric(lines, lookup, t);
        } else {
          var k :| 0 <= k < |front| && Charged(front[k], lookup, t) && front[k].metric == m;
          assert lines[k].metric == m;
        }
      }
    }
  }

  // The figures in terms of the lines.

  /** The positions of the installed, reachable IPv4 routes. */
  function Routes(lines: seq<Line>): set<nat> {
    set k | 0 <= k < |lines| && lines[k].Route? && lines[k].ipv4 && lines[k].metric != 65535
  }

  /** Those whose next hop leads to the tracker. */
  function RoutesVia(lines: seq<Line>, lookup: Lookup, t: Tracker): set<nat> {
    set k | k in Routes(lines) && lines[k].via in lookup && lookup[lines[k].via] == t
  }

  /** Those of them that are for a single host. */
  function HostRoutesVia(lines: seq<Line>, lookup: Lookup, t: Tracker): set<nat> {
    set k | k in RoutesVia(lines, lookup, t) && lines[k].hostRoute
  }

  lemma {:induction false} CountsAreSizes(lines: seq<Line>, lookup: Lookup, t: Tracker)
    ensures AcceptedCount(lines) == |Routes(lines)|
    ensures RouteCount(lines, lookup, t) == |RoutesVia(lines, lookup, t)|
    ensures HostRouteCount(lines, lookup, t) == |HostRoutesVia(lines, lookup, t)|
  {
    if lines == [] {
      assert Routes(lines) == {} && RoutesVia(lines, lookup, t) == {} && HostRoutesVia(lines, lookup, t) == {};
    } else {
      var last := |lines| - 1;
      var front := lines[..last];
      CountsAreSizes(front, lookup, t);
      RoutesGrow(lines, lookup, t);
    }
  }

  lemma AcceptedAre(lines: seq<Line>)
    ensures AcceptedCount(lines) == |Routes(lines)|
  {
    if lines == [] {
      assert Routes(lines) == {};
    } else {
      var last := |lines| - 1;
      AcceptedAre(lines[..last]);
      var l := lines[last];
      assert Routes(lines)
        == Routes(lines[..last]) + if l.Route? && l.ipv4 && l.metric != 65535 then {last} else {};
    }
  }

  lemma RoutesGrow(lines: seq<Line>, lookup: Lookup, t: Tracker)
    requires lines != []
    ensures var last := |lines| - 1; var front := lines[..last]; var l := lines[last];
      var counted := l.Route? && l.ipv4 && l.metric != 65535;
      var charged := counted && l.via in lookup && lookup[l.via] == t;
      && Routes(lines) == Routes(front) + (if counted then {last} else {})
      && RoutesVia(lines, lookup, t) == RoutesVia(front, lookup, t) + (if charged then {last} else {})
      && HostRoutesVia(lines, lookup, t)
         == HostRoutesVia(front, lookup, t) + (if charged && l.hostRoute then {last} else {})
  {
  }

  /** The tracker's fields say how many such routes and host routes there are, whether there is any, and
      the least of their metrics, or zero if there is none (or none below the sentinel). */
  ghost predicate HasFiguresOf(t: Tracker, lines: seq<Line>, lookup: Lookup)
    reads t
  {
    var via := RoutesVia(lines, lookup, t);
    && t.babelRouteCount == |via| && t.nodeRouteCount == |HostRoutesVia(lines, lookup, t)|
    && (t.routable <==> via != {})
    && ((forall k :: k in via ==> lines[k].metric >= 0x7fff_ffff) ==> t.babelMetric == 0)
    && ((exists k :: k in via && lines[k].metric < 0x7fff_ffff) ==>
          && (exists k :: k in via && lines[k].metric == t.babelMetric)
          && (forall k :: k in via ==> t.babelMetric <= lines[k].metric))
  }

  lemma FiguresAre(t: Tracker, lines: seq<Line>, lookup: Lookup)
    requires FiguresOf(t) == Accounted(lines, lookup, t)
    ensures HasFiguresOf(t, lines, lookup)
  {
    var via := RoutesVia(lines, lookup, t);
    CountsAreSizes(lines, lookup, t);
    LeastMetricIsLeast(lines, lookup, t);
    assert forall k :: 0 <= k < |lines| ==> (k in via <==> Charged(lines[k], lookup, t));
    assert |via| > 0 <==> via != {};
  }

  datatype Figures = Figures(routes: nat, hostRoutes: nat, metric: int, routable: bool)

  function FiguresOf(t: Tracker): Figures
    reads t
  {
    Figures(t.babelRouteCount, t.nodeRouteCount, t.babelMetric, t.routable)
  }

  /** The figures of a tracker after these lines, by the direct definition. */
  function Counted(lines: seq<Line>, lookup: Lookup, t: Tracker): Figures {
    var routes := RouteCount(lines, lookup, t);
    Figures(routes, HostRouteCount(lines, lookup, t), LeastMetric(lines, lookup, t), routes > 0)
  }

  /** In the end the sentinel is replaced by zero. */
  function Accounted(lines: seq<Line>, lookup: Lookup, t: Tracker): Figures {
    var f := Counted(lines, lookup, t);
    f.(metric := if f.metric == MAX_INT32 then 0 else f.metric)
  }

  /** What a line does to a tracker's figures. */
  function Charge(line: Line, lookup: Lookup, t: Tracker, f: Figures): Figures {
    if Charged(line, lookup, t) then
      Figures(f.routes + 1, if line.hostRoute then f.hostRoutes + 1 else f.hostRoutes,
              if line.metric < f.metric then line.metric else f.metric, true)
    else f
  }

  /** The addresses under which a tracker is looked up; the canonical one only for want of another. */
  ghost function AddressesOf(t: Tracker): set<string>
    reads t`ip, t`canonicalIP
  {
    {t.ipv6ll, if t.ip != "" then t.ip else t.canonicalIP} - {""}
  }

  /** Every key of the lookup is an address of the tracker it leads to, and every address of the
      trackers done so far is a key. */
  ghost predicate IsLookup(trackers: map<string, Tracker>, done: set<string>, lookup: Lookup)
    reads trackers.Values`ip, trackers.Values`canonicalIP
  {
    && (forall via :: via in lookup ==> lookup[via] in trackers.Values && via in AddressesOf(lookup[via]))
    && (forall k :: k in trackers && k in done ==> AddressesOf(trackers[k]) <= lookup.Keys)
  }

  /** A lookup of all trackers leads every link-local address, every address, and every canonical address
      of a tracker that has no other, to a tracker with that address, and leads nothing else anywhere. */
  lemma LookupLeadsHome(trackers: map<string, Tracker>, lookup: Lookup)
    requires IsLookup(trackers, trackers.Keys, lookup)
    ensures forall t :: t in trackers.Values ==>
      && (t.ipv6ll != "" ==> t.ipv6ll in lookup) && (t.ip != "" ==> t.ip in lookup)
      && (t.ip == "" && t.canonicalIP != "" ==> t.canonicalIP in lookup)
    ensures forall via :: via in lookup ==> var t := lookup[via];
      t in trackers.Values && via != "" && (via == t.ipv6ll || via == t.ip || (t.ip == "" && via == t.canonicalIP))
  {
    forall t | t in trackers.Values
      ensures t.ipv6ll != "" ==> t.ipv6ll in lookup
      ensures t.ip != "" ==> t.ip in lookup
      ensures t.ip == "" && t.canonicalIP != "" ==> t.canonicalIP in lookup
    {
      var k :| k in trackers && trackers[k] == t;
      assert AddressesOf(t) <= lookup.Keys;
    }
  }

  function WithAddresses(lookup: Lookup, t: Tracker): Lookup
    reads t`ip, t`canonicalIP
  {
    var l := if t.ipv6ll != "" then lookup[t.ipv6ll := t] else lookup;
    if t.ip != "" then l[t.ip := t] else if t.canonicalIP != "" then l[t.canonicalIP := t] else l
  }

  ghost predicate Reset(t: Tracker)
    reads t
  {
    t.nodeRouteCount == 0 && t.babelRouteCount == 0 && t.babelMetric == MAX_INT32 && !t.routable
  }

  class Service {
    var trackers: map<string, Tracker>
    var totalRouteCount: nat
    var totalNodeRouteCount: nat

    constructor ()
      ensures Valid() && trackers == map[]
    {
      trackers, totalRouteCount, totalNodeRouteCount := map[], 0, 0;
    }

    /** Different keys have different trackers. */
    ghost predicate Valid()
      reads this`trackers
    {
      forall j, k :: j in trackers && k in trackers && j != k ==> trackers[j] != trackers[k]
    }

    /** Every tracker is under the key of its link-local address. */
    ghost predicate Keyed(keyOf: string -> string)
      reads this`trackers
    {
      forall k :: k in trackers ==> keyOf(trackers[k].ipv6ll) == k
    }

    /** Every figure of every tracker is within its range. */
    ghost predicate AllInRange()
      reads this`trackers
      reads trackers.Values`lq, trackers.Values`avgLQ, trackers.Values`tx, trackers.Values`txFailed
      reads trackers.Values`txRetried, trackers.Values`txQuality, trackers.Values`pingQuality, trackers.Values`quality
    {
      forall t :: t in trackers.Values ==> t.InRange()
    }

    /** The trackers, each once, in some order. */
    ghost predicate AllTrackers(ts: seq<Tracker>)
      reads this`trackers
    {
      Distinct(ts) && (set t | t in ts) == trackers.Values
    }

    /** A neighbour line: the tracker of its address's key is created if there is none, and updated,
        and no other one is touched. Lines on unsupported interfaces are skipped. `peerIP` is the
        peer's address derived from the interface, which every line gives a WireGuard tracker anew. */
    method UpdateNeighbor(keyOf: string -> string, ipv6ll: string, device: Option<DeviceType>, peerIP: string,
                          reach: Option<Reach>, now: int)
      requires Valid() && Keyed(keyOf) && AllInRange()
      modifies this`trackers
      modifies trackers.Values`lq, trackers.Values`avgLQ, trackers.Values`lastSeen, trackers.Values`ip
      ensures Valid() && Keyed(keyOf) && AllInRange()
      ensures Grown(old(trackers), trackers, if device.None? then {} else {keyOf(ipv6ll)})
      ensures forall t :: t in trackers.Values ==> t in old(trackers.Values) || (fresh(t) && t.Unread())
      ensures forall k :: k in old(trackers) && (device.None? || k != keyOf(ipv6ll)) ==> unchanged(old(trackers)[k])
      ensures device.Some? ==> var mac := keyOf(ipv6ll); var t := trackers[mac]; var known := mac in old(trackers);
        && t.lq == LQOf(reach) && t.lastSeen == now
        && t.avgLQ == (if known then 0.9 * old(trackers[mac].avgLQ) else 0.0) + 0.1 * t.lq as real
        && (!known ==> t.ipv6ll == ipv6ll && t.deviceType == device.value && fresh(t))
        && t.ip == if t.deviceType.Wireguard? then peerIP else if known then old(trackers[mac].ip) else ""
    {
      if device.None? {
        return;
      }
      hide LQOf, Valid, Keyed, Tracker.InRange, Grown;
      var tracker := TrackerFor(keyOf, ipv6ll, device.value, now);
      assert tracker in trackers.Values;
      tracker.Heard(reach, peerIP, now);
    }

    /** The tracker of a key, created if there is none. */
    method TrackerFor(keyOf: string -> string, ipv6ll: string, device: DeviceType, now: int) returns (t: Tracker)
      requires Valid() && Keyed(keyOf) && AllInRange()
      modifies this`trackers
      ensures Valid() && Keyed(keyOf) && AllInRange()
      ensures keyOf(ipv6ll) in old(trackers) ==> trackers == old(trackers)
      ensures keyOf(ipv6ll) !in old(trackers) ==>
        && trackers == old(trackers)[keyOf(ipv6ll) := t] && fresh(t)
        && t.ipv6ll == ipv6ll && t.deviceType == device && t.ip == "" && t.avgLQ == 0.0
      ensures keyOf(ipv6ll) in trackers && t == trackers[keyOf(ipv6ll)]
      ensures forall k :: k in trackers && k != keyOf(ipv6ll) ==> trackers[k] != t
      ensures Grown(old(trackers), trackers, {keyOf(ipv6ll)})
      ensures forall t :: t in trackers.Values ==> t in old(trackers.Values) || (fresh(t) && t.Unread())
    {
      var mac := keyOf(ipv6ll);
      if mac !in trackers {
        t := new Tracker(ipv6ll, device, now);
        assert forall k :: k in trackers ==> trackers[k] != t;
        trackers := trackers[mac := t];
      }
      t := trackers[mac];
    }

    /** Trackers not seen for more than a day are dropped, and only those. */
    method PruneTrackers(now: int, limit: int)
      requires Valid()
      modifies this`trackers
      ensures Valid() && (old(AllInRange()) ==> AllInRange())
      ensures forall keyOf :: old(Keyed(keyOf)) ==> Keyed(keyOf)
      ensures forall k :: k in trackers <==> k in old(trackers) && now - old(trackers)[k].lastSeen <= limit
      ensures forall k :: k in trackers ==> trackers[k] == old(trackers)[k]
    {
      trackers := map k | k in trackers && now - trackers[k].lastSeen <= limit :: trackers[k];
    }

    /** One turn of the loop over the trackers. */
    method ResetAndIndex(t: Tracker, ghost k: string, ghost done: set<string>, lookup0: Lookup) returns (lookup: Lookup)
      requires Valid() && k in trackers && trackers[k] == t && k !in done && done <= trackers.Keys
      requires IsLookup(trackers, done, lookup0)
      requires forall j :: j in done ==> Reset(trackers[j])
      modifies t`nodeRouteCount, t`babelRouteCount, t`babelMetric, t`routable
      ensures forall j :: j in done + {k} ==> Reset(trackers[j])
      ensures IsLookup(trackers, done + {k}, lookup)
    {
      LookupGrows(trackers, done, lookup0, k);
      hide IsLookup, AddressesOf;
      lookup := WithAddresses(lookup0, t);
      t.nodeRouteCount, t.babelRouteCount, t.babelMetric, t.routable := 0, 0, MAX_INT32, false;
    }

    /** Maps every address of a tracker to it; trackers are visited in any order and a later one takes
        an address over from an earlier one. */
    method BuildLookup() returns (lookup: Lookup)
      requires Valid()
      modifies trackers.Values`nodeRouteCount, trackers.Values`babelRouteCount
      modifies trackers.Values`babelMetric, trackers.Values`routable
      ensures forall k :: k in trackers ==> Reset(trackers[k])
      ensures IsLookup(trackers, trackers.Keys, lookup) && lookup.Values <= trackers.Values
    {
      lookup := map[];
      var todo := trackers.Keys;
      while todo != {}
        invariant todo <= trackers.Keys
        invariant forall k :: k in trackers && k !in todo ==> Reset(trackers[k])
        invariant IsLookup(trackers, trackers.Keys - todo, lookup)
        decreases todo
      {
        hide IsLookup, AddressesOf, Valid, Reset;
        var k :| k in todo;
        assert trackers[k] in trackers.Values;
        lookup := ResetAndIndex(trackers[k], k, trackers.Keys - todo, lookup);
        assert trackers.Keys - (todo - {k}) == trackers.Keys - todo + {k};
        todo := todo - {k};
      }
      assert trackers.Keys - todo == trackers.Keys;
      assert forall t :: t in lookup.Values ==> exists via :: via in lookup && lookup[via] == t;
    }

    /** One turn of the loop over the dump. */
    method ChargeLine(lines: seq<Line>, n: nat, lookup: Lookup)
      requires Valid() && n < |lines| && lookup.Values <= trackers.Values
      requires forall t :: t in trackers.Values ==> FiguresOf(t) == Counted(lines[..n], lookup, t)
      modifies trackers.Values`nodeRouteCount, trackers.Values`babelRouteCount
      modifies trackers.Values`babelMetric, trackers.Values`routable
      ensures forall t :: t in trackers.Values ==> FiguresOf(t) == Counted(lines[..n + 1], lookup, t)
    {
      var line := lines[n];
      hide Counted;
      forall t | t in trackers.Values
        ensures Counted(lines[..n + 1], lookup, t) == Charge(line, lookup, t, Counted(lines[..n], lookup, t))
      {
        CountedStep(lines, n, lookup, t);
      }
      if Accepted(line) && line.via in lookup {
        var t := lookup[line.via];
        assert t in trackers.Values;
        t.routable := true;
        t.babelRouteCount := t.babelRouteCount + 1;
        if line.hostRoute {
          t.nodeRouteCount := t.nodeRouteCount + 1;
        }
        if line.metric < t.babelMetric {
          t.babelMetric := line.metric;
        }
      }
    }

    /** updateRoutes. A dump that cannot be fetched changes nothing. */
    method UpdateRoutes(dump: Option<seq<Line>>) returns (lookup: Lookup)
      requires Valid()
      modifies this`totalRouteCount, this`totalNodeRouteCount
      modifies trackers.Values`nodeRouteCount, trackers.Values`babelRouteCount
      modifies trackers.Values`babelMetric, trackers.Values`routable
      ensures dump.None? ==> unchanged(this) && forall t :: t in trackers.Values ==> unchanged(t)
      ensures dump.Some? ==> IsLookup(trackers, trackers.Keys, lookup)
      ensures dump.Some? ==> forall t :: t in trackers.Values ==> FiguresOf(t) == Accounted(dump.value, lookup, t)
      ensures dump.Some? ==> forall t :: t in trackers.Values ==> HasFiguresOf(t, dump.value, lookup)
      ensures dump.Some? ==> totalRouteCount == AcceptedCount(dump.value) == |Routes(dump.value)|
      ensures dump.Some? ==> totalNodeRouteCount == KnownHostCount(dump.value, lookup)
      ensures dump.Some? ==> forall ts :: AllTrackers(ts) ==>
        && HostRoutesIn(ts) == totalNodeRouteCount
        && RoutesIn(ts) == KnownCount(dump.value, lookup) <= totalRouteCount
    {
      lookup := map[];
      if dump.None? {
        return;
      }
      hide *;
      var totalRoutes, totalNodeRoutes;
      lookup, totalRoutes, totalNodeRoutes := TakeDump(dump.value);
      totalRouteCount, totalNodeRouteCount := totalRoutes, totalNodeRoutes;
      AcceptedAre(dump.value);
      forall t | t in trackers.Values ensures HasFiguresOf(t, dump.value, lookup) {
        FiguresAre(t, dump.value, lookup);
      }
    }

    method TakeDump(lines: seq<Line>) returns (lookup: Lookup, totalRoutes: nat, totalNodeRoutes: nat)
      requires Valid()
      modifies trackers.Values`nodeRouteCount, trackers.Values`babelRouteCount
      modifies trackers.Values`babelMetric, trackers.Values`routable
      ensures IsLookup(trackers, trackers.Keys, lookup)
      ensures forall t :: t in trackers.Values ==> FiguresOf(t) == Accounted(lines, lookup, t)
      ensures totalRoutes == AcceptedCount(lines) && totalNodeRoutes == KnownHostCount(lines, lookup)
      ensures forall ts :: AllTrackers(ts) ==>
        HostRoutesIn(ts) == totalNodeRoutes && RoutesIn(ts) == KnownCount(lines, lookup) <= totalRoutes
    {
      hide Valid, Reset, Accounted, IsLookup, AcceptedCount, KnownHostCount, KnownCount;
      hide FiguresOf, AllTrackers, RoutesIn, HostRoutesIn;
      lookup := BuildLookup();
      totalRoutes, totalNodeRoutes := ChargeAll(lines, lookup);
      FieldsAddUp(lines, lookup);
    }

    /** After the loops, the trackers' own counts add up to the service's totals. */
    lemma FieldsAddUp(lines: seq<Line>, lookup: Lookup)
      requires lookup.Values <= trackers.Values
      requires forall t :: t in trackers.Values ==> FiguresOf(t) == Accounted(lines, lookup, t)
      ensures forall ts :: AllTrackers(ts) ==>
        && HostRoutesIn(ts) == KnownHostCount(lines, lookup)
        && RoutesIn(ts) == KnownCount(lines, lookup) <= AcceptedCount(lines)
    {
      forall ts | AllTrackers(ts)
        ensures HostRoutesIn(ts) == KnownHostCount(lines, lookup)
        ensures RoutesIn(ts) == KnownCount(lines, lookup) <= AcceptedCount(lines)
      {
        assert forall t :: t in ts <==> t in (set u | u in ts);
        forall via | via in lookup ensures lookup[via] in ts {
          assert lookup[via] in lookup.Values;
        }
        CountsAddUp(lines, lookup, ts);
        FieldsAreCounts(lines, lookup, ts);
      }
    }

    /** The loops over the dump and, in the end, over the trackers. */
    method ChargeAll(lines: seq<Line>, lookup: Lookup) returns (totalRoutes: nat, totalNodeRoutes: nat)
      requires Valid() && lookup.Values <= trackers.Values
      requires forall k :: k in trackers ==> Reset(trackers[k])
      modifies trackers.Values`nodeRouteCount, trackers.Values`babelRouteCount
      modifies trackers.Values`babelMetric, trackers.Values`routable
      ensures forall t :: t in trackers.Values ==> FiguresOf(t) == Accounted(lines, lookup, t)
      ensures totalRoutes == AcceptedCount(lines) && totalNodeRoutes == KnownHostCount(lines, lookup)
    {
      totalRoutes, totalNodeRoutes := 0, 0;
      assert forall t :: t in trackers.Values ==> FiguresOf(t) == Counted(lines[..0], lookup, t);
      for n := 0 to |lines|
        invariant forall t :: t in trackers.Values ==> FiguresOf(t) == Counted(lines[..n], lookup, t)
        invariant totalRoutes == AcceptedCount(lines[..n]) && totalNodeRoutes == KnownHostCount(lines[..n], lookup)
      {
        hide Counted, AcceptedCount, KnownHostCount;
        TotalsStep(lines, n, lookup);
        ChargeLine(lines, n, lookup);
        if Accepted(lines[n]) {
          if lines[n].via in lookup && lines[n].hostRoute {
            totalNodeRoutes := totalNodeRoutes + 1;
          }
          totalRoutes := totalRoutes + 1;
        }
      }
      assert lines[..|lines|] == lines;
      hide Counted, Accounted;
      ClearSentinels(lines, lookup);
    }

    method ClearSentinels(lines: seq<Line>, lookup: Lookup)
      requires Valid() && forall t :: t in trackers.Values ==> FiguresOf(t) == Counted(lines, lookup, t)
      modifies trackers.Values`babelMetric
      ensures forall t :: t in trackers.Values ==> FiguresOf(t) == Accounted(lines, lookup, t)
    {
      var todo := trackers.Values;
      while todo != {}
        invariant todo <= trackers.Values
        invariant forall t :: t in todo ==> FiguresOf(t) == Counted(lines, lookup, t)
        invariant forall t :: t in trackers.Values && t !in todo ==> FiguresOf(t) == Accounted(lines, lookup, t)
        decreases todo
      {
        var t :| t in todo;
        if t.babelMetric == MAX_INT32 {
          t.babelMetric := 0;
        }
        todo := todo - {t};
      }
    }

    // One tick after another.

    /** The loop over the neighbour lines. */
    method UpdateNeighbors(keyOf: string -> string, lines: seq<NeighborLine>, now: int)
      requires Valid() && Keyed(keyOf) && AllInRange()
      modifies this`trackers
      modifies trackers.Values`lq, trackers.Values`avgLQ, trackers.Values`lastSeen, trackers.Values`ip
      ensures Valid() && Keyed(keyOf) && AllInRange()
      ensures Grown(old(trackers), trackers, HeardKeys(keyOf, lines))
      ensures forall t :: t in trackers.Values ==> t in old(trackers.Values) || (fresh(t) && t.Unread())
    {
      for n := 0 to |lines|
        invariant Valid() && Keyed(keyOf) && AllInRange()
        invariant Grown(old(trackers), trackers, HeardKeys(keyOf, lines[..n]))
        invariant forall t :: t in trackers.Values ==> t in old(trackers.Values) || (fresh(t) && t.Unread())
      {
        HeardGrows(keyOf, lines, n);
        hide Valid, Keyed, AllInRange, LQOf, HeardKeys, Grown;
        var l := lines[n];
        ghost var before := trackers;
        UpdateNeighbor(keyOf, l.ipv6ll, l.device, l.peerIP, l.reach, now);
        GrownOn(old(trackers), before, trackers, HeardKeys(keyOf, lines[..n]),
                if l.device.None? then {} else {keyOf(l.ipv6ll)});
      }
      assert lines[..|lines|] == lines;
    }

    /** updateStats. */
    method UpdateStats(stats: map<string, Stats>)
      modifies trackers.Values`txPackets, trackers.Values`txFail
      ensures forall t :: t in trackers.Values ==>
        Stats(t.txPackets, t.txFail) ==
        if t.ipv6ll in stats then stats[t.ipv6ll] else old(Stats(t.txPackets, t.txFail))
    {
      var todo := trackers.Values;
      while todo != {}
        invariant todo <= trackers.Values
        invariant forall t :: t in todo ==> t.txPackets == old(t.txPackets) && t.txFail == old(t.txFail)
        invariant forall t :: t in trackers.Values && t !in todo ==>
          Stats(t.txPackets, t.txFail) ==
          if t.ipv6ll in stats then stats[t.ipv6ll] else old(Stats(t.txPackets, t.txFail))
        decreases todo
      {
        var t :| t in todo;
        if t.ipv6ll in stats {
          t.txPackets, t.txFail := stats[t.ipv6ll].txPackets, stats[t.ipv6ll].txFail;
        }
        todo := todo - {t};
      }
    }

    /** updateRunningAverages. */
    method UpdateRunningAverages()
      requires AllInRange()
      modifies trackers.Values`tx, trackers.Values`txFailed, trackers.Values`txRetried, trackers.Values`txQuality
      ensures AllInRange()
      ensures forall t :: t in trackers.Values ==>
        && t.tx == Feed(old(t.tx), t.txPackets)
        && t.txFailed == Feed(old(t.txFailed), t.txFail)
        && t.txRetried == Feed(old(t.txRetried), t.txRetries)
    {
      var todo := trackers.Values;
      while todo != {}
        invariant todo <= trackers.Values && AllInRange()
        invariant forall t :: t in todo ==>
          t.tx == old(t.tx) && t.txFailed == old(t.txFailed) && t.txRetried == old(t.txRetried)
        invariant forall t :: t in trackers.Values && t !in todo ==>
          && t.tx == Feed(old(t.tx), t.txPackets)
          && t.txFailed == Feed(old(t.txFailed), t.txFail)
          && t.txRetried == Feed(old(t.txRetried), t.txRetries)
        decreases todo
      {
        hide Feed, Tracker.InRange, TxQualityOf;
        var t :| t in todo;
        t.UpdateAverages();
        todo := todo - {t};
      }
    }

    /** The refreshes that have come back. */
    method TakeRefreshed(refreshed: map<string, Refreshed>)
      modifies trackers.Values`ip, trackers.Values`canonicalIP
      ensures forall t :: t in trackers.Values ==>
        Refreshed(t.ip, t.canonicalIP) == AfterRefresh(t, refreshed, old(Refreshed(t.ip, t.canonicalIP)))
    {
      var todo := trackers.Values;
      while todo != {}
        invariant todo <= trackers.Values
        invariant forall t :: t in todo ==> t.ip == old(t.ip) && t.canonicalIP == old(t.canonicalIP)
        invariant forall t :: t in trackers.Values && t !in todo ==>
          Refreshed(t.ip, t.canonicalIP) == AfterRefresh(t, refreshed, old(Refreshed(t.ip, t.canonicalIP)))
        decreases todo
      {
        var t :| t in todo;
        if t.ipv6ll in refreshed {
          t.Refresh(refreshed[t.ipv6ll].ip, refreshed[t.ipv6ll].canonicalIP);
        }
        todo := todo - {t};
      }
    }

    /** updateTrackingState: each tracker that is pinged gets its score and then its quality. */
    method UpdateTrackingState(pings: map<string, Option<real>>, now: int)
      requires AllInRange()
      modifies trackers.Values`pingQuality, trackers.Values`pingSuccessTime
      modifies trackers.Values`lastSeen, trackers.Values`quality
      ensures AllInRange()
      ensures forall t :: t in trackers.Values && t.ipv6ll in pings ==> t.QualityIsCurrent()
    {
      var todo := trackers.Values;
      while todo != {}
        invariant todo <= trackers.Values && AllInRange()
        invariant forall t :: t in trackers.Values && t !in todo && t.ipv6ll in pings ==> t.QualityIsCurrent()
        decreases todo
      {
        hide Tracker.InRange, Tracker.QualityIsCurrent;
        var t :| t in todo;
        if t.ipv6ll in pings {
          t.Track(pings[t.ipv6ll], now);
        }
        todo := todo - {t};
      }
    }

    /** Every tracker's packet counters and averages are those of the readings so far. */
    ghost predicate AllFollow(readings: map<string, Stats>)
      reads this`trackers, trackers.Values`txPackets, trackers.Values`txFail
      reads trackers.Values`tx, trackers.Values`txFailed
    {
      forall t :: t in trackers.Values ==> Follows(t, readings)
    }

    /** The steps of a tick that take in neighbours and routes. */
    method TakeReports(keyOf: string -> string, t: Tick, ghost readings: map<string, Stats>)
      requires Valid() && Keyed(keyOf) && AllInRange()
      modifies this, trackers.Values`lq, trackers.Values`avgLQ, trackers.Values`lastSeen, trackers.Values`ip
      modifies trackers.Values`nodeRouteCount, trackers.Values`babelRouteCount
      modifies trackers.Values`babelMetric, trackers.Values`routable
      ensures Valid() && Keyed(keyOf) && AllInRange()
      ensures Grown(old(trackers), trackers, HeardKeys(keyOf, t.neighbors))
      ensures forall t :: t in trackers.Values ==> t in old(trackers.Values) || fresh(t)
      ensures old(AllFollow(readings)) ==> AllFollow(readings)
    {
      hide Valid, Keyed, AllInRange, AllTrackers, IsLookup, Accounted, Grown, Follows, Tracker.Unread;
      UpdateNeighbors(keyOf, t.neighbors, t.heardAt);
      var _ := UpdateRoutes(t.dump);
      forall u | u in trackers.Values && u !in old(trackers.Values) ensures Follows(u, readings) {
        UnreadFollows(u, readings);
      }
    }

    /** The steps that read and average the packet counters. */
    method Measure(stats: map<string, Stats>, ghost readings: map<string, Stats>)
      requires AllInRange()
      modifies trackers.Values`txPackets, trackers.Values`txFail
      modifies trackers.Values`tx, trackers.Values`txFailed, trackers.Values`txRetried, trackers.Values`txQuality
      ensures AllInRange()
      ensures old(AllFollow(readings)) && StatsOk(readings, stats) ==> AllFollow(readings + stats)
    {
      UpdateStats(stats);
      UpdateRunningAverages();
      if old(AllFollow(readings)) && StatsOk(readings, stats) {
        hide AllInRange, Feed, StatsOk;
        forall t | t in trackers.Values ensures Follows(t, readings + stats) {
          assert old(Follows(t, readings));
          FollowsOn(readings, stats, t.ipv6ll, old(Stats(t.txPackets, t.txFail)), old(t.tx), old(t.txFailed));
        }
      }
    }

    /** The steps that take in refreshes and judge the links; no tracker comes or goes. */
    method JudgeLinks(t: Tick)
      requires AllInRange()
      modifies trackers.Values`ip, trackers.Values`canonicalIP, trackers.Values`pingQuality
      modifies trackers.Values`pingSuccessTime, trackers.Values`lastSeen, trackers.Values`quality
      ensures AllInRange()
      ensures forall u :: u in trackers.Values && u.ipv6ll in t.pings ==> u.QualityIsCurrent()
    {
      hide AllInRange, Tracker.QualityIsCurrent;
      TakeRefreshed(t.refreshed);
      UpdateTrackingState(t.pings, t.pingedAt);
    }

    /** One tick: the trackers afterwards are those from before and those heard of, each under its old
        key, less the stale ones. `readings` are the last packet counters read for each address. */
    method RunTick(keyOf: string -> string, t: Tick, limit: int, ghost readings: map<string, Stats>)
      requires Valid() && Keyed(keyOf) && AllInRange()
      modifies this, trackers.Values
      ensures Valid() && Keyed(keyOf) && AllInRange()
      ensures trackers.Keys <= old(trackers).Keys + HeardKeys(keyOf, t.neighbors)
      ensures forall k :: k in trackers && k in old(trackers) ==> trackers[k] == old(trackers)[k]
      ensures forall t :: t in trackers.Values ==> t in old(trackers.Values) || fresh(t)
      ensures forall k :: k in trackers ==> t.startedAt - trackers[k].lastSeen <= limit
      ensures forall u :: u in trackers.Values && u.ipv6ll in t.pings ==> u.QualityIsCurrent()
      ensures old(AllFollow(readings)) && StatsOk(readings, t.stats) ==> AllFollow(readings + t.stats)
    {
      hide Valid, Keyed, AllInRange, Follows, StatsOk, Tracker.QualityIsCurrent;
      TakeReports(keyOf, t, readings);
      Measure(t.stats, readings);
      JudgeLinks(t);
      ghost var kept := trackers;
      PruneTrackers(t.startedAt, limit);
      assert forall k :: k in trackers ==> trackers[k] in kept.Values;
    }

    /** The monitor's loop: over any sequence of ticks, every tracker stays under its own key with all
        its figures in their ranges; and if the packet counters never count more failures than packets,
        no tracker's average of failures exceeds its average of transmissions. */
    method RunTicks(keyOf: string -> string, ticks: seq<Tick>, limit: int)
      requires Valid() && Keyed(keyOf) && AllInRange()
      modifies this, trackers.Values
      ensures Valid() && Keyed(keyOf) && AllInRange()
      ensures old(AllFollow(map[])) && AllStatsOk(map[], ticks) ==>
        forall t :: t in trackers.Values ==> t.txFailed.avg <= t.tx.avg
    {
      ghost var readings: map<string, Stats> := map[];
      ghost var plausible := AllFollow(map[]) && AllStatsOk(map[], ticks);
      for n := 0 to |ticks|
        invariant Valid() && Keyed(keyOf) && AllInRange()
        invariant forall t :: t in trackers.Values ==> t in old(trackers.Values) || fresh(t)
        invariant plausible ==> AllFollow(readings) && AllStatsOk(readings, ticks[n..])
      {
        assert ticks[n..][0] == ticks[n] && ticks[n..][1..] == ticks[n + 1..];
        hide Valid, Keyed, AllInRange, HeardKeys, Tracker.QualityIsCurrent, AllFollow, StatsOk;
        RunTick(keyOf, ticks[n], limit, readings);
        readings := readings + ticks[n].stats;
      }
    }
  }

  // Ticks.

  datatype NeighborLine =
    NeighborLine(ipv6ll: string, device: Option<DeviceType>, peerIP: string, reach: Option<Reach>)

  /** Packet counters of the interface behind a tracker. */
  datatype Stats = Stats(txPackets: nat, txFail: nat)

  /** Addresses that a finished refresh of a tracker found. */
  datatype Refreshed = Refreshed(ip: string, canonicalIP: string)

  /** What one tick gets to see; the maps are by a tracker's link-local address. */
  datatype Tick = Tick(
    startedAt: int, heardAt: int, pingedAt: int,
    neighbors: seq<NeighborLine>,             // none if the dump failed
    dump: Option<seq<Line>>,
    stats: map<string, Stats>,                // the trackers that updateStats reaches
    refreshed: map<string, Refreshed>,        // the refreshes that finish during the tick
    pings: map<string, Option<real>>          // the trackers that are pinged, with the answer's time
  )

  /** The keys of the neighbours on supported interfaces. */
  function HeardKeys(keyOf: string -> string, lines: seq<NeighborLine>): set<string> {
    if lines == [] then {}
    else
      var last := lines[|lines| - 1];
      HeardKeys(keyOf, lines[..|lines| - 1]) + if last.device.None? then {} else {keyOf(last.ipv6ll)}
  }

  /** The addresses of a tracker after the refreshes that have come back. */
  function AfterRefresh(t: Tracker, refreshed: map<string, Refreshed>, before: Refreshed): Refreshed {
    if t.ipv6ll !in refreshed then before
    else
      var found := refreshed[t.ipv6ll];
      var taken := if t.deviceType.Wireguard? then before.ip == "" else found.ip != "";
      Refreshed(if taken then found.ip else before.ip, found.canonicalIP)
  }

  // Packet counters over several ticks.

  /** From one reading to the next, no more failures than packets. */
  predicate Plausible(a: Stats, b: Stats) {
    Progress(a.txFail, b.txFail) <= Progress(a.txPackets, b.txPackets)
  }

  predicate StatsOk(readings: map<string, Stats>, stats: map<string, Stats>) {
    forall v :: v in stats ==>
      Plausible(Stats(0, 0), stats[v]) && (v in readings ==> Plausible(readings[v], stats[v]))
  }

  /** Every reading of a run is plausible after the last one of its address, and after none. */
  predicate AllStatsOk(readings: map<string, Stats>, ticks: seq<Tick>)
    decreases |ticks|
  {
    ticks == [] || (StatsOk(readings, ticks[0].stats) && AllStatsOk(readings + ticks[0].stats, ticks[1..]))
  }

  /** Counters `now` of the tracker with this address, and its two averages, come from these readings. */
  predicate FollowsReadings(readings: map<string, Stats>, v: string, now: Stats, tx: Average, failed: Average) {
    && (now == Stats(0, 0) || (v in readings && readings[v] == now))
    && (tx.last == failed.last == None || (tx.last == Some(now.txPackets) && failed.last == Some(now.txFail)))
    && failed.avg <= tx.avg
  }

  ghost predicate Follows(t: Tracker, readings: map<string, Stats>)
    reads t`txPackets, t`txFail, t`tx, t`txFailed
  {
    FollowsReadings(readings, t.ipv6ll, Stats(t.txPackets, t.txFail), t.tx, t.txFailed)
  }

  lemma UnreadFollows(t: Tracker, readings: map<string, Stats>)
    requires t.Unread()
    ensures Follows(t, readings)
  {
  }

  /** A tick's reading, if there is one for the address, and the averages that follow from it. */
  lemma FollowsOn(readings: map<string, Stats>, stats: map<string, Stats>, v: string,
                  was: Stats, tx: Average, failed: Average)
    requires FollowsReadings(readings, v, was, tx, failed) && StatsOk(readings, stats)
    ensures var now := if v in stats then stats[v] else was;
      FollowsReadings(readings + stats, v, now, Feed(tx, now.txPackets), Feed(failed, now.txFail))
  {
    var now := if v in stats then stats[v] else was;
    assert Plausible(was, now);
  }

  /** Old keys keep their trackers, and the keys heard of are there, and no others. */
  ghost predicate Grown(before: map<string, Tracker>, after: map<string, Tracker>, heard: set<string>) {
    after.Keys == before.Keys + heard && forall k :: k in before ==> k in after && after[k] == before[k]
  }

  lemma GrownOn(a: map<string, Tracker>, b: map<string, Tracker>, c: map<string, Tracker>,
                x: set<string>, y: set<string>)
    requires Grown(a, b, x) && Grown(b, c, y)
    ensures Grown(a, c, x + y)
  {
  }

  lemma {:induction false} HeardAre(keyOf: string -> string, lines: seq<NeighborLine>, k: string)
    ensures k in HeardKeys(keyOf, lines)
      <==> exists i :: 0 <= i < |lines| && lines[i].device.Some? && keyOf(lines[i].ipv6ll) == k
  {
    if lines != [] {
      var front := lines[..|lines| - 1];
      HeardAre(keyOf, front, k);
      assert forall i :: 0 <= i < |front| ==> front[i] == lines[i];
    }
  }

  lemma HeardGrows(keyOf: string -> string, lines: seq<NeighborLine>, n: nat)
    requires n < |lines|
    ensures HeardKeys(keyOf, lines[..n + 1])
         == HeardKeys(keyOf, lines[..n]) + if lines[n].device.None? then {} else {keyOf(lines[n].ipv6ll)}
  {
    assert lines[..n + 1][..n] == lines[..n];
  }

  // Sums over the trackers' fields.

  ghost function RoutesIn(ts: seq<Tracker>): nat
    reads ts`babelRouteCount
  {
    if ts == [] then 0 else ts[0].babelRouteCount + RoutesIn(ts[1..])
  }

  ghost function HostRoutesIn(ts: seq<Tracker>): nat
    reads ts`nodeRouteCount
  {
    if ts == [] then 0 else ts[0].nodeRouteCount + HostRoutesIn(ts[1..])
  }

  lemma {:induction false} FieldsAreCounts(lines: seq<Line>, lookup: Lookup, ts: seq<Tracker>)
    requires forall t :: t in ts ==> FiguresOf(t) == Accounted(lines, lookup, t)
    ensures RoutesIn(ts) == Sum(ts, RoutesOf(lines, lookup))
    ensures HostRoutesIn(ts) == Sum(ts, HostRoutesOf(lines, lookup))
  {
    if ts != [] {
      FieldsAreCounts(lines, lookup, ts[1..]);
      assert FiguresOf(ts[0]) == Accounted(lines, lookup, ts[0]);
    }
  }

  lemma CountedStep(lines: seq<Line>, n: nat, lookup: Lookup, t: Tracker)
    requires n < |lines|
    ensures Counted(lines[..n + 1], lookup, t) == Charge(lines[n], lookup, t, Counted(lines[..n], lookup, t))
  {
    assert lines[..n + 1][..n] == lines[..n];
  }

  lemma TotalsStep(lines: seq<Line>, n: nat, lookup: Lookup)
    requires n < |lines|
    ensures var line := lines[n];
      && AcceptedCount(lines[..n + 1]) == AcceptedCount(lines[..n]) + (if Accepted(line) then 1 else 0)
      && KnownHostCount(lines[..n + 1], lookup)
         == KnownHostCount(lines[..n], lookup)
            + (if Accepted(line) && line.via in lookup && line.hostRoute then 1 else 0)
  {
    assert lines[..n + 1][..n] == lines[..n];
  }

  lemma LookupGrows(trackers: map<string, Tracker>, done: set<string>, lookup: Lookup, k: string)
    requires k in trackers && IsLookup(trackers, done, lookup)
    ensures IsLookup(trackers, done + {k}, WithAddresses(lookup, trackers[k]))
  {
    assert trackers[k] in trackers.Values;
  }

  // Sums over the trackers.

  function RoutesOf(lines: seq<Line>, lookup: Lookup): Tracker -> nat { (t: Tracker) => RouteCount(lines, lookup, t) }

  function HostRoutesOf(lines: seq<Line>, lookup: Lookup): Tracker -> nat {
    (t: Tracker) => HostRouteCount(lines, lookup, t)
  }

  function IsThis(owner: Tracker): Tracker -> nat { (t: Tracker) => if t == owner then 1 else 0 }

  lemma {:induction false} OneOwner(ts: seq<Tracker>, owner: Tracker)
    requires Distinct(ts)
    ensures Sum(ts, IsThis(owner)) == if owner in ts then 1 else 0
  {
    if ts != [] {
      OneOwner(ts[1..], owner);
      assert owner in ts <==> owner == ts[0] || owner in ts[1..];
      assert ts[0] !in ts[1..];
    }
  }

  /** If each tracker's new figure is its old one, plus one for the owner, the sum grows by one. */
  lemma {:induction false} SumGrowsByOwner(ts: seq<Tracker>, before: Tracker -> nat, after: Tracker -> nat,
                                           owner: Tracker)
    requires forall t :: t in ts ==> after(t) == before(t) + IsThis(owner)(t)
    ensures Sum(ts, after) == Sum(ts, before) + Sum(ts, IsThis(owner))
  {
    if ts != [] { SumGrowsByOwner(ts[1..], before, after, owner); }
  }

  lemma {:induction false} SameSum(ts: seq<Tracker>, before: Tracker -> nat, after: Tracker -> nat)
    requires forall t :: t in ts ==> after(t) == before(t)
    ensures Sum(ts, after) == Sum(ts, before)
  {
    if ts != [] { SameSum(ts[1..], before, after); }
  }

  lemma {:induction false} NoRoutesNoSum(ts: seq<Tracker>, lookup: Lookup)
    ensures Sum(ts, RoutesOf([], lookup)) == 0 && Sum(ts, HostRoutesOf([], lookup)) == 0
  {
    if ts != [] { NoRoutesNoSum(ts[1..], lookup); }
  }

  /** Over all trackers, route counts add up to the accepted routes with a known next hop, never more
      than all accepted routes, and host-route counts to the total of host routes. */
  lemma {:induction false} CountsAddUp(lines: seq<Line>, lookup: Lookup, ts: seq<Tracker>)
    requires Distinct(ts) && forall via :: via in lookup ==> lookup[via] in ts
    ensures Sum(ts, RoutesOf(lines, lookup)) == KnownCount(lines, lookup) <= AcceptedCount(lines)
    ensures Sum(ts, HostRoutesOf(lines, lookup)) == KnownHostCount(lines, lookup) <= KnownCount(lines, lookup)
  {
    if lines == [] {
      NoRoutesNoSum(ts, lookup);
    } else {
      var front, last := lines[..|lines| - 1], lines[|lines| - 1];
      CountsAddUp(front, lookup, ts);
      if Accepted(last) && last.via in lookup {
        var owner := lookup[last.via];
        OneOwner(ts, owner);
        SumGrowsByOwner(ts, RoutesOf(front, lookup), RoutesOf(lines, lookup), owner);
        if last.hostRoute {
          SumGrowsByOwner(ts, HostRoutesOf(front, lookup), HostRoutesOf(lines, lookup), owner);
        } else {
          SameSum(ts, HostRoutesOf(front, lookup), HostRoutesOf(lines, lookup));
        }
      } else {
        SameSum(ts, RoutesOf(front, lookup), RoutesOf(lines, lookup));
        SameSum(ts, HostRoutesOf(front, lookup), HostRoutesOf(lines, lookup));
      }
    }
  }

  /** Link-local addresses of different trackers differ, because each determines its tracker's key. */
  lemma LinkLocalsDiffer(s: Service, keyOf: string -> string, j: string, k: string)
    requires s.Keyed(keyOf) && j in s.trackers && k in s.trackers && j != k
    ensures s.trackers[j].ipv6ll != s.trackers[k].ipv6ll
  {
    assert s.trackers[j] in s.trackers.Values && s.trackers[k] in s.trackers.Values;
  }

  /** So a next hop that is a tracker's link-local address, and no tracker's IPv4 address, leads to
      that tracker in every lookup table, in whatever order it was built. */
  lemma NextHopIsItsTracker(s: Service, keyOf: string -> string, lookup: Lookup, k: string)
    requires s.Keyed(keyOf) && IsLookup(s.trackers, s.trackers.Keys, lookup)
    requires k in s.trackers && s.trackers[k].ipv6ll != ""
    requires forall u :: u in s.trackers.Values ==>
      u.ip != s.trackers[k].ipv6ll && u.canonicalIP != s.trackers[k].ipv6ll
    ensures s.trackers[k].ipv6ll in lookup && lookup[s.trackers[k].ipv6ll] == s.trackers[k]
  {
    var via := s.trackers[k].ipv6ll;
    var u := lookup[via];
    var j :| j in s.trackers && s.trackers[j] == u;
    if j != k { LinkLocalsDiffer(s, keyOf, j, k); }
  }
}
