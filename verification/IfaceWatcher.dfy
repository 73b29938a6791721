/** The interface watcher on its own data: a slice (backing array and length) that the scan walks
    while deleting from it, the traffic-counter registry, and the tunnels behind the interfaces. */
module IfaceWatcher {
  import opened Arithmetic
  import opened Options
  import opened Tally
  import opened Scan
  import opened ScanLoop
  import opened StatRegistry
  import opened Tracking

  class Tunnel {
    var active: bool
    var tunnelInterface: string
    var rxBytes: nat
    var txBytes: nat
    var rxBytesPerSec: nat
    var txBytesPerSec: nat
    var totalRXMB: real
    var totalTXMB: real

    constructor (row: TunnelRow)
    {
      active, tunnelInterface := row.active, row.tunnelInterface;
      rxBytes, txBytes, rxBytesPerSec, txBytesPerSec := row.rxBytes, row.txBytes, 0, 0;
      totalRXMB, totalTXMB := row.totalRXMB, row.totalTXMB;
    }

    method Deactivate()
      modifies this
      ensures ShutDown(this)
    {
      active, tunnelInterface := false, "";
      rxBytesPerSec, txBytesPerSec := 0, 0;
      totalRXMB, totalTXMB := totalRXMB + MB(rxBytes), totalTXMB + MB(txBytes);
      rxBytes, txBytes := 0, 0;
    }

    method Activate(name: string)
      modifies this
      ensures BroughtUp(this, name)
    {
      if !active {
        active, tunnelInterface := true, name;
      }
    }
  }

  /** The tunnel is marked inactive: its byte counts are moved into its totals, so that each total
      plus the megabytes still to be moved is what it was. */
  twostate predicate ShutDown(t: Tunnel?)
    reads t
  {
    && t != null && !t.active && t.tunnelInterface == ""
    && t.rxBytesPerSec == t.txBytesPerSec == t.rxBytes == t.txBytes == 0
    && t.totalRXMB + MB(t.rxBytes) == old(t.totalRXMB + MB(t.rxBytes))
    && t.totalTXMB + MB(t.txBytes) == old(t.totalTXMB + MB(t.txBytes))
  }

  /** The tunnel is active, under this interface name if it was not active before; its traffic is
      untouched. */
  twostate predicate BroughtUp(t: Tunnel?, name: string)
    reads t
  {
    && t != null && t.active && t.tunnelInterface == (if old(t.active) then old(t.tunnelInterface) else name)
    && t.rxBytes == old(t.rxBytes) && t.txBytes == old(t.txBytes)
    && t.rxBytesPerSec == old(t.rxBytesPerSec) && t.txBytesPerSec == old(t.txBytesPerSec)
    && t.totalRXMB == old(t.totalRXMB) && t.totalTXMB == old(t.totalTXMB)
  }

  ghost function Tunnels(s: seq<Iface>): set<Tunnel?> { set x | x in s :: x.tunnel }

  datatype Iface = Iface(net: NetInterface, tunnel: Tunnel?)

  function Nets(s: seq<Iface>): (r: seq<NetInterface>)
    ensures |r| == |s| && forall i :: 0 <= i < |s| ==> r[i] == s[i].net
  {
    seq(|s|, i requires 0 <= i < |s| => s[i].net)
  }

  function DeadIface(obs: Observation, present: seq<NetInterface>): Iface -> bool {
    (x: Iface) => Dead(obs, present, x.net)
  }

  lemma NetsPush(x: Iface, s: seq<Iface>)
    ensures Nets([x] + s) == [x.net] + Nets(s)
  {
  }

  lemma {:induction false} NetsOfScan(s: seq<Iface>, obs: Observation, present: seq<NetInterface>)
    ensures Nets(Kept(s, DeadIface(obs, present))) == Kept(Nets(s), IsDead(obs, present))
    ensures Nets(Removed(s, DeadIface(obs, present))) == Removed(Nets(s), IsDead(obs, present))
    decreases |s|
  {
    var dead := DeadIface(obs, present);
    if s == [] {
    } else if !dead(s[0]) || |s| <= 2 {
      assert Nets(s)[1..] == Nets(s[1..]);
      NetsOfScan(s[1..], obs, present);
      NetsPush(s[0], Kept(s[1..], dead));
      NetsPush(s[0], Removed(s[1..], dead));
    } else {
      assert Nets(s)[2..] == Nets(s[2..]);
      NetsOfScan(s[2..], obs, present);
      NetsPush(s[1], Kept(s[2..], dead));
      NetsPush(s[0], Removed(s[2..], dead));
    }
  }

  /** Deletes the first entry for the same interface by shifting the tail down one slot. The slot
      that falls off the end keeps what it held. */
  method RemoveInPlace(a: array<Iface>, len: nat, e: Iface) returns (newLen: nat)
    requires len <= a.Length
    modifies a
    ensures (forall k :: 0 <= k < len ==> old(a[k]).net != e.net) ==> newLen == len && a[..] == old(a[..])
    ensures forall j ::
      0 <= j < len && old(a[j]).net == e.net && (forall k :: 0 <= k < j ==> old(a[k]).net != e.net) ==>
      && newLen == len - 1
      && a[..newLen] == old(a[..j]) + old(a[j + 1..len])
      && forall k :: newLen <= k < a.Length ==> a[k] == old(a[k])
  {
    for i := 0 to len
      invariant a[..] == old(a[..])
      invariant forall k :: 0 <= k < i ==> a[k].net != e.net
    {
      if a[i].net == e.net {
        forall k | i <= k < len - 1 { a[k] := a[k + 1]; }
        assert a[..len - 1] == old(a[..i]) + old(a[i + 1..len]);
        return len - 1;
      }
    }
    return len;
  }

  class Watcher {
    var slots: array<Iface>
    var len: nat
    var toMarkInactive: seq<Iface>
    const stats: StatCounterManager

    ghost function Tracked(): seq<Iface>
      requires len <= slots.Length
      reads this, slots
    {
      slots[..len]
    }

    ghost predicate Valid()
      reads this, slots, stats
    {
      && len <= slots.Length
      && Agrees(Abstract())
      && TunnelsDiffer(Tracked() + toMarkInactive)
    }

    ghost function Abstract(): State
      requires len <= slots.Length
      reads this, slots, stats
    {
      State(Nets(Tracked()), stats.counters)
    }

    constructor ()
      ensures Valid() && fresh(slots) && fresh(stats)
      ensures Abstract() == State([], map[]) && toMarkInactive == []
    {
      slots := new Iface[0];
      len := 0;
      toMarkInactive := [];
      stats := new StatCounterManager();
    }

    /** The body of both branches of the scan: nothing happens when the counter is already gone;
        otherwise the first entry for the interface is cut out from between `before` and `after`. */
    method Drop(iface: Iface, ghost before: seq<Iface>, ghost after: seq<Iface>) returns (removed: bool)
      requires len <= slots.Length
      requires iface.net.name in stats.counters ==> slots[..len] == before + [iface] + after
      requires iface.net.name in stats.counters ==> forall x :: x in before ==> x.net != iface.net
      modifies this`len, this`toMarkInactive, slots, stats
      ensures len <= slots.Length && (removed <==> iface.net.name in old(stats.counters))
      ensures stats.counters == old(stats.counters) - {iface.net.name}
      ensures !removed ==> len == old(len) && slots[..] == old(slots[..])
      ensures !removed ==> toMarkInactive == old(toMarkInactive)
      ensures removed ==> len == old(len) - 1 && slots[..len] == before + after
      ensures removed ==> toMarkInactive == old(toMarkInactive) + [iface]
      ensures forall k :: len <= k < slots.Length ==> slots[k] == old(slots[k])
    {
      removed := stats.Remove(iface.net.name);
      if removed {
        assert slots[..len][|before|] == iface;
        forall k | 0 <= k < |before| ensures slots[k].net != iface.net {
          assert slots[k] == slots[..len][k] == before[k];
        }
        assert slots[..|before|] == slots[..len][..|before|] == before;
        assert slots[|before| + 1..len] == slots[..len][|before| + 1..] == after;
        len := RemoveInPlace(slots, len, iface);
        toMarkInactive := toMarkInactive + [iface];
      }
    }

    /** Where a scan over `s`, begun with `counters`, stands before visit `i`. */
    ghost predicate Scanning(s: seq<Iface>, dead: Iface -> bool, counters: Registry, i: nat, p: Progress<Iface>)
      reads this, slots, stats
    {
      && len <= |s| <= slots.Length
      && NamesDiffer(Nets(s)) && NameSet(Nets(s)) <= counters.Keys
      && At(s, dead, slots[..|s|], len, i, p)
      && toMarkInactive == p.marked
      && stats.counters == counters - NameSet(Nets(p.marked))
    }

    /** One turn of the scan's loop. */
    method VisitSlot(i: nat, obs: Observation, present: seq<NetInterface>,
                     ghost s: seq<Iface>, ghost counters: Registry, ghost p: Progress<Iface>)
      requires i < |s| && Scanning(s, DeadIface(obs, present), counters, i, p)
      modifies this`len, this`toMarkInactive, slots, stats
      ensures Scanning(s, DeadIface(obs, present), counters, i + 1,
                Visit(p, Dead(obs, present, old(slots[i]).net)))
    {
      hide At, NameSet, Nets, NamesDiffer, Distinct, Dead;
      ghost var n, dead := |s|, DeadIface(obs, present);
      ghost var before := slots[..n];
      var iface := slots[i];
      assert iface == before[i] && slots[..len] == before[..len];
      Visited(s, dead, before, len, i, p);
      if Dead(obs, present, iface.net) {
        DifferentNames(s);
        FirstVisit(s, dead, before, len, i, p, counters);
        var removed := Drop(iface, p.done, if p.rest == [] then [] else p.rest[1..]);
        if !removed {
          // Met only on a repeat visit to an interface this scan has already removed.
          assert p.rest == [] && iface in toMarkInactive;
          assert slots[..n] == before;
          AtRepeat(s, dead, before, len, i, p);
          return;
        }
        assert slots[..n][..len] == slots[..len];
        forall k | len <= k < n ensures slots[..n][k] == before[k] {
          assert slots[k] == before[k];
        }
        AtDead(s, dead, before, len + 1, i, p, slots[..n]);
        NamesGrow(p.marked, iface, counters);
      } else if p.rest != [] {
        DifferentNames(s);
        AtLive(s, dead, before, len, i, p);
      } else {
        AtRepeat(s, dead, before, len, i, p);
      }
    }

    /** The first loop of `watch`: walks the slots that were in use when it began, removing from
        them as it goes. */
    method ScanTracked(obs: Observation, present: seq<NetInterface>)
      requires Valid() && toMarkInactive == []
      modifies this`len, this`toMarkInactive, slots, stats
      ensures len <= slots.Length
      ensures Tracked() == Kept(old(Tracked()), DeadIface(obs, present))
      ensures toMarkInactive == Removed(old(Tracked()), DeadIface(obs, present))
      ensures stats.counters == old(stats.counters) - NameSet(Nets(toMarkInactive))
    {
      hide At, Kept, Removed;
      ghost var s, dead := Tracked(), DeadIface(obs, present);
      ghost var p := Progress([], s, []);
      AtStart(s, dead);
      var n := len;
      for i := 0 to n
        invariant n == |s| && Scanning(s, dead, old(stats.counters), i, p)
      {
        ghost var isDead := Dead(obs, present, slots[i].net);
        VisitSlot(i, obs, present, s, old(stats.counters), p);
        p := Visit(p, isDead);
      }
      AtEnd(s, dead, slots[..n], len, p);
      assert slots[..n][..len] == slots[..len];
    }

    method ContainsNet(n: NetInterface) returns (found: bool)
      requires len <= slots.Length
      ensures found <==> n in Nets(Tracked())
    {
      ghost var nets := Nets(Tracked());
      for i := 0 to len
        invariant forall k :: 0 <= k < i ==> nets[k] != n
      {
        assert nets[i] == slots[i].net;
        if slots[i].net == n {
          return true;
        }
      }
      return false;
    }

    method FindTunnel(obs: Observation, n: NetInterface) returns (t: Tunnel?)
      ensures t == null <==> obs.row(n).None?
      ensures t != null ==> fresh(t)
    {
      if obs.row(n).None? {
        return null;
      }
      t := new Tunnel(obs.row(n).value);
    }

    /** Go's append: into the next slot when there is one, else into a larger copy. */
    method Append(x: Iface)
      requires len <= slots.Length
      modifies this`slots, this`len, slots
      ensures len <= slots.Length && (slots == old(slots) || fresh(slots))
      ensures Tracked() == old(Tracked()) + [x]
    {
      if len == slots.Length {
        var bigger := new Iface[2 * len + 1];
        forall k | 0 <= k < len { bigger[k] := slots[k]; }
        assert bigger[..len] == slots[..len];
        slots := bigger;
      }
      slots[len] := x;
      len := len + 1;
    }

    method Track(n: NetInterface, t: Tunnel)
      requires len <= slots.Length && TunnelsDiffer(Tracked() + toMarkInactive)
      requires t !in Tunnels(Tracked() + toMarkInactive)
      modifies this`slots, this`len, slots
      ensures len == old(len) + 1 <= slots.Length && (slots == old(slots) || fresh(slots))
      ensures old(Tracked()) <= Tracked() && slots[len - 1].tunnel == t
      ensures Nets(Tracked()) == Nets(old(Tracked())) + [n]
      ensures TunnelsDiffer(Tracked() + toMarkInactive)
    {
      TunnelsDifferInsert(Tracked(), toMarkInactive, Iface(n, t));
      Append(Iface(n, t));
      assert Tracked()[len - 1] == Iface(n, t);
    }

    /** One turn of the second loop: an interface that is wanted, not tracked yet, and has a tunnel
        row and a counter that starts, becomes tracked. */
    method AddOne(obs: Observation, n: NetInterface)
      requires Valid()
      modifies this`slots, this`len, slots, stats
      ensures Valid() && (slots == old(slots) || fresh(slots))
      ensures Abstract() == AddStep(old(Abstract()), obs, n)
      ensures n in Nets(Tracked()) <==>
        || n in old(Nets(Tracked()))
        || (obs.row(n).Some? && n.name !in old(stats.counters) && obs.starts(n.name)
            && (("wg" <= n.name && n.name != "wg0" && obs.handshake(n.name)) || "tun" <= n.name))
      ensures old(Tracked()) <= Tracked() && len <= old(len) + 1
      ensures len > old(len) ==> fresh(slots[old(len)].tunnel)
    {
      AgreesAfterAdd(Abstract(), obs, n);
      TracksOne(Abstract(), obs, n);
      hide Agrees, TunnelsDiffer, NameSet, Dead, Nets;
      if Wanted(obs, n) {
        var tracked := ContainsNet(n);
        if !tracked {
          var t := FindTunnel(obs, n);
          if t == null {
            return;
          }
          var ok := stats.Add(n.name, obs.starts(n.name));
          if !ok {
            return;
          }
          assert t !in Tunnels(Tracked() + toMarkInactive);
          Track(n, t);
        }
      }
    }

    /** The second loop of `watch`. */
    method AddPresent(obs: Observation, present: seq<NetInterface>)
      requires Valid()
      modifies this`slots, this`len, slots, stats
      ensures Valid() && (slots == old(slots) || fresh(slots))
      ensures Abstract() == AddAll(old(Abstract()), obs, present)
      ensures old(Tracked()) <= Tracked()
      ensures forall k :: old(len) <= k < len ==> fresh(slots[k].tunnel)
    {
      hide Agrees, TunnelsDiffer, AddStep;
      for k := 0 to |present|
        invariant Valid() && (slots == old(slots) || fresh(slots))
        invariant AddAll(Abstract(), obs, present[k..]) == AddAll(old(Abstract()), obs, present)
        invariant old(Tracked()) <= Tracked()
        invariant forall j :: old(len) <= j < len ==> fresh(slots[j].tunnel)
      {
        assert present[k..][0] == present[k] && present[k..][1..] == present[k + 1..];
        ghost var was, before := Tracked(), len;
        AddOne(obs, present[k]);
        forall j | old(len) <= j < len ensures fresh(slots[j].tunnel) {
          if j < before { assert Tracked()[j] == was[j]; }
        }
      }
    }

    method ReconcileInactive()
      requires TunnelsDiffer(toMarkInactive)
      modifies Tunnels(toMarkInactive)
      ensures forall k :: 0 <= k < |toMarkInactive| ==> ShutDown(toMarkInactive[k].tunnel)
    {
      for i := 0 to |toMarkInactive|
        invariant forall k :: 0 <= k < i ==> ShutDown(toMarkInactive[k].tunnel)
        invariant forall k :: i <= k < |toMarkInactive| ==> unchanged(toMarkInactive[k].tunnel)
      {
        if toMarkInactive[i].tunnel != null {
          toMarkInactive[i].tunnel.Deactivate();
        }
      }
    }

    method ReconcileActive()
      requires len <= slots.Length && TunnelsDiffer(Tracked())
      modifies Tunnels(Tracked())
      ensures forall k :: 0 <= k < len ==> BroughtUp(slots[k].tunnel, slots[k].net.name)
    {
      ghost var s := Tracked();
      for i := 0 to len
        invariant forall k :: 0 <= k < i ==> BroughtUp(s[k].tunnel, s[k].net.name)
        invariant forall k :: i <= k < len ==> unchanged(s[k].tunnel)
      {
        assert s[i] == slots[i];
        if slots[i].tunnel != null {
          slots[i].tunnel.Activate(slots[i].net.name);
        }
      }
      assert forall k :: 0 <= k < len ==> s[k] == slots[k];
    }

    /** Updates the watcher's own tunnel objects, those read when tracking began, with what the scan
        found. watcher.go then saves each changed object over its database row. */
    method ReconcileDB()
      requires Valid()
      modifies Tunnels(Tracked() + toMarkInactive)
      ensures Valid() && Abstract() == old(Abstract()) && Tracked() == old(Tracked())
      ensures forall x :: x in toMarkInactive ==> ShutDown(x.tunnel)
      ensures forall x :: x in Tracked() ==> BroughtUp(x.tunnel, x.net.name)
    {
      TunnelsApart(Tracked(), toMarkInactive);
      ReconcileInactive();
      ReconcileActive();
    }

    /** Both loops of a look at the system whose interfaces could be listed. */
    method ScanAndAdd(obs: Observation, present: seq<NetInterface>)
      requires Valid() && toMarkInactive == [] && obs.present == Some(present)
      modifies this`slots, this`len, this`toMarkInactive, slots, stats
      ensures Valid() && (slots == old(slots) || fresh(slots))
      ensures Abstract() == Tracking.Watch(old(Abstract()), obs)
      ensures toMarkInactive == Removed(old(Tracked()), DeadIface(obs, present))
      ensures forall x :: x in toMarkInactive ==> x in old(Tracked())
      ensures forall x :: x in Tracked() ==> x in old(Tracked()) || fresh(x.tunnel)
    {
      assert Tracked() + toMarkInactive == Tracked();
      ScanTracked(obs, present);
      ScanKeepsValid(old(Tracked()), old(stats.counters), obs, present);
      ghost var kept := Tracked();
      assert forall x :: x in kept ==> x in kept + toMarkInactive;
      hide Agrees, TunnelsDiffer, Kept, Removed, AddAll;
      AddPresent(obs, present);
      forall x | x in Tracked() ensures x in old(Tracked()) || fresh(x.tunnel) {
        var k :| 0 <= k < len && slots[k] == x;
        if k < |kept| { assert Tracked()[k] == kept[k]; }
      }
    }

    /** A look at the system, up to the point where it is written back. */
    method Look(obs: Observation)
      requires Valid()
      modifies this`slots, this`len, this`toMarkInactive, slots, stats
      ensures Valid() && (slots == old(slots) || fresh(slots))
      ensures Abstract() == Tracking.Watch(old(Abstract()), obs)
      ensures toMarkInactive
        == if obs.present.None? then [] else Removed(old(Tracked()), DeadIface(obs, obs.present.value))
      ensures forall x :: x in toMarkInactive ==> x in old(Tracked())
      ensures forall x :: x in Tracked() ==> x in old(Tracked()) || fresh(x.tunnel)
    {
      TunnelsApart(Tracked(), toMarkInactive);
      toMarkInactive := [];
      assert Tracked() + toMarkInactive == Tracked();
      hide Agrees, TunnelsDiffer, Kept, Removed, AddAll, AfterScan, Dead;
      if obs.present.Some? {
        ScanAndAdd(obs, obs.present.value);
      }
    }

    /** One watch. */
    method Watch(obs: Observation)
      requires Valid()
      modifies this`slots, this`len, this`toMarkInactive, slots, stats, Tunnels(Tracked())
      ensures Valid() && (slots == old(slots) || fresh(slots))
      ensures Abstract() == Tracking.Watch(old(Abstract()), obs)
      ensures toMarkInactive
        == if obs.present.None? then [] else Removed(old(Tracked()), DeadIface(obs, obs.present.value))
      ensures obs.present.None? ==> Abstract() == old(Abstract())
      ensures obs.present.Some? ==> forall n |
        CanBeTracked(obs, obs.present.value, n) && OnlyOneOfItsName(obs.present.value, n)
        && n.name !in old(stats.counters) :: n in Nets(Tracked())
      ensures forall n :: n in Nets(Tracked()) ==>
        n in old(Nets(Tracked())) || (obs.present.Some? && CanBeTracked(obs, obs.present.value, n))
      ensures forall x :: x in toMarkInactive ==> x.tunnel != null && !x.tunnel.active
      ensures forall x :: x in Tracked() ==> x.tunnel != null && x.tunnel.active
      ensures forall x :: x in Tracked() ==> x in old(Tracked()) || fresh(x.tunnel)
    {
      if obs.present.Some? { WatchTracks(Abstract(), obs, obs.present.value); }
      assert obs.present.None? ==> Tracking.Watch(Abstract(), obs) == Abstract();
      hide Agrees, TunnelsDiffer, Removed, Dead, Tracking.Watch, Nets, CanBeTracked, OnlyOneOfItsName;
      Look(obs);
      ghost var reached := Tunnels(Tracked() + toMarkInactive);
      assert forall t :: t in reached ==> t in Tunnels(old(Tracked())) || fresh(t);
      hide Tunnels;
      ReconcileDB();
    }

    /** The watcher's loop: one watch after another. */
    method Run(obss: seq<Observation>)
      requires Valid()
      modifies this`slots, this`len, this`toMarkInactive, slots, stats, Tunnels(Tracked())
      ensures Valid() && Abstract() == WatchAll(old(Abstract()), obss)
    {
      for k := 0 to |obss|
        invariant Valid() && (slots == old(slots) || fresh(slots))
        invariant WatchAll(Abstract(), obss[k..]) == WatchAll(old(Abstract()), obss)
        invariant forall x :: x in Tracked() ==> x in old(Tracked()) || fresh(x.tunnel)
      {
        assert obss[k..][0] == obss[k] && obss[k..][1..] == obss[k + 1..];
        hide Agrees, TunnelsDiffer, Tracking.Watch;
        Watch(obss[k]);
      }
    }
  }

  /** A dead interface is met with its counter registered exactly when its fate is still open, and
      then the slot it was read from is the first one for it. */
  lemma FirstVisit(s: seq<Iface>, dead: Iface -> bool, slots: seq<Iface>, len: nat, i: nat, p: Progress<Iface>,
                   counters: Registry)
    requires NamesDiffer(Nets(s)) && NameSet(Nets(s)) <= counters.Keys
    requires At(s, dead, slots, len, i, p) && i < |s| && dead(slots[i])
    ensures slots[i].net.name in counters - NameSet(Nets(p.marked)) <==> p.rest != []
    ensures p.rest == [] ==> slots[i] in p.marked
    ensures p.rest != [] ==> slots[..len] == p.done + [slots[i]] + p.rest[1..]
    ensures p.rest != [] ==> forall x :: x in p.done ==> x.net != slots[i].net
  {
    Visited(s, dead, slots, len, i, p);
    var iface := slots[i];
    if p.rest == [] {
      CounterIsGone(p.marked, iface, counters);
    } else {
      assert slots[..len] == p.done + p.rest == p.done + [iface] + p.rest[1..];
      OpenIsDifferent(s, dead, p);
      CounterIsThere(s, p.marked, iface, counters);
    }
  }

  lemma OpenIsDifferent(s: seq<Iface>, dead: Iface -> bool, p: Progress<Iface>)
    requires NamesDiffer(Nets(s)) && Apart(s, dead, p) && p.rest != []
    ensures p.rest[0] in s
    ensures forall x :: x in p.done ==> x.net.name != p.rest[0].net.name
    ensures forall x :: x in p.marked ==> x.net.name != p.rest[0].net.name
  {
    DifferentNames(s);
    hide NamesDiffer;
    assert p.rest[0] == s[|s| - |p.rest|];
    forall x | x in p.done || x in p.marked ensures x.net.name != p.rest[0].net.name {
      ApartMeansDifferent(s, dead, p, x);
    }
  }

  lemma CounterIsGone(marked: seq<Iface>, iface: Iface, counters: Registry)
    requires iface in marked
    ensures iface.net.name !in counters - NameSet(Nets(marked))
  {
    var m :| 0 <= m < |marked| && marked[m] == iface;
    assert Nets(marked)[m] == iface.net;
  }

  lemma CounterIsThere(s: seq<Iface>, marked: seq<Iface>, iface: Iface, counters: Registry)
    requires iface in s && NameSet(Nets(s)) <= counters.Keys
    requires forall x :: x in marked ==> x.net.name != iface.net.name
    ensures iface.net.name in counters - NameSet(Nets(marked))
  {
    var k :| 0 <= k < |s| && s[k] == iface;
    assert Nets(s)[k] == iface.net;
    forall g | g in Nets(marked) ensures g.name != iface.net.name {
      var m :| 0 <= m < |marked| && marked[m].net == g;
    }
  }

  lemma TunnelsApart(s: seq<Iface>, more: seq<Iface>)
    requires TunnelsDiffer(s + more)
    ensures TunnelsDiffer(s) && TunnelsDiffer(more) && Tunnels(s) !! Tunnels(more)
    ensures Tunnels(s + more) == Tunnels(s) + Tunnels(more)
  {
    var all := s + more;
    assert forall i :: 0 <= i < |s| ==> all[i] == s[i];
    assert forall i :: 0 <= i < |more| ==> all[|s| + i] == more[i];
    forall x, y | x in s && y in more ensures x.tunnel != y.tunnel {
      var i :| 0 <= i < |s| && s[i] == x;
      var j :| 0 <= j < |more| && more[j] == y;
      assert all[i].tunnel != all[|s| + j].tunnel;
    }
  }

  lemma ScanKeepsValid(s: seq<Iface>, counters: Registry, obs: Observation, present: seq<NetInterface>)
    requires Agrees(State(Nets(s), counters)) && TunnelsDiffer(s)
    ensures var kept := Kept(s, DeadIface(obs, present)); var gone := Removed(s, DeadIface(obs, present));
      && State(Nets(kept), counters - NameSet(Nets(gone))) == AfterScan(State(Nets(s), counters), obs, present)
      && Agrees(State(Nets(kept), counters - NameSet(Nets(gone))))
      && TunnelsDiffer(kept + gone)
      && forall x :: x in kept + gone ==> x in s
  {
    var dead := DeadIface(obs, present);
    var kept, gone := Kept(s, dead), Removed(s, dead);
    NetsOfScan(s, obs, present);
    AgreesAfterScan(State(Nets(s), counters), obs, present);
    assert NamesDiffer(Nets(s));
    assert State(Nets(kept), counters - NameSet(Nets(gone))) == AfterScan(State(Nets(s), counters), obs, present);
    hide Agrees, AfterScan, Kept, Removed, Without, NameSet;
    DifferentNames(s);
    ScanPartition(s, dead);
    WithoutMembers(s, gone);
    var all := kept + gone;
    forall i, j | 0 <= i < j < |all| ensures all[i].tunnel != all[j].tunnel {
      assert all[i] in s && all[j] in s && all[i] != all[j];
    }
    forall i | 0 <= i < |all| ensures all[i].tunnel != null {
      assert all[i] in s;
    }
  }

  lemma TunnelsDifferInsert(s: seq<Iface>, more: seq<Iface>, x: Iface)
    requires TunnelsDiffer(s + more) && x.tunnel != null && x.tunnel !in Tunnels(s + more)
    ensures TunnelsDiffer(s + [x] + more)
  {
    var longer := s + [x] + more;
    forall i | 0 <= i < |longer| && i != |s|
      ensures longer[i] == (s + more)[if i < |s| then i else i - 1]
    {
    }
  }

  lemma DifferentNames(s: seq<Iface>)
    requires NamesDiffer(Nets(s))
    ensures Distinct(s)
    ensures forall x, y :: x in s && y in s && x != y ==> x.net.name != y.net.name
  {
    forall x, y | x in s && y in s && x != y ensures x.net.name != y.net.name {
      var i :| 0 <= i < |s| && s[i] == x;
      var j :| 0 <= j < |s| && s[j] == y;
      assert Nets(s)[i].name == x.net.name && Nets(s)[j].name == y.net.name;
    }
    forall i, j | 0 <= i < j < |s| ensures s[i] != s[j] {
      assert Nets(s)[i].name != Nets(s)[j].name;
    }
  }

  lemma NamesGrow(marked: seq<Iface>, iface: Iface, counters: Registry)
    ensures counters - NameSet(Nets(marked)) - {iface.net.name} == counters - NameSet(Nets(marked + [iface]))
  {
    assert Nets(marked + [iface]) == Nets(marked) + [iface.net];
    assert NameSet(Nets(marked + [iface])) == NameSet(Nets(marked)) + {iface.net.name};
  }

  /** Every tracked interface has a tunnel of its own. */
  ghost predicate TunnelsDiffer(s: seq<Iface>) {
    && (forall i :: 0 <= i < |s| ==> s[i].tunnel != null)
    && forall i, j :: 0 <= i < j < |s| ==> s[i].tunnel != s[j].tunnel
  }
}
