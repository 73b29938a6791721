/** The interface watcher on values: which interfaces are tracked, and which names have a traffic
    counter, after each look at the system. */
module Tracking {
  import opened Arithmetic
  import opened Options
  import opened Tally
  import opened Scan
  import opened StatRegistry

  const WG0 := "wg0"

  datatype NetInterface = NetInterface(name: string, index: int, hardwareAddr: string)

  /** The columns of a tunnel's database row that the watcher touches. */
  datatype TunnelRow = TunnelRow(
    active: bool, tunnelInterface: string, rxBytes: nat, txBytes: nat, totalRXMB: real, totalTXMB: real)

  /** What the system answers during one watch. */
  datatype Observation = Observation(
    present: Option<seq<NetInterface>>,  // net.Interfaces(), or its error
    handshake: string -> bool,           // a peer of this device shook hands in the last 3 minutes
    row: NetInterface -> Option<TunnelRow>,  // findTunnel's row for this interface
    starts: string -> bool               // a counter for this name can be started
  )

  predicate WireguardActive(obs: Observation, name: string) {
    name != WG0 && "wg" <= name && obs.handshake(name)
  }

  predicate Dead(obs: Observation, present: seq<NetInterface>, n: NetInterface) {
    ("wg" <= n.name && n.name != WG0 && !WireguardActive(obs, n.name)) || ("tun" <= n.name && n !in present)
  }

  function IsDead(obs: Observation, present: seq<NetInterface>): NetInterface -> bool {
    n => Dead(obs, present, n)
  }

  predicate Wanted(obs: Observation, n: NetInterface) {
    ("wg" <= n.name && n.name != WG0 && WireguardActive(obs, n.name)) || "tun" <= n.name
  }

  datatype State = State(tracked: seq<NetInterface>, counters: Registry)

  predicate Adds(s: State, obs: Observation, n: NetInterface) {
    Wanted(obs, n) && n !in s.tracked && obs.row(n).Some?
  }

  function AddStep(s: State, obs: Observation, n: NetInterface): State {
    if Adds(s, obs, n) then
      var (counters, ok) := AddCounter(s.counters, n.name, obs.starts(n.name));
      State(if ok then s.tracked + [n] else s.tracked, counters)
    else s
  }

  function AddAll(s: State, obs: Observation, ns: seq<NetInterface>): State
    decreases |ns|
  {
    if ns == [] then s else AddAll(AddStep(s, obs, ns[0]), obs, ns[1..])
  }

  function NameSet(ns: seq<NetInterface>): set<string> { set n | n in ns :: n.name }

  function AfterScan(s: State, obs: Observation, present: seq<NetInterface>): State {
    var dead := IsDead(obs, present);
    State(Kept(s.tracked, dead), s.counters - NameSet(Removed(s.tracked, dead)))
  }

  function Watch(s: State, obs: Observation): State {
    match obs.present
    case None => s
    case Some(present) => AddAll(AfterScan(s, obs, present), obs, present)
  }

  function WatchAll(s: State, obss: seq<Observation>): State
    decreases |obss|
  {
    if obss == [] then s else WatchAll(Watch(s, obss[0]), obss[1..])
  }

  /** The second loop gets as far as starting a counter for this interface. */
  predicate Attempts(s: State, obs: Observation, n: NetInterface) {
    Adds(s, obs, n) && n.name !in s.counters
  }

  /** Every counter that the second loop tries to start does start. */
  predicate StartsOk(s: State, obs: Observation, ns: seq<NetInterface>)
    decreases |ns|
  {
    ns == [] ||
    ((Attempts(s, obs, ns[0]) ==> obs.starts(ns[0].name)) && StartsOk(AddStep(s, obs, ns[0]), obs, ns[1..]))
  }

  predicate WatchStartsOk(s: State, obs: Observation) {
    obs.present.Some? ==> StartsOk(AfterScan(s, obs, obs.present.value), obs, obs.present.value)
  }

  /** No attempt to start a counter fails anywhere in the run. */
  predicate AllStartsOk(s: State, obss: seq<Observation>)
    decreases |obss|
  {
    obss == [] || (WatchStartsOk(s, obss[0]) && AllStartsOk(Watch(s, obss[0]), obss[1..]))
  }

  /** Tracked names are pairwise different, and each has a counter. */
  ghost predicate Agrees(s: State) {
    && (forall i, j :: 0 <= i < j < |s.tracked| ==> s.tracked[i].name != s.tracked[j].name)
    && NameSet(s.tracked) <= s.counters.Keys
  }

  /** The two name sets are the same. */
  ghost predicate SameNames(s: State) { s.counters.Keys == NameSet(s.tracked) }

  /** A name is registered whose interface is not tracked. */
  ghost predicate IsStray(s: State, name: string) { name in s.counters && name !in NameSet(s.tracked) }

  ghost predicate NamesDiffer(ns: seq<NetInterface>) {
    forall i, j :: 0 <= i < j < |ns| ==> ns[i].name != ns[j].name
  }

  lemma {:induction false} WithoutKeepsNamesDiffering(ns: seq<NetInterface>, gone: seq<NetInterface>)
    requires NamesDiffer(ns)
    ensures NamesDiffer(Without(ns, gone))
    ensures forall n :: n in Without(ns, gone) <==> n in ns && n !in gone
  {
    if ns != [] {
      WithoutKeepsNamesDiffering(ns[1..], gone);
      var rest := Without(ns[1..], gone);
      forall j | 0 <= j < |rest| ensures rest[j].name != ns[0].name {
        assert rest[j] in ns[1..];
      }
    }
  }

  lemma AgreesAfterScan(s: State, obs: Observation, present: seq<NetInterface>)
    requires Agrees(s)
    ensures Agrees(AfterScan(s, obs, present))
    ensures SameNames(s) ==> SameNames(AfterScan(s, obs, present))
    ensures s.counters.Keys - NameSet(s.tracked) <= AfterScan(s, obs, present).counters.Keys
  {
    var dead := IsDead(obs, present);
    var gone := Removed(s.tracked, dead);
    var s' := AfterScan(s, obs, present);
    assert Distinct(s.tracked);
    ScanPartition(s.tracked, dead);
    WithoutKeepsNamesDiffering(s.tracked, gone);
    forall n | n in s'.tracked ensures n.name in s.counters && n.name !in NameSet(gone) {
      assert n in s.tracked && n !in gone;
      forall g | g in gone ensures g.name != n.name {
        assert g in s.tracked;
      }
    }
    forall name | name in NameSet(s.tracked) && name !in NameSet(gone) ensures name in NameSet(s'.tracked) {
      var n :| n in s.tracked && n.name == name;
      assert n !in gone;
      assert n in s'.tracked;
    }
  }

  lemma AgreesAfterAdd(s: State, obs: Observation, n: NetInterface)
    requires Agrees(s)
    ensures Agrees(AddStep(s, obs, n)) && s.counters.Keys <= AddStep(s, obs, n).counters.Keys
    ensures Attempts(s, obs, n) && !obs.starts(n.name) ==> IsStray(AddStep(s, obs, n), n.name)
    ensures SameNames(s) && (Attempts(s, obs, n) ==> obs.starts(n.name)) ==> SameNames(AddStep(s, obs, n))
  {
    var s' := AddStep(s, obs, n);
    if s'.tracked != s.tracked {
      assert s'.tracked == s.tracked + [n];
      assert NameSet(s'.tracked) == NameSet(s.tracked) + {n.name};
      forall i | 0 <= i < |s.tracked| ensures s.tracked[i].name != n.name {
        assert s.tracked[i].name in NameSet(s.tracked);
      }
    }
  }

  lemma {:induction false} StrayAfterAddAll(s: State, obs: Observation, ns: seq<NetInterface>, name: string)
    requires Agrees(s) && IsStray(s, name)
    ensures IsStray(AddAll(s, obs, ns), name)
    decreases |ns|
  {
    if ns != [] {
      AgreesAfterAdd(s, obs, ns[0]);
      var s' := AddStep(s, obs, ns[0]);
      if s'.tracked != s.tracked {
        assert s'.tracked == s.tracked + [ns[0]] && ns[0].name != name;
      }
      StrayAfterAddAll(s', obs, ns[1..], name);
    }
  }

  lemma {:induction false} AgreesAfterAddAll(s: State, obs: Observation, ns: seq<NetInterface>)
    requires Agrees(s)
    ensures Agrees(AddAll(s, obs, ns)) && s.counters.Keys <= AddAll(s, obs, ns).counters.Keys
    ensures SameNames(s) && StartsOk(s, obs, ns) ==> SameNames(AddAll(s, obs, ns))
    ensures !StartsOk(s, obs, ns) ==> exists name :: IsStray(AddAll(s, obs, ns), name)
    decreases |ns|
  {
    if ns != [] {
      var s' := AddStep(s, obs, ns[0]);
      AgreesAfterAdd(s, obs, ns[0]);
      AgreesAfterAddAll(s', obs, ns[1..]);
      if Attempts(s, obs, ns[0]) && !obs.starts(ns[0].name) {
        StrayAfterAddAll(s', obs, ns[1..], ns[0].name);
      }
    }
  }

  lemma AgreesAfterWatch(s: State, obs: Observation)
    requires Agrees(s)
    ensures Agrees(Watch(s, obs))
    ensures SameNames(s) && WatchStartsOk(s, obs) ==> SameNames(Watch(s, obs))
    ensures !WatchStartsOk(s, obs) ==> exists name :: IsStray(Watch(s, obs), name)
  {
    if obs.present.Some? {
      AgreesAfterScan(s, obs, obs.present.value);
      AgreesAfterAddAll(AfterScan(s, obs, obs.present.value), obs, obs.present.value);
    }
  }

  lemma StrayAfterWatch(s: State, obs: Observation, name: string)
    requires Agrees(s) && IsStray(s, name)
    ensures IsStray(Watch(s, obs), name)
  {
    if obs.present.Some? {
      var present := obs.present.value;
      AgreesAfterScan(s, obs, present);
      KeptWereThere(s.tracked, IsDead(obs, present));
      StrayAfterAddAll(AfterScan(s, obs, present), obs, present, name);
    }
  }

  /** A counter that failed to start stays registered for ever, and its name is never tracked again:
      the agreement of the two name sets is lost for good, not for one round. */
  lemma {:induction false} FailedStartIsPermanent(s: State, obss: seq<Observation>, name: string)
    requires Agrees(s) && IsStray(s, name)
    ensures IsStray(WatchAll(s, obss), name)
    decreases |obss|
  {
    if obss != [] {
      AgreesAfterWatch(s, obss[0]);
      StrayAfterWatch(s, obss[0], name);
      FailedStartIsPermanent(Watch(s, obss[0]), obss[1..], name);
    }
  }

  /** Across all sequences of watches tracked names stay pairwise different and have counters. From
      equal sets of names, the sets are equal in the end exactly when no attempt to start a counter
      failed anywhere in the run. */
  lemma {:induction false} RegistryAgreement(s: State, obss: seq<Observation>)
    requires Agrees(s)
    ensures Agrees(WatchAll(s, obss))
    ensures SameNames(s) ==> (SameNames(WatchAll(s, obss)) <==> AllStartsOk(s, obss))
    decreases |obss|
  {
    if obss != [] {
      var next := Watch(s, obss[0]);
      AgreesAfterWatch(s, obss[0]);
      RegistryAgreement(next, obss[1..]);
      if !WatchStartsOk(s, obss[0]) {
        var name :| IsStray(next, name);
        FailedStartIsPermanent(next, obss[1..], name);
      }
    }
  }

  /** And it happens: an interface whose counter fails to start in the first watch, from nothing
      tracked, has a counter and is not tracked, then and ever after. */
  lemma FailedStartHappens(name: string, later: seq<Observation>)
    requires "wg" <= name && name != WG0
    ensures exists obs ::
      && !AllStartsOk(State([], map[]), [obs] + later)
      && IsStray(WatchAll(State([], map[]), [obs] + later), name)
  {
    var start, n := State([], map[]), NetInterface(name, 1, "");
    var obs := Observation(Some([n]), _ => true, _ => Some(TunnelRow(false, "", 0, 0, 0.0, 0.0)), _ => false);
    var run := [obs] + later;
    assert run[0] == obs && run[1..] == later;
    assert AfterScan(start, obs, [n]) == start;
    assert AddStep(start, obs, n) == State([], map[name := false]) && [n][1..] == [];
    assert Watch(start, obs) == AddAll(AddStep(start, obs, n), obs, []);
    assert !WatchStartsOk(start, obs);
    FailedStartIsPermanent(Watch(start, obs), later, name);
    assert WatchAll(start, run) == WatchAll(Watch(start, obs), later);
  }

  // What a watch tracks, in terms of names, handshakes, presence, rows and starts.

  /** One interface is looked at by the second loop once the ones before it have been: it is tracked
      afterwards exactly if it was before, or is an active WireGuard or any vtun interface with a tunnel
      row, whose name is new to the registry and whose counter starts. */
  lemma TracksOne(s: State, obs: Observation, n: NetInterface)
    ensures var s' := AddStep(s, obs, n);
      && (n in s'.tracked <==>
          || n in s.tracked
          || ((("wg" <= n.name && n.name != "wg0" && obs.handshake(n.name)) || "tun" <= n.name)
              && obs.row(n).Some? && n.name !in s.counters && obs.starts(n.name)))
      && (forall m :: m != n ==> (m in s'.tracked <==> m in s.tracked))
      && (forall name :: name != n.name ==> (name in s'.counters <==> name in s.counters))
  {
  }

  /** What the second loop may track: nothing but interfaces it is given, under those conditions. */
  lemma {:induction false} TracksOnly(s: State, obs: Observation, ns: seq<NetInterface>, n: NetInterface)
    requires n in AddAll(s, obs, ns).tracked && n !in s.tracked
    ensures n in ns && obs.row(n).Some? && n.name !in s.counters && obs.starts(n.name)
    ensures ("wg" <= n.name && n.name != "wg0" && obs.handshake(n.name)) || "tun" <= n.name
    decreases |ns|
  {
    if ns != [] {
      var s' := AddStep(s, obs, ns[0]);
      TracksOne(s, obs, ns[0]);
      if n !in s'.tracked {
        TracksOnly(s', obs, ns[1..], n);
        assert n in ns[1..];
        assert s.counters.Keys <= s'.counters.Keys;
      }
    }
  }

  /** And what it must: every such interface, if no other one it is given has the name. */
  lemma {:induction false} TracksAll(s: State, obs: Observation, ns: seq<NetInterface>, n: NetInterface)
    requires n in ns && forall m :: m in ns && m.name == n.name ==> m == n
    requires obs.row(n).Some? && n.name !in s.counters && obs.starts(n.name)
    requires ("wg" <= n.name && n.name != "wg0" && obs.handshake(n.name)) || "tun" <= n.name
    ensures n in AddAll(s, obs, ns).tracked
    decreases |ns|
  {
    var s' := AddStep(s, obs, ns[0]);
    TracksOne(s, obs, ns[0]);
    if ns[0] == n {
      StaysTracked(s', obs, ns[1..], n);
    } else {
      assert ns[0] in ns;
      assert n in ns[1..];
      TracksAll(s', obs, ns[1..], n);
    }
  }

  lemma {:induction false} StaysTracked(s: State, obs: Observation, ns: seq<NetInterface>, n: NetInterface)
    requires n in s.tracked
    ensures n in AddAll(s, obs, ns).tracked
    decreases |ns|
  {
    if ns != [] {
      TracksOne(s, obs, ns[0]);
      StaysTracked(AddStep(s, obs, ns[0]), obs, ns[1..], n);
    }
  }

  /** A tracked interface is dead when it is a WireGuard one, other than wg0, without a recent handshake,
      or a vtun one that is no longer present; and only then. */
  lemma DeadIff(obs: Observation, present: seq<NetInterface>, n: NetInterface)
    ensures Dead(obs, present, n) <==>
      ("wg" <= n.name && n.name != "wg0" && !obs.handshake(n.name)) || ("tun" <= n.name && n !in present)
  {
  }

  /** What a watch tracks. A present interface whose name no other present one has is tracked afterwards
      exactly if the scan kept it, or it is an active WireGuard or any vtun interface with a tunnel row,
      whose name the scan left out of the registry and whose counter starts. An interface that is not
      present is tracked afterwards exactly if the scan kept it. */
  lemma WatchTracksIff(s: State, obs: Observation, present: seq<NetInterface>, n: NetInterface)
    requires Agrees(s) && obs.present == Some(present)
    requires forall m :: m in present && m.name == n.name ==> m == n
    ensures var scanned := AfterScan(s, obs, present);
      n in Watch(s, obs).tracked <==>
        || n in scanned.tracked
        || (n in present && obs.row(n).Some? && n.name !in scanned.counters && obs.starts(n.name)
            && (("wg" <= n.name && n.name != "wg0" && obs.handshake(n.name)) || "tun" <= n.name))
  {
    var scanned := AfterScan(s, obs, present);
    if n in scanned.tracked {
      StaysTracked(scanned, obs, present, n);
    } else {
      if n in Watch(s, obs).tracked {
        TracksOnly(scanned, obs, present, n);
      }
      if n in present && obs.row(n).Some? && n.name !in scanned.counters && obs.starts(n.name)
        && (("wg" <= n.name && n.name != "wg0" && obs.handshake(n.name)) || "tun" <= n.name)
      {
        TracksAll(scanned, obs, present, n);
      }
    }
  }

  /** What the scan keeps: every tracked interface that has shaken hands, or is present, as its kind asks,
      and nothing that was not tracked. It takes out of the registry the names of those it removes. */
  lemma ScanKeepsLive(s: State, obs: Observation, present: seq<NetInterface>, n: NetInterface)
    requires Agrees(s)
    ensures var scanned := AfterScan(s, obs, present);
      && (n in scanned.tracked ==> n in s.tracked)
      && (n in s.tracked && n !in scanned.tracked ==>
          && n.name !in scanned.counters
          && (("wg" <= n.name && n.name != "wg0" && !obs.handshake(n.name)) || ("tun" <= n.name && n !in present)))
      && (n.name in scanned.counters ==> n.name in s.counters)
      && (n.name in s.counters && n.name !in NameSet(s.tracked) ==> n.name in scanned.counters)
      && (n in scanned.tracked ==> n.name in scanned.counters)
  {
    var dead := IsDead(obs, present);
    AgreesAfterScan(s, obs, present);
    assert Distinct(s.tracked);
    ScanPartition(s.tracked, dead);
    WithoutKeepsNamesDiffering(s.tracked, Removed(s.tracked, dead));
    DeadIff(obs, present, n);
    if n in AfterScan(s, obs, present).tracked {
      assert n.name in NameSet(AfterScan(s, obs, present).tracked);
    }
  }

  /** What may become tracked: a present interface that is an active WireGuard or any vtun one, with a
      tunnel row, whose counter starts. */
  predicate CanBeTracked(obs: Observation, present: seq<NetInterface>, n: NetInterface) {
    && n in present && obs.row(n).Some? && obs.starts(n.name)
    && (("wg" <= n.name && n.name != "wg0" && obs.handshake(n.name)) || "tun" <= n.name)
  }

  predicate OnlyOneOfItsName(present: seq<NetInterface>, n: NetInterface) {
    forall m :: m in present && m.name == n.name ==> m == n
  }

  lemma WatchTracks(s: State, obs: Observation, present: seq<NetInterface>)
    requires Agrees(s) && obs.present == Some(present)
    ensures forall n :: CanBeTracked(obs, present, n) && OnlyOneOfItsName(present, n) && n.name !in s.counters ==>
      n in Watch(s, obs).tracked
    ensures forall n :: n in Watch(s, obs).tracked ==> n in s.tracked || CanBeTracked(obs, present, n)
  {
    forall n | CanBeTracked(obs, present, n) && OnlyOneOfItsName(present, n) && n.name !in s.counters
      ensures n in Watch(s, obs).tracked
    {
      NewIsTracked(s, obs, present, n);
    }
    forall n | n in Watch(s, obs).tracked && n !in s.tracked ensures CanBeTracked(obs, present, n) {
      ScanKeepsLive(s, obs, present, n);
      TracksOnly(AfterScan(s, obs, present), obs, present, n);
    }
  }

  /** In particular: an interface of a name that is not registered, present and the only one of its name,
      active or vtun, with a row and a counter that starts, is tracked after the watch. */
  lemma NewIsTracked(s: State, obs: Observation, present: seq<NetInterface>, n: NetInterface)
    requires Agrees(s) && obs.present == Some(present)
    requires n in present && forall m :: m in present && m.name == n.name ==> m == n
    requires ("wg" <= n.name && n.name != "wg0" && obs.handshake(n.name)) || "tun" <= n.name
    requires obs.row(n).Some? && obs.starts(n.name) && n.name !in s.counters
    ensures n in Watch(s, obs).tracked && n.name in Watch(s, obs).counters
  {
    ScanKeepsLive(s, obs, present, n);
    WatchTracksIff(s, obs, present, n);
    AgreesAfterWatch(s, obs);
    assert n.name in NameSet(Watch(s, obs).tracked);
  }

  /** Over a whole run: whatever is tracked in the end was tracked in the beginning, or could be tracked in
      one of the watches. */
  lemma {:induction false} TrackedOverRun(s: State, obss: seq<Observation>, n: NetInterface)
    requires Agrees(s) && n in WatchAll(s, obss).tracked && n !in s.tracked
    ensures exists k :: 0 <= k < |obss| && obss[k].present.Some? && CanBeTracked(obss[k], obss[k].present.value, n)
    decreases |obss|
  {
    if obss != [] {
      var obs, next := obss[0], Watch(s, obss[0]);
      AgreesAfterWatch(s, obs);
      if n in next.tracked {
        WatchTracks(s, obs, obs.present.value);
      } else {
        TrackedOverRun(next, obss[1..], n);
        var k :| 0 <= k < |obss[1..]| && obss[1..][k].present.Some?
          && CanBeTracked(obss[1..][k], obss[1..][k].present.value, n);
        assert obss[k + 1] == obss[1..][k];
      }
    }
  }

  lemma PrefixesExclude(name: string)
    requires "wg" <= name
    ensures !("tun" <= name)
  {
    assert name[0] == "wg"[0] != "tun"[0];
  }

  lemma {:induction false} AddedAreLive(s: State, obs: Observation, ns: seq<NetInterface>, present: seq<NetInterface>)
    requires forall n :: n in ns ==> n in present
    ensures s.tracked <= AddAll(s, obs, ns).tracked
    ensures forall k :: |s.tracked| <= k < |AddAll(s, obs, ns).tracked| ==>
      !Dead(obs, present, AddAll(s, obs, ns).tracked[k])
    decreases |ns|
  {
    if ns != [] {
      var s' := AddStep(s, obs, ns[0]);
      assert ns[0] in present;
      if "wg" <= ns[0].name { PrefixesExclude(ns[0].name); }
      assert s'.tracked == s.tracked || (s'.tracked == s.tracked + [ns[0]] && !Dead(obs, present, ns[0]));
      AddedAreLive(s', obs, ns[1..], present);
    }
  }

  function Additions(s: State, obs: Observation, rounds: nat): seq<seq<NetInterface>>
    requires obs.present.Some?
    decreases rounds
  {
    if rounds == 0 then []
    else
      var next := Watch(s, obs);
      var kept := Kept(s.tracked, IsDead(obs, obs.present.value));
      [if |kept| <= |next.tracked| then next.tracked[|kept|..] else []] + Additions(next, obs, rounds - 1)
  }

  lemma {:induction false} WatchesAreRounds(s: State, obs: Observation, rounds: nat)
    requires obs.present.Some?
    ensures var dead := IsDead(obs, obs.present.value); var adds := Additions(s, obs, rounds);
      && |adds| == rounds
      && (forall a, n :: a in adds && n in a ==> !dead(n))
      && WatchAll(s, seq(rounds, _ => obs)).tracked == Rounds(s.tracked, adds, dead)
    decreases rounds
  {
    if rounds > 0 {
      var present := obs.present.value;
      var kept := AfterScan(s, obs, present);
      AddedAreLive(kept, obs, present, present);
      var next := Watch(s, obs);
      WatchesAreRounds(next, obs, rounds - 1);
      var obss := seq(rounds, _ => obs);
      assert obss[1..] == seq(rounds - 1, _ => obs);
      var added := next.tracked[|kept.tracked|..];
      assert next.tracked == kept.tracked + added;
      assert WatchAll(s, obss) == WatchAll(next, obss[1..]);
      var adds := Additions(s, obs, rounds);
      hide AddAll, Dead, Kept, Removed, WatchAll;
      assert adds == [added] + Additions(next, obs, rounds - 1);
      assert adds[1..] == Additions(next, obs, rounds - 1);
      forall n | n in added ensures !Dead(obs, present, n) {
        var k :| 0 <= k < |added| && added[k] == n;
        assert n == next.tracked[|kept.tracked| + k];
      }
    }
  }

  /** The positions of the tracked interfaces that, by this observation, are down: WireGuard ones other
      than wg0 without a recent handshake, and vtun ones no longer present. */
  function Down(s: State, obs: Observation, present: seq<NetInterface>): set<nat> {
    set k | 0 <= k < |s.tracked| && var n := s.tracked[k];
      ("wg" <= n.name && n.name != "wg0" && !obs.handshake(n.name)) || ("tun" <= n.name && n !in present)
  }

  lemma {:induction false} DeadCountIs(ns: seq<NetInterface>, dead: NetInterface -> bool, positions: set<nat>)
    requires forall k: nat :: k in positions <==> k < |ns| && dead(ns[k])
    ensures DeadCount(ns, dead) == |positions|
  {
    if ns == [] {
      assert positions == {};
    } else {
      var front, last := ns[..|ns| - 1], |ns| - 1;
      DeadCountIs(front, dead, positions - {last});
      assert ns == front + [ns[last]];
      DeadCountAppend(front, [ns[last]], dead);
      assert [ns[last]][1..] == [];
      assert last in positions ==> |positions - {last}| == |positions| - 1;
      assert last !in positions ==> positions - {last} == positions;
    }
  }

  /** While the system's answers stay the same, d tracked interfaces that are down are gone after any
      number of watches whose power of two exceeds d, and nothing that is down is tracked then. */
  lemma DeadAreGone(s: State, obs: Observation, present: seq<NetInterface>, rounds: nat)
    requires obs.present == Some(present) && |Down(s, obs, present)| < Pow2(rounds)
    ensures forall n :: n in WatchAll(s, seq(rounds, _ => obs)).tracked ==>
      && ("wg" <= n.name && n.name != "wg0" ==> obs.handshake(n.name))
      && ("tun" <= n.name ==> n in present)
  {
    var dead := IsDead(obs, obs.present.value);
    DeadCountIs(s.tracked, dead, Down(s, obs, present));
    WatchesAreRounds(s, obs, rounds);
    RoundsClear(s.tracked, Additions(s, obs, rounds), dead);
    assert forall n :: n in WatchAll(s, seq(rounds, _ => obs)).tracked ==> !dead(n);
  }
}
