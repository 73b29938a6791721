/** Attaching the advertised services to the parsed hosts: each host's children first, then the host,
    each service to the first name it matches. */
module ServiceAttachment {
  import opened Options
  import opened Tally
  import opened HostsSpec
  import opened HostsParser
  import opened HostsLines

  /** The host name in a service's URL, if the URL parses. */
  datatype Service = Service(host: Option<string>)

  /** Names are compared without regard to case: `fold` maps names to equal values exactly when
      EqualFold holds. */
  predicate Matches(services: seq<Service>, fold: string -> string, name: string, j: ServiceId) {
    j < |services| && services[j].host.Some? && fold(name) == fold(services[j].host.value)
  }

  predicate MatchesAny(services: seq<Service>, fold: string -> string, names: seq<string>, j: ServiceId) {
    exists k :: 0 <= k < |names| && Matches(services, fold, names[k], j)
  }

  /** The first n services' share of a name that comes after `before`: those that match it and matched
      nothing before, in order. */
  function Share(services: seq<Service>, fold: string -> string, name: string, before: seq<string>,
                 n: nat): seq<ServiceId>
    requires n <= |services|
  {
    if n == 0 then []
    else
      var rest := Share(services, fold, name, before, n - 1);
      if Matches(services, fold, name, n - 1) && !MatchesAny(services, fold, before, n - 1) then rest + [n - 1]
      else rest
  }

  function ShareOf(services: seq<Service>, fold: string -> string, name: string, before: seq<string>): seq<ServiceId> {
    Share(services, fold, name, before, |services|)
  }

  /** In the order of the services file, and none twice. */
  ghost predicate Ascending(s: seq<ServiceId>) { forall i, j :: 0 <= i < j < |s| ==> s[i] < s[j] }

  lemma {:induction false} ShareMembers(services: seq<Service>, fold: string -> string, name: string,
                                        before: seq<string>, n: nat)
    requires n <= |services|
    ensures forall j: nat :: j in Share(services, fold, name, before, n) <==>
      (j < n && Matches(services, fold, name, j) && !MatchesAny(services, fold, before, j))
    ensures Ascending(Share(services, fold, name, before, n))
  {
    if n > 0 {
      ShareMembers(services, fold, name, before, n - 1);
      var rest := Share(services, fold, name, before, n - 1);
      assert forall i :: 0 <= i < |rest| ==> rest[i] in rest;
    }
  }

  // Slots: the names in the order in which the loops visit them.

  function Flat(names: seq<seq<string>>): seq<string> {
    if names == [] then [] else Flat(names[..|names| - 1]) + names[|names| - 1]
  }

  /** The names visited before slot c of host h. */
  function Before(names: seq<seq<string>>, h: nat, c: nat): seq<string>
    requires h < |names| && c <= |names[h]|
  {
    Flat(names[..h]) + names[h][..c]
  }

  lemma {:induction false} FlatPrefix(names: seq<seq<string>>, h: nat)
    requires h <= |names|
    ensures Flat(names[..h]) <= Flat(names)
    decreases |names|
  {
    if h == |names| {
      assert names[..h] == names;
    } else {
      var front := names[..|names| - 1];
      assert front[..h] == names[..h];
      FlatPrefix(front, h);
    }
  }

  /** Slot c of host h is one position of the visiting order, and `Before` is what precedes it. */
  lemma SlotPosition(names: seq<seq<string>>, h: nat, c: nat)
    requires h < |names| && c < |names[h]|
    ensures var p := |Before(names, h, c)|;
      p < |Flat(names)| && Flat(names)[p] == names[h][c] && Flat(names)[..p] == Before(names, h, c)
  {
    assert names[..h + 1][..h] == names[..h];
    FlatPrefix(names, h + 1);
    var upTo := Flat(names[..h + 1]);
    assert upTo == Flat(names[..h]) + names[h];
    var p := |Before(names, h, c)|;
    assert upTo[..p] == Before(names, h, c);
    assert Flat(names)[..p] == upTo[..p];
  }

  /** A slot: child c of host h, or host h itself when c is the number of its children. */
  predicate IsSlot(names: seq<seq<string>>, h: nat, c: nat) { h < |names| && c < |names[h]| }

  predicate Earlier(h: nat, c: nat, h': nat, c': nat) { h < h' || (h == h' && c < c') }

  /** Every position of the visiting order is a slot. */
  lemma {:induction false} SlotAt(names: seq<seq<string>>, p: nat) returns (h: nat, c: nat)
    requires p < |Flat(names)|
    ensures IsSlot(names, h, c) && |Before(names, h, c)| == p
    decreases |names|
  {
    var last := |names| - 1;
    var front := names[..last];
    if p < |Flat(front)| {
      h, c := SlotAt(front, p);
      assert front[..h] == names[..h];
    } else {
      h, c := last, p - |Flat(front)|;
    }
  }

  /** Earlier slots have smaller positions. */
  lemma EarlierIsBefore(names: seq<seq<string>>, h: nat, c: nat, h': nat, c': nat)
    requires IsSlot(names, h, c) && IsSlot(names, h', c')
    ensures Earlier(h, c, h', c') <==> |Before(names, h, c)| < |Before(names, h', c')|
    ensures |Before(names, h, c)| == |Before(names, h', c')| <==> h == h' && c == c'
  {
    if h < h' {
      HostsBefore(names, h, h');
    } else if h' < h {
      HostsBefore(names, h', h);
    }
  }

  lemma HostsBefore(names: seq<seq<string>>, h: nat, h': nat)
    requires h < h' < |names|
    ensures |Flat(names[..h])| + |names[h]| <= |Flat(names[..h'])|
  {
    FlatGrows(names, h);
    var upTo := names[..h'];
    assert upTo[..h + 1] == names[..h + 1];
    FlatPrefix(upTo, h + 1);
  }

  lemma FlatGrows(names: seq<seq<string>>, h: nat)
    requires h < |names|
    ensures Flat(names[..h + 1]) == Flat(names[..h]) + names[h]
  {
    assert names[..h + 1][..h] == names[..h];
  }

  /** Position p of the visiting order gets service j. */
  predicate GoesTo(services: seq<Service>, fold: string -> string, slots: seq<string>, p: nat, j: ServiceId) {
    p < |slots| && j in ShareOf(services, fold, slots[p], slots[..p])
  }

  predicate IsFirstMatch(services: seq<Service>, fold: string -> string, slots: seq<string>, p: nat, j: ServiceId) {
    && p < |slots| && Matches(services, fold, slots[p], j)
    && forall q :: 0 <= q < p ==> !Matches(services, fold, slots[q], j)
  }

  /** Each service goes to at most one slot, and to exactly the first slot whose name it matches; it
      goes nowhere only if it matches no name. */
  lemma EachServiceOnce(services: seq<Service>, fold: string -> string, slots: seq<string>, j: ServiceId)
    ensures forall p: nat :: GoesTo(services, fold, slots, p, j) <==>
      IsFirstMatch(services, fold, slots, p, j)
    ensures forall p: nat, q: nat ::
      GoesTo(services, fold, slots, p, j) && GoesTo(services, fold, slots, q, j) ==> p == q
    ensures (exists p: nat :: GoesTo(services, fold, slots, p, j)) <==> MatchesAny(services, fold, slots, j)
  {
    forall p: nat ensures GoesTo(services, fold, slots, p, j) <==>
      IsFirstMatch(services, fold, slots, p, j)
    {
      if p < |slots| {
        ShareMembers(services, fold, slots[p], slots[..p], |services|);
        assert forall q :: 0 <= q < p ==> slots[..p][q] == slots[q];
      }
    }
    if MatchesAny(services, fold, slots, j) {
      var p := FirstMatch(services, fold, slots, j);
      assert GoesTo(services, fold, slots, p, j);
    }
  }

  lemma {:induction false} FirstMatch(services: seq<Service>, fold: string -> string, slots: seq<string>,
                                      j: ServiceId) returns (p: nat)
    requires MatchesAny(services, fold, slots, j)
    ensures IsFirstMatch(services, fold, slots, p, j)
  {
    p := 0;
    while !Matches(services, fold, slots[p], j)
      invariant p < |slots| && forall q :: 0 <= q < p ==> !Matches(services, fold, slots[q], j)
      decreases |slots| - p
    {
      var k :| 0 <= k < |slots| && Matches(services, fold, slots[k], j);
      assert p < k;
      p := p + 1;
    }
  }

  // The loops.

  ghost function SlotNames(h: Host): (r: seq<string>)
    reads h
    ensures |r| == |h.children| + 1 && r[|h.children|] == h.name
    ensures forall c :: 0 <= c < |h.children| ==> r[c] == h.children[c].name
  {
    seq(|h.children|, c requires 0 <= c < |h.children| reads h => h.children[c].name) + [h.name]
  }

  ghost function Names(ret: seq<Host>): (r: seq<seq<string>>)
    reads ret
    ensures |r| == |ret| && forall h :: 0 <= h < |ret| ==> r[h] == SlotNames(ret[h])
  {
    seq(|ret|, h requires 0 <= h < |ret| reads ret => SlotNames(ret[h]))
  }

  /** Which services are taken after visiting these names. */
  ghost predicate Taken(services: seq<Service>, fold: string -> string, names: seq<string>, found: set<ServiceId>) {
    forall j: nat :: j in found <==> j < |services| && MatchesAny(services, fold, names, j)
  }

  /** The loop over the services for one name: what it appends, and which services are taken then. */
  method TakeShare(services: seq<Service>, fold: string -> string, name: string, found0: set<ServiceId>,
                   ghost before: seq<string>)
    returns (share: seq<ServiceId>, found: set<ServiceId>)
    requires Taken(services, fold, before, found0)
    ensures share == ShareOf(services, fold, name, before)
    ensures Taken(services, fold, before + [name], found)
  {
    share, found := [], found0;
    for j := 0 to |services|
      invariant share == Share(services, fold, name, before, j)
      invariant forall i: nat :: i in found <==>
        i < |services| && (MatchesAny(services, fold, before, i) || (i < j && Matches(services, fold, name, i)))
    {
      if services[j].host.None? {
        continue;
      }
      if j in found {
        continue;
      }
      if fold(name) == fold(services[j].host.value) {
        share := share + [j];
        found := found + {j};
      }
    }
    forall i: nat ensures MatchesAny(services, fold, before + [name], i)
      <==> MatchesAny(services, fold, before, i) || Matches(services, fold, name, i)
    {
      MatchesOneMore(services, fold, before, name, i);
    }
  }

  lemma MatchesOneMore(services: seq<Service>, fold: string -> string, before: seq<string>, name: string, i: nat)
    ensures MatchesAny(services, fold, before + [name], i)
      <==> MatchesAny(services, fold, before, i) || Matches(services, fold, name, i)
  {
    var names := before + [name];
    if k :| 0 <= k < |before| && Matches(services, fold, before[k], i) {
      assert names[k] == before[k];
    }
    assert names[|before|] == name;
  }

  /** Host h has been served: every child and then the host itself has its share. */
  ghost predicate Served(host: Host, services: seq<Service>, fold: string -> string, before: seq<string>)
    reads host
  {
    var mine := SlotNames(host);
    && (forall c :: 0 <= c < |host.children| ==>
          host.children[c].services == ShareOf(services, fold, mine[c], before + mine[..c]))
    && host.services == ShareOf(services, fold, host.name, before + mine[..|host.children|])
  }

  /** The body of the loop over the hosts. */
  method ServeHost(host: Host, services: seq<Service>, fold: string -> string, found0: set<ServiceId>,
                   ghost before: seq<string>)
    returns (found: set<ServiceId>)
    requires Unserved(host) && Taken(services, fold, before, found0)
    modifies host
    ensures SlotNames(host) == old(SlotNames(host)) && Kids(host.children) == old(Kids(host.children))
    ensures Served(host, services, fold, before)
    ensures Taken(services, fold, before + SlotNames(host), found)
  {
    hide Taken, ShareOf;
    ghost var mine := SlotNames(host);
    found := found0;
    var n := |host.children|;
    assert mine[..0] == [] && before + [] == before;
    for c := 0 to n
      invariant |host.children| == n && SlotNames(host) == mine && Kids(host.children) == old(Kids(host.children))
      invariant host.services == [] && forall d :: c <= d < n ==> host.children[d].services == []
      invariant forall d :: 0 <= d < c ==>
        host.children[d].services == ShareOf(services, fold, mine[d], before + mine[..d])
      invariant Taken(services, fold, before + mine[..c], found)
    {
      var child := host.children[c];
      var share;
      share, found := TakeShare(services, fold, child.name, found, before + mine[..c]);
      host.children := host.children[c := child.(services := child.services + share)];
      assert before + mine[..c] + [child.name] == before + mine[..c + 1];
      assert SlotNames(host) == mine;
    }
    var share;
    share, found := TakeShare(services, fold, host.name, found, before + mine[..n]);
    host.services := host.services + share;
    assert before + mine[..n] + [host.name] == before + mine;
    assert SlotNames(host) == mine;
  }

  ghost function AllKids(ret: seq<Host>): (r: seq<seq<Child>>)
    reads ret
    ensures |r| == |ret| && forall h :: 0 <= h < |ret| ==> r[h] == Kids(ret[h].children)
  {
    seq(|ret|, h requires 0 <= h < |ret| reads ret => Kids(ret[h].children))
  }

  /** The hosts before h have been served, the others not; no name has changed. */
  ghost predicate ServedUpTo(ret: seq<Host>, services: seq<Service>, fold: string -> string, names: seq<seq<string>>,
                             kids: seq<seq<Child>>, h: nat)
    reads ret
  {
    && |names| == |kids| == |ret| && Distinct(ret) && h <= |ret|
    && (forall i :: 0 <= i < |ret| ==> SlotNames(ret[i]) == names[i] && Kids(ret[i].children) == kids[i])
    && (forall i :: 0 <= i < h ==> Served(ret[i], services, fold, Flat(names[..i])))
    && (forall i :: h <= i < |ret| ==> Unserved(ret[i]))
  }

  method ServeNext(ret: seq<Host>, services: seq<Service>, fold: string -> string, found0: set<ServiceId>,
                   ghost names: seq<seq<string>>, ghost kids: seq<seq<Child>>, h: nat)
    returns (found: set<ServiceId>)
    requires h < |ret| && ServedUpTo(ret, services, fold, names, kids, h)
    requires Taken(services, fold, Flat(names[..h]), found0)
    modifies ret[h]
    ensures ServedUpTo(ret, services, fold, names, kids, h + 1) && Taken(services, fold, Flat(names[..h + 1]), found)
  {
    hide Served, SlotNames, Unserved, Taken, Flat, Kids;
    FlatGrows(names, h);
    assert forall i :: 0 <= i < |ret| && i != h ==> ret[i] != ret[h];
    found := ServeHost(ret[h], services, fold, found0, Flat(names[..h]));
  }

  lemma AllServedUp(ret: seq<Host>, services: seq<Service>, fold: string -> string,
                    names: seq<seq<string>>, kids: seq<seq<Child>>)
    requires ServedUpTo(ret, services, fold, names, kids, |ret|)
    ensures Names(ret) == names && AllKids(ret) == kids
    ensures forall h :: 0 <= h < |ret| ==> Served(ret[h], services, fold, Flat(Names(ret)[..h]))
  {
    hide Served, SlotNames, Kids;
    assert Names(ret) == names;
  }

  /** The part of parseHosts that attaches services. */
  method AttachServices(ret: seq<Host>, services: seq<Service>, fold: string -> string)
    requires Distinct(ret) && forall h :: 0 <= h < |ret| ==> Unserved(ret[h])
    modifies ret
    ensures Names(ret) == old(Names(ret)) && AllKids(ret) == old(AllKids(ret))
    ensures forall h :: 0 <= h < |ret| ==> Served(ret[h], services, fold, Flat(Names(ret)[..h]))
  {
    ghost var names, kids := Names(ret), AllKids(ret);
    var found: set<ServiceId> := {};
    assert Taken(services, fold, Flat(names[..0]), found);
    for h := 0 to |ret|
      invariant ServedUpTo(ret, services, fold, names, kids, h) && Taken(services, fold, Flat(names[..h]), found)
    {
      hide ServedUpTo, Taken;
      found := ServeNext(ret, services, fold, found, names, kids, h);
    }
    AllServedUp(ret, services, fold, names, kids);
  }

  // What the attachment comes to, of the hosts themselves.

  /** The services attached at a slot: those of a child, or of the host itself after its children. */
  ghost function ServicesAt(ret: seq<Host>, h: nat, c: nat): seq<ServiceId>
    requires IsSlot(Names(ret), h, c)
    reads ret
  {
    if c < |ret[h].children| then ret[h].children[c].services else ret[h].services
  }

  ghost predicate AttachedAt(ret: seq<Host>, h: nat, c: nat, j: ServiceId)
    reads ret
  {
    IsSlot(Names(ret), h, c) && j in ServicesAt(ret, h, c)
  }

  ghost predicate MatchesAt(ret: seq<Host>, services: seq<Service>, fold: string -> string, h: nat, c: nat,
                            j: ServiceId)
    reads ret
  {
    && IsSlot(Names(ret), h, c) && j < |services| && services[j].host.Some?
    && fold(if c < |ret[h].children| then ret[h].children[c].name else ret[h].name) == fold(services[j].host.value)
  }

  ghost predicate AllServed(ret: seq<Host>, services: seq<Service>, fold: string -> string)
    reads ret
  {
    forall h :: 0 <= h < |ret| ==> Served(ret[h], services, fold, Flat(Names(ret)[..h]))
  }

  /** A served slot has what the visiting order gives to its position. */
  lemma SlotGets(ret: seq<Host>, services: seq<Service>, fold: string -> string, h: nat, c: nat, j: ServiceId)
    requires AllServed(ret, services, fold) && IsSlot(Names(ret), h, c)
    ensures |Before(Names(ret), h, c)| < |Flat(Names(ret))|
    ensures AttachedAt(ret, h, c, j) <==> GoesTo(services, fold, Flat(Names(ret)), |Before(Names(ret), h, c)|, j)
    ensures MatchesAt(ret, services, fold, h, c, j)
      <==> Matches(services, fold, Flat(Names(ret))[|Before(Names(ret), h, c)|], j)
    ensures Ascending(ServicesAt(ret, h, c))
  {
    var names := Names(ret);
    SlotPosition(names, h, c);
    assert Served(ret[h], services, fold, Flat(names[..h]));
    ShareMembers(services, fold, names[h][c], Before(names, h, c), |services|);
  }

  /** Service j is attached to exactly the first name that matches it, over all hosts, children before
      their host; and it is attached nowhere only if no name of any host or child matches it. */
  ghost predicate AttachedToFirst(ret: seq<Host>, services: seq<Service>, fold: string -> string, j: ServiceId)
    reads ret
  {
    && (forall h: nat, c: nat :: AttachedAt(ret, h, c, j) <==>
          MatchesAt(ret, services, fold, h, c, j)
          && forall h': nat, c': nat :: Earlier(h', c', h, c) ==> !MatchesAt(ret, services, fold, h', c', j))
    && (forall h: nat, c: nat, h': nat, c': nat ::
          AttachedAt(ret, h, c, j) && AttachedAt(ret, h', c', j) ==> h == h' && c == c')
    && ((exists h: nat, c: nat :: AttachedAt(ret, h, c, j))
        <==> exists h: nat, c: nat :: MatchesAt(ret, services, fold, h, c, j))
  }

  lemma AttachedIffFirst(ret: seq<Host>, services: seq<Service>, fold: string -> string, h: nat, c: nat, j: ServiceId)
    requires AllServed(ret, services, fold)
    ensures AttachedAt(ret, h, c, j) <==>
      MatchesAt(ret, services, fold, h, c, j)
      && forall h': nat, c': nat :: Earlier(h', c', h, c) ==> !MatchesAt(ret, services, fold, h', c', j)
  {
    if IsSlot(Names(ret), h, c) {
      var names := Names(ret);
      var slots, p := Flat(names), |Before(names, h, c)|;
      SlotGets(ret, services, fold, h, c, j);
      EachServiceOnce(services, fold, slots, j);
      SlotPosition(names, h, c);
      if GoesTo(services, fold, slots, p, j) {
        forall h': nat, c': nat | Earlier(h', c', h, c) && IsSlot(names, h', c')
          ensures !MatchesAt(ret, services, fold, h', c', j)
        {
          EarlierIsBefore(names, h', c', h, c);
          SlotGets(ret, services, fold, h', c', j);
        }
      }
      if forall h': nat, c': nat :: Earlier(h', c', h, c) ==> !MatchesAt(ret, services, fold, h', c', j) {
        forall q | 0 <= q < p ensures !Matches(services, fold, slots[q], j) {
          var h', c' := SlotAt(names, q);
          EarlierIsBefore(names, h', c', h, c);
          SlotGets(ret, services, fold, h', c', j);
        }
      }
    }
  }

  /** Once every host is served, every service is attached to the first match and nowhere else. */
  lemma ServedMeansFirst(ret: seq<Host>, services: seq<Service>, fold: string -> string, j: ServiceId)
    requires AllServed(ret, services, fold)
    ensures AttachedToFirst(ret, services, fold, j)
  {
    hide AllServed, AttachedAt, MatchesAt;
    forall h: nat, c: nat ensures AttachedAt(ret, h, c, j) <==>
      MatchesAt(ret, services, fold, h, c, j)
      && forall h': nat, c': nat :: Earlier(h', c', h, c) ==> !MatchesAt(ret, services, fold, h', c', j)
    {
      AttachedIffFirst(ret, services, fold, h, c, j);
    }
    if h: nat, c: nat :| MatchesAt(ret, services, fold, h, c, j) {
      SomewhereAttached(ret, services, fold, h, c, j);
    }
  }

  /** Every service goes to its first match only, and every list of services is in the file's order. */
  ghost predicate EachAttachedOnce(ret: seq<Host>, services: seq<Service>, fold: string -> string)
    reads ret
  {
    && (forall j: ServiceId :: AttachedToFirst(ret, services, fold, j))
    && (forall h: nat, c: nat :: IsSlot(Names(ret), h, c) ==> Ascending(ServicesAt(ret, h, c)))
  }

  lemma ServedMeansOnce(ret: seq<Host>, services: seq<Service>, fold: string -> string)
    requires AllServed(ret, services, fold)
    ensures EachAttachedOnce(ret, services, fold)
  {
    hide AllServed, AttachedToFirst, Ascending, ServicesAt, IsSlot;
    forall j: ServiceId ensures AttachedToFirst(ret, services, fold, j) {
      ServedMeansFirst(ret, services, fold, j);
    }
    forall h: nat, c: nat | IsSlot(Names(ret), h, c) ensures Ascending(ServicesAt(ret, h, c)) {
      SlotGets(ret, services, fold, h, c, 0);
    }
  }

  lemma SomewhereAttached(ret: seq<Host>, services: seq<Service>, fold: string -> string, h: nat, c: nat, j: ServiceId)
    requires AllServed(ret, services, fold) && MatchesAt(ret, services, fold, h, c, j)
    ensures exists h: nat, c: nat :: AttachedAt(ret, h, c, j)
  {
    var names := Names(ret);
    SlotPosition(names, h, c);
    SlotGets(ret, services, fold, h, c, j);
    EachServiceOnce(services, fold, Flat(names), j);
    assert MatchesAny(services, fold, Flat(names), j);
    var p: nat :| GoesTo(services, fold, Flat(names), p, j);
    var h', c' := SlotAt(names, p);
    SlotGets(ret, services, fold, h', c', j);
  }

  /** The hosts are those of the one pass over the lines, each with its children. */
  ghost predicate AreHosts(ret: seq<Host>, hosts: seq<HostRec>)
    reads ret
  {
    |ret| == |hosts| && forall h :: 0 <= h < |ret| ==>
      && ret[h].name == hosts[h].name && ret[h].ip == hosts[h].ip
      && multiset(Kids(ret[h].children)) == hosts[h].children
  }

  method AttachTo(ret: seq<Host>, ghost hosts: seq<HostRec>, services: seq<Service>, fold: string -> string)
    requires ShowsAll(ret, hosts)
    modifies ret
    ensures AreHosts(ret, hosts) && EachAttachedOnce(ret, services, fold)
  {
    ghost var kids := AllKids(ret);
    assert forall h :: 0 <= h < |ret| ==> Unserved(ret[h]) && multiset(kids[h]) == hosts[h].children;
    hide Served, SlotNames, Kids;
    assert forall k :: 0 <= k < |ret| ==> ret[k] in ret;
    AttachServices(ret, services, fold);
    assert forall h :: 0 <= h < |ret| ==> Kids(ret[h].children) == kids[h];
    ServedMeansOnce(ret, services, fold);
  }

  lemma ShownAreHosts(ret: seq<Host>, hosts: seq<HostRec>)
    requires ShowsAll(ret, hosts)
    ensures AreHosts(ret, hosts) && forall h :: 0 <= h < |ret| ==> Unserved(ret[h])
  {
  }

  lemma NoHostsNoServices(services: seq<Service>, fold: string -> string)
    ensures EachAttachedOnce([], services, fold)
  {
    ServedMeansOnce([], services, fold);
  }

  /** Hosts and counts as the lines have them: the hosts are the lines whose parent is their own address,
      in order, and, if no two child lines of one name precede the host lines of both their parents, the
      first host with an address has exactly the children whose lines name it. */
  ghost predicate FromLines(ret: seq<Host>, count: nat, totalCount: nat, lines: seq<Line>)
    reads ret
  {
    && |ret| == |HostsOf(lines)|
    && (forall h :: 0 <= h < |ret| ==> Child(ret[h].name, ret[h].ip) == HostsOf(lines)[h])
    && count == HowMany(lines, IsDtdLink) && totalCount == HowMany(lines, IsEntry)
    && (!LinesClash(lines) ==> forall h, c :: 0 <= h < |ret| ==>
          multiset(Kids(ret[h].children))[c] ==
            if exists i :: 0 <= i < h && ret[i].ip == ret[h].ip then 0 else HowMany(lines, SaysChild(c, ret[h].ip)))
  }

  lemma HostsFromLines(ret: seq<Host>, lines: seq<Line>)
    requires AreHosts(ret, OnePass(Items(lines)).hosts)
    ensures FromLines(ret, OnePass(Items(lines)).count, OnePass(Items(lines)).total, lines)
  {
    var hosts := OnePass(Items(lines)).hosts;
    CountsOf(lines);
    assert forall h :: 0 <= h < |hosts| ==> NamesOf(hosts)[h] == Child(hosts[h].name, hosts[h].ip);
    if !LinesClash(lines) {
      WithoutClash(lines);
      hide OnePass, LinesClash;
      forall h, c | 0 <= h < |ret|
        ensures multiset(Kids(ret[h].children))[c] ==
          if exists i :: 0 <= i < h && ret[i].ip == ret[h].ip then 0 else HowMany(lines, SaysChild(c, ret[h].ip))
      {
        assert HasItsChildren(lines, hosts, h);
        assert (exists i :: 0 <= i < h && ret[i].ip == ret[h].ip)
          <==> exists i :: 0 <= i < h && hosts[i].ip == hosts[h].ip;
      }
    }
  }

  /** parseHosts. It fails if either file cannot be read; if only the services cannot, it returns the
      hosts without services beside the error. */
  method ParseHosts(lines: Option<seq<Line>>, services: Option<seq<Service>>, fold: string -> string)
    returns (ret: seq<Host>, count: nat, totalCount: nat, ghost orphans: map<string, Orphan>, failed: bool)
    ensures failed <==> lines.None? || services.None?
    ensures lines.None? ==> ret == [] && count == totalCount == 0
    ensures lines.Some? ==> var p := OnePass(Items(lines.value));
      AreHosts(ret, p.hosts) && count == p.count && totalCount == p.total && orphans == p.orphans
    ensures lines.Some? ==> FromLines(ret, count, totalCount, lines.value)
    ensures lines.Some? && !LinesClash(lines.value) ==> AreLeftOver(lines.value, orphans)
    ensures forall h :: h in ret ==> fresh(h)
    ensures services.None? ==> forall h :: 0 <= h < |ret| ==> Unserved(ret[h])
    ensures services.Some? ==> EachAttachedOnce(ret, services.value, fold)
  {
    ret, count, totalCount, orphans, failed := [], 0, 0, map[], true;
    if lines.None? {
      if services.Some? { NoHostsNoServices(services.value, fold); }
      return;
    }
    ret, count, totalCount, orphans := ParseLines(lines.value);
    if !LinesClash(lines.value) { WithoutClash(lines.value); }
    hide LinesClash, AreLeftOver, FromLines;
    if services.None? {
      ShownAreHosts(ret, OnePass(Items(lines.value)).hosts);
      HostsFromLines(ret, lines.value);
      return;
    }
    failed := false;
    forall h | 0 <= h < |ret| ensures fresh(ret[h]) {
      assert ret[h] in ret;
    }
    hide OnePass, ShowsAll, AreHosts;
    AttachTo(ret, OnePass(Items(lines.value)).hosts, services.value, fold);
    HostsFromLines(ret, lines.value);
  }

  /** Everything that parsing both files promises. */
  ghost predicate IsParsed(ret: seq<Host>, count: nat, totalCount: nat,
                           lines: seq<Line>, services: seq<Service>, fold: string -> string)
    reads ret
  {
    && AreHosts(ret, OnePass(Items(lines)).hosts) && FromLines(ret, count, totalCount, lines)
    && EachAttachedOnce(ret, services, fold)
  }

  /** What the application asks for hosts and counts. */
  class Parser {
    var currentHosts: seq<Host>
    var nodesCount: nat
    var totalCount: nat
    var isParsing: bool

    constructor ()
      ensures currentHosts == [] && nodesCount == totalCount == 0 && !isParsing
    {
      currentHosts, nodesCount, totalCount, isParsing := [], 0, 0, false;
    }

    /** Parse replaces hosts and counts together, and only if both files could be read and no other
        call is at it. */
    method Parse(lines: Option<seq<Line>>, services: Option<seq<Service>>, fold: string -> string)
      returns (failed: bool)
      modifies this
      ensures isParsing == old(isParsing)
      ensures failed <==> !isParsing && (lines.None? || services.None?)
      ensures isParsing || failed ==> unchanged(this)
      ensures !isParsing && !failed ==>
        IsParsed(currentHosts, nodesCount, totalCount, lines.value, services.value, fold)
    {
      if isParsing {
        return false;
      }
      hide FromLines, AreHosts, OnePass, EachAttachedOnce;
      isParsing := true;
      var hosts, count, total, orphans, err := ParseHosts(lines, services, fold);
      assert !err ==> IsParsed(hosts, count, total, lines.value, services.value, fold);
      isParsing := false;
      if err {
        return true;
      }
      failed := false;
      nodesCount, totalCount, currentHosts := count, total, hosts;
    }
  }
}
