/** The OLSR hosts file on values: what one pass with an orphan table computes, the obvious two-pass
    reading of the same lines, and when the two agree. */
module HostsSpec {
  import opened Options
  import opened Tally

  /** Addresses in canonical text form, so that equal text means equal address. */
  type IP = string

  /** A line with two fields: name, address (if it parses), and the parent named after `#` (the
      line's own address for `#myself`). */
  datatype Line = Line(name: string, ip: Option<IP>, parent: Option<IP>)

  datatype Item =
    | Ignored
    | DtdLink
    | HostLine(name: string, ip: IP)
    | ChildLine(name: string, ip: IP, parent: Option<IP>)

  function Classify(line: Line): Item {
    if line.name == "localhost" then Ignored
    else if '.' in line.name then (if "dtdlink." <= line.name then DtdLink else Ignored)
    else if line.name == "" then Ignored
    else match line.ip
      case None => Ignored
      case Some(ip) =>
        if line.parent == Some(ip) then HostLine(line.name, ip) else ChildLine(line.name, ip, line.parent)
  }

  datatype Child = Child(name: string, ip: IP)

  datatype HostRec = HostRec(name: string, ip: IP, children: multiset<Child>)

  datatype Orphan = Orphan(ip: IP, parent: Option<IP>)

  // One pass.

  datatype Parsed = Parsed(hosts: seq<HostRec>, orphans: map<string, Orphan>, count: nat, total: nat)

  /** The position of the first host with this address, or the number of hosts. */
  function FirstHost(hosts: seq<HostRec>, ip: Option<IP>): (k: nat)
    ensures k <= |hosts|
    ensures k < |hosts| ==> Some(hosts[k].ip) == ip
    ensures forall j :: 0 <= j < k ==> Some(hosts[j].ip) != ip
  {
    if hosts == [] || Some(hosts[0].ip) == ip then 0 else 1 + FirstHost(hosts[1..], ip)
  }

  function AddChild(hosts: seq<HostRec>, k: nat, child: Child): seq<HostRec>
    requires k < |hosts|
  {
    hosts[k := hosts[k].(children := hosts[k].children + multiset{child})]
  }

  function AdoptedNames(orphans: map<string, Orphan>, ip: IP): set<string> {
    set n | n in orphans && orphans[n].parent == Some(ip)
  }

  function Adopted(orphans: map<string, Orphan>, ip: IP): set<Child> {
    set n | n in AdoptedNames(orphans, ip) :: Child(n, orphans[n].ip)
  }

  function Step(p: Parsed, item: Item): Parsed {
    match item
    case Ignored => p
    case DtdLink => p.(count := p.count + 1)
    case HostLine(name, ip) =>
      Parsed(p.hosts + [HostRec(name, ip, multiset(Adopted(p.orphans, ip)))],
             p.orphans - AdoptedNames(p.orphans, ip), p.count, p.total + 1)
    case ChildLine(name, ip, parent) =>
      var k := FirstHost(p.hosts, parent);
      if k == |p.hosts| then p.(orphans := p.orphans[name := Orphan(ip, parent)], total := p.total + 1)
      else p.(hosts := AddChild(p.hosts, k, Child(name, ip)), total := p.total + 1)
  }

  function OnePass(items: seq<Item>): Parsed {
    if items == [] then Parsed([], map[], 0, 0)
    else Step(OnePass(items[..|items| - 1]), items[|items| - 1])
  }

  // Two passes: the hosts first, then every child under the first host with its parent's address.

  datatype Loose = Loose(name: string, ip: IP, parent: Option<IP>)

  function HostLines(items: seq<Item>): seq<HostRec> {
    if items == [] then []
    else
      var front, last := items[..|items| - 1], items[|items| - 1];
      if last.HostLine? then HostLines(front) + [HostRec(last.name, last.ip, multiset{})] else HostLines(front)
  }

  function ChildrenOf(items: seq<Item>, ip: IP): multiset<Child> {
    if items == [] then multiset{}
    else
      var front, last := items[..|items| - 1], items[|items| - 1];
      if last.ChildLine? && last.parent == Some(ip) then ChildrenOf(front, ip) + multiset{Child(last.name, last.ip)}
      else ChildrenOf(front, ip)
  }

  predicate HasHost(hosts: seq<HostRec>, ip: Option<IP>) { exists k :: 0 <= k < |hosts| && Some(hosts[k].ip) == ip }

  /** The children no host line of `hosts` is the parent of, in line order. */
  function Unattached(items: seq<Item>, hosts: seq<HostRec>): seq<Loose> {
    if items == [] then []
    else
      var front, last := items[..|items| - 1], items[|items| - 1];
      if last.ChildLine? && !HasHost(hosts, last.parent) then
        Unattached(front, hosts) + [Loose(last.name, last.ip, last.parent)]
      else Unattached(front, hosts)
  }

  /** A host gets all the children of its address, if it is the first host with that address. */
  function Fill(items: seq<Item>, hosts: seq<HostRec>, k: nat): HostRec
    requires k < |hosts|
  {
    hosts[k].(children := if HasHost(hosts[..k], Some(hosts[k].ip)) then multiset{} else ChildrenOf(items, hosts[k].ip))
  }

  function WithChildren(items: seq<Item>, hosts: seq<HostRec>): (r: seq<HostRec>)
    ensures |r| == |hosts| && forall k :: 0 <= k < |hosts| ==> r[k] == Fill(items, hosts, k)
  {
    seq(|hosts|, k requires 0 <= k < |hosts| => Fill(items, hosts, k))
  }

  function TwoPassHosts(items: seq<Item>): seq<HostRec> { WithChildren(items, HostLines(items)) }

  function TwoPassOrphans(items: seq<Item>): seq<Loose> { Unattached(items, HostLines(items)) }

  // The one pass with a list of orphans in place of the table, so that none is ever overwritten.

  datatype Listed = Listed(hosts: seq<HostRec>, loose: seq<Loose>)

  function Stay(loose: seq<Loose>, ip: IP): seq<Loose> {
    if loose == [] then []
    else if loose[0].parent == Some(ip) then Stay(loose[1..], ip)
    else [loose[0]] + Stay(loose[1..], ip)
  }

  function Leave(loose: seq<Loose>, ip: IP): seq<Child> {
    if loose == [] then []
    else if loose[0].parent == Some(ip) then [Child(loose[0].name, loose[0].ip)] + Leave(loose[1..], ip)
    else Leave(loose[1..], ip)
  }

  function ListStep(p: Listed, item: Item): Listed {
    match item
    case Ignored => p
    case DtdLink => p
    case HostLine(name, ip) =>
      Listed(p.hosts + [HostRec(name, ip, multiset(Leave(p.loose, ip)))], Stay(p.loose, ip))
    case ChildLine(name, ip, parent) =>
      var k := FirstHost(p.hosts, parent);
      if k == |p.hosts| then Listed(p.hosts, p.loose + [Loose(name, ip, parent)])
      else Listed(AddChild(p.hosts, k, Child(name, ip)), p.loose)
  }

  function TwoPass(items: seq<Item>): Listed { Listed(TwoPassHosts(items), TwoPassOrphans(items)) }

  lemma {:induction false} StayAppend(a: seq<Loose>, b: seq<Loose>, ip: IP)
    ensures Stay(a + b, ip) == Stay(a, ip) + Stay(b, ip) && Leave(a + b, ip) == Leave(a, ip) + Leave(b, ip)
  {
    if a == [] {
      assert a + b == b;
    } else {
      assert (a + b)[1..] == a[1..] + b;
      StayAppend(a[1..], b, ip);
    }
  }

  /** A further host line takes exactly its own children out of the unattached ones. */
  lemma {:induction false} UnattachedAfterHost(items: seq<Item>, hosts: seq<HostRec>, host: HostRec)
    ensures Unattached(items, hosts + [host]) == Stay(Unattached(items, hosts), host.ip)
    ensures !HasHost(hosts, Some(host.ip)) ==>
      multiset(Leave(Unattached(items, hosts), host.ip)) == ChildrenOf(items, host.ip)
    ensures HasHost(hosts, Some(host.ip)) ==> Leave(Unattached(items, hosts), host.ip) == []
  {
    if items != [] {
      var front, last := items[..|items| - 1], items[|items| - 1];
      UnattachedAfterHost(front, hosts, host);
      HasHostAppend(hosts, host);
      if last.ChildLine? && !HasHost(hosts, last.parent) {
        var l := Loose(last.name, last.ip, last.parent);
        StayAppend(Unattached(front, hosts), [l], host.ip);
        assert Stay([l], host.ip) == if l.parent == Some(host.ip) then [] else [l];
        assert Leave([l], host.ip) == if l.parent == Some(host.ip) then [Child(l.name, l.ip)] else [];
      }
    }
  }

  lemma HasHostAppend(hosts: seq<HostRec>, host: HostRec)
    ensures forall ip :: HasHost(hosts + [host], ip) <==> HasHost(hosts, ip) || ip == Some(host.ip)
  {
    forall ip ensures HasHost(hosts + [host], ip) <==> HasHost(hosts, ip) || ip == Some(host.ip) {
      if HasHost(hosts, ip) {
        var k :| 0 <= k < |hosts| && Some(hosts[k].ip) == ip;
        assert (hosts + [host])[k] == hosts[k];
      }
      assert (hosts + [host])[|hosts|] == host;
    }
  }

  /** The list version is the two-pass reading, one line further. */
  lemma TwoPassStep(items: seq<Item>, item: Item)
    ensures TwoPass(items + [item]) == ListStep(TwoPass(items), item)
  {
    var more := items + [item];
    assert more[..|more| - 1] == items && more[|more| - 1] == item;
    match item
    case Ignored => assert TwoPassHosts(more) == TwoPassHosts(items);
    case DtdLink => assert TwoPassHosts(more) == TwoPassHosts(items);
    case HostLine(name, ip) => HostStep(items, name, ip);
    case ChildLine(name, ip, parent) => ChildStep(items, name, ip, parent);
  }

  lemma HostStep(items: seq<Item>, name: string, ip: IP)
    ensures TwoPass(items + [HostLine(name, ip)]) == ListStep(TwoPass(items), HostLine(name, ip))
  {
    var more := items + [HostLine(name, ip)];
    assert more[..|more| - 1] == items && more[|more| - 1] == HostLine(name, ip);
    var hosts := HostLines(items);
    var host := HostRec(name, ip, multiset{});
    UnattachedAfterHost(items, hosts, host);
    forall k | 0 <= k < |hosts| ensures Fill(more, hosts + [host], k) == TwoPassHosts(items)[k] {
      assert (hosts + [host])[..k] == hosts[..k];
    }
    assert (hosts + [host])[..|hosts|] == hosts;
    assert TwoPassHosts(more) == ListStep(TwoPass(items), HostLine(name, ip)).hosts;
  }

  /** The first host with an address is the same before and after children are filled in. */
  lemma FirstHostOfFilled(items: seq<Item>, hosts: seq<HostRec>, parent: Option<IP>)
    ensures var k := FirstHost(WithChildren(items, hosts), parent);
      && (HasHost(hosts, parent) <==> k < |hosts|)
      && forall j :: 0 <= j < |hosts| && Some(hosts[j].ip) == parent ==> (HasHost(hosts[..j], parent) <==> j != k)
  {
    var filled := WithChildren(items, hosts);
    var k := FirstHost(filled, parent);
    assert forall j :: 0 <= j < |hosts| ==> filled[j].ip == hosts[j].ip;
    forall j | 0 <= j < |hosts| && Some(hosts[j].ip) == parent ensures HasHost(hosts[..j], parent) <==> j != k {
      if j != k { assert hosts[..j][k].ip == filled[k].ip; }
    }
  }

  lemma ChildStep(items: seq<Item>, name: string, ip: IP, parent: Option<IP>)
    ensures TwoPass(items + [ChildLine(name, ip, parent)]) == ListStep(TwoPass(items), ChildLine(name, ip, parent))
  {
    var more := items + [ChildLine(name, ip, parent)];
    assert more[..|more| - 1] == items && more[|more| - 1] == ChildLine(name, ip, parent);
    var hosts, got := HostLines(items), TwoPassHosts(items);
    var k := FirstHost(got, parent);
    FirstHostOfFilled(items, hosts, parent);
    forall j | 0 <= j < |hosts| ensures Fill(more, hosts, j) ==
      if j == k then got[j].(children := got[j].children + multiset{Child(name, ip)}) else got[j]
    {
    }
    if k < |got| {
      assert TwoPassHosts(more) == AddChild(got, k, Child(name, ip));
    } else {
      assert TwoPassHosts(more) == got;
    }
  }

  // The table against the list.

  ghost predicate NamesDistinct(loose: seq<Loose>) {
    forall i, j :: 0 <= i < j < |loose| ==> loose[i].name != loose[j].name
  }

  ghost predicate TableIsList(orphans: map<string, Orphan>, loose: seq<Loose>) {
    && NamesDistinct(loose)
    && (forall l :: l in loose ==> l.name in orphans && orphans[l.name] == Orphan(l.ip, l.parent))
    && (forall n :: n in orphans ==> Loose(n, orphans[n].ip, orphans[n].parent) in loose)
  }

  /** Lines that put an orphan into the table under a name that is taken there. */
  function Overwrites(p: Parsed, item: Item): nat {
    if item.ChildLine? && FirstHost(p.hosts, item.parent) == |p.hosts| && item.name in p.orphans then 1 else 0
  }

  function Lost(items: seq<Item>): nat {
    if items == [] then 0
    else Lost(items[..|items| - 1]) + Overwrites(OnePass(items[..|items| - 1]), items[|items| - 1])
  }

  lemma {:induction false} StayMembers(loose: seq<Loose>, ip: IP)
    ensures forall l :: l in Stay(loose, ip) <==> l in loose && l.parent != Some(ip)
    ensures forall c :: c in Leave(loose, ip) <==> Loose(c.name, c.ip, Some(ip)) in loose
  {
    if loose != [] {
      var rest := loose[1..];
      StayMembers(rest, ip);
      assert forall l :: l in loose <==> l == loose[0] || l in rest;
      forall c ensures c in Leave(loose, ip) <==> Loose(c.name, c.ip, Some(ip)) in loose {
        assert Loose(c.name, c.ip, Some(ip)) in loose
          <==> Loose(c.name, c.ip, Some(ip)) == loose[0] || Loose(c.name, c.ip, Some(ip)) in rest;
      }
    }
  }

  lemma {:induction false} StayKeepsDistinct(loose: seq<Loose>, ip: IP)
    requires NamesDistinct(loose)
    ensures NamesDistinct(Stay(loose, ip)) && Distinct(Leave(loose, ip))
  {
    if loose != [] {
      var rest := loose[1..];
      StayMembers(rest, ip);
      StayKeepsDistinct(rest, ip);
      forall l | l in rest ensures l.name != loose[0].name {
        var j :| 0 <= j < |rest| && rest[j] == l;
        assert loose[j + 1] == l;
      }
    }
  }
}
