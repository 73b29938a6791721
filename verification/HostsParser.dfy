/** The hosts parser on its own objects: hosts to which children, and later services, are added. */
module HostsParser {
  import opened Options
  import opened Tally
  import opened HostsSpec

  /** A service is named by its position in the parsed list of services (a pointer in hosts_parser.go). */
  type ServiceId = nat

  datatype HostData = HostData(name: string, ip: IP, services: seq<ServiceId>)

  class Host {
    const name: string
    const ip: IP
    var children: seq<HostData>
    var services: seq<ServiceId>

    constructor (name: string, ip: IP)
      ensures this.name == name && this.ip == ip && children == [] && services == []
    {
      this.name, this.ip := name, ip;
      children, services := [], [];
    }

    method AddChild(child: HostData)
      modifies this`children
      ensures children == old(children) + [child]
    {
      children := children + [child];
    }
  }

  function Kids(children: seq<HostData>): (r: seq<Child>)
    ensures |r| == |children| && forall i :: 0 <= i < |r| ==> r[i] == Child(children[i].name, children[i].ip)
  {
    seq(|children|, i requires 0 <= i < |children| => Child(children[i].name, children[i].ip))
  }

  lemma KidsPush(children: seq<HostData>, x: HostData)
    ensures Kids(children + [x]) == Kids(children) + [Child(x.name, x.ip)]
  {
  }

  ghost predicate Unserved(h: Host)
    reads h
  {
    h.services == [] && forall c :: c in h.children ==> c.services == []
  }

  /** A host object stands for a host record; the order of its children is not looked at. */
  ghost predicate Shows(h: Host, r: HostRec)
    reads h
  {
    h.name == r.name && h.ip == r.ip && multiset(Kids(h.children)) == r.children && Unserved(h)
  }

  ghost predicate ShowsAll(ret: seq<Host>, hosts: seq<HostRec>)
    reads ret
  {
    |ret| == |hosts| && (forall k :: 0 <= k < |ret| ==> Shows(ret[k], hosts[k])) && Distinct(ret)
  }

  function Items(lines: seq<Line>): (r: seq<Item>)
    ensures |r| == |lines| && forall k :: 0 <= k < |lines| ==> r[k] == Classify(lines[k])
  {
    seq(|lines|, k requires 0 <= k < |lines| => Classify(lines[k]))
  }

  function AdoptedAmong(orphans: map<string, Orphan>, ip: IP, names: set<string>): set<Child> {
    set n | n in AdoptedNames(orphans, ip) && n in names :: Child(n, orphans[n].ip)
  }

  lemma AdoptOneMore(orphans: map<string, Orphan>, ip: IP, names: set<string>, n: string)
    requires n in orphans && n !in names
    ensures multiset(AdoptedAmong(orphans, ip, names + {n}))
         == multiset(AdoptedAmong(orphans, ip, names))
          + if orphans[n].parent == Some(ip) then multiset{Child(n, orphans[n].ip)} else multiset{}
  {
    var before, after := AdoptedAmong(orphans, ip, names), AdoptedAmong(orphans, ip, names + {n});
    var c := Child(n, orphans[n].ip);
    if orphans[n].parent == Some(ip) {
      assert n in AdoptedNames(orphans, ip);
      assert after == before + {c};
      assert c !in before;
    } else {
      assert after == before;
    }
  }

  /** Moves the orphans of a new host out of the table, visiting the table in any order. */
  method Adopt(host: Host, orphans: map<string, Orphan>) returns (left: map<string, Orphan>)
    requires host.children == [] && host.services == []
    modifies host`children
    ensures multiset(Kids(host.children)) == multiset(Adopted(orphans, host.ip))
    ensures left == orphans - AdoptedNames(orphans, host.ip) && Unserved(host)
  {
    var todo := orphans.Keys;
    var toRemove: set<string> := {};
    assert AdoptedAmong(orphans, host.ip, orphans.Keys - todo) == {};
    while todo != {}
      invariant todo <= orphans.Keys && Unserved(host)
      invariant toRemove == AdoptedNames(orphans, host.ip) - todo
      invariant multiset(Kids(host.children)) == multiset(AdoptedAmong(orphans, host.ip, orphans.Keys - todo))
      decreases todo
    {
      var n :| n in todo;
      AdoptOneMore(orphans, host.ip, orphans.Keys - todo, n);
      assert orphans.Keys - (todo - {n}) == (orphans.Keys - todo) + {n};
      if orphans[n].parent == Some(host.ip) {
        KidsPush(host.children, HostData(n, orphans[n].ip, []));
        host.AddChild(HostData(n, orphans[n].ip, []));
        toRemove := toRemove + {n};
      }
      todo := todo - {n};
    }
    assert AdoptedAmong(orphans, host.ip, orphans.Keys) == Adopted(orphans, host.ip);
    left := orphans - toRemove;
  }

  /** The position of the first host with this address, or the number of hosts. */
  method FindParent(ret: seq<Host>, ghost hosts: seq<HostRec>, parent: Option<IP>) returns (k: nat)
    requires ShowsAll(ret, hosts)
    ensures k == FirstHost(hosts, parent)
  {
    for i := 0 to |ret|
      invariant forall j :: 0 <= j < i ==> Some(ret[j].ip) != parent
    {
      if Some(ret[i].ip) == parent {
        assert forall j :: 0 <= j < i ==> Some(hosts[j].ip) != parent;
        return i;
      }
    }
    assert forall j :: 0 <= j < |hosts| ==> Some(hosts[j].ip) == Some(ret[j].ip);
    return |ret|;
  }

  method AttachChild(ret: seq<Host>, ghost hosts: seq<HostRec>, k: nat, name: string, ip: IP)
    requires ShowsAll(ret, hosts) && k < |ret|
    modifies ret[k]
    ensures ShowsAll(ret, AddChild(hosts, k, Child(name, ip)))
  {
    KidsPush(ret[k].children, HostData(name, ip, []));
    ret[k].AddChild(HostData(name, ip, []));
    ghost var want := AddChild(hosts, k, Child(name, ip));
    forall j | 0 <= j < |ret| ensures Shows(ret[j], want[j]) {
      if j != k { assert ret[j] != ret[k] && Shows(ret[j], hosts[j]); }
    }
  }

  /** A new host with the orphans waiting for it. */
  method NewHost(ret: seq<Host>, ghost hosts: seq<HostRec>, name: string, ip: IP, orphans: map<string, Orphan>)
    returns (host: Host, left: map<string, Orphan>)
    requires ShowsAll(ret, hosts)
    ensures fresh(host) && left == orphans - AdoptedNames(orphans, ip)
    ensures ShowsAll(ret + [host], hosts + [HostRec(name, ip, multiset(Adopted(orphans, ip)))])
  {
    host := new Host(name, ip);
    assert forall k :: 0 <= k < |ret| ==> Shows(ret[k], hosts[k]);
    left := Adopt(host, orphans);
    assert Shows(host, HostRec(name, ip, multiset(Adopted(orphans, ip))));
  }

  /** One turn of the loop over the lines. */
  method TakeLine(line: Line, ret0: seq<Host>, orphans0: map<string, Orphan>, count0: nat, total0: nat, ghost p: Parsed)
    returns (ret: seq<Host>, orphans: map<string, Orphan>, count: nat, totalCount: nat)
    requires ShowsAll(ret0, p.hosts) && orphans0 == p.orphans && count0 == p.count && total0 == p.total
    modifies ret0
    ensures ShowsAll(ret, Step(p, Classify(line)).hosts) && orphans == Step(p, Classify(line)).orphans
    ensures count == Step(p, Classify(line)).count && totalCount == Step(p, Classify(line)).total
    ensures forall h :: h in ret ==> h in ret0 || fresh(h)
  {
    hide ShowsAll, Adopted, AdoptedNames;
    ret, orphans, count, totalCount := ret0, orphans0, count0, total0;
    if line.name == "localhost" {
      return;
    }
    if '.' in line.name {
      if "dtdlink." <= line.name {
        count := count + 1;
      }
      return;
    }
    if line.name == "" {
      return;
    }
    if line.ip.None? {
      return;
    }
    var ip := line.ip.value;
    totalCount := totalCount + 1;
    if line.parent != Some(ip) {
      var k := FindParent(ret, p.hosts, line.parent);
      ShownLengths(ret, p.hosts);
      if k == |ret| {
        orphans := orphans[line.name := Orphan(ip, line.parent)];
        return;
      }
      AttachChild(ret, p.hosts, k, line.name, ip);
      return;
    }
    var host;
    host, orphans := NewHost(ret, p.hosts, line.name, ip, orphans);
    ret := ret + [host];
  }

  /** The part of parseHosts that reads lines. */
  method ParseLines(lines: seq<Line>)
    returns (ret: seq<Host>, count: nat, totalCount: nat, orphans: map<string, Orphan>)
    ensures ShowsAll(ret, OnePass(Items(lines)).hosts) && orphans == OnePass(Items(lines)).orphans
    ensures count == OnePass(Items(lines)).count && totalCount == OnePass(Items(lines)).total
    ensures forall h :: h in ret ==> fresh(h)
  {
    ret, count, totalCount, orphans := [], 0, 0, map[];
    ghost var items, p := Items(lines), Parsed([], map[], 0, 0);
    for n := 0 to |lines|
      invariant p == OnePass(items[..n])
      invariant ShowsAll(ret, p.hosts) && orphans == p.orphans && count == p.count && totalCount == p.total
      invariant forall h :: h in ret ==> fresh(h)
    {
      OnePassGrows(items, n);
      hide OnePass, ShowsAll, Step;
      assert forall k :: 0 <= k < |ret| ==> ret[k] in ret;
      ret, orphans, count, totalCount := TakeLine(lines[n], ret, orphans, count, totalCount, p);
      p := Step(p, items[n]);
    }
    assert items[..|lines|] == items;
  }

  lemma OnePassGrows(items: seq<Item>, n: nat)
    requires n < |items|
    ensures OnePass(items[..n + 1]) == Step(OnePass(items[..n]), items[n])
  {
    assert items[..n + 1][..n] == items[..n];
  }

  lemma ShownLengths(ret: seq<Host>, hosts: seq<HostRec>)
    requires ShowsAll(ret, hosts)
    ensures |ret| == |hosts|
  {
  }
}
