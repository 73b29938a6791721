/** When the one pass over the hosts file is the two-pass reading. */
module HostsAdoption {
  import opened Options
  import opened Tally
  import opened HostsSpec

  lemma {:induction false} DistinctSeqAsSet<T>(s: seq<T>, all: set<T>)
    requires Distinct(s) && forall x :: x in s <==> x in all
    ensures multiset(s) == multiset(all) && |all| == |s|
  {
    if s == [] {
      assert all == {};
    } else {
      var rest := all - {s[0]};
      assert forall x :: x in s[1..] <==> x in rest;
      DistinctSeqAsSet(s[1..], rest);
      assert s == [s[0]] + s[1..];
      assert all == rest + {s[0]};
    }
  }

  lemma AdoptedAreLeaving(orphans: map<string, Orphan>, loose: seq<Loose>, ip: IP)
    requires TableIsList(orphans, loose)
    ensures multiset(Adopted(orphans, ip)) == multiset(Leave(loose, ip)) && |Adopted(orphans, ip)| == |Leave(loose, ip)|
    ensures TableIsList(orphans - AdoptedNames(orphans, ip), Stay(loose, ip))
  {
    StayMembers(loose, ip);
    StayKeepsDistinct(loose, ip);
    var adopted := Adopted(orphans, ip);
    forall c ensures c in Leave(loose, ip) <==> c in adopted {
      var l := Loose(c.name, c.ip, Some(ip));
      if l in loose { assert c.name in AdoptedNames(orphans, ip); }
    }
    DistinctSeqAsSet(Leave(loose, ip), adopted);
  }

  lemma TableStep(p: Parsed, l: Listed, item: Item)
    requires p.hosts == l.hosts && TableIsList(p.orphans, l.loose) && Overwrites(p, item) == 0
    ensures Step(p, item).hosts == ListStep(l, item).hosts
    ensures TableIsList(Step(p, item).orphans, ListStep(l, item).loose)
  {
    if item.HostLine? {
      AdoptedAreLeaving(p.orphans, l.loose, item.ip);
    }
  }

  /** The one pass has done what the two passes do. */
  ghost predicate Agrees(items: seq<Item>) {
    OnePass(items).hosts == TwoPassHosts(items) && TableIsList(OnePass(items).orphans, TwoPassOrphans(items))
  }

  lemma {:induction false} NothingLostMeansAgreement(items: seq<Item>)
    requires Lost(items) == 0
    ensures Agrees(items)
  {
    if items != [] {
      var front, last := items[..|items| - 1], items[|items| - 1];
      NothingLostMeansAgreement(front);
      TableStep(OnePass(front), TwoPass(front), last);
      TwoPassStep(front, last);
      assert items == front + [last];
    }
  }

  // Counting.

  function Attached(hosts: seq<HostRec>): nat {
    if hosts == [] then 0 else |hosts[0].children| + Attached(hosts[1..])
  }

  lemma {:induction false} AttachedPush(hosts: seq<HostRec>, host: HostRec)
    ensures Attached(hosts + [host]) == Attached(hosts) + |host.children|
  {
    if hosts == [] {
      assert hosts + [host] == [host] && [host][1..] == [];
    } else {
      assert (hosts + [host])[1..] == hosts[1..] + [host];
      AttachedPush(hosts[1..], host);
    }
  }

  lemma {:induction false} AttachedAddChild(hosts: seq<HostRec>, k: nat, child: Child)
    requires k < |hosts|
    ensures Attached(AddChild(hosts, k, child)) == Attached(hosts) + 1
  {
    if k == 0 {
      assert AddChild(hosts, k, child)[1..] == hosts[1..];
    } else {
      assert AddChild(hosts, k, child)[1..] == AddChild(hosts[1..], k - 1, child);
      AttachedAddChild(hosts[1..], k - 1, child);
    }
  }

  lemma {:induction false} AdoptedSize(orphans: map<string, Orphan>, names: set<string>)
    requires names <= orphans.Keys
    ensures |set n | n in names :: Child(n, orphans[n].ip)| == |names|
  {
    var all := set n | n in names :: Child(n, orphans[n].ip);
    if names == {} {
      assert all == {};
    } else {
      var n :| n in names;
      var rest := names - {n};
      AdoptedSize(orphans, rest);
      var others := set m | m in rest :: Child(m, orphans[m].ip);
      assert all == others + {Child(n, orphans[n].ip)};
      assert Child(n, orphans[n].ip) !in others;
    }
  }

  /** Every counted line is a host, an attached child, an orphan, or was lost by overwriting: for any
      lines in any order. */
  lemma {:induction false} EveryLineAccountedFor(items: seq<Item>)
    ensures var p := OnePass(items);
      p.total == |p.hosts| + Attached(p.hosts) + |p.orphans| + Lost(items)
  {
    if items != [] {
      var front, last := items[..|items| - 1], items[|items| - 1];
      EveryLineAccountedFor(front);
      var p := OnePass(front);
      match last
      case Ignored =>
      case DtdLink =>
      case HostLine(name, ip) =>
        var names := AdoptedNames(p.orphans, ip);
        AdoptedSize(p.orphans, names);
        AttachedPush(p.hosts, HostRec(name, ip, multiset(Adopted(p.orphans, ip))));
        assert (p.orphans - names).Keys == p.orphans.Keys - names;
        assert |p.orphans.Keys - names| == |p.orphans.Keys| - |names|;
        assert |p.orphans - names| == |(p.orphans - names).Keys|;
      case ChildLine(name, ip, parent) =>
        var k := FirstHost(p.hosts, parent);
        if k < |p.hosts| {
          AttachedAddChild(p.hosts, k, Child(name, ip));
        } else {
          var orphans := p.orphans[name := Orphan(ip, parent)];
          assert orphans.Keys == p.orphans.Keys + {name};
          assert |orphans| == |orphans.Keys| && |p.orphans| == |p.orphans.Keys|;
        }
    }
  }

  lemma {:induction false} StayAndLeave(loose: seq<Loose>, ip: IP)
    ensures |Stay(loose, ip)| + |Leave(loose, ip)| == |loose|
  {
    if loose != [] { StayAndLeave(loose[1..], ip); }
  }

  /** The two-pass reading accounts for every counted line. */
  lemma {:induction false} TwoPassLosesNothing(items: seq<Item>)
    ensures |TwoPassHosts(items)| + Attached(TwoPassHosts(items)) + |TwoPassOrphans(items)| == OnePass(items).total
  {
    if items != [] {
      var front, last := items[..|items| - 1], items[|items| - 1];
      assert items == front + [last];
      TwoPassLosesNothing(front);
      TwoPassStep(front, last);
      var p := TwoPass(front);
      match last
      case Ignored =>
      case DtdLink =>
      case HostLine(name, ip) =>
        StayAndLeave(p.loose, ip);
        AttachedPush(p.hosts, HostRec(name, ip, multiset(Leave(p.loose, ip))));
      case ChildLine(name, ip, parent) =>
        var k := FirstHost(p.hosts, parent);
        if k < |p.hosts| { AttachedAddChild(p.hosts, k, Child(name, ip)); }
    }
  }

  lemma TableSize(orphans: map<string, Orphan>, loose: seq<Loose>)
    requires TableIsList(orphans, loose)
    ensures |orphans| == |loose|
  {
    var names := seq(|loose|, k requires 0 <= k < |loose| => loose[k].name);
    forall n ensures n in names <==> n in orphans.Keys {
      if n in names {
        var k :| 0 <= k < |names| && names[k] == n;
        assert loose[k] in loose;
      }
      if n in orphans {
        var k :| 0 <= k < |loose| && loose[k] == Loose(n, orphans[n].ip, orphans[n].parent);
        assert names[k] == n;
      }
    }
    DistinctSeqAsSet(names, orphans.Keys);
    assert |orphans| == |orphans.Keys|;
  }

  // The condition on the lines.

  /** Two child lines of one name, both before any line for the parent of either. */
  ghost predicate Clash(items: seq<Item>, i: nat, j: nat) {
    && i < j < |items| && items[i].ChildLine? && items[j].ChildLine? && items[i].name == items[j].name
    && !HasHost(HostLines(items[..j]), items[i].parent) && !HasHost(HostLines(items[..j]), items[j].parent)
  }

  ghost predicate LastClashes(items: seq<Item>, i: nat) { items != [] && Clash(items, i, |items| - 1) }

  ghost predicate SomeClash(items: seq<Item>) { exists i: nat, j: nat :: Clash(items, i, j) }

  lemma {:induction false} UnattachedMember(items: seq<Item>, hosts: seq<HostRec>, l: Loose)
    ensures l in Unattached(items, hosts)
      <==> !HasHost(hosts, l.parent) && ChildLine(l.name, l.ip, l.parent) in items
  {
    if items != [] {
      var front, last := items[..|items| - 1], items[|items| - 1];
      UnattachedMember(front, hosts, l);
      assert items == front + [last];
      assert forall x :: x in items <==> x in front || x == last;
    }
  }

  /** The last line overwrites an orphan exactly when it clashes with an earlier line. */
  lemma LastOverwrites(items: seq<Item>)
    requires items != [] && Lost(items[..|items| - 1]) == 0
    ensures Overwrites(OnePass(items[..|items| - 1]), items[|items| - 1]) == 1
      <==> exists i: nat :: LastClashes(items, i)
  {
    var front, last := items[..|items| - 1], items[|items| - 1];
    var p, hosts := OnePass(front), HostLines(front);
    NothingLostMeansAgreement(front);
    if last.ChildLine? {
      FirstHostOfFilled(front, hosts, last.parent);
      if last.name in p.orphans && !HasHost(hosts, last.parent) {
        var l := Loose(last.name, p.orphans[last.name].ip, p.orphans[last.name].parent);
        UnattachedMember(front, hosts, l);
        var i :| 0 <= i < |front| && front[i] == ChildLine(l.name, l.ip, l.parent);
        assert LastClashes(items, i);
      }
      forall i: nat | LastClashes(items, i) ensures last.name in p.orphans && !HasHost(hosts, last.parent) {
        assert items[i] == front[i];
        UnattachedMember(front, hosts, Loose(items[i].name, items[i].ip, items[i].parent));
      }
    }
  }

  lemma {:induction false} LostIffClash(items: seq<Item>)
    ensures Lost(items) == 0 <==> !SomeClash(items)
  {
    if items != [] {
      var front, n := items[..|items| - 1], |items| - 1;
      LostIffClash(front);
      forall i: nat, j: nat | Clash(front, i, j) ensures Clash(items, i, j) {
        assert front[..j] == items[..j];
      }
      forall i: nat, j: nat | Clash(items, i, j) && j < n ensures Clash(front, i, j) {
        assert front[..j] == items[..j];
      }
      assert SomeClash(items) <==> SomeClash(front) || exists i: nat :: LastClashes(items, i) by {
        if i: nat, j: nat :| Clash(items, i, j) {
          if j == n { assert LastClashes(items, i); }
        }
        if i: nat :| LastClashes(items, i) { assert Clash(items, i, n); }
      }
      if Lost(front) == 0 { LastOverwrites(items); }
    }
  }

  /** One pass gives the two-pass reading (every child under the first host line with its parent's
      address, wherever the child stands, and the rest left over) exactly when no two child lines of
      one name stand before the host lines of both their parents. */
  lemma AdoptionIsTwoPassIff(items: seq<Item>)
    ensures Agrees(items) <==> !SomeClash(items)
  {
    LostIffClash(items);
    if Lost(items) == 0 {
      NothingLostMeansAgreement(items);
    } else if Agrees(items) {
      EveryLineAccountedFor(items);
      TwoPassLosesNothing(items);
      TableSize(OnePass(items).orphans, TwoPassOrphans(items));
    }
  }

  lemma OnePassPush(items: seq<Item>, item: Item)
    ensures OnePass(items + [item]) == Step(OnePass(items), item)
  {
    assert (items + [item])[..|items|] == items;
  }

  /** It fails for two children of one name that come before their parent: the host gets the second only. */
  lemma ClashLosesChild(name: string, x: IP, y: IP, host: string, ip: IP)
    ensures var items := [ChildLine(name, x, Some(ip)), ChildLine(name, y, Some(ip)), HostLine(host, ip)];
      OnePass(items).hosts == [HostRec(host, ip, multiset{Child(name, y)})] && Lost(items) > 0 && !Agrees(items)
  {
    var c, d, h := ChildLine(name, x, Some(ip)), ChildLine(name, y, Some(ip)), HostLine(host, ip);
    var items := [c, d, h];
    assert [c, d] + [h] == items && [c] + [d] == [c, d] && [] + [c] == [c];
    OnePassPush([], c);
    assert OnePass([c]) == Parsed([], map[name := Orphan(x, Some(ip))], 0, 1);
    OnePassPush([c], d);
    assert OnePass([c, d]) == Parsed([], map[name := Orphan(y, Some(ip))], 0, 2);
    OnePassPush([c, d], h);
    OrphanComesHome(OnePass([c, d]), name, y, host, ip);
    assert items[..0] == items[..1][..0] == [] && items[..1] == [c];
    assert HostLines(items[..1]) == HostLines([]) == [];
    assert Clash(items, 0, 1);
    AdoptionIsTwoPassIff(items);
    LostIffClash(items);
  }

  lemma OrphanComesHome(p: Parsed, name: string, y: IP, host: string, ip: IP)
    requires p.orphans == map[name := Orphan(y, Some(ip))]
    ensures Step(p, HostLine(host, ip)).hosts == p.hosts + [HostRec(host, ip, multiset{Child(name, y)})]
  {
    assert AdoptedNames(p.orphans, ip) == {name};
    assert Adopted(p.orphans, ip) == {Child(name, y)};
    DistinctSeqAsSet([Child(name, y)], {Child(name, y)});
    assert multiset([Child(name, y)]) == multiset{Child(name, y)};
  }

  /** In particular, whenever child names do not repeat. */
  lemma DistinctNamesAgree(items: seq<Item>)
    requires forall i, j :: 0 <= i < j < |items| && items[i].ChildLine? && items[j].ChildLine? ==>
      items[i].name != items[j].name
    ensures Agrees(items)
    ensures var p := OnePass(items); p.total == |p.hosts| + Attached(p.hosts) + |p.orphans|
  {
    AdoptionIsTwoPassIff(items);
    LostIffClash(items);
    EveryLineAccountedFor(items);
  }

  // Where the children stand does not matter.

  lemma {:induction false} ChildrenOfCount(items: seq<Item>, ip: IP, c: Child)
    ensures ChildrenOf(items, ip)[c] == multiset(items)[ChildLine(c.name, c.ip, Some(ip))]
  {
    if items != [] {
      ChildrenOfCount(items[..|items| - 1], ip, c);
      assert items == items[..|items| - 1] + [items[|items| - 1]];
    }
  }

  /** Two files with the same lines, the host lines in the same order, attach the same children to
      the same hosts, if neither has a clash. */
  lemma AttachmentIgnoresPosition(a: seq<Item>, b: seq<Item>)
    requires multiset(a) == multiset(b) && HostLines(a) == HostLines(b) && !SomeClash(a) && !SomeClash(b)
    ensures OnePass(a).hosts == OnePass(b).hosts
  {
    AdoptionIsTwoPassIff(a);
    AdoptionIsTwoPassIff(b);
    var hosts := HostLines(a);
    forall k | 0 <= k < |hosts| ensures Fill(a, hosts, k) == Fill(b, hosts, k) {
      var ip := hosts[k].ip;
      forall c ensures ChildrenOf(a, ip)[c] == ChildrenOf(b, ip)[c] {
        ChildrenOfCount(a, ip, c);
        ChildrenOfCount(b, ip, c);
      }
      assert ChildrenOf(a, ip) == ChildrenOf(b, ip);
    }
    assert TwoPassHosts(a) == TwoPassHosts(b);
  }
}
