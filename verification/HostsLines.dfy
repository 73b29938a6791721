/** What the parser of the hosts file makes of the lines themselves: which are hosts, which are children,
    and what is counted. */
module HostsLines {
  import opened Options
  import opened Tally
  import opened HostsSpec
  import opened HostsAdoption
  import opened HostsParser

  /** The name is one that the parser looks at, and the address parses. */
  predicate IsEntry(line: Line) {
    line.name != "" && line.name != "localhost" && '.' !in line.name && line.ip.Some?
  }

  /** The line's parent is its own address, as `#myself` says. */
  predicate IsHost(line: Line) { IsEntry(line) && line.parent == line.ip }

  /** A child has another parent, or none. */
  predicate IsChild(line: Line) { IsEntry(line) && line.parent != line.ip }

  predicate IsDtdLink(line: Line) { '.' in line.name && "dtdlink." <= line.name }

  function HowMany(lines: seq<Line>, counts: Line -> bool): nat {
    if lines == [] then 0
    else HowMany(lines[..|lines| - 1], counts) + if counts(lines[|lines| - 1]) then 1 else 0
  }

  /** Names and addresses of the host lines, in order. */
  function HostsOf(lines: seq<Line>): seq<Child> {
    if lines == [] then []
    else
      var front, last := lines[..|lines| - 1], lines[|lines| - 1];
      if IsHost(last) then HostsOf(front) + [Child(last.name, last.ip.value)] else HostsOf(front)
  }

  /** The child lines with this parent that say this child. */
  function SaysChild(c: Child, parent: IP): Line -> bool {
    (line: Line) => IsChild(line) && line.name == c.name && line.ip == Some(c.ip) && line.parent == Some(parent)
  }

  predicate HostBefore(lines: seq<Line>, j: nat, ip: Option<IP>) {
    exists k :: 0 <= k < j && k < |lines| && IsHost(lines[k]) && lines[k].ip == ip
  }

  /** Two child lines of one name, before any host line for the parent of either. */
  ghost predicate LinesClash(lines: seq<Line>) {
    exists i: nat, j: nat :: i < j < |lines| && IsChild(lines[i]) && IsChild(lines[j])
      && lines[i].name == lines[j].name
      && !HostBefore(lines, j, lines[i].parent) && !HostBefore(lines, j, lines[j].parent)
  }

  // How lines and items correspond.

  lemma ItemIs(line: Line)
    ensures IsHost(line) ==> Classify(line) == HostLine(line.name, line.ip.value)
    ensures IsChild(line) ==> Classify(line) == ChildLine(line.name, line.ip.value, line.parent)
    ensures IsDtdLink(line) ==> Classify(line) == DtdLink
    ensures !IsEntry(line) && !IsDtdLink(line) ==> Classify(line) == Ignored
  {
    assert '.' !in "localhost";
  }

  lemma ItemsFront(lines: seq<Line>)
    requires lines != []
    ensures var items := Items(lines);
      items[..|items| - 1] == Items(lines[..|lines| - 1]) && items[|items| - 1] == Classify(lines[|lines| - 1])
  {
  }

  function NamesOf(hosts: seq<HostRec>): (r: seq<Child>)
    ensures |r| == |hosts| && forall k :: 0 <= k < |hosts| ==> r[k] == Child(hosts[k].name, hosts[k].ip)
  {
    seq(|hosts|, k requires 0 <= k < |hosts| => Child(hosts[k].name, hosts[k].ip))
  }

  lemma NamesPush(hosts: seq<HostRec>, host: HostRec)
    ensures NamesOf(hosts + [host]) == NamesOf(hosts) + [Child(host.name, host.ip)]
  {
  }

  /** Hosts and both counts of the one pass, of the lines. */
  lemma {:induction false} CountsOf(lines: seq<Line>)
    ensures var p := OnePass(Items(lines));
      && NamesOf(p.hosts) == HostsOf(lines) == NamesOf(HostLines(Items(lines)))
      && p.count == HowMany(lines, IsDtdLink)
      && p.total == HowMany(lines, IsEntry)
  {
    if lines != [] {
      var front, last := lines[..|lines| - 1], lines[|lines| - 1];
      var items := Items(lines);
      CountsOf(front);
      ItemsFront(lines);
      ItemIs(last);
      var p := OnePass(Items(front));
      assert OnePass(items) == Step(p, Classify(last));
      if IsHost(last) {
        NamesPush(p.hosts, HostRec(last.name, last.ip.value, multiset(Adopted(p.orphans, last.ip.value))));
        NamesPush(HostLines(Items(front)), HostRec(last.name, last.ip.value, multiset{}));
      } else if IsChild(last) {
        var k := FirstHost(p.hosts, last.parent);
        if k < |p.hosts| {
          assert NamesOf(AddChild(p.hosts, k, Child(last.name, last.ip.value))) == NamesOf(p.hosts);
        }
      }
    }
  }

  /** The children of an address in the two-pass reading, of the lines. */
  lemma {:induction false} ChildrenAre(lines: seq<Line>, ip: IP, c: Child)
    ensures ChildrenOf(Items(lines), ip)[c] == HowMany(lines, SaysChild(c, ip))
  {
    if lines != [] {
      var front, last := lines[..|lines| - 1], lines[|lines| - 1];
      ChildrenAre(front, ip, c);
      ItemsFront(lines);
      ItemIs(last);
    }
  }

  lemma {:induction false} HostLinesAre(lines: seq<Line>, ip: Option<IP>)
    ensures HasHost(HostLines(Items(lines)), ip)
      <==> exists k :: 0 <= k < |lines| && IsHost(lines[k]) && lines[k].ip == ip
  {
    if lines != [] {
      var front, last := lines[..|lines| - 1], lines[|lines| - 1];
      HostLinesAre(front, ip);
      ItemsFront(lines);
      ItemIs(last);
      assert forall k :: 0 <= k < |front| ==> front[k] == lines[k];
      if IsHost(last) {
        HasHostAppend(HostLines(Items(front)), HostRec(last.name, last.ip.value, multiset{}));
        assert lines[|lines| - 1] == last;
      }
    }
  }

  lemma HostBeforeIs(lines: seq<Line>, j: nat, ip: Option<IP>)
    requires j <= |lines|
    ensures HostBefore(lines, j, ip) <==> HasHost(HostLines(Items(lines)[..j]), ip)
  {
    HostLinesAre(lines[..j], ip);
    assert Items(lines)[..j] == Items(lines[..j]);
    assert forall k :: 0 <= k < j ==> lines[..j][k] == lines[k];
  }

  /** The lines clash exactly when their items do. */
  lemma ClashIs(lines: seq<Line>)
    ensures LinesClash(lines) <==> SomeClash(Items(lines))
  {
    var items := Items(lines);
    forall k | 0 <= k < |lines|
      ensures IsChild(lines[k]) <==> items[k].ChildLine?
      ensures IsChild(lines[k]) ==> items[k] == ChildLine(lines[k].name, lines[k].ip.value, lines[k].parent)
    {
      ItemIs(lines[k]);
    }
    forall i: nat, j: nat | i < j < |lines| && IsChild(lines[i]) && IsChild(lines[j]) && lines[i].name == lines[j].name
      ensures Clash(items, i, j)
        <==> !HostBefore(lines, j, lines[i].parent) && !HostBefore(lines, j, lines[j].parent)
    {
      HostBeforeIs(lines, j, lines[i].parent);
      HostBeforeIs(lines, j, lines[j].parent);
    }
    if i: nat, j: nat :| Clash(items, i, j) {
      assert IsChild(lines[i]) && IsChild(lines[j]) && lines[i].name == lines[j].name;
    }
  }

  // What the one pass makes of the lines.

  /** Host k is given child c exactly as often as a child line with its address for parent says c, if no
      earlier host has the address, and not at all otherwise. */
  ghost predicate HasItsChildren(lines: seq<Line>, hosts: seq<HostRec>, k: nat)
    requires k < |hosts|
  {
    forall c :: hosts[k].children[c] ==
      if exists i :: 0 <= i < k && hosts[i].ip == hosts[k].ip then 0 else HowMany(lines, SaysChild(c, hosts[k].ip))
  }

  /** An orphan of this name is left exactly when a child line has the name and no host line its parent. */
  ghost predicate IsLeftOver(lines: seq<Line>, name: string, orphan: Orphan) {
    exists k :: 0 <= k < |lines| && IsChild(lines[k]) && lines[k].name == name
      && lines[k].ip == Some(orphan.ip) && lines[k].parent == orphan.parent
      && !HostBefore(lines, |lines|, orphan.parent)
  }

  ghost predicate AreLeftOver(lines: seq<Line>, orphans: map<string, Orphan>) {
    && (forall name :: name in orphans ==> IsLeftOver(lines, name, orphans[name]))
    && (forall name, orphan :: IsLeftOver(lines, name, orphan) ==> name in orphans && orphans[name] == orphan)
  }

  /** For lines that do not clash: each host has exactly its children, and the orphans are exactly the
      child lines without a host line for their parent. */
  lemma WithoutClash(lines: seq<Line>)
    requires !LinesClash(lines)
    ensures var p := OnePass(Items(lines));
      && (forall k :: 0 <= k < |p.hosts| ==> HasItsChildren(lines, p.hosts, k))
      && AreLeftOver(lines, p.orphans)
  {
    var items := Items(lines);
    var p := OnePass(items);
    ClashIs(lines);
    AdoptionIsTwoPassIff(items);
    forall k | 0 <= k < |p.hosts| ensures HasItsChildren(lines, p.hosts, k) {
      TwoPassChildren(lines, k);
    }
    forall name, ip, parent
      ensures Loose(name, ip, parent) in TwoPassOrphans(items) <==> IsLeftOver(lines, name, Orphan(ip, parent))
    {
      LooseAre(lines, name, ip, parent);
    }
    hide IsLeftOver, HasItsChildren, OnePass;
    forall name | name in p.orphans ensures IsLeftOver(lines, name, p.orphans[name]) {
      assert Loose(name, p.orphans[name].ip, p.orphans[name].parent) in TwoPassOrphans(items);
    }
    forall name, orphan | IsLeftOver(lines, name, orphan) ensures name in p.orphans && p.orphans[name] == orphan {
      assert Loose(name, orphan.ip, orphan.parent) in TwoPassOrphans(items);
    }
  }

  lemma TwoPassChildren(lines: seq<Line>, k: nat)
    requires k < |TwoPassHosts(Items(lines))|
    ensures HasItsChildren(lines, TwoPassHosts(Items(lines)), k)
  {
    var items := Items(lines);
    var hosts, filled := HostLines(items), TwoPassHosts(items);
    var ip := hosts[k].ip;
    assert filled[k] == Fill(items, hosts, k);
    assert forall i :: 0 <= i < |hosts| ==> filled[i] == Fill(items, hosts, i) && filled[i].ip == hosts[i].ip;
    if HasHost(hosts[..k], Some(ip)) {
      var i :| 0 <= i < k && Some(hosts[..k][i].ip) == Some(ip);
      assert filled[i].ip == ip;
    } else {
      forall i | 0 <= i < k ensures filled[i].ip != ip {
        assert hosts[..k][i].ip == filled[i].ip;
      }
      forall c ensures ChildrenOf(items, ip)[c] == HowMany(lines, SaysChild(c, ip)) {
        ChildrenAre(lines, ip, c);
      }
    }
  }

  lemma LooseAre(lines: seq<Line>, name: string, ip: IP, parent: Option<IP>)
    ensures Loose(name, ip, parent) in TwoPassOrphans(Items(lines)) <==> IsLeftOver(lines, name, Orphan(ip, parent))
  {
    var items := Items(lines);
    UnattachedMember(items, HostLines(items), Loose(name, ip, parent));
    HostBeforeIs(lines, |lines|, parent);
    assert items[..|lines|] == items;
    forall k | 0 <= k < |lines|
      ensures items[k] == ChildLine(name, ip, parent) <==>
        IsChild(lines[k]) && lines[k].name == name && lines[k].ip == Some(ip) && lines[k].parent == parent
    {
      ItemIs(lines[k]);
    }
  }
}
