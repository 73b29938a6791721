/** Route metrics for the node list: the daemon's installed routes are folded to one metric per
    network, and the page then looks for the longest prefix that covers a node's address. */
module Etx {
  import opened Babel
  import opened Options

  type Addr = bv32

  type Length = l: nat | l <= 32

  type ShiftCount = s: bv6 | s <= 32

  function And(x: bv32, y: bv32): bv32 { x & y }

  function Shr(x: bv32, s: ShiftCount): bv32 { x >> s }

  function Shl(x: bv32, s: ShiftCount): bv32 { x << s }

  function Shift(len: Length): ShiftCount { (32 - len) as bv6 }

  /** The page's language shifts by the count modulo 32. */
  function PageShift(len: Length): ShiftCount { ((32 - len) % 32) as bv6 }

  function Mask(len: Length): bv32 { if len == 0 then 0 else Shl(0xffff_ffff, PageShift(len)) }

  function Masked(x: Addr, len: Length): Addr { And(x, Mask(len)) }

  /** The first `len` bits of an address. */
  function Top(x: Addr, len: Length): bv32 { Shr(x, Shift(len)) }

  function FromTop(bits: bv32, len: Length): Addr { Shl(bits, Shift(len)) }

  lemma OnesClearLowBits(x: bv32, s: ShiftCount)
    ensures And(x, Shl(0xffff_ffff, s)) == Shl(Shr(x, s), s)
  {
  }

  lemma ShiftBack(x: bv32, s: ShiftCount)
    ensures Shr(Shl(Shr(x, s), s), s) == Shr(x, s)
  {
  }

  lemma MaskedIsFromTop(x: Addr, len: Length)
    ensures Masked(x, len) == FromTop(Top(x, len), len)
    ensures Top(Masked(x, len), len) == Top(x, len)
  {
    hide And, Shr, Shl, Shift, Mask;
    MaskIsOnes(len);
    OnesClearLowBits(x, Shift(len));
    ShiftBack(x, Shift(len));
  }

  /** With its special case, the page's mask is the mathematical one for every length. */
  lemma MaskIsOnes(len: Length)
    ensures Mask(len) == Shl(0xffff_ffff, Shift(len))
  {
    if len == 0 {
      assert Shift(len) == 32;
    }
  }

  /** The special case is needed: the page's shift alone gives the mask for every length but 0, for
      which it would ask for all 32 bits to be equal. */
  lemma SpecialCaseIsNeeded(len: Length)
    ensures Shl(0xffff_ffff, PageShift(len)) == Mask(len) <==> len != 0
    ensures len == 0 ==> forall x: Addr :: And(x, Shl(0xffff_ffff, PageShift(len))) == x
  {
    assert len == 0 ==> PageShift(len) == 0;
  }

  /** Comparing under the bit mask is comparing the first bits; with length 0 everything is equal. */
  lemma MaskedEqualIffTopEqual(x: Addr, y: Addr, len: Length)
    ensures Masked(x, len) == Masked(y, len) <==> Top(x, len) == Top(y, len)
    ensures len == 0 ==> Masked(x, len) == Masked(y, len)
  {
    assert len == 0 ==> Masked(x, len) == 0 && Masked(y, len) == 0;
    hide Masked, Top, FromTop, Mask, Shift;
    MaskedIsFromTop(x, len);
    MaskedIsFromTop(y, len);
  }

  // Dotted quads.

  /** The page's number for an address. */
  function QuadToAddr(a: bv32, b: bv32, c: bv32, d: bv32): Addr { (a << 24) | (b << 16) | (c << 8) | d }

  /** The four bytes can be read back, so different quads get different numbers. */
  lemma QuadRoundTrip(a: bv32, b: bv32, c: bv32, d: bv32)
    requires a < 256 && b < 256 && c < 256 && d < 256
    ensures var x := QuadToAddr(a, b, c, d);
      x >> 24 == a && (x >> 16) & 255 == b && (x >> 8) & 255 == c && x & 255 == d
  {
  }

  // The routes.

  datatype Network = Network(prefix: Addr, len: Length)

  /** A line of the dump: anything else, or an installed route, with the parts that may be absent or
      fail to parse. No mask means a host route. */
  datatype Line = Other | Route(prefix: Option<Addr>, mask: Option<nat>, metric: Option<nat>)

  /** The address, length and metric of a line that is used: a reachable IPv4 route. */
  datatype Hop = Hop(prefix: Addr, len: Length, metric: nat)

  function Used(line: Line): Option<Hop> {
    if line.Other? || line.metric.None? || line.metric.value == UNREACHABLE then None
    else
      var mask := if line.mask.None? then 32 else line.mask.value;
      if line.prefix.None? || mask > 32 then None
      else Some(Hop(line.prefix.value, mask, line.metric.value))
  }

  /** Only two kinds of line are used: with a length of at most 32, or with none, for a single host; the
      address and the metric parse, and the metric is not that of an unreachable route. */
  lemma UsedIff(line: Line, h: Hop)
    ensures Used(line) == Some(h) <==>
      h.metric != 65535 && (line == Route(Some(h.prefix), Some(h.len), Some(h.metric))
        || (line == Route(Some(h.prefix), None, Some(h.metric)) && h.len == 32))
  {
  }

  function KeyOf(h: Hop): Network { Network(Masked(h.prefix, h.len), h.len) }

  /** The table after the fold: every used network with the least of its metrics. */
  ghost predicate IsIndex(lines: seq<Line>, table: map<Network, nat>) {
    && (forall k :: 0 <= k < |lines| && Used(lines[k]).Some? ==>
          KeyOf(Used(lines[k]).value) in table && table[KeyOf(Used(lines[k]).value)] <= Used(lines[k]).value.metric)
    && forall n :: n in table ==> Backed(lines, n, table[n])
  }

  /** A used route of this network with this metric. */
  predicate Gives(line: Line, n: Network, metric: nat) {
    Used(line).Some? && KeyOf(Used(line).value) == n && Used(line).value.metric == metric
  }

  ghost predicate Backed(lines: seq<Line>, n: Network, metric: nat) {
    exists k :: 0 <= k < |lines| && Gives(lines[k], n, metric)
  }

  lemma BackedLonger(lines: seq<Line>, m: nat, n: Network, metric: nat)
    requires m < |lines|
    ensures Backed(lines[..m], n, metric) ==> Backed(lines[..m + 1], n, metric)
    ensures Gives(lines[m], n, metric) ==> Backed(lines[..m + 1], n, metric)
  {
    var longer := lines[..m + 1];
    assert longer[m] == lines[m];
    if Backed(lines[..m], n, metric) {
      var k :| 0 <= k < m && Gives(lines[..m][k], n, metric);
      assert longer[k] == lines[..m][k];
    }
  }

  function Folded(table: map<Network, nat>, line: Line): map<Network, nat> {
    var u := Used(line);
    if u.Some? && (KeyOf(u.value) !in table || u.value.metric < table[KeyOf(u.value)])
    then table[KeyOf(u.value) := u.value.metric] else table
  }

  /** The loop of FetchInstalledRouteMetrics. */
  method FetchInstalledRouteMetrics(lines: seq<Line>) returns (table: map<Network, nat>)
    ensures IsIndex(lines, table)
  {
    table := map[];
    for m := 0 to |lines|
      invariant IsIndex(lines[..m], table)
    {
      hide IsIndex, Masked;
      var line := lines[m];
      ghost var before := table;
      if line.Other? {
      } else if line.metric.None? {
      } else if line.metric.value == UNREACHABLE {
      } else {
        var mask := if line.mask.None? then 32 else line.mask.value;
        if line.prefix.Some? && mask <= 32 {
          var key := Network(Masked(line.prefix.value, mask), mask);
          if key in table {
            if line.metric.value < table[key] {
              table := table[key := line.metric.value];
            }
          } else {
            table := table[key := line.metric.value];
          }
        }
      }
      FoldStep(lines, m, before, table);
    }
    assert lines[..|lines|] == lines;
  }

  lemma FoldStep(lines: seq<Line>, m: nat, before: map<Network, nat>, after: map<Network, nat>)
    requires m < |lines| && IsIndex(lines[..m], before)
    requires after == Folded(before, lines[m])
    ensures IsIndex(lines[..m + 1], after)
  {
    hide KeyOf, Used, Backed;
    forall n | n in after ensures Backed(lines[..m + 1], n, after[n]) {
      BackedLonger(lines, m, n, after[n]);
    }
    var longer := lines[..m + 1];
    forall k | 0 <= k < |longer| && Used(longer[k]).Some?
      ensures KeyOf(Used(longer[k]).value) in after
      ensures after[KeyOf(Used(longer[k]).value)] <= Used(longer[k]).value.metric
    {
      if k < m { assert longer[k] == lines[..m][k]; }
    }
  }

  // The look-up.

  predicate Covers(n: Network, ip: Addr) { Masked(ip, n.len) == Masked(n.prefix, n.len) }

  /** An entry of the table as the page sees it; a key that does not parse is skipped. */
  datatype Entry = Entry(cidr: Option<Network>, metric: nat)

  predicate Matching(e: Entry, ip: Addr) { e.cidr.Some? && Covers(e.cidr.value, ip) }

  /** The least metric among the matching entries of greatest length. */
  ghost predicate IsBestEntry(entries: seq<Entry>, ip: Addr, r: Option<nat>) {
    match r
    case None => forall k :: 0 <= k < |entries| ==> !Matching(entries[k], ip)
    case Some(m) =>
      exists k :: 0 <= k < |entries| && IsBestAt(entries, ip, k) && entries[k].metric == m
  }

  ghost predicate IsBestAt(entries: seq<Entry>, ip: Addr, k: nat)
    requires k < |entries|
  {
    && Matching(entries[k], ip)
    && forall j :: 0 <= j < |entries| && Matching(entries[j], ip) ==>
      var l, best := entries[j].cidr.value.len, entries[k].cidr.value.len;
      l < best || (l == best && entries[k].metric <= entries[j].metric)
  }

  /** What the first k entries have settled: entry `at` is the best of them, or none matches. */
  ghost predicate BestSoFar(entries: seq<Entry>, ip: Addr, k: nat, at: nat, bestLen: int, bestMetric: Option<nat>)
    requires k <= |entries|
  {
    if bestMetric.None? then bestLen == -1 && forall j :: 0 <= j < k ==> !Matching(entries[j], ip)
    else
      && at < k && IsBestAt(entries[..k], ip, at)
      && bestLen == entries[at].cidr.value.len && bestMetric.value == entries[at].metric
  }

  lemma BestOneFurther(entries: seq<Entry>, ip: Addr, k: nat, at: nat, bestLen: int, bestMetric: Option<nat>)
    requires k < |entries| && BestSoFar(entries, ip, k, at, bestLen, bestMetric)
    ensures !Matching(entries[k], ip) ==> BestSoFar(entries, ip, k + 1, at, bestLen, bestMetric)
    ensures Matching(entries[k], ip) ==>
      var len, metric := entries[k].cidr.value.len, entries[k].metric;
      if len > bestLen || (len == bestLen && bestMetric.Some? && metric < bestMetric.value)
      then BestSoFar(entries, ip, k + 1, k, len, Some(metric))
      else BestSoFar(entries, ip, k + 1, at, bestLen, bestMetric)
  {
    hide Covers;
    var before, after := entries[..k], entries[..k + 1];
    assert forall j :: 0 <= j < k ==> after[j] == before[j] == entries[j];
  }

  /** etxForIp. A length of -1 stands for "none yet". */
  method EtxForIp(ip: Option<Addr>, entries: seq<Entry>) returns (r: Option<nat>)
    ensures ip.None? ==> r.None?
    ensures ip.Some? ==> IsBestEntry(entries, ip.value, r)
  {
    if ip.None? {
      return None;
    }
    var bestLen: int, bestMetric: Option<nat> := -1, None;
    ghost var at := 0;
    for k := 0 to |entries|
      invariant BestSoFar(entries, ip.value, k, at, bestLen, bestMetric)
    {
      BestOneFurther(entries, ip.value, k, at, bestLen, bestMetric);
      if entries[k].cidr.None? {
        continue;
      }
      var parsed := entries[k].cidr.value;
      hide Mask, BestSoFar, And;
      if And(ip.value, Mask(parsed.len)) == And(parsed.prefix, Mask(parsed.len)) {
        if parsed.len > bestLen || (parsed.len == bestLen && bestMetric.Some? && entries[k].metric < bestMetric.value) {
          bestLen, bestMetric := parsed.len, Some(entries[k].metric);
          at := k;
        }
      }
    }
    assert entries[..|entries|] == entries;
    r := bestMetric;
  }

  // The two together.

  /** The table's entries in some order. */
  ghost predicate Enumerates(entries: seq<Entry>, table: map<Network, nat>) {
    && (forall k :: 0 <= k < |entries| ==>
          entries[k].cidr.Some? && entries[k].cidr.value in table && entries[k].metric == table[entries[k].cidr.value])
    && forall n :: n in table ==> Entry(Some(n), table[n]) in entries
  }

  /** A used route whose network holds the address. */
  predicate Reaches(line: Line, ip: Addr) {
    Used(line).Some? && Top(Used(line).value.prefix, Used(line).value.len) == Top(ip, Used(line).value.len)
  }

  /** The first route is shorter, or as long with no smaller metric. */
  predicate NoBetter(line: Line, best: Line)
    requires Used(line).Some? && Used(best).Some?
  {
    var h, b := Used(line).value, Used(best).value;
    h.len < b.len || (h.len == b.len && b.metric <= h.metric)
  }

  ghost predicate IsLongestAt(lines: seq<Line>, ip: Addr, k: nat)
    requires k < |lines|
  {
    && Reaches(lines[k], ip)
    && forall j :: 0 <= j < |lines| && Reaches(lines[j], ip) ==> NoBetter(lines[j], lines[k])
  }

  /** Longest match: the least metric among the used routes of greatest length that hold the address,
      if there is any. */
  ghost predicate IsLongestMatch(lines: seq<Line>, ip: Addr, r: Option<nat>) {
    match r
    case None => forall k :: 0 <= k < |lines| ==> !Reaches(lines[k], ip)
    case Some(m) => exists k :: 0 <= k < |lines| && IsLongestAt(lines, ip, k) && Used(lines[k]).value.metric == m
  }

  lemma MaskedTwice(x: Addr, len: Length)
    ensures Masked(Masked(x, len), len) == Masked(x, len)
  {
  }

  lemma ReachesIsCovers(line: Line, ip: Addr)
    requires Used(line).Some?
    ensures Reaches(line, ip) <==> Covers(KeyOf(Used(line).value), ip)
  {
    var h := Used(line).value;
    hide Masked, Top, Used;
    MaskedTwice(h.prefix, h.len);
    MaskedEqualIffTopEqual(h.prefix, ip, h.len);
  }

  /** Entry j matches, is for the route's network, and has no larger metric. */
  predicate StandsFor(entries: seq<Entry>, j: nat, ip: Addr, h: Hop) {
    j < |entries| && Matching(entries[j], ip) && entries[j].cidr.value == KeyOf(h) && entries[j].metric <= h.metric
  }

  lemma TableEntryReached(lines: seq<Line>, table: map<Network, nat>, entries: seq<Entry>, ip: Addr, k: nat)
    requires IsIndex(lines, table) && Enumerates(entries, table) && k < |lines| && Reaches(lines[k], ip)
    ensures exists j: nat :: StandsFor(entries, j, ip, Used(lines[k]).value)
  {
    ReachesIsCovers(lines[k], ip);
    hide Masked, Top, Used, Reaches, Covers;
    var n := KeyOf(Used(lines[k]).value);
    assert Entry(Some(n), table[n]) in entries;
    var j :| 0 <= j < |entries| && entries[j] == Entry(Some(n), table[n]);
    assert StandsFor(entries, j, ip, Used(lines[k]).value);
  }

  lemma EntryIsARoute(lines: seq<Line>, table: map<Network, nat>, entries: seq<Entry>, ip: Addr, j: nat)
    returns (k: nat)
    requires IsIndex(lines, table) && Enumerates(entries, table) && j < |entries| && Matching(entries[j], ip)
    ensures k < |lines| && Reaches(lines[k], ip)
      && KeyOf(Used(lines[k]).value) == entries[j].cidr.value && Used(lines[k]).value.metric == entries[j].metric
  {
    hide Masked, Top, Used, Covers, Reaches, KeyOf;
    var n := entries[j].cidr.value;
    assert Backed(lines, n, table[n]);
    k :| 0 <= k < |lines| && Gives(lines[k], n, table[n]);
    ReachesIsCovers(lines[k], ip);
  }

  /** For any dump of routes, any address and any order of the table's entries, the look-up returns the
      longest match. */
  lemma LookupIsLongestMatch(lines: seq<Line>, table: map<Network, nat>, entries: seq<Entry>, ip: Addr, r: Option<nat>)
    requires IsIndex(lines, table) && Enumerates(entries, table) && IsBestEntry(entries, ip, r)
    ensures IsLongestMatch(lines, ip, r)
  {
    hide Masked, Top, Covers, IsIndex, Enumerates;
    if r.None? {
      forall k | 0 <= k < |lines| ensures !Reaches(lines[k], ip) {
        if Reaches(lines[k], ip) {
          TableEntryReached(lines, table, entries, ip, k);
        }
      }
    } else {
      var at :| 0 <= at < |entries| && IsBestAt(entries, ip, at) && entries[at].metric == r.value;
      var k := EntryIsARoute(lines, table, entries, ip, at);
      forall j | 0 <= j < |lines| && Reaches(lines[j], ip) ensures NoBetter(lines[j], lines[k]) {
        TableEntryReached(lines, table, entries, ip, j);
        var e: nat :| StandsFor(entries, e, ip, Used(lines[j]).value);
      }
      assert IsLongestAt(lines, ip, k);
    }
  }

  /** A longest match determines the metric, so the order of the entries makes no difference. */
  lemma LongestMatchUnique(lines: seq<Line>, ip: Addr, r: Option<nat>, r': Option<nat>)
    requires IsLongestMatch(lines, ip, r) && IsLongestMatch(lines, ip, r')
    ensures r == r'
  {
    hide Reaches, Used;
  }

  /** The table as a list, in an arbitrary order. */
  method Entries(table: map<Network, nat>) returns (entries: seq<Entry>)
    ensures Enumerates(entries, table)
  {
    entries := [];
    var todo := table.Keys;
    while todo != {}
      invariant todo <= table.Keys
      invariant forall k :: 0 <= k < |entries| ==>
        entries[k].cidr.Some? && entries[k].cidr.value in table && entries[k].metric == table[entries[k].cidr.value]
      invariant forall n :: n in table && n !in todo ==> Entry(Some(n), table[n]) in entries
      decreases todo
    {
      var n :| n in todo;
      entries := entries + [Entry(Some(n), table[n])];
      todo := todo - {n};
    }
  }

  /** The page's whole computation for one address. */
  method NodeEtx(lines: seq<Line>, ip: Addr) returns (r: Option<nat>)
    ensures IsLongestMatch(lines, ip, r)
  {
    var table := FetchInstalledRouteMetrics(lines);
    var entries := Entries(table);
    r := EtxForIp(Some(ip), entries);
    LookupIsLongestMatch(lines, table, entries, ip, r);
  }
}
