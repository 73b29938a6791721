/** One link's quality figures, tick by tick. Floating-point averages are modelled over the reals. */
module LinkQuality {
  import opened Arithmetic
  import opened Options

  // Reach: one bit per recent hello.

  type Reach = r: nat | r < 0x1_0000

  function BitCount(val: nat, bits: nat): nat {
    if bits == 0 then 0 else val % 2 + BitCount(val / 2, bits - 1)
  }

  lemma BitCountStep(val: nat, bits: nat)
    ensures BitCount(val, bits) == if bits == 0 then 0 else val % 2 + BitCount(val / 2, bits - 1)
  {
  }

  /** The positions of the set bits. */
  function Bits(val: nat, bits: nat): set<nat> { set i | 0 <= i < bits && val / Pow2(i) % 2 == 1 }

  lemma DivisionIs(a: nat, d: nat, q: nat)
    requires q * d <= a < q * d + d
    ensures a / d == q
  {
    var e := a / d;
    assert e * d <= a < e * d + d;
    if e < q {
      ProductsGrow(e + 1, q, d);
      assert false;
    } else if e > q {
      ProductsGrow(q + 1, e, d);
      assert false;
    }
  }

  lemma ProductsGrow(x: nat, y: nat, d: nat)
    requires x <= y
    ensures x * d <= y * d
  {
  }

  lemma HalfThenDivide(val: nat, p: nat)
    requires p > 0
    ensures val / (2 * p) == val / 2 / p
  {
    var q := val / 2 / p;
    assert q * p <= val / 2 < q * p + p;
    assert q * (2 * p) == 2 * (q * p);
    DivisionIs(val, 2 * p, q);
  }

  lemma BitMoves(val: nat, bits: nat, i: nat)
    requires 0 < i && 0 < bits
    ensures i in Bits(val, bits) <==> i - 1 in Bits(val / 2, bits - 1)
  {
    HalfThenDivide(val, Pow2(i - 1));
    assert val / Pow2(i) == val / 2 / Pow2(i - 1);
  }

  lemma LowestBit(val: nat, bits: nat)
    requires 0 < bits
    ensures 0 in Bits(val, bits) <==> val % 2 == 1
  {
    assert Pow2(0) == 1 && val / 1 == val;
  }

  /** The loop's count is the number of set bits. */
  lemma {:induction false} BitCountIsBits(val: nat, bits: nat)
    ensures BitCount(val, bits) == |Bits(val, bits)|
  {
    if bits == 0 {
      assert Bits(val, bits) == {};
    } else {
      var rest := Bits(val / 2, bits - 1);
      BitCountIsBits(val / 2, bits - 1);
      LowestBit(val, bits);
      forall i: nat ensures i in rest <==> i + 1 in Bits(val, bits) {
        BitMoves(val, bits, i + 1);
      }
      hide Bits;
      MovedSize(rest, Bits(val, bits));
    }
  }

  /** A set of numbers, each raised by one, perhaps with zero beside them. */
  lemma {:induction false} MovedSize(s: set<nat>, moved: set<nat>)
    requires forall i: nat :: i in s <==> i + 1 in moved
    ensures |moved| == |s| + if 0 in moved then 1 else 0
    decreases s
  {
    if s == {} {
      forall x | x in moved ensures x == 0 {
        assert x > 0 ==> x - 1 in s;
      }
      assert moved == if 0 in moved then {0} else {};
    } else {
      var k :| k in s;
      assert k + 1 in moved;
      MovedSize(s - {k}, moved - {k + 1});
      assert |moved - {k + 1}| == |moved| - 1 && |s - {k}| == |s| - 1;
    }
  }

  /** The percentage of hellos heard, rounded up. */
  function Percent(count: nat): nat { (100 * count + 15) / 16 }

  /** A reach that is not 16 bits of hexadecimal counts as nothing heard. */
  method ReachToLQ(reach: Option<Reach>) returns (lq: nat)
    ensures lq == LQOf(reach)
  {
    if reach.None? {
      return 0;
    }
    hide BitCount;
    var val: nat, count := reach.value, 0;
    for i := 0 to 16
      invariant count + BitCount(val, 16 - i) == BitCount(reach.value, 16)
    {
      BitCountStep(val, 16 - i);
      if val % 2 == 1 {
        count := count + 1;
      }
      val := val / 2;
    }
    BitCountStep(val, 0);
    return Percent(count);
  }

  function LQOf(reach: Option<Reach>): nat {
    if reach.None? then 0 else Percent(BitCount(reach.value, 16))
  }

  lemma {:induction false} BitCountBounds(val: nat, bits: nat)
    ensures BitCount(val, bits) <= bits
    ensures val < Pow2(bits) ==> (BitCount(val, bits) == 0 <==> val == 0)
    ensures val < Pow2(bits) ==> (BitCount(val, bits) == bits <==> val == Pow2(bits) - 1)
  {
    if bits > 0 { BitCountBounds(val / 2, bits - 1); }
  }

  /** A link quality is the percentage of set bits, rounded up, between 0 and 100; it is 0 exactly when
      nothing was heard and 100 exactly when every hello was. */
  lemma LQRange(reach: Option<Reach>)
    ensures LQOf(reach) <= 100
    ensures reach.Some? ==> 16 * LQOf(reach) - 16 < 100 * |Bits(reach.value, 16)| <= 16 * LQOf(reach)
    ensures LQOf(reach) == 0 <==> reach.None? || reach.value == 0
    ensures LQOf(reach) == 100 <==> reach == Some(0xffff)
  {
    assert Pow2(16) == 0x1_0000 by {
      assert Pow2(8) == 256;
      assert Pow2(12) == 4096;
    }
    if reach.Some? {
      BitCountBounds(reach.value, 16);
      BitCountIsBits(reach.value, 16);
    }
  }

  // Pings.

  const PENALTY := 5

  /** A live score gains one for every ping and loses five for a failed one; a dead score stays dead
      until a success, which makes it 100. */
  function PingStep(q: int, success: bool): int {
    var moved := if q == 0 then (if success then 100 else 0) else q + 1;
    var scored := if success then moved else moved - PENALTY;
    if scored < 0 then 0 else if scored > 100 then 100 else scored
  }

  function PingAll(q: int, outcomes: seq<bool>): int
    decreases |outcomes|
  {
    if outcomes == [] then q else PingAll(PingStep(q, outcomes[0]), outcomes[1..])
  }

  function Successes(outcomes: seq<bool>): nat {
    if outcomes == [] then 0 else (if outcomes[0] then 1 else 0) + Successes(outcomes[1..])
  }

  lemma {:induction false} PingRange(q: int, outcomes: seq<bool>)
    requires 0 <= q <= 100
    ensures 0 <= PingAll(q, outcomes) <= 100
    decreases |outcomes|
  {
    if outcomes != [] { PingRange(PingStep(q, outcomes[0]), outcomes[1..]); }
  }

  /** Neither the clamps nor the dead score come into play in any step of the run. */
  ghost predicate Unclamped(q: int, outcomes: seq<bool>)
    decreases |outcomes|
  {
    outcomes == [] ||
    (q > 0 && 0 <= q + (if outcomes[0] then 1 else -4) <= 100 && Unclamped(PingStep(q, outcomes[0]), outcomes[1..]))
  }

  /** On such runs the score moves by the successes less four times the failures. */
  lemma {:induction false} UnclampedRun(q: int, outcomes: seq<bool>)
    requires Unclamped(q, outcomes)
    ensures PingAll(q, outcomes) == q + Successes(outcomes) - 4 * (|outcomes| - Successes(outcomes))
    decreases |outcomes|
  {
    if outcomes != [] { UnclampedRun(PingStep(q, outcomes[0]), outcomes[1..]); }
  }

  /** From any score, k failures in a row leave it 4k lower or dead. */
  lemma {:induction false} FailureRun(q: int, k: nat)
    requires 0 <= q <= 100
    ensures PingAll(q, seq(k, _ => false)) == if q >= 4 * k then q - 4 * k else 0
    decreases k
  {
    if k > 0 {
      var os := seq(k, _ => false);
      assert os[1..] == seq(k - 1, _ => false);
      FailureRun(PingStep(q, false), k - 1);
    }
  }

  /** So a perfect link is dead after exactly 25 straight failures, and one success revives it. */
  lemma DeadAfter25(k: nat)
    ensures PingAll(100, seq(k, _ => false)) == 0 <==> k >= 25
    ensures PingStep(0, true) == 100
  {
    FailureRun(100, k);
  }

  /** k answers in a row raise a live score by k, up to 100, and a dead one to 100 at once. */
  lemma {:induction false} SuccessRun(q: int, k: nat)
    requires 0 <= q <= 100
    ensures PingAll(q, seq(k, _ => true))
      == if k == 0 then q else if q == 0 || q + k > 100 then 100 else q + k
    decreases k
  {
    if k > 0 {
      var os := seq(k, _ => true);
      assert os[1..] == seq(k - 1, _ => true);
      SuccessRun(PingStep(q, true), k - 1);
    }
  }

  /** An answer never lowers a score, and a failure never raises one. */
  lemma AnswersHelp(q: int)
    requires 0 <= q <= 100
    ensures PingStep(q, false) <= q <= PingStep(q, true)
  {
  }

  /** The score is above zero before every ping of the run. */
  predicate Alive(q: int, outcomes: seq<bool>)
    decreases |outcomes|
  {
    outcomes == [] || (q > 0 && Alive(PingStep(q, outcomes[0]), outcomes[1..]))
  }

  /** As long as the lower of two scores does not die, it stays the lower one. */
  lemma {:induction false} OrderKeptWhileAlive(q: int, r: int, outcomes: seq<bool>)
    requires 0 <= q <= r <= 100 && Alive(q, outcomes)
    ensures PingAll(q, outcomes) <= PingAll(r, outcomes)
    decreases |outcomes|
  {
    if outcomes != [] {
      OrderKeptWhileAlive(PingStep(q, outcomes[0]), PingStep(r, outcomes[0]), outcomes[1..]);
    }
  }

  /** But a dead score is revived to 100: of any two different scores the lower one can overtake. */
  lemma {:induction false} LowerOvertakes(q: int, r: int) returns (outcomes: seq<bool>)
    requires 0 <= q < r <= 100
    ensures PingAll(q, outcomes) > PingAll(r, outcomes)
    decreases if q == 0 then 0 else if q > 4 then 100 + q else 10 - q
  {
    if q == 0 {
      outcomes := if r <= 4 then [true] else [false, true];
      assert outcomes[1..] == if r <= 4 then [] else [true];
      assert [true][1..] == [];
    } else {
      var answered := q < 4;
      var rest := LowerOvertakes(PingStep(q, answered), PingStep(r, answered));
      outcomes := [answered] + rest;
      assert outcomes[1..] == rest;
    }
  }

  /** So two runs of the same pings keep the order of their starting scores, whatever the pings, exactly
      when they start from one score. */
  lemma OrderKeptIff(q: int, r: int)
    requires 0 <= q <= r <= 100
    ensures (forall outcomes :: PingAll(q, outcomes) <= PingAll(r, outcomes)) <==> q == r
  {
    if q < r {
      var outcomes := LowerOvertakes(q, r);
    }
  }

  // Averages.

  /** The running average gives the new sample six tenths. */
  function Smooth(avg: real, sample: real): real { avg * 0.4 + sample * 0.6 }

  /** The difference to the last reading; a counter that went back counts as no progress. */
  function Progress(last: nat, now: nat): nat { if now > last then now - last else 0 }

  /** A smoothed counter: nothing until there is a last reading. */
  datatype Average = Average(last: Option<nat>, avg: real)

  function Feed(a: Average, now: nat): Average {
    if a.last.None? then Average(Some(now), 0.0)
    else Average(Some(now), Smooth(a.avg, Progress(a.last.value, now) as real))
  }

  /** The first reading is only remembered; a later one that went back counts as no progress, and one that
      advanced has six tenths of the weight. */
  lemma FeedIs(a: Average, now: nat)
    ensures Feed(a, now).last == Some(now) && (a.last.None? ==> Feed(a, now).avg == 0.0)
    ensures a.last.Some? && now <= a.last.value ==> Feed(a, now).avg == 0.4 * a.avg
    ensures a.last.Some? && now > a.last.value ==>
      Feed(a, now).avg == 0.4 * a.avg + 0.6 * (now - a.last.value) as real
  {
  }

  function FeedAll(a: Average, readings: seq<nat>): Average
    decreases |readings|
  {
    if readings == [] then a else FeedAll(Feed(a, readings[0]), readings[1..])
  }

  function Power(x: real, k: nat): real { if k == 0 then 1.0 else x * Power(x, k - 1) }

  /** Readings from n on that grow by x each time. */
  function Steady(n: nat, x: nat, k: nat): (r: seq<nat>)
    ensures |r| == k
  {
    seq(k, i => n + (i + 1) * x)
  }

  /** On steady readings the distance of the average from the progress shrinks to four tenths each time. */
  lemma {:induction false} SteadyAverage(n: nat, x: nat, avg: real, k: nat)
    ensures FeedAll(Average(Some(n), avg), Steady(n, x, k)).avg - x as real == Power(0.4, k) * (avg - x as real)
    decreases k
  {
    if k > 0 {
      var next := Smooth(avg, x as real);
      SteadyTail(n, x, k);
      SteadyAverage(n + x, x, next, k - 1);
      assert next - x as real == 0.4 * (avg - x as real);
      PowerOneMore(k, avg - x as real);
      hide Power, Steady, Smooth;
      var readings := Steady(n, x, k);
      assert Progress(n, n + x) == x;
      assert Feed(Average(Some(n), avg), readings[0]) == Average(Some(n + x), next);
    }
  }

  lemma PowerOneMore(k: nat, d: real)
    requires k > 0
    ensures Power(0.4, k - 1) * (0.4 * d) == Power(0.4, k) * d
  {
  }

  lemma SteadyTail(n: nat, x: nat, k: nat)
    requires k > 0
    ensures Steady(n, x, k)[0] == n + x && Steady(n, x, k)[1..] == Steady(n + x, x, k - 1)
  {
    var s, t := Steady(n, x, k), Steady(n + x, x, k - 1);
    forall i | 0 <= i < k - 1 ensures s[1..][i] == t[i] {
      assert (i + 2) * x == (i + 1) * x + x;
    }
  }

  ghost predicate ProgressAtMost(last: Option<nat>, readings: seq<nat>, bound: nat)
    decreases |readings|
  {
    readings == [] ||
    ((last.Some? ==> Progress(last.value, readings[0]) <= bound)
      && ProgressAtMost(Some(readings[0]), readings[1..], bound))
  }

  /** An average stays between zero and the largest sample. */
  lemma {:induction false} AverageInRange(a: Average, readings: seq<nat>, bound: nat)
    requires 0.0 <= a.avg <= bound as real && ProgressAtMost(a.last, readings, bound)
    ensures 0.0 <= FeedAll(a, readings).avg <= bound as real
    decreases |readings|
  {
    if readings != [] { AverageInRange(Feed(a, readings[0]), readings[1..], bound); }
  }

  /** In every tick no more transmissions failed than were made. */
  ghost predicate FailuresWithin(lastTx: Option<nat>, tx: seq<nat>, lastFail: Option<nat>, fail: seq<nat>)
    decreases |tx|
  {
    |tx| == |fail| && (tx == [] ||
      ((lastTx.Some? && lastFail.Some? ==> Progress(lastFail.value, fail[0]) <= Progress(lastTx.value, tx[0]))
        && FailuresWithin(Some(tx[0]), tx[1..], Some(fail[0]), fail[1..])))
  }

  /** Then the average of failures never exceeds the average of transmissions. */
  lemma {:induction false} FailuresAverageLess(t: Average, f: Average, tx: seq<nat>, fail: seq<nat>)
    requires t.last.Some? <==> f.last.Some?
    requires f.avg <= t.avg && FailuresWithin(t.last, tx, f.last, fail)
    ensures FeedAll(f, fail).avg <= FeedAll(t, tx).avg
    decreases |tx|
  {
    if tx != [] { FailuresAverageLess(Feed(t, tx[0]), Feed(f, fail[0]), tx[1..], fail[1..]); }
  }

  function Max(x: real, y: real): real { if x > y then x else y }

  function Min(x: real, y: real): real { if x < y then x else y }

  function TxQualityOf(avgTx: real, bad: real): real
    requires avgTx > 0.0
  {
    100.0 * (1.0 - Min(1.0, bad / avgTx))
  }

  lemma TxQualityRange(avgTx: real, bad: real)
    requires avgTx > 0.0 && bad >= 0.0
    ensures 0.0 <= TxQualityOf(avgTx, bad) <= 100.0
    ensures TxQualityOf(avgTx, bad) == 0.0 <==> bad >= avgTx
    ensures TxQualityOf(avgTx, bad) == 100.0 <==> bad == 0.0
    ensures bad <= avgTx ==> TxQualityOf(avgTx, bad) * avgTx == 100.0 * (avgTx - bad)
  {
    var ratio := bad / avgTx;
    assert ratio * avgTx == bad;
    if ratio >= 1.0 { ScaleUp(ratio, avgTx); } else { ScaleDown(ratio, avgTx); }
  }

  lemma ScaleUp(r: real, a: real)
    requires r >= 1.0 && a > 0.0
    ensures r * a >= a
  {
    assert (r - 1.0) * a >= 0.0;
  }

  lemma ScaleDown(r: real, a: real)
    requires r < 1.0 && a > 0.0
    ensures r * a < a && (r * a >= 0.0 ==> r >= 0.0) && (r * a == 0.0 <==> r == 0.0)
  {
    assert (1.0 - r) * a > 0.0;
    if r < 0.0 { assert (0.0 - r) * a > 0.0; }
    if r > 0.0 { assert r * a > 0.0; }
  }

  /** Rounding half up, which for numbers that are not negative is half away from zero. */
  function Round(x: real): int { (x + 0.5).Floor }

  lemma RoundedIsNear(x: real)
    ensures -0.5 < Round(x) as real - x <= 0.5
    ensures 0.0 <= x <= 100.0 ==> 0 <= Round(x) <= 100
  {
  }

  lemma RoundedInt(n: int)
    ensures Round(n as real) == n
  {
  }

  /** The block updateRunningAverages has for each of its three counters. */
  method NextAverage(a: Average, now: nat) returns (next: Average)
    ensures next == Feed(a, now) && (a.avg >= 0.0 ==> next.avg >= 0.0)
  {
    if a.last.None? {
      return Average(Some(now), 0.0);
    }
    var diff := 0.0;
    if now > a.last.value {
      diff := (now - a.last.value) as real;
    }
    return Average(Some(now), a.avg * 0.4 + diff * (1.0 - 0.4));
  }

  datatype DeviceType = Wireguard | Wired

  class Tracker {
    // what identifies the neighbour
    const ipv6ll: string
    const deviceType: DeviceType
    var ip: string
    var canonicalIP: string
    var lastSeen: int
    // link quality
    var lq: nat
    var avgLQ: real
    var txPackets: nat
    var txFail: nat
    var txRetries: nat
    var tx: Average
    var txFailed: Average
    var txRetried: Average
    var txQuality: real
    var pingQuality: int
    var pingSuccessTime: real
    var quality: Option<int>
    // routes
    var nodeRouteCount: nat
    var babelRouteCount: nat
    var babelMetric: int
    var routable: bool

    constructor (ipv6ll: string, deviceType: DeviceType, now: int)
      ensures InRange() && this.ipv6ll == ipv6ll && this.deviceType == deviceType && lastSeen == now
      ensures ip == "" && canonicalIP == "" && avgLQ == 0.0
      ensures Unread() && txRetried == Average(None, 0.0)
    {
      this.ipv6ll, this.deviceType := ipv6ll, deviceType;
      ip, canonicalIP, lastSeen := "", "", now;
      lq, avgLQ := 0, 0.0;
      txPackets, txFail, txRetries := 0, 0, 0;
      tx, txFailed, txRetried := Average(None, 0.0), Average(None, 0.0), Average(None, 0.0);
      txQuality, pingQuality, pingSuccessTime, quality := 0.0, 0, 0.0, None;
      nodeRouteCount, babelRouteCount, babelMetric, routable := 0, 0, 0, false;
    }

    /** The figures are within their ranges. */
    ghost predicate InRange()
      reads this`lq, this`avgLQ, this`tx, this`txFailed, this`txRetried, this`txQuality
      reads this`pingQuality, this`quality
    {
      && lq <= 100 && 0.0 <= avgLQ <= 100.0
      && 0.0 <= tx.avg && 0.0 <= txFailed.avg && 0.0 <= txRetried.avg
      && 0.0 <= txQuality <= 100.0 && 0 <= pingQuality <= 100
      && (quality.Some? ==> 0 <= quality.value <= 100)
    }

    /** No packet counters have been read yet. */
    ghost predicate Unread()
      reads this`txPackets, this`txFail, this`tx, this`txFailed
    {
      txPackets == txFail == 0 && tx == txFailed == Average(None, 0.0)
    }

    /** A neighbour line was seen; `peerIP` is the peer's address derived from the interface. */
    method Heard(reach: Option<Reach>, peerIP: string, now: int)
      requires InRange()
      modifies this`lq, this`avgLQ, this`lastSeen, this`ip
      ensures InRange() && lq == LQOf(reach) && lastSeen == now
      ensures ip == if deviceType.Wireguard? then peerIP else old(ip)
      ensures avgLQ == 0.9 * old(avgLQ) + 0.1 * lq as real
    {
      if deviceType.Wireguard? {
        ip := peerIP;
      }
      lastSeen := now;
      LQRange(reach);
      lq := ReachToLQ(reach);
      avgLQ := Min(100.0, 0.9 * avgLQ + 0.1 * lq as real);
    }

    /** The body of updateRunningAverages. */
    method UpdateAverages()
      requires InRange()
      modifies this`tx, this`txFailed, this`txRetried, this`txQuality
      ensures InRange()
      ensures tx == Feed(old(tx), txPackets) && txFailed == Feed(old(txFailed), txFail)
      ensures txRetried == Feed(old(txRetried), txRetries)
      ensures txQuality
        == if tx.avg > 0.0 then TxQualityOf(tx.avg, Max(txFailed.avg, txRetried.avg)) else old(txQuality)
      ensures tx.avg > 0.0 && txFailed.avg <= tx.avg && txRetried.avg <= tx.avg ==>
        txQuality * tx.avg == 100.0 * (tx.avg - if txFailed.avg >= txRetried.avg then txFailed.avg else txRetried.avg)
    {
      hide Feed;
      tx := NextAverage(tx, txPackets);
      txFailed := NextAverage(txFailed, txFail);
      txRetried := NextAverage(txRetried, txRetries);
      if tx.avg > 0.0 {
        var bad := Max(txFailed.avg, txRetried.avg);
        TxQualityRange(tx.avg, bad);
        txQuality := 100.0 * (1.0 - Min(1.0, bad / tx.avg));
      }
    }

    /** One ping, and the time it took if it was answered. A tracker without a link-local address is
        not pinged. */
    method Ping(answer: Option<real>, now: int)
      requires InRange()
      modifies this`pingQuality, this`pingSuccessTime, this`lastSeen
      ensures InRange()
      ensures pingQuality == if ipv6ll == "" then old(pingQuality) else PingStep(old(pingQuality), answer.Some?)
      ensures ipv6ll != "" && answer.Some? ==>
        pingQuality == if 1 <= old(pingQuality) <= 99 then old(pingQuality) + 1 else 100
      ensures ipv6ll != "" && answer.None? ==>
        pingQuality == if old(pingQuality) > 4 then old(pingQuality) - 4 else 0
      ensures pingSuccessTime == if ipv6ll == "" || answer.None? then old(pingSuccessTime)
        else if old(pingSuccessTime) == 0.0 then answer.value
        else Smooth(old(pingSuccessTime), answer.value)
      ensures lastSeen == if ipv6ll != "" && answer.Some? then now else old(lastSeen)
    {
      if ipv6ll == "" {
        return;
      }
      if pingQuality == 0 {
        if answer.Some? {
          pingQuality := 100;
        }
      } else {
        pingQuality := pingQuality + 1;
      }
      if answer.None? {
        pingQuality := pingQuality - PENALTY;
      } else {
        if pingSuccessTime == 0.0 {
          pingSuccessTime := answer.value;
        } else {
          pingSuccessTime := pingSuccessTime * 0.4 + answer.value * (1.0 - 0.4);
        }
      }
      pingQuality := if pingQuality < 0 then 0 else if pingQuality > 100 then 100 else pingQuality;
      if answer.Some? {
        lastSeen := now;
      }
    }

    /** One turn of updateTrackingState: the score, then the quality that follows from it. */
    method Track(answer: Option<real>, now: int)
      requires InRange()
      modifies this`pingQuality, this`pingSuccessTime, this`lastSeen, this`quality
      ensures InRange() && QualityIsCurrent()
    {
      Ping(answer, now);
      CalculateQuality();
    }

    /** What a refresh found: the canonical address, and an address on the tracker's own interface; a
        WireGuard tracker only takes an address if it has none. */
    method Refresh(foundIP: string, canonicalIP: string)
      modifies this`ip, this`canonicalIP
      ensures this.canonicalIP == canonicalIP
      ensures ip == if (if deviceType.Wireguard? then old(ip) == "" else foundIP != "") then foundIP else old(ip)
    {
      this.canonicalIP := canonicalIP;
      if deviceType.Wireguard? {
        if ip == "" {
          ip := foundIP;
        }
      } else if foundIP != "" {
        ip := foundIP;
      }
    }

    /** The overall quality is within a half of the mean of the figures that are positive, and is absent
        if none is. */
    ghost predicate QualityIsCurrent()
      reads this`quality, this`txQuality, this`pingQuality
    {
      && (quality.None? <==> txQuality <= 0.0 && pingQuality <= 0)
      && (quality.Some? ==>
            var q, p := quality.value as real, pingQuality as real;
            if txQuality > 0.0 && p > 0.0 then -0.5 < q - (txQuality + p) / 2.0 <= 0.5
            else if txQuality > 0.0 then -0.5 < q - txQuality <= 0.5
            else q == p)
    }

    /** The overall quality averages the two figures that are positive, and is absent if none is. */
    method CalculateQuality()
      requires InRange()
      modifies this`quality
      ensures InRange()
      ensures QualityIsCurrent()
    {
      RoundedIsNear((txQuality + pingQuality as real) / 2.0);
      RoundedIsNear(txQuality);
      RoundedInt(pingQuality);
      hide Round;
      if txQuality > 0.0 {
        if pingQuality > 0 {
          quality := Some(Round((txQuality + pingQuality as real) / 2.0));
        } else {
          quality := Some(Round(txQuality));
        }
      } else if pingQuality > 0 {
        quality := Some(Round(pingQuality as real));
      } else {
        quality := None;
      }
    }
  }
}
