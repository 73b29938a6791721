/** One interface's traffic counter: what it reports, compared with what the kernel's counters did. */
module StatCounter {
  import opened Arithmetic

  /** What one turn of the polling loop sees. */
  datatype Tick =
    | Stopped        // Stop was called
    | RowMissing     // no tunnel row for the interface
    | RowInactive
    | LinkGone
    | Sample(rx: nat, tx: nat, saved: bool)

  /** The counter's fields, the loop's local count and whether it still polls, and the bytes handed to
      the totals so far. */
  datatype State = State(
    lastRX: nat, lastTX: nat, lastNewRX: nat, lastNewTX: nat, count: nat, polling: bool,
    reportedRX: nat, reportedTX: nat)

  function Start(rx: nat, tx: nat): State { State(rx, tx, 0, 0, 0, true, 0, 0) }

  /** Every second turn writes the row back. */
  predicate Saves(count: nat) { count != 0 && count % 2 == 0 }

  function Turn(s: State, t: Tick): State {
    if !s.polling then s
    else if !t.Sample? then s.(polling := false)
    else if t.rx < s.lastRX then s.(lastRX := t.rx)
    else
      var s1 := s.(lastNewRX := t.rx - s.lastRX, lastRX := t.rx);
      if t.tx < s.lastTX then s1.(lastTX := t.tx)
      else
        var s2 := if s.count == 100 then s1.(count := 2) else s1;
        if Saves(s.count) && !t.saved then s2
        else
          s2.(lastNewTX := t.tx - s.lastTX, lastTX := t.tx, count := s2.count + 1,
              reportedRX := s.reportedRX + (t.rx - s.lastRX), reportedTX := s.reportedTX + (t.tx - s.lastTX))
  }

  function TurnAll(s: State, ts: seq<Tick>): State
    decreases |ts|
  {
    if ts == [] then s else TurnAll(Turn(s, ts[0]), ts[1..])
  }

  /** The totals over all counters. */
  class Totals {
    var totalRXMB: real
    var totalTXMB: real

    constructor ()
      ensures totalRXMB == 0.0 && totalTXMB == 0.0
    {
      totalRXMB, totalTXMB := 0.0, 0.0;
    }

    method Update(rxMB: real, txMB: real)
      modifies this
      ensures totalRXMB == old(totalRXMB) + rxMB && totalTXMB == old(totalTXMB) + txMB
    {
      totalRXMB, totalTXMB := totalRXMB + rxMB, totalTXMB + txMB;
    }
  }

  class StatCounter {
    var lastRXBytes: nat
    var lastTXBytes: nat
    var lastNewRXBytes: nat
    var lastNewTXBytes: nat
    var running: bool        // cleared by Stop only, not by a loop that returns
    ghost var polling: bool
    ghost var count: nat
    ghost var reportedRX: nat
    ghost var reportedTX: nat
    const totals: Totals

    constructor (totals: Totals, rx: nat, tx: nat)
      ensures Abstract() == Start(rx, tx) && running && this.totals == totals
    {
      this.totals := totals;
      lastRXBytes, lastTXBytes, lastNewRXBytes, lastNewTXBytes := rx, tx, 0, 0;
      running, polling, count, reportedRX, reportedTX := true, true, 0, 0, 0;
    }

    ghost function Abstract(): State
      reads this
    {
      State(lastRXBytes, lastTXBytes, lastNewRXBytes, lastNewTXBytes, count, polling, reportedRX, reportedTX)
    }

    /** One turn of the loop; the loop's local count is passed in and out, and whether it goes on. */
    method Poll(t: Tick, count0: nat) returns (next: nat, goesOn: bool)
      requires polling && count0 == count
      modifies this, totals
      ensures Abstract() == Turn(old(Abstract()), t) && next == count && goesOn == polling
      ensures running == (old(running) && !t.Stopped?)
      ensures totals.totalRXMB - MB(reportedRX) == old(totals.totalRXMB - MB(reportedRX))
      ensures totals.totalTXMB - MB(reportedTX) == old(totals.totalTXMB - MB(reportedTX))
    {
      next, goesOn := count0, true;
      if !t.Sample? {
        running := running && !t.Stopped?;
        polling := false;
        return next, false;
      }
      if t.rx < lastRXBytes {
        lastRXBytes := t.rx;
        return;
      }
      var newBytes := t.rx - lastRXBytes;
      lastNewRXBytes := newBytes;
      lastRXBytes := t.rx;
      if t.tx < lastTXBytes {
        lastTXBytes := t.tx;
        return;
      }
      newBytes := t.tx - lastTXBytes;
      if next != 0 && next % 2 == 0 {
        if next == 100 {
          next := 2;
          count := 2;
        }
        if !t.saved {
          return;
        }
      }
      lastNewTXBytes := newBytes;
      lastTXBytes := t.tx;
      totals.Update(MB(lastNewRXBytes), MB(lastNewTXBytes));
      reportedRX, reportedTX := reportedRX + lastNewRXBytes, reportedTX + lastNewTXBytes;
      next := next + 1;
      count := next;
    }

    /** The polling loop. */
    method Loop(ticks: seq<Tick>)
      requires polling && count == 0
      modifies this, totals
      ensures Abstract() == TurnAll(old(Abstract()), ticks)
      ensures totals.totalRXMB - MB(reportedRX) == old(totals.totalRXMB - MB(reportedRX))
      ensures totals.totalTXMB - MB(reportedTX) == old(totals.totalTXMB - MB(reportedTX))
    {
      var n, goesOn, i := 0, true, 0;
      while goesOn && i < |ticks|
        invariant i <= |ticks| && n == count && goesOn == polling
        invariant TurnAll(Abstract(), ticks[i..]) == TurnAll(old(Abstract()), ticks)
        invariant totals.totalRXMB - MB(reportedRX) == old(totals.totalRXMB - MB(reportedRX))
        invariant totals.totalTXMB - MB(reportedTX) == old(totals.totalTXMB - MB(reportedTX))
      {
        assert ticks[i..][0] == ticks[i] && ticks[i..][1..] == ticks[i + 1..];
        n, goesOn := Poll(ticks[i], n);
        i := i + 1;
      }
      if !goesOn {
        StoppedStays(Abstract(), ticks[i..]);
      }
    }
  }

  lemma {:induction false} StoppedStays(s: State, ts: seq<Tick>)
    requires !s.polling
    ensures TurnAll(s, ts) == s
    decreases |ts|
  {
    if ts != [] { StoppedStays(s, ts[1..]); }
  }

  /** The loop's count stays between 0 and 100. */
  lemma {:induction false} CountBounded(s: State, ts: seq<Tick>)
    requires s.count <= 100
    ensures TurnAll(s, ts).count <= 100
    decreases |ts|
  {
    if ts != [] { CountBounded(Turn(s, ts[0]), ts[1..]); }
  }
}
