/** What a traffic counter reports, against what its interface carried: a ledger of every polled byte.
    Between two samples a kernel counter that has not fallen carried the difference; one that has
    fallen was restarted at zero and carried what it reads now. */
module ByteLedger {
  import opened StatCounter

  /** What went over the interface between two readings of one of its counters. */
  function Moved(before: nat, now: nat): nat { if now < before then now else now - before }

  /** Received between consecutive samples, as long as the loop samples. */
  function Received(before: nat, ts: seq<Tick>): nat
    decreases |ts|
  {
    if ts == [] || !ts[0].Sample? then 0 else Moved(before, ts[0].rx) + Received(ts[0].rx, ts[1..])
  }

  /** Transmitted between consecutive samples, as long as the loop samples. */
  function Sent(before: nat, ts: seq<Tick>): nat
    decreases |ts|
  {
    if ts == [] || !ts[0].Sample? then 0 else Moved(before, ts[0].tx) + Sent(ts[0].tx, ts[1..])
  }

  function Total(s: State, ts: seq<Tick>, f: (State, Tick) -> nat): nat
    decreases |ts|
  {
    if ts == [] then 0 else f(s, ts[0]) + Total(Turn(s, ts[0]), ts[1..], f)
  }

  /** A total is zero exactly when every turn's share is. */
  lemma {:induction false} TotalZero(s: State, ts: seq<Tick>, f: (State, Tick) -> nat)
    ensures Total(s, ts, f) == 0 <==> forall k :: 0 <= k < |ts| ==> f(TurnAll(s, ts[..k]), ts[k]) == 0
    decreases |ts|
  {
    if ts != [] {
      var s', rest := Turn(s, ts[0]), ts[1..];
      TotalZero(s', rest, f);
      assert ts[..0] == [];
      forall k | 0 <= k < |rest| ensures TurnAll(s', rest[..k]) == TurnAll(s, ts[..k + 1]) && rest[k] == ts[k + 1] {
        assert ts[..k + 1][0] == ts[0] && ts[..k + 1][1..] == rest[..k];
      }
      if forall k :: 0 <= k < |ts| ==> f(TurnAll(s, ts[..k]), ts[k]) == 0 {
        forall k | 0 <= k < |rest| ensures f(TurnAll(s', rest[..k]), rest[k]) == 0 {
          assert f(TurnAll(s, ts[..k + 1]), ts[k + 1]) == 0;
        }
        assert f(TurnAll(s, ts[..0]), ts[0]) == 0;
      }
    }
  }

  // The counter's own books.

  /** How far the receive counter fell in this turn, if it fell. */
  function DropRX(s: State, t: Tick): nat {
    if s.polling && t.Sample? && t.rx < s.lastRX then s.lastRX - t.rx else 0
  }

  /** How far the transmit counter fell below the last reading booked; it is looked at only if the
      receive counter did not fall. */
  function DropTX(s: State, t: Tick): nat { if SeesFall(s, t) then s.lastTX - t.tx else 0 }

  predicate SeesFall(s: State, t: Tick) { s.polling && t.Sample? && t.rx >= s.lastRX && t.tx < s.lastTX }

  /** The turn comes to its end: both counters are booked and reported. */
  predicate Books(s: State, t: Tick) {
    s.polling && t.Sample? && t.rx >= s.lastRX && t.tx >= s.lastTX && (Saves(s.count) ==> t.saved)
  }

  /** Received bytes of a turn that ends early, at a fallen transmit counter or a failed save. */
  function AbandonedRX(s: State, t: Tick): nat {
    if s.polling && t.Sample? && t.rx >= s.lastRX && !Books(s, t) then t.rx - s.lastRX else 0
  }

  /** What had been received after the receive counter was restarted, in the turn that sees it. */
  function RestartRX(s: State, t: Tick): nat {
    if s.polling && t.Sample? && t.rx < s.lastRX then t.rx else 0
  }

  /** Over any run the reported bytes are the advance of the last readings booked plus all that these
      fell by, for received bytes less exactly those of the turns that end early. */
  lemma {:induction false} BytesConserved(s: State, ts: seq<Tick>)
    ensures var e := TurnAll(s, ts);
      && e.reportedTX - s.reportedTX == e.lastTX - s.lastTX + Total(s, ts, DropTX)
      && e.reportedRX - s.reportedRX == e.lastRX - s.lastRX + Total(s, ts, DropRX) - Total(s, ts, AbandonedRX)
    decreases |ts|
  {
    if ts != [] { BytesConserved(Turn(s, ts[0]), ts[1..]); }
  }

  // Saves and rates.

  /** One for a turn that books. */
  function Booked(s: State, t: Tick): nat { if Books(s, t) then 1 else 0 }

  /** The row is saved at every second turn that books, whatever the loop's count is reset to: from a
      start on, in every state in which an even number of turns, and not none, have been booked. */
  lemma {:induction false} SavesEverySecond(s: State, booked: nat, ts: seq<Tick>)
    requires s.count % 2 == booked % 2 && (s.count == 0 <==> booked == 0)
    ensures var n := booked + Total(s, ts, Booked);
      Saves(TurnAll(s, ts).count) <==> n > 0 && n % 2 == 0
    decreases |ts|
  {
    if ts != [] { SavesEverySecond(Turn(s, ts[0]), booked + Booked(s, ts[0]), ts[1..]); }
  }

  /** What a turn that books reports is what it leaves behind as the latest bytes, and no other turn
      reports anything. */
  lemma ReportsLatest(s: State, t: Tick)
    ensures var next := Turn(s, t);
      if Books(s, t) then
        next.reportedRX == s.reportedRX + next.lastNewRX && next.reportedTX == s.reportedTX + next.lastNewTX
        && next.lastRX == s.lastRX + next.lastNewRX && next.lastTX == s.lastTX + next.lastNewTX
      else next.reportedRX == s.reportedRX && next.reportedTX == s.reportedTX
  {
  }

  // Received bytes.

  /** Over any run: what was received is what is reported, plus what turns that end early abandon, plus
      what had come in after a restart by the turn that sees it. */
  lemma {:induction false} ReceivedLedger(s: State, ts: seq<Tick>)
    requires s.polling
    ensures Received(s.lastRX, ts)
      == TurnAll(s, ts).reportedRX - s.reportedRX + Total(s, ts, AbandonedRX) + Total(s, ts, RestartRX)
    decreases |ts|
  {
    if ts != [] {
      var next := Turn(s, ts[0]);
      if next.polling {
        ReceivedLedger(next, ts[1..]);
      } else {
        StoppedStays(next, ts[1..]);
        NothingAfterStop(next, ts[1..]);
      }
    }
  }

  lemma {:induction false} NothingAfterStop(s: State, ts: seq<Tick>)
    requires !s.polling
    ensures Total(s, ts, AbandonedRX) == Total(s, ts, RestartRX) == 0
    decreases |ts|
  {
    if ts != [] { NothingAfterStop(s, ts[1..]); }
  }

  /** The turn loses no received byte: it sees no restart after which something came in, and if it ends
      early nothing has come in. */
  predicate KeepsRX(s: State, t: Tick) { RestartRX(s, t) == 0 && AbandonedRX(s, t) == 0 }

  /** All received bytes are reported exactly when every turn keeps them. */
  lemma ReceivedInFullIff(rx: nat, tx: nat, ts: seq<Tick>)
    ensures TurnAll(Start(rx, tx), ts).reportedRX == Received(rx, ts)
      <==> forall k :: 0 <= k < |ts| ==> KeepsRX(TurnAll(Start(rx, tx), ts[..k]), ts[k])
  {
    var s := Start(rx, tx);
    ReceivedLedger(s, ts);
    TotalZero(s, ts, AbandonedRX);
    TotalZero(s, ts, RestartRX);
  }

  /** It fails: the counter is restarted and 50 bytes come in before the first poll. */
  lemma RestartLosesReceived()
    ensures var ts := [Sample(50, 0, true)];
      TurnAll(Start(100, 0), ts).reportedRX == 0 && Received(100, ts) == 50
  {
    var ts := [Sample(50, 0, true)];
    assert ts[1..] == [];
  }

  // Transmitted bytes.

  /** What has happened to the transmit counter since its reading was last booked, or reset at a fall:
      the last sample, what went out, and whether the counter was restarted. */
  datatype Unbooked = Unbooked(seen: nat, moved: nat, restarted: bool)

  /** The turn in which the loop returns; what is not booked by then never is. */
  predicate Ends(s: State, t: Tick) { s.polling && !t.Sample? }

  function Later(s: State, u: Unbooked, t: Tick): Unbooked {
    if !s.polling then u
    else if Ends(s, t) then u.(moved := 0)
    else if Books(s, t) || SeesFall(s, t) then Unbooked(t.tx, 0, false)
    else Unbooked(t.tx, u.moved + Moved(u.seen, t.tx), u.restarted || t.tx < u.seen)
  }

  function LaterAll(s: State, u: Unbooked, ts: seq<Tick>): Unbooked
    decreases |ts|
  {
    if ts == [] then u else LaterAll(Turn(s, ts[0]), Later(s, u, ts[0]), ts[1..])
  }

  /** The unbooked bytes are those the readings show, and more exactly if there was a restart. */
  predicate Fits(s: State, u: Unbooked) {
    if u.restarted then u.moved > u.seen - s.lastTX && u.moved >= u.seen else u.moved == u.seen - s.lastTX
  }

  /** What the turn loses for good: at the loop's end, what is unbooked; at a fall that it sees,
      everything that went out since the last booking; and when it books, what the difference of the
      readings falls short of that. */
  function LostTX(s: State, u: Unbooked, t: Tick): int {
    if Ends(s, t) then u.moved
    else if SeesFall(s, t) then u.moved + Moved(u.seen, t.tx)
    else if Books(s, t) then u.moved + Moved(u.seen, t.tx) - (t.tx - s.lastTX)
    else 0
  }

  function LostAll(s: State, u: Unbooked, ts: seq<Tick>): int
    decreases |ts|
  {
    if ts == [] then 0 else LostTX(s, u, ts[0]) + LostAll(Turn(s, ts[0]), Later(s, u, ts[0]), ts[1..])
  }

  /** The turn loses no transmitted byte: it does not book over a restart; if it sees a fall nothing went
      out before or after it; and if the loop ends nothing is unbooked. */
  predicate KeepsTX(s: State, u: Unbooked, t: Tick) {
    && (Ends(s, t) ==> u.moved == 0)
    && (Books(s, t) ==> !u.restarted && t.tx >= u.seen)
    && (SeesFall(s, t) ==> u.moved == 0 && t.tx == 0)
  }

  predicate KeepsAllTX(s: State, u: Unbooked, ts: seq<Tick>)
    decreases |ts|
  {
    ts == [] || (KeepsTX(s, u, ts[0]) && KeepsAllTX(Turn(s, ts[0]), Later(s, u, ts[0]), ts[1..]))
  }

  lemma FitsLater(s: State, u: Unbooked, t: Tick)
    requires Fits(s, u)
    ensures Turn(s, t).polling ==> Fits(Turn(s, t), Later(s, u, t))
    ensures LostTX(s, u, t) >= 0 && (LostTX(s, u, t) == 0 <==> KeepsTX(s, u, t))
  {
  }

  /** Over any run: what was sent is what is reported, what is lost, and what is not yet booked in the
      end, less what was not in the beginning. No turn loses a negative number of bytes, and none at all
      are lost exactly when every turn keeps them. */
  lemma {:induction false} SentLedger(s: State, u: Unbooked, ts: seq<Tick>)
    requires s.polling && Fits(s, u)
    ensures u.moved + Sent(u.seen, ts)
      == TurnAll(s, ts).reportedTX - s.reportedTX + LostAll(s, u, ts) + LaterAll(s, u, ts).moved
    ensures LostAll(s, u, ts) >= 0 && (LostAll(s, u, ts) == 0 <==> KeepsAllTX(s, u, ts))
    decreases |ts|
  {
    if ts != [] {
      var next, later := Turn(s, ts[0]), Later(s, u, ts[0]);
      FitsLater(s, u, ts[0]);
      if next.polling {
        SentLedger(next, later, ts[1..]);
      } else {
        StoppedStays(next, ts[1..]);
        NothingSentAfterStop(next, later, ts[1..]);
      }
    }
  }

  lemma {:induction false} NothingSentAfterStop(s: State, u: Unbooked, ts: seq<Tick>)
    requires !s.polling
    ensures LostAll(s, u, ts) == 0 && LaterAll(s, u, ts) == u && KeepsAllTX(s, u, ts)
    decreases |ts|
  {
    if ts != [] { NothingSentAfterStop(s, u, ts[1..]); }
  }

  /** From a start on, all that was sent is reported, or still to be booked by a loop that goes on,
      exactly when no turn books over a restart of the counter, no turn sees one around which bytes went
      out, and the loop does not end with bytes unbooked. */
  lemma SentInFullIff(rx: nat, tx: nat, ts: seq<Tick>)
    ensures var s, u := Start(rx, tx), Unbooked(tx, 0, false);
      Sent(tx, ts) == TurnAll(s, ts).reportedTX + LaterAll(s, u, ts).moved <==> KeepsAllTX(s, u, ts)
  {
    SentLedger(Start(rx, tx), Unbooked(tx, 0, false), ts);
  }

  /** The transmit counter falls at no sample. */
  predicate NeverRestarts(before: nat, ts: seq<Tick>)
    decreases |ts|
  {
    ts == [] || !ts[0].Sample? || (before <= ts[0].tx && NeverRestarts(ts[0].tx, ts[1..]))
  }

  /** In particular, nothing is lost while the loop goes on and the transmit counter is never restarted;
      and whether it goes on or not, the reported bytes are then the advance of the reading booked. */
  lemma {:induction false} SentWithoutRestart(s: State, u: Unbooked, ts: seq<Tick>)
    requires s.polling && Fits(s, u) && !u.restarted && NeverRestarts(u.seen, ts)
    ensures TurnAll(s, ts).polling ==> KeepsAllTX(s, u, ts)
    ensures TurnAll(s, ts).reportedTX - s.reportedTX == TurnAll(s, ts).lastTX - s.lastTX
    decreases |ts|
  {
    if ts != [] {
      var next, later := Turn(s, ts[0]), Later(s, u, ts[0]);
      FitsLater(s, u, ts[0]);
      if next.polling {
        SentWithoutRestart(next, later, ts[1..]);
      } else {
        StoppedStays(next, ts[1..]);
        NothingSentAfterStop(next, later, ts[1..]);
      }
    }
  }

  /** It fails: both counters are restarted at the first poll, which looks at the receive counter only;
      80 bytes go out over three polls, and 10 are reported. */
  lemma RestartLosesSent()
    ensures var ts := [Sample(50, 150, true), Sample(60, 20, true), Sample(70, 30, true)];
      Sent(100, ts) == 80 && TurnAll(Start(100, 100), ts).reportedTX == 10
      && LaterAll(Start(100, 100), Unbooked(100, 0, false), ts).moved == 0
  {
    var ts := [Sample(50, 150, true), Sample(60, 20, true), Sample(70, 30, true)];
    assert ts[1..] == [Sample(60, 20, true), Sample(70, 30, true)];
    assert ts[1..][1..] == [Sample(70, 30, true)];
    assert ts[1..][1..][1..] == [];
  }
}
