/** What one pass over a list does when the pass deletes entries from the very list it walks.
    The walk keeps its index and its original length while deletion shifts the tail left, so the
    entry behind a deleted one is passed over; the last entry is the exception, because the shift
    leaves a copy of it in the slots the walk still visits. `Kept` and `Removed` say what is left
    and what is taken out; the watcher's in-place loop is proved to compute them. */
module Scan {
  import opened Arithmetic
  import opened Tally

  function Kept<T>(s: seq<T>, dead: T -> bool): seq<T> {
    if s == [] then []
    else if !dead(s[0]) then [s[0]] + Kept(s[1..], dead)
    else if |s| <= 2 then Kept(s[1..], dead)
    else [s[1]] + Kept(s[2..], dead)
  }

  function Removed<T>(s: seq<T>, dead: T -> bool): seq<T> {
    if s == [] then []
    else if !dead(s[0]) then Removed(s[1..], dead)
    else if |s| <= 2 then [s[0]] + Removed(s[1..], dead)
    else [s[0]] + Removed(s[2..], dead)
  }

  function DeadCount<T>(s: seq<T>, dead: T -> bool): nat {
    if s == [] then 0 else (if dead(s[0]) then 1 else 0) + DeadCount(s[1..], dead)
  }

  /** The entries of `s` that are not in `gone`, in order. */
  function Without<T(==)>(s: seq<T>, gone: seq<T>): seq<T> {
    if s == [] then []
    else if s[0] in gone then Without(s[1..], gone)
    else [s[0]] + Without(s[1..], gone)
  }

  lemma {:induction false} RemovedWereDead<T>(s: seq<T>, dead: T -> bool)
    ensures forall x :: x in Removed(s, dead) ==> dead(x) && x in s
    decreases |s|
  {
    if s != [] {
      RemovedWereDead(s[1..], dead);
      if |s| > 2 { RemovedWereDead(s[2..], dead); }
    }
  }

  lemma {:induction false} KeptWereThere<T>(s: seq<T>, dead: T -> bool)
    ensures forall x :: x in Kept(s, dead) ==> x in s
    decreases |s|
  {
    if s != [] {
      KeptWereThere(s[1..], dead);
      if |s| > 2 { KeptWereThere(s[2..], dead); }
    }
  }

  lemma {:induction false} WithoutIgnores<T>(s: seq<T>, gone: seq<T>, more: seq<T>)
    requires forall x :: x in s ==> (x in gone <==> x in more)
    ensures Without(s, gone) == Without(s, more)
  {
    if s != [] { WithoutIgnores(s[1..], gone, more); }
  }

  lemma {:induction false} WithoutMembers<T>(s: seq<T>, gone: seq<T>)
    requires Distinct(s)
    ensures Distinct(Without(s, gone))
    ensures forall x :: x in Without(s, gone) <==> x in s && x !in gone
  {
    if s != [] {
      WithoutMembers(s[1..], gone);
      assert s[0] !in s[1..];
    }
  }

  /** The survivors are the entries that were not removed, in their old order; nothing live is
      removed, and nothing is removed twice. */
  lemma {:induction false} ScanPartition<T>(s: seq<T>, dead: T -> bool)
    requires Distinct(s)
    ensures Kept(s, dead) == Without(s, Removed(s, dead))
    ensures Distinct(Removed(s, dead)) && forall x :: x in Removed(s, dead) ==> dead(x) && x in s
    decreases |s|
  {
    RemovedWereDead(s, dead);
    if s == [] {
    } else if !dead(s[0]) {
      ScanPartition(s[1..], dead);
    } else if |s| <= 2 {
      PartitionAfterRemoval(s, s[1..], dead);
    } else {
      ScanPartition(s[2..], dead);
      RemovedWereDead(s[2..], dead);
      var gone := Removed(s, dead);
      assert gone == [s[0]] + Removed(s[2..], dead);
      assert s[1] !in s[2..] && s[0] !in s[2..] by {
        assert forall k :: 0 <= k < |s[2..]| ==> s[2..][k] == s[k + 2];
      }
      assert s[1] !in gone;
      assert s[1..][1..] == s[2..];
      assert Without(s, gone) == Without(s[1..], gone) == [s[1]] + Without(s[2..], gone);
      WithoutIgnores(s[2..], gone, Removed(s[2..], dead));
    }
  }

  lemma PartitionAfterRemoval<T>(s: seq<T>, rest: seq<T>, dead: T -> bool)
    requires Distinct(s) && 1 <= |s| <= 2 && dead(s[0]) && rest == s[1..]
    ensures Kept(s, dead) == Without(s, Removed(s, dead))
    ensures Distinct(Removed(s, dead))
  {
    if |s| == 2 {
      assert rest == [s[1]] && rest[1..] == [] && s[0] != s[1];
      assert Removed(rest, dead) == if dead(s[1]) then [s[1]] else [];
      assert Kept(rest, dead) == if dead(s[1]) then [] else [s[1]];
      var gone := Removed(s, dead);
      assert gone == [s[0]] + Removed(rest, dead);
      assert Without(s, gone) == Without(rest, gone);
      assert Without(rest[1..], gone) == [];
    }
  }

  /** A scan removes at least half of the dead entries, rounding up. */
  lemma {:induction false} RemovesHalf<T>(s: seq<T>, dead: T -> bool)
    ensures DeadCount(Kept(s, dead), dead) + |Removed(s, dead)| == DeadCount(s, dead)
    ensures 2 * |Removed(s, dead)| >= DeadCount(s, dead)
    decreases |s|
  {
    if s == [] {
    } else if !dead(s[0]) {
      RemovesHalf(s[1..], dead);
      assert Kept(s, dead)[1..] == Kept(s[1..], dead);
    } else if |s| <= 2 {
      RemovesHalf(s[1..], dead);
      if |s| == 2 { assert s[1..][1..] == []; }
    } else {
      RemovesHalf(s[2..], dead);
      assert s[1..][1..] == s[2..];
      assert Kept(s, dead)[1..] == Kept(s[2..], dead);
    }
  }

  /** Two neighbouring dead entries, the second of which is not the last entry. */
  ghost predicate DeadNeighbours<T>(s: seq<T>, dead: T -> bool, i: nat) {
    i + 2 < |s| && dead(s[i]) && dead(s[i + 1])
  }

  /** One scan clears all the dead entries exactly when no dead entry follows another, the last
      entry aside. */
  lemma {:induction false} ScanClearsAll<T>(s: seq<T>, dead: T -> bool)
    ensures DeadCount(Kept(s, dead), dead) == 0 <==> !exists i: nat :: DeadNeighbours(s, dead, i)
    decreases |s|
  {
    if s == [] {
    } else if !dead(s[0]) {
      ScanClearsAll(s[1..], dead);
      assert Kept(s, dead)[1..] == Kept(s[1..], dead);
      ShiftNeighbours(s, dead);
    } else if |s| <= 2 {
      ScanClearsAll(s[1..], dead);
    } else {
      ScanClearsAll(s[2..], dead);
      assert Kept(s, dead)[1..] == Kept(s[2..], dead);
      assert s[1..][1..] == s[2..];
      if dead(s[1]) {
        assert DeadNeighbours(s, dead, 0);
      } else {
        ShiftNeighbours(s, dead);
        ShiftNeighbours(s[1..], dead);
      }
    }
  }

  /** It fails for three dead entries in a row: the scan passes over the middle one. */
  lemma DeadCanRemain<T>(x: T, y: T, z: T, dead: T -> bool)
    requires dead(x) && dead(y) && dead(z)
    ensures Kept([x, y, z], dead) == [y] && Removed([x, y, z], dead) == [x, z]
  {
    var s := [x, y, z];
    assert s[2..] == [z] && [z][1..] == [];
    assert Kept([z], dead) == Kept([z][1..], dead) == [];
    assert Removed([z], dead) == [z] + Removed([z][1..], dead) == [z];
  }

  lemma ShiftNeighbours<T>(s: seq<T>, dead: T -> bool)
    requires s != [] && (!dead(s[0]) || (|s| > 1 && !dead(s[1])))
    ensures (exists i: nat :: DeadNeighbours(s, dead, i)) <==> exists i: nat :: DeadNeighbours(s[1..], dead, i)
  {
    if i: nat :| DeadNeighbours(s, dead, i) {
      assert i > 0;
      assert DeadNeighbours(s[1..], dead, i - 1);
    }
    if i: nat :| DeadNeighbours(s[1..], dead, i) {
      assert DeadNeighbours(s, dead, i + 1);
    }
  }

  lemma {:induction false} DeadCountAppend<T>(s: seq<T>, t: seq<T>, dead: T -> bool)
    ensures DeadCount(s + t, dead) == DeadCount(s, dead) + DeadCount(t, dead)
  {
    if s == [] {
      assert s + t == t;
    } else {
      assert (s + t)[1..] == s[1..] + t;
      DeadCountAppend(s[1..], t, dead);
    }
  }

  lemma {:induction false} DeadCountZero<T>(s: seq<T>, dead: T -> bool)
    ensures DeadCount(s, dead) == 0 <==> forall x :: x in s ==> !dead(x)
  {
    if s != [] { DeadCountZero(s[1..], dead); }
  }

  /** Scan after scan, each followed by the addition of entries that are not dead. */
  function Rounds<T>(s: seq<T>, additions: seq<seq<T>>, dead: T -> bool): seq<T>
    decreases |additions|
  {
    if additions == [] then s else Rounds(Kept(s, dead) + additions[0], additions[1..], dead)
  }

  lemma Twice(left: nat, p: nat, next: nat, all: nat)
    requires left * p <= next && 2 * next <= all
    ensures left * (2 * p) <= all
  {
    assert left * (2 * p) == 2 * (left * p);
  }

  /** After k scans at most a 2^k-th part of the dead entries is left. */
  lemma {:induction false} RoundsHalve<T>(s: seq<T>, additions: seq<seq<T>>, dead: T -> bool)
    requires forall a, x :: a in additions && x in a ==> !dead(x)
    ensures DeadCount(Rounds(s, additions, dead), dead) * Pow2(|additions|) <= DeadCount(s, dead)
    decreases |additions|
  {
    if additions != [] {
      var next := Kept(s, dead) + additions[0];
      RemovesHalf(s, dead);
      DeadCountAppend(Kept(s, dead), additions[0], dead);
      DeadCountZero(additions[0], dead);
      forall a, x | a in additions[1..] && x in a ensures !dead(x) { assert a in additions; }
      RoundsHalve(next, additions[1..], dead);
      var left := DeadCount(Rounds(s, additions, dead), dead);
      Twice(left, Pow2(|additions| - 1), DeadCount(next, dead), DeadCount(s, dead));
    }
  }

  lemma AtLeastOnce(left: nat, p: nat)
    requires left > 0
    ensures p <= left * p
  {
    assert left * p == (left - 1) * p + p;
  }

  /** So as soon as 2^k exceeds their number, there is none left. */
  lemma RoundsClear<T>(s: seq<T>, additions: seq<seq<T>>, dead: T -> bool)
    requires forall a, x :: a in additions && x in a ==> !dead(x)
    requires DeadCount(s, dead) < Pow2(|additions|)
    ensures forall x :: x in Rounds(s, additions, dead) ==> !dead(x)
  {
    RoundsHalve(s, additions, dead);
    var left := DeadCount(Rounds(s, additions, dead), dead);
    if left > 0 { AtLeastOnce(left, Pow2(|additions|)); }
    DeadCountZero(Rounds(s, additions, dead), dead);
  }
}
