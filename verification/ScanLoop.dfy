/** The scan's loop, one visit at a time: how the slots of the list being walked relate to what
    `Kept` and `Removed` say about the list the scan started from. */
module ScanLoop {
  import opened Tally
  import opened Scan

  /** `done` stays, `rest` is still to be decided, `marked` has been taken out. */
  datatype Progress<T> = Progress(done: seq<T>, rest: seq<T>, marked: seq<T>)

  /** Before visit `i` of a scan over `s`, the walked slots hold `slots`, of which `len` are in use. */
  ghost predicate Layout<T>(s: seq<T>, slots: seq<T>, len: nat, i: nat, p: Progress<T>) {
    && |slots| == |s| && len <= |s|
    && slots[..len] == p.done + p.rest
    && (i < len ==> |p.done| == i)
    && (i >= len ==> |p.rest| <= 1 && (p.rest != [] ==> i < |s|))
    && |p.rest| <= |s| && p.rest == s[|s| - |p.rest|..]
    && (forall k :: len <= k < |s| ==> slots[k] == s[|s| - 1])
  }

  /** What has been decided agrees with the whole scan. */
  ghost predicate Settled<T>(s: seq<T>, dead: T -> bool, p: Progress<T>) {
    && Kept(s, dead) == p.done + Kept(p.rest, dead)
    && Removed(s, dead) == p.marked + Removed(p.rest, dead)
  }

  /** What has been decided comes from the part of `s` before `rest`; a dead last entry that has been
      decided has been taken out. */
  ghost predicate Apart<T>(s: seq<T>, dead: T -> bool, p: Progress<T>) {
    && |p.rest| <= |s| && p.rest == s[|s| - |p.rest|..]
    && (p.rest == [] && |s| > 0 && dead(s[|s| - 1]) ==> s[|s| - 1] in p.marked)
    && (forall k :: 0 <= k < |p.marked| ==> p.marked[k] in s[..|s| - |p.rest|])
    && (forall k :: 0 <= k < |p.done| ==> p.done[k] in s[..|s| - |p.rest|])
  }

  ghost predicate At<T>(s: seq<T>, dead: T -> bool, slots: seq<T>, len: nat, i: nat, p: Progress<T>) {
    Layout(s, slots, len, i, p) && Settled(s, dead, p) && Apart(s, dead, p)
  }

  /** What a visit does, once it is known whether the visited entry is dead. */
  function Visit<T>(p: Progress<T>, isDead: bool): Progress<T> {
    if p.rest == [] then p
    else if !isDead then Progress(p.done + [p.rest[0]], p.rest[1..], p.marked)
    else if |p.rest| > 2 then Progress(p.done + [p.rest[1]], p.rest[2..], p.marked + [p.rest[0]])
    else Progress(p.done, p.rest[1..], p.marked + [p.rest[0]])
  }

  lemma AtStart<T>(s: seq<T>, dead: T -> bool)
    ensures At(s, dead, s, |s|, 0, Progress([], s, []))
  {
  }

  /** The visited entry is the next one to decide, or a copy of the last entry, already decided. */
  lemma Visited<T>(s: seq<T>, dead: T -> bool, slots: seq<T>, len: nat, i: nat, p: Progress<T>)
    requires At(s, dead, slots, len, i, p) && i < |s|
    ensures p.rest != [] ==> slots[i] == p.rest[0] && |p.done| < len && slots[|p.done|] == slots[i]
    ensures p.rest == [] ==> slots[i] == s[|s| - 1] && i >= len
  {
    if i < len {
      assert slots[..len][i] == p.rest[0];
    } else if p.rest != [] {
      assert slots[..len][|p.done|] == p.rest[0] == s[|s| - 1];
    }
  }

  lemma AtRepeat<T>(s: seq<T>, dead: T -> bool, slots: seq<T>, len: nat, i: nat, p: Progress<T>)
    requires At(s, dead, slots, len, i, p) && i < |s| && p.rest == []
    ensures At(s, dead, slots, len, i + 1, p)
  {
  }

  lemma LayoutAfterLive<T>(s: seq<T>, slots: seq<T>, len: nat, i: nat, p: Progress<T>)
    requires Layout(s, slots, len, i, p) && i < |s| && p.rest != []
    ensures Layout(s, slots, len, i + 1, Visit(p, false))
  {
    var p' := Visit(p, false);
    assert p.done + p.rest == p'.done + p'.rest;
  }

  lemma LayoutAfterRemoval<T>(s: seq<T>, slots: seq<T>, len: nat, i: nat, p: Progress<T>, slots': seq<T>)
    requires Layout(s, slots, len, i, p) && i < |s| && p.rest != [] && len > 0
    requires |slots'| == |s| && slots'[..len - 1] == p.done + p.rest[1..]
    requires forall k :: len - 1 <= k < |s| ==> slots'[k] == slots[k]
    ensures Layout(s, slots', len - 1, i + 1, Visit(p, true))
  {
    var p' := Visit(p, true);
    assert slots[..len][len - 1] == p.rest[|p.rest| - 1] == s[|s| - 1];
    assert p'.done + p'.rest == p.done + p.rest[1..];
  }

  lemma SettledAfter<T>(s: seq<T>, dead: T -> bool, p: Progress<T>)
    requires Settled(s, dead, p) && p.rest != []
    ensures Settled(s, dead, Visit(p, dead(p.rest[0])))
  {
    var p' := Visit(p, dead(p.rest[0]));
    if !dead(p.rest[0]) {
      assert p.done + ([p.rest[0]] + Kept(p'.rest, dead)) == p'.done + Kept(p'.rest, dead);
    } else {
      assert p.marked + ([p.rest[0]] + Removed(p'.rest, dead)) == p'.marked + Removed(p'.rest, dead);
      if |p.rest| > 2 {
        assert p.done + ([p.rest[1]] + Kept(p'.rest, dead)) == p'.done + Kept(p'.rest, dead);
      }
    }
  }

  lemma PrefixGrows<T>(s: seq<T>, m: nat, n: nat, xs: seq<T>)
    requires m <= n <= |s| && forall k :: 0 <= k < |xs| ==> xs[k] in s[..m]
    ensures forall k :: 0 <= k < |xs| ==> xs[k] in s[..n]
  {
    assert s[..m] == s[..n][..m];
  }

  lemma ApartAfter<T>(s: seq<T>, dead: T -> bool, p: Progress<T>)
    requires Apart(s, dead, p) && p.rest != []
    ensures Apart(s, dead, Visit(p, dead(p.rest[0])))
  {
    var p' := Visit(p, dead(p.rest[0]));
    var q, q' := |s| - |p.rest|, |s| - |p'.rest|;
    PrefixGrows(s, q, q', p.marked);
    PrefixGrows(s, q, q', p.done);
    assert s[..q'][q] == s[q] == p.rest[0];
    assert p.rest[|p.rest| - 1] == s[|s| - 1];
    if dead(p.rest[0]) && |p.rest| > 2 {
      assert s[..q'][q + 1] == s[q + 1] == p.rest[1];
    }
  }

  /** In a list without repetitions, what has been decided does not come up again. */
  lemma ApartMeansDifferent<T>(s: seq<T>, dead: T -> bool, p: Progress<T>, x: T)
    requires Distinct(s) && Apart(s, dead, p) && (x in p.marked || x in p.done)
    ensures x in s && x !in p.rest
  {
    var q := |s| - |p.rest|;
    assert x in s[..q];
    var j :| 0 <= j < q && s[j] == x;
    assert forall k :: 0 <= k < |p.rest| ==> p.rest[k] == s[q + k];
  }

  lemma AtLive<T>(s: seq<T>, dead: T -> bool, slots: seq<T>, len: nat, i: nat, p: Progress<T>)
    requires Distinct(s) && At(s, dead, slots, len, i, p) && i < |s| && p.rest != [] && !dead(slots[i])
    ensures At(s, dead, slots, len, i + 1, Visit(p, false))
  {
    Visited(s, dead, slots, len, i, p);
    LayoutAfterLive(s, slots, len, i, p);
    SettledAfter(s, dead, p);
    ApartAfter(s, dead, p);
  }

  lemma AtDead<T>(s: seq<T>, dead: T -> bool, slots: seq<T>, len: nat, i: nat, p: Progress<T>, slots': seq<T>)
    requires Distinct(s) && At(s, dead, slots, len, i, p) && i < |s| && p.rest != [] && dead(slots[i])
    requires |slots'| == |s| && len > 0 && slots'[..len - 1] == p.done + p.rest[1..]
    requires forall k :: len - 1 <= k < |s| ==> slots'[k] == slots[k]
    ensures At(s, dead, slots', len - 1, i + 1, Visit(p, true))
  {
    Visited(s, dead, slots, len, i, p);
    LayoutAfterRemoval(s, slots, len, i, p, slots');
    SettledAfter(s, dead, p);
    ApartAfter(s, dead, p);
  }

  lemma AtEnd<T>(s: seq<T>, dead: T -> bool, slots: seq<T>, len: nat, p: Progress<T>)
    requires At(s, dead, slots, len, |s|, p)
    ensures slots[..len] == Kept(s, dead) && p.marked == Removed(s, dead)
  {
    assert p.rest == [];
  }
}
