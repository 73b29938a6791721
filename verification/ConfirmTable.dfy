/** What the manager's table of active peers holds, over every run of the hand-shake. */
module ConfirmTable {
  import opened Tally
  import opened Confirm

  /** Update k is a Store under this interface name, and no later update is about the name. */
  predicate IsLastStore(log: seq<Update>, k: nat, name: string) {
    && k < |log| && log[k].op == Add && InterfaceName(log[k].peer) == name
    && forall m :: k < m < |log| ==> InterfaceName(log[m].peer) != name
  }

  ghost predicate EndsInStore(log: seq<Update>, name: string) { exists k: nat :: IsLastStore(log, k, name) }

  /** A name is in the table exactly when the last update about it was a Store, with that Store's peer. */
  ghost predicate Follows(table: map<string, Peer>, log: seq<Update>) {
    && (forall name :: name in table <==> EndsInStore(log, name))
    && (forall name, k: nat :: IsLastStore(log, k, name) && name in table ==> table[name] == log[k].peer)
  }

  /** Calls of AddPeer for disabled tunnels never get to a worker. */
  ghost predicate EnabledOnly(s: State, log: seq<Update>) {
    && (forall i :: 0 <= i < |s.threads| && s.threads[i].op == Add ==>
          (s.threads[i].phase.NotEnabled? <==> !s.threads[i].peer.enabled))
    && (forall k :: 0 <= k < |log| && log[k].op == Add ==> log[k].peer.enabled)
  }

  lemma FollowsOneMore(table: map<string, Peer>, log: seq<Update>, u: Update)
    requires Follows(table, log)
    ensures var name := InterfaceName(u.peer);
      Follows(if u.op == Add then table[name := u.peer] else table - {name}, log + [u])
  {
    var name, more := InterfaceName(u.peer), log + [u];
    var after := if u.op == Add then table[name := u.peer] else table - {name};
    assert more[|log|] == u;
    assert u.op == Add ==> IsLastStore(more, |log|, name);
    assert forall k: nat :: IsLastStore(more, k, name) ==> k == |log|;
    forall other, k: nat | other != name ensures IsLastStore(more, k, other) <==> IsLastStore(log, k, other) {
      if k < |log| { assert more[k] == log[k]; }
      assert forall m :: 0 <= m < |log| ==> more[m] == log[m];
    }
    forall other ensures other in after <==> EndsInStore(more, other) {
      if other != name {
        assert EndsInStore(more, other) <==> EndsInStore(log, other) by {
          if k: nat :| IsLastStore(log, k, other) { assert IsLastStore(more, k, other); }
          if k: nat :| IsLastStore(more, k, other) { assert IsLastStore(log, k, other); }
        }
      } else if EndsInStore(more, name) {
        var k: nat :| IsLastStore(more, k, name);
        assert k == |log|;
      }
    }
  }

  lemma TableAfterStep(s: State, log: seq<Update>, step: Step)
    requires Enabled(s, step) && Follows(s.activePeers, log) && EnabledOnly(s, log)
    ensures Follows(Next(s, step).activePeers, log + UpdateOf(s, step))
    ensures EnabledOnly(Next(s, step), log + UpdateOf(s, step))
  {
    if step.Store? || step.Take? {
      FollowsOneMore(s.activePeers, log, UpdateOf(s, step)[0]);
    } else {
      assert log + UpdateOf(s, step) == log;
    }
    hide Follows;
  }

  lemma {:induction false} TableOverRun(s: State, log: seq<Update>, steps: seq<Step>, s': State)
    requires Run(s, steps, s') && Follows(s.activePeers, log) && EnabledOnly(s, log)
    ensures Follows(s'.activePeers, log + UpdatesOf(s, steps)) && EnabledOnly(s', log + UpdatesOf(s, steps))
    decreases |steps|
  {
    hide Follows, EnabledOnly;
    if steps == [] {
      assert log + UpdatesOf(s, steps) == log;
    } else {
      TableAfterStep(s, log, steps[0]);
      var more := log + UpdateOf(s, steps[0]);
      TableOverRun(Next(s, steps[0]), more, steps[1..], s');
      assert more + UpdatesOf(Next(s, steps[0]), steps[1..]) == log + UpdatesOf(s, steps);
    }
  }

  /** After every run, an interface name is in the table of active peers exactly when the last update of
      the table about that name was a Store, and its entry is the peer of that Store, which is enabled. */
  lemma TableHolds(steps: seq<Step>, s: State, name: string)
    requires Run(Init(), steps, s)
    ensures name in s.activePeers <==> exists k: nat :: IsLastStore(UpdatesOf(Init(), steps), k, name)
    ensures forall k: nat :: IsLastStore(UpdatesOf(Init(), steps), k, name) ==>
      name in s.activePeers && s.activePeers[name] == UpdatesOf(Init(), steps)[k].peer && s.activePeers[name].enabled
  {
    TableOverRun(Init(), [], steps, s);
    var log := UpdatesOf(Init(), steps);
    assert [] + log == log;
    assert Follows(s.activePeers, log) && EnabledOnly(s, log);
    assert EndsInStore(log, name) <==> exists k: nat :: IsLastStore(log, k, name);
  }

  /** A removal goes on to delete the link exactly when its tunnel is in the table: when the last update
      about its interface name was a Store. Then or otherwise the name is out of the table afterwards, and
      no other name is touched. */
  lemma RemovalDeletesIff(steps: seq<Step>, s: State, i: nat)
    requires Run(Init(), steps, s) && Enabled(s, Take(i))
    ensures var name := InterfaceName(s.threads[i].peer); var next := Next(s, Take(i));
      && (next.threads[i].phase.Deleting? <==> exists k: nat :: IsLastStore(UpdatesOf(Init(), steps), k, name))
      && (next.threads[i].phase.Deleting? || next.threads[i].phase.Offering?)
      && name !in next.activePeers
      && forall other :: other != name ==>
        (other in next.activePeers <==> other in s.activePeers)
        && (other in s.activePeers ==> next.activePeers[other] == s.activePeers[other])
  {
    TableHolds(steps, s, InterfaceName(s.threads[i].peer));
  }

  lemma {:induction false} SumFinds(log: seq<Update>, op: Op, id: nat) returns (k: nat)
    requires Sum(log, About(op, id)) > 0
    ensures k < |log| && IsAbout(log[k], op, id)
    ensures forall m :: k < m < |log| ==> !IsAbout(log[m], op, id)
  {
    var front, last := log[..|log| - 1], log[|log| - 1];
    SumPush(front, last, About(op, id));
    assert log == front + [last];
    if IsAbout(last, op, id) {
      k := |log| - 1;
    } else {
      k := SumFinds(front, op, id);
    }
  }

  /** A caller that returned nil after waiting was preceded by an update of the table for its own tunnel:
      take the last one. For a caller of AddPeer, that peer is in the table under its interface name,
      unless a removal about the tunnel has taken it since. */
  lemma NilMeansRegistered(steps: seq<Step>, s: State, i: nat) returns (k: nat)
    requires Run(Init(), steps, s) && i < |s.threads| && s.threads[i].phase.ReturnedNil?
    ensures var log := UpdatesOf(Init(), steps); var t := s.threads[i];
      && k < |log| && IsAbout(log[k], t.op, t.peer.id)
      && (t.op == Add ==>
        || (InterfaceName(log[k].peer) in s.activePeers && s.activePeers[InterfaceName(log[k].peer)] == log[k].peer)
        || exists m :: k < m < |log| && IsAbout(log[m], Remove, t.peer.id))
  {
    var log, t := UpdatesOf(Init(), steps), s.threads[i];
    ConfirmationsConserved(steps, s, t.op, t.peer.id);
    SumAtLeast(s.threads, i, Returned(t.op, t.peer.id));
    k := SumFinds(log, t.op, t.peer.id);
    if t.op == Add && !exists m :: k < m < |log| && IsAbout(log[m], Remove, t.peer.id) {
      var name := InterfaceName(log[k].peer);
      forall m | k < m < |log| ensures InterfaceName(log[m].peer) != name {
        InterfaceNamesDiffer(log[m].peer, log[k].peer);
        assert !IsAbout(log[m], log[m].op, t.peer.id);
      }
      assert IsLastStore(log, k, name);
      TableHolds(steps, s, name);
    }
  }

  /** AddPeer for a disabled tunnel returns at once and nothing is registered on its behalf; for an enabled
      one it does not. */
  lemma DisabledIsNotAdded(steps: seq<Step>, s: State, i: nat)
    requires Run(Init(), steps, s) && i < |s.threads| && s.threads[i].op == Add
    ensures s.threads[i].phase.NotEnabled? <==> !s.threads[i].peer.enabled
    ensures forall name :: name in s.activePeers ==> s.activePeers[name].enabled
  {
    TableOverRun(Init(), [], steps, s);
    var log := UpdatesOf(Init(), steps);
    assert [] + log == log;
    assert Follows(s.activePeers, log) && EnabledOnly(s, log);
    forall name | name in s.activePeers ensures s.activePeers[name].enabled {
      var k: nat :| IsLastStore(log, k, name);
    }
  }
}
