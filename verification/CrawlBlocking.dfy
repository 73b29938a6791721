/** The one way in which a crawl can block: Walk's own send, before Walk has returned the channel. */
module CrawlBlocking {
  import opened Options
  import opened Tally
  import opened Crawl
  import opened CrawlInvariant
  import opened CrawlOutcome

  lemma BlockedKept(mesh: Mesh, start: string, s: State, step: Step)
    requires Inv(mesh, start, s) && Blocked(s) && Enabled(s, step)
    ensures Blocked(Next(mesh, s, step))
  {
    StepEffect(mesh, start, s, step);
  }

  /** Once blocked, Walk never returns: no schedule gets it past its send. */
  lemma {:induction false} BlockedForever(mesh: Mesh, start: string, s: State, steps: seq<Step>, s': State)
    requires Inv(mesh, start, s) && Blocked(s) && Run(mesh, s, steps, s')
    ensures Blocked(s') && !s'.threads[0].phase.Done?
    decreases |steps|
  {
    if steps != [] {
      BlockedKept(mesh, start, s, steps[0]);
      InvKept(mesh, start, s, steps[0]);
      BlockedForever(mesh, start, Next(mesh, s, steps[0]), steps[1..], s');
    }
  }

  ghost predicate CanReturn(mesh: Mesh, s: State) {
    exists steps, s' :: Run(mesh, s, steps, s') && s'.threads != [] && s'.threads[0].phase.Done?
  }

  lemma FreeSlotLetsWalkReturn(mesh: Mesh, start: string, s: State)
    requires Inv(mesh, start, s) && s.threads[0].phase.Sending? && s.buffer == []
    ensures CanReturn(mesh, s)
  {
    var s' := Next(mesh, s, Send(0));
    NoPanic(mesh, start, s, Send(0));
    assert [Send(0)][1..] == [];
    assert Run(mesh, s, [Send(0)], s');
  }

  lemma BlockedMeansSomeoneSent(mesh: Mesh, start: string, s: State)
    requires Inv(mesh, start, s) && s.threads[0].phase.Sending?
    ensures Blocked(s) <==> exists i :: 1 <= i < |s.threads| && HasSent(s.threads[i])
  {
    if Blocked(s) {
      assert Log(s)[0] == s.buffer[0];
      assert HasSent(s.threads[Log(s)[0].sender]);
    }
    if i :| 1 <= i < |s.threads| && HasSent(s.threads[i]) {
      SumAtLeast(s.threads, i, Delivered);
    }
  }

  /** Walk's send goes through exactly when no task has sent its response before it. */
  lemma WalkReturnsIffFirst(mesh: Mesh, start: string, s: State)
    requires Reachable(mesh, start, s) && s.threads != [] && s.threads[0].phase.Sending?
    ensures CanReturn(mesh, s) <==> forall i :: 1 <= i < |s.threads| ==> !HasSent(s.threads[i])
  {
    ReachableInv(mesh, start, s);
    BlockedMeansSomeoneSent(mesh, start, s);
    hide Inv, HasSent;
    if !Blocked(s) {
      FreeSlotLetsWalkReturn(mesh, start, s);
    } else if CanReturn(mesh, s) {
      var steps, s' :| Run(mesh, s, steps, s') && s'.threads != [] && s'.threads[0].phase.Done?;
      BlockedForever(mesh, start, s, steps, s');
    }
  }

  lemma {:induction false} RunExtends(mesh: Mesh, s: State, steps: seq<Step>, s': State, step: Step)
    requires Run(mesh, s, steps, s') && Enabled(s', step)
    ensures Run(mesh, s, steps + [step], Next(mesh, s', step))
    decreases |steps|
  {
    if steps == [] {
      assert (steps + [step])[1..] == [];
    } else {
      RunExtends(mesh, Next(mesh, s, steps[0]), steps[1..], s', step);
      assert (steps + [step])[1..] == steps[1..] + [step];
    }
  }

  lemma ReachableExtends(mesh: Mesh, start: string, s: State, step: Step)
    requires Reachable(mesh, start, s) && Enabled(s, step)
    ensures Reachable(mesh, start, Next(mesh, s, step))
  {
    var steps :| Run(mesh, Init(start), steps, s);
    RunExtends(mesh, Init(start), steps, s, step);
  }

  // For which meshes it can happen.

  ghost predicate CanBlock(mesh: Mesh, start: string) { exists s :: Reachable(mesh, start, s) && Blocked(s) }

  /** The thread has a host to look at or a fetch to make, and will come to send a response. */
  predicate OnItsWay(mesh: Mesh, t: Thread) {
    t.phase.Scanning? || t.phase.Claimed? || (t.phase.Fetching? && (!t.root || mesh.fetch(t.node).Some?))
  }

  function StepOf(t: Thread, i: nat): Step {
    if t.phase.Fetching? then Fetch(i) else if t.phase.Claimed? then Spawn(i) else Scan(i)
  }

  function ToGo(mesh: Mesh, t: Thread): nat {
    match t.phase
    case Fetching => 2 * |Hosts(mesh, t.node)| + 2
    case Claimed(_, rest) => 2 * |rest| + 2
    case Scanning(rest) => 2 * |rest| + 1
    case _ => 0
  }

  /** Thread i has moved, threads that wait to be dispatched have been added, and nothing has been sent. */
  ghost predicate OnlyMoved(s: State, s': State, i: nat)
    requires i < |s.threads|
  {
    && |s.threads| <= |s'.threads| && s'.buffer == s.buffer && s'.closer == s.closer
    && s'.threads[i].node == s.threads[i].node && s'.threads[i].root == s.threads[i].root
    && (forall j :: 0 <= j < |s.threads| && j != i ==> s'.threads[j] == s.threads[j])
    && (forall j :: |s.threads| <= j < |s'.threads| ==> s'.threads[j].phase.Pending?)
  }

  lemma OneStepOnItsWay(mesh: Mesh, s: State, i: nat)
    requires !s.panicked && i < |s.threads| && OnItsWay(mesh, s.threads[i])
    ensures Enabled(s, StepOf(s.threads[i], i))
    ensures var s' := Next(mesh, s, StepOf(s.threads[i], i));
      && OnlyMoved(s, s', i)
      && (s'.threads[i].phase.Sending? || OnItsWay(mesh, s'.threads[i]))
      && ToGo(mesh, s'.threads[i]) < ToGo(mesh, s.threads[i])
  {
  }

  /** Left alone, a thread on its way comes to its send. */
  lemma {:induction false} ComesToSend(mesh: Mesh, start: string, s: State, i: nat) returns (s': State)
    requires Reachable(mesh, start, s) && i < |s.threads| && OnItsWay(mesh, s.threads[i])
    ensures Reachable(mesh, start, s') && OnlyMoved(s, s', i) && s'.threads[i].phase.Sending?
    decreases ToGo(mesh, s.threads[i])
  {
    ReachableInv(mesh, start, s);
    hide Inv, Reachable, Enabled, Next;
    OneStepOnItsWay(mesh, s, i);
    var step := StepOf(s.threads[i], i);
    s' := Next(mesh, s, step);
    ReachableExtends(mesh, start, s, step);
    if !s'.threads[i].phase.Sending? {
      s' := ComesToSend(mesh, start, s', i);
    }
  }

  /** If the starting node lists a host that is not skipped, its task can be first at the channel. */
  lemma ListedHostCanBlock(mesh: Mesh, start: string, h: string)
    requires h in Hosts(mesh, start) && !Skipped(h)
    ensures CanBlock(mesh, start)
  {
    var s := Init(start);
    assert Run(mesh, s, [], s);
    var s1 := ComesToSend(mesh, start, s, 0);
    FirstTaskWaits(mesh, start, s1, h);
    ReachableExtends(mesh, start, s1, Dispatch(1));
    var s2 := ComesToSend(mesh, start, Next(mesh, s1, Dispatch(1)), 1);
    ReachableInv(mesh, start, s2);
    ReachableExtends(mesh, start, s2, Send(1));
    assert Blocked(Next(mesh, s2, Send(1)));
  }

  lemma FirstTaskWaits(mesh: Mesh, start: string, s: State, h: string)
    requires Reachable(mesh, start, s) && OnlyMoved(Init(start), s, 0) && s.threads[0].phase.Sending?
    requires h in Hosts(mesh, start) && !Skipped(h)
    ensures !s.panicked && |s.threads| > 1 && s.threads[1].phase.Pending? && !s.threads[1].root
  {
    ReachableInv(mesh, start, s);
    assert Covered(mesh, s.seen, s.threads[0]);
    assert mesh.upper(h) in s.seen;
    NoClaims(s.threads);
  }

  /** If Walk is blocked, some task has sent, and its name was listed by the starting node or further on. */
  lemma NothingListedCannotBlock(mesh: Mesh, start: string, s: State)
    requires Reachable(mesh, start, s) && Blocked(s)
    ensures exists h :: h in Hosts(mesh, start) && !Skipped(h)
  {
    ReachableInv(mesh, start, s);
    BlockedMeansSomeoneSent(mesh, start, s);
    assert Owns(mesh, s, 1, mesh.upper(s.threads[1].node));
    var none: set<string> := {};
    if Closed(mesh, start, none) {
      assert false;
    }
  }

  /** Some schedule blocks Walk if and only if the starting node's reply lists a host that is not
      skipped: any crawl of more than the starting node can block, whatever the other nodes reply. */
  lemma CanBlockIff(mesh: Mesh, start: string)
    ensures CanBlock(mesh, start) <==> exists h :: h in Hosts(mesh, start) && !Skipped(h)
  {
    if CanBlock(mesh, start) {
      var s :| Reachable(mesh, start, s) && Blocked(s);
      NothingListedCannotBlock(mesh, start, s);
    }
    if h :| h in Hosts(mesh, start) && !Skipped(h) {
      ListedHostCanBlock(mesh, start, h);
    }
  }

  /** And it does happen in a mesh of two nodes. */
  lemma BlockedIsReachable()
    ensures exists mesh, start :: CaseInsensitive(mesh) && CanBlock(mesh, start)
  {
    var mesh := Mesh((n: string) => n, (n: string) => if n == "A" then Some(["B"]) else Some([]));
    assert "B" in Hosts(mesh, "A") && !Skipped("B");
    CanBlockIff(mesh, "A");
  }
}
