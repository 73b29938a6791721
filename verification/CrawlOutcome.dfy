/** Main results about the crawl: safety of the channels, what it finds, how much it delivers,
    that it ends, and the one way in which it can block. */
module CrawlOutcome {
  import opened Tally
  import opened Crawl
  import opened CrawlInvariant

  // Close safety.

  /** In every interleaving: no send on a closed channel and no negative counter, ever; the counter
      is the number of unfinished tasks; and once Walk is waiting on the group, a counter that has
      come down to zero stays there. */
  lemma CloseSafety(mesh: Mesh, start: string, s: State, step: Step)
    requires Reachable(mesh, start, s) && Enabled(s, step)
    ensures !Next(mesh, s, step).panicked
    ensures s.wg == Sum(s.threads, Live)
    ensures forall i :: 0 <= i < |s.threads| ==>
      && (s.threads[i].phase.Pending? ==> !TasksAreClosed(s))
      && (s.threads[i].phase.Sending? ==> !ResponsesAreClosed(s))
    ensures s.closer != NotStarted && s.wg == 0 ==> Next(mesh, s, step).wg == 0 && !step.Spawn?
  {
    ReachableInv(mesh, start, s);
    hide AllCovered, Sound, OneTaskEach, Logged;
    NoPanic(mesh, start, s, step);
    StepEffect(mesh, start, s, step);
    forall i | 0 <= i < |s.threads| && !s.threads[i].phase.Done?
      ensures s.closer == NotStarted || s.closer == Waiting
      ensures s.closer != NotStarted ==> s.wg > 0
    {
      WorkKeepsChannelsOpen(start, s, i);
    }
  }

  // Completeness.

  function Names(s: State): set<string> { set n | n in s.seen }

  lemma FinishedMeansAllDone(mesh: Mesh, start: string, s: State)
    requires Inv(mesh, start, s) && s.closer != NotStarted && s.wg == 0
    ensures forall i :: 0 <= i < |s.threads| ==> s.threads[i].phase.Done?
  {
    AllDoneWhenNoneCounted(s);
  }

  /** When the response channel is closed, the recorded names are exactly the crawl of the mesh. */
  lemma CrawlComplete(mesh: Mesh, start: string, s: State)
    requires CaseInsensitive(mesh) && Reachable(mesh, start, s) && ResponsesAreClosed(s)
    ensures IsCrawl(mesh, start, Names(s))
  {
    ReachableInv(mesh, start, s);
    FinishedMeansAllDone(mesh, start, s);
    assert Covered(mesh, s.seen, s.threads[0]);
    forall n, h | mesh.upper(n) in Names(s) && h in Hosts(mesh, n) && !Skipped(h)
      ensures mesh.upper(h) in Names(s)
    {
      var name := mesh.upper(n);
      var i :| 0 <= i < |s.threads| && (Owns(mesh, s, i, name) || AboutToSpawn(mesh, s, i, name));
      assert Covered(mesh, s.seen, s.threads[i]);
      assert mesh.fetch(s.threads[i].node) == mesh.fetch(n);
    }
    forall names | Closed(mesh, start, names) ensures Names(s) <= names {
      forall n | n in Names(s) ensures n in names {
        assert n in s.seen;
      }
    }
  }

  /** A chain of listings from the starting node to the last name of `path`. */
  ghost predicate IsPath(mesh: Mesh, start: string, path: seq<string>) {
    && path != []
    && (exists h :: h in Hosts(mesh, start) && !Skipped(h) && mesh.upper(h) == path[0])
    && forall k :: 1 <= k < |path| ==> Lists(mesh, path[k - 1], path[k])
  }

  ghost predicate Lists(mesh: Mesh, from: string, to: string) {
    exists n, h :: mesh.upper(n) == from && h in Hosts(mesh, n) && !Skipped(h) && mesh.upper(h) == to
  }

  ghost predicate HasPath(mesh: Mesh, start: string, name: string) {
    exists path :: IsPath(mesh, start, path) && path[|path| - 1] == name
  }

  lemma {:induction false} PathStaysInside(mesh: Mesh, start: string, names: set<string>, path: seq<string>)
    requires Closed(mesh, start, names) && IsPath(mesh, start, path)
    ensures path[|path| - 1] in names
    decreases |path|
  {
    if |path| > 1 {
      var front := path[..|path| - 1];
      forall k | 1 <= k < |front| ensures Lists(mesh, front[k - 1], front[k]) {
        assert Lists(mesh, path[k - 1], path[k]);
      }
      PathStaysInside(mesh, start, names, front);
      assert Lists(mesh, path[|path| - 2], path[|path| - 1]);
    }
  }

  lemma PathExtends(mesh: Mesh, start: string, n: string, h: string)
    requires HasPath(mesh, start, mesh.upper(n)) && h in Hosts(mesh, n) && !Skipped(h)
    ensures HasPath(mesh, start, mesh.upper(h))
  {
    var path :| IsPath(mesh, start, path) && path[|path| - 1] == mesh.upper(n);
    var longer := path + [mesh.upper(h)];
    assert Lists(mesh, mesh.upper(n), mesh.upper(h));
    assert IsPath(mesh, start, longer);
    assert longer[|longer| - 1] == mesh.upper(h);
  }

  /** The least closed set is the set of names with a path from the start. */
  lemma CrawlIsPathReachable(mesh: Mesh, start: string, names: set<string>, name: string)
    requires IsCrawl(mesh, start, names)
    ensures name in names <==> HasPath(mesh, start, name)
  {
    if HasPath(mesh, start, name) {
      var path :| IsPath(mesh, start, path) && path[|path| - 1] == name;
      PathStaysInside(mesh, start, names, path);
    }
    var reached := set n | n in names && HasPath(mesh, start, n);
    forall h | h in Hosts(mesh, start) && !Skipped(h) ensures mesh.upper(h) in reached {
      assert IsPath(mesh, start, [mesh.upper(h)]);
      assert [mesh.upper(h)][0] == mesh.upper(h);
    }
    forall n, h | mesh.upper(n) in reached && h in Hosts(mesh, n) && !Skipped(h)
      ensures mesh.upper(h) in reached
    {
      PathExtends(mesh, start, n, h);
    }
    assert Closed(mesh, start, reached);
  }

  // Exact count.

  lemma {:induction false} AllDelivered(threads: seq<Thread>)
    requires forall i :: 0 <= i < |threads| ==> HasSent(threads[i])
    ensures Sum(threads, Delivered) == |threads|
  {
    if threads != [] { AllDelivered(threads[1..]); }
  }

  lemma {:induction false} NoClaims(threads: seq<Thread>)
    requires forall i :: 0 <= i < |threads| ==> !threads[i].phase.Claimed?
    ensures Sum(threads, Claims) == 0
  {
    if threads != [] { NoClaims(threads[1..]); }
  }

  lemma ProperSubsetIsSmaller<T>(a: set<T>, b: set<T>)
    requires a < b
    ensures |a| < |b|
  {
    assert b == a + (b - a);
    assert |b| == |a| + |b - a|;
  }

  /** Thread i's response is in the log, and carries what fetching its node yields. */
  ghost predicate HasReply(mesh: Mesh, s: State, i: nat)
    requires i < |s.threads|
  {
    Message(i, mesh.fetch(s.threads[i].node)) in Log(s)
  }

  function Senders(log: seq<Message>): (r: seq<nat>)
    ensures |r| == |log| && forall k :: 0 <= k < |log| ==> r[k] == log[k].sender
  {
    seq(|log|, k requires 0 <= k < |log| => log[k].sender)
  }

  lemma EveryThreadIsInTheLog(mesh: Mesh, s: State, i: nat)
    requires Logged(mesh, s) && i < |s.threads|
    requires forall j :: 0 <= j < |s.threads| ==> HasSent(s.threads[j])
    ensures |Log(s)| == |s.threads|
    ensures HasReply(mesh, s, i)
  {
    AllDelivered(s.threads);
    var senders := Senders(Log(s));
    assert Distinct(senders);
    Pigeonhole(senders, |s.threads|);
    assert i in senders;
    var k :| 0 <= k < |senders| && senders[k] == i;
    assert Log(s)[k] == Message(i, mesh.fetch(s.threads[i].node));
  }

  lemma EveryNameHasATask(mesh: Mesh, s: State, n: string)
    requires OneTaskEach(mesh, s) && n in s.seen
    requires forall i :: 0 <= i < |s.threads| ==> !s.threads[i].phase.Claimed?
    ensures exists i :: 1 <= i < |s.threads| && Owns(mesh, s, i, n)
  {
    var i :| 0 <= i < |s.threads| && (Owns(mesh, s, i, n) || AboutToSpawn(mesh, s, i, n));
    assert !s.threads[i].phase.Claimed?;
    assert Owns(mesh, s, i, n);
  }

  /** When the response channel is closed: one response per thread and nothing else has been sent,
      each carrying that node's reply (None for a failed fetch); each recorded name has exactly one
      task; so one response more than there are names, and the progress counter equals the names. */
  lemma ExactCount(mesh: Mesh, start: string, s: State)
    requires Reachable(mesh, start, s) && ResponsesAreClosed(s)
    ensures |Log(s)| == |s.seen| + 1 == |s.threads| && s.totalCount == |s.seen| && Distinct(s.seen)
    ensures forall i :: 0 <= i < |s.threads| ==> HasReply(mesh, s, i)
    ensures forall n :: n in s.seen ==> exists i :: 1 <= i < |s.threads| && Owns(mesh, s, i, n)
    ensures forall i, j, n :: 0 <= i < j < |s.threads| && Owns(mesh, s, i, n) ==> !Owns(mesh, s, j, n)
  {
    ReachableInv(mesh, start, s);
    FinishedMeansAllDone(mesh, start, s);
    hide Inv, AllCovered, Sound;
    NoClaims(s.threads);
    EveryThreadIsInTheLog(mesh, s, 0);
    forall i | 0 <= i < |s.threads| ensures HasReply(mesh, s, i) {
      EveryThreadIsInTheLog(mesh, s, i);
    }
    forall n | n in s.seen ensures exists i :: 1 <= i < |s.threads| && Owns(mesh, s, i, n) {
      EveryNameHasATask(mesh, s, n);
    }
  }

  // Termination.

  /** How many more steps a thread can take, not counting those of tasks it has yet to claim. */
  function Work(mesh: Mesh, t: Thread): nat {
    match t.phase
    case Pending => |Hosts(mesh, t.node)| + 7
    case Fetching => |Hosts(mesh, t.node)| + 6
    case Scanning(rest) => |rest| + 5
    case Claimed(host, rest) => |rest| + |Hosts(mesh, host)| + 13
    case Sending(_) => 4
    case Sent => 2
    case Done => 0
    case Failed => 0
  }

  function WorkOf(mesh: Mesh): Thread -> nat { t => Work(mesh, t) }

  function CloserWork(c: Closer): nat {
    match c
    case NotStarted => 4
    case Waiting => 3
    case Woken => 2
    case TasksClosed => 1
    case Finished => 0
  }

  function RemainingWork(mesh: Mesh, s: State): nat {
    Sum(s.threads, WorkOf(mesh)) + |s.buffer| + CloserWork(s.closer)
  }

  /** Any finite closed set bounds what can still be recorded. */
  function Unseen(universe: set<string>, s: State): set<string> { universe - Names(s) }

  lemma WorkAfterPhase(mesh: Mesh, s: State, i: nat, phase: Phase)
    requires i < |s.threads|
    ensures Sum(SetPhase(s, i, phase).threads, WorkOf(mesh)) + Work(mesh, s.threads[i])
         == Sum(s.threads, WorkOf(mesh)) + Work(mesh, s.threads[i].(phase := phase))
  {
    SumUpdate(s.threads, i, s.threads[i].(phase := phase), WorkOf(mesh));
  }

  lemma WorkAfterSpawn(mesh: Mesh, s: State, i: nat)
    requires i < |s.threads| && s.threads[i].phase.Claimed?
    ensures Sum(SpawnStep(s, i).threads, WorkOf(mesh)) + 1 == Sum(s.threads, WorkOf(mesh))
  {
    var phase := Scanning(s.threads[i].phase.rest);
    WorkAfterPhase(mesh, s, i, phase);
    SumPush(SetPhase(s, i, phase).threads, Thread(false, s.threads[i].phase.host, Pending), WorkOf(mesh));
  }

  lemma NewNameLeavesFewerUnseen(mesh: Mesh, start: string, universe: set<string>, s: State, i: nat)
    requires Closed(mesh, start, universe) && i < |s.threads| && s.threads[i].phase.Scanning?
    requires Sound(mesh, start, ScanStep(mesh, s, i)) && ScanStep(mesh, s, i).seen != s.seen
    ensures |Unseen(universe, ScanStep(mesh, s, i))| < |Unseen(universe, s)|
  {
    var s' := ScanStep(mesh, s, i);
    var name := mesh.upper(s.threads[i].phase.rest[0]);
    assert s'.seen == s.seen + [name];
    assert name in s'.seen && name in universe;
    assert Names(s') == Names(s) + {name};
    assert name in Unseen(universe, s) && name !in Unseen(universe, s');
    ProperSubsetIsSmaller(Unseen(universe, s'), Unseen(universe, s));
  }

  lemma LessWorkAfterPhase(mesh: Mesh, start: string, s: State, step: Step)
    requires Shape(start, s) && Counted(s) && Enabled(s, step) && MovesOneThread(step)
    requires Covered(mesh, s.seen, s.threads[step.i]) && Next(mesh, s, step).seen == s.seen
    ensures RemainingWork(mesh, Next(mesh, s, step)) < RemainingWork(mesh, s)
  {
    var s' := Next(mesh, s, step);
    var phase := PhaseAfter(mesh, s, step);
    NoPanic(mesh, start, s, step);
    StepEffect(mesh, start, s, step);
    WorkAfterPhase(mesh, s, step.i, phase);
    var before, after := Work(mesh, s.threads[step.i]), Work(mesh, s.threads[step.i].(phase := phase));
    if step.Send? {
      assert |s'.buffer| == |s.buffer| + 1 && after + 2 <= before;
    } else {
      assert s'.closer == s.closer && after < before;
    }
  }

  lemma LessWorkAfterOther(mesh: Mesh, start: string, s: State, step: Step)
    requires Shape(start, s) && Counted(s) && Enabled(s, step) && !MovesOneThread(step)
    ensures RemainingWork(mesh, Next(mesh, s, step)) < RemainingWork(mesh, s)
    ensures Next(mesh, s, step).seen == s.seen
  {
    StepEffect(mesh, start, s, step);
    if step.Spawn? { WorkAfterSpawn(mesh, s, step.i); }
  }

  /** The order in which the crawl descends: fewer names left to record, or as many and less work. */
  ghost predicate Descends(mesh: Mesh, universe: set<string>, s: State, s': State) {
    || |Unseen(universe, s')| < |Unseen(universe, s)|
    || (Unseen(universe, s') == Unseen(universe, s) && RemainingWork(mesh, s') < RemainingWork(mesh, s))
  }

  /** Every step either records a new name or leaves less work. */
  lemma StepDecreases(mesh: Mesh, start: string, universe: set<string>, s: State, step: Step)
    requires Closed(mesh, start, universe) && Inv(mesh, start, s) && Enabled(s, step)
    ensures Descends(mesh, universe, s, Next(mesh, s, step))
  {
    if !MovesOneThread(step) {
      LessWorkAfterOther(mesh, start, s, step);
    } else if step.Scan? && Next(mesh, s, step).seen != s.seen {
      SoundKept(mesh, start, s, step);
      NewNameLeavesFewerUnseen(mesh, start, universe, s, step.i);
    } else {
      StepEffect(mesh, start, s, step);
      LessWorkAfterPhase(mesh, start, s, step);
    }
  }

  /** From any point of a schedule, a crawl of a finite mesh comes to a step that cannot be taken. */
  lemma StopsAfter(mesh: Mesh, start: string, universe: set<string>, states: nat -> State, steps: nat -> Step, k: nat)
    requires Closed(mesh, start, universe) && Inv(mesh, start, states(k))
    requires forall j: nat :: Enabled(states(j), steps(j)) ==> states(j + 1) == Next(mesh, states(j), steps(j))
    ensures exists j: nat :: !Enabled(states(j), steps(j))
    decreases |Unseen(universe, states(k))|, RemainingWork(mesh, states(k))
  {
    hide Closed, Inv, Enabled, Next, Unseen, RemainingWork;
    if Enabled(states(k), steps(k)) {
      StepDecreases(mesh, start, universe, states(k), steps(k));
      InvKept(mesh, start, states(k), steps(k));
      StopsAfter(mesh, start, universe, states, steps, k + 1);
    }
  }

  /** No schedule runs for ever when some finite set of names is closed under listing. */
  lemma EveryCrawlEnds(mesh: Mesh, start: string, universe: set<string>, states: nat -> State, steps: nat -> Step)
    requires Closed(mesh, start, universe) && states(0) == Init(start)
    requires forall j: nat :: Enabled(states(j), steps(j)) ==> states(j + 1) == Next(mesh, states(j), steps(j))
    ensures exists j: nat :: !Enabled(states(j), steps(j))
  {
    InitInv(mesh, start);
    StopsAfter(mesh, start, universe, states, steps, 0);
  }

  // What a crawl that cannot go on has done.

  /** Walk's own send finds the one buffer slot taken, and only Walk's caller could empty it. */
  ghost predicate Blocked(s: State) {
    |s.threads| > 0 && s.threads[0].phase.Sending? && s.buffer != []
  }

  ghost predicate Quiescent(s: State) { forall step :: !Enabled(s, step) }

  lemma Progress(mesh: Mesh, start: string, s: State)
    requires Shape(start, s) && Counted(s) && |s.buffer| <= 1 && Quiescent(s)
    ensures s.threads[0].phase.Failed? || Blocked(s) || (ResponsesAreClosed(s) && s.buffer == [])
  {
    assert !Enabled(s, Fetch(0)) && !Enabled(s, Scan(0)) && !Enabled(s, Spawn(0)) && !Enabled(s, Send(0));
    if s.threads[0].phase.Done? {
      assert !Enabled(s, Receive);
      forall i | 0 <= i < |s.threads| ensures Live(s.threads[i]) == 0 {
        StuckThread(start, s, i);
      }
      SumZero(s.threads, Live);
      assert !Enabled(s, Wake) && !Enabled(s, CloseTasks) && !Enabled(s, CloseResponses);
    }
  }

  lemma StuckThread(start: string, s: State, i: nat)
    requires Shape(start, s) && !s.panicked && s.buffer == [] && Quiescent(s)
    requires 0 < i < |s.threads|  || s.threads[0].phase.Done?
    requires i < |s.threads|
    ensures Live(s.threads[i]) == 0
  {
    assert !Enabled(s, Dispatch(i)) && !Enabled(s, Fetch(i)) && !Enabled(s, Scan(i));
    assert !Enabled(s, Spawn(i)) && !Enabled(s, Send(i)) && !Enabled(s, Finish(i));
  }

  /** A crawl in which no goroutine can take another step has ended in one of three ways: the very
      first fetch failed, Walk is blocked on its own send, or everything is closed and its caller has
      received the whole crawl, one response per thread. */
  lemma QuiescentOutcome(mesh: Mesh, start: string, s: State)
    requires CaseInsensitive(mesh) && Reachable(mesh, start, s) && Quiescent(s)
    ensures s.threads != []
    ensures
      || (s.threads[0].phase.Failed? && mesh.fetch(start).None? && |s.threads| == 1)
      || Blocked(s)
      || (ResponsesAreClosed(s) && IsCrawl(mesh, start, Names(s)) && |s.received| == |s.seen| + 1)
  {
    ReachableInv(mesh, start, s);
    Progress(mesh, start, s);
    if s.threads[0].phase.Failed? {
      FailedAlone(mesh, start, s);
    } else if !Blocked(s) {
      CrawlComplete(mesh, start, s);
      ExactCount(mesh, start, s);
      assert Log(s) == s.received;
    }
  }

  ghost predicate AloneUntilFetched(s: State) {
    |s.threads| > 0 && (s.threads[0].phase.Fetching? || s.threads[0].phase.Failed? ==> |s.threads| == 1)
  }

  lemma {:induction false} AloneOverRun(mesh: Mesh, start: string, s: State, steps: seq<Step>, s': State)
    requires Inv(mesh, start, s) && AloneUntilFetched(s) && Run(mesh, s, steps, s')
    ensures AloneUntilFetched(s')
    decreases |steps|
  {
    if steps != [] {
      StepEffect(mesh, start, s, steps[0]);
      InvKept(mesh, start, s, steps[0]);
      AloneOverRun(mesh, start, Next(mesh, s, steps[0]), steps[1..], s');
    }
  }

  lemma FailedAlone(mesh: Mesh, start: string, s: State)
    requires Reachable(mesh, start, s) && s.threads != [] && s.threads[0].phase.Failed?
    ensures |s.threads| == 1 && mesh.fetch(start).None?
  {
    InitInv(mesh, start);
    var steps :| Run(mesh, Init(start), steps, s);
    AloneOverRun(mesh, start, Init(start), steps, s);
    ReachableInv(mesh, start, s);
    assert Covered(mesh, s.seen, s.threads[0]);
  }
}
