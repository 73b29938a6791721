/** What every step of the crawl keeps. */
module CrawlInvariant {
  import opened Options
  import opened Tally
  import opened ConcurrentArrays
  import opened Crawl

  function Live(t: Thread): nat { if t.root || t.phase.Done? then 0 else 1 }

  function Claims(t: Thread): nat { if t.phase.Claimed? then 1 else 0 }

  predicate HasSent(t: Thread) { t.phase.Sent? || t.phase.Done? }

  function Delivered(t: Thread): nat { if HasSent(t) then 1 else 0 }

  function Log(s: State): seq<Message> { s.received + s.buffer }

  /** Thread 0 is Walk's own; the phases a thread can be in. */
  ghost predicate Shape(start: string, s: State) {
    && |s.threads| > 0
    && s.threads[0].root && s.threads[0].node == start
    && !s.threads[0].phase.Pending? && !s.threads[0].phase.Sent?
    && forall i :: 1 <= i < |s.threads| ==> !s.threads[i].root && !s.threads[i].phase.Failed?
  }

  /** The WaitGroup counts the unfinished tasks, the progress counter all tasks, and the closer is
      started by Walk's own send and gets past its wait only when no task is left. */
  ghost predicate Counted(s: State) {
    && |s.threads| > 0
    && s.wg == Sum(s.threads, Live)
    && s.totalCount == |s.threads| - 1
    && (s.closer == NotStarted <==> !s.threads[0].phase.Done?)
    && (s.closer != NotStarted && s.closer != Waiting ==> s.wg == 0)
    && !s.panicked
  }

  /** The host names a thread has still to look at. */
  function Todo(mesh: Mesh, t: Thread): seq<string> {
    match t.phase
    case Pending => Hosts(mesh, t.node)
    case Fetching => Hosts(mesh, t.node)
    case Scanning(rest) => rest
    case Claimed(_, rest) => rest
    case Sending(_) => []
    case Sent => []
    case Done => []
    case Failed => []
  }

  /** A thread only looks at hosts its node listed, and has recorded all those it is past. */
  ghost predicate Covered(mesh: Mesh, seen: seq<string>, t: Thread) {
    && (forall h :: h in Todo(mesh, t) ==> h in Hosts(mesh, t.node))
    && (forall h :: h in Hosts(mesh, t.node) ==> Skipped(h) || mesh.upper(h) in seen || h in Todo(mesh, t))
    && (t.phase.Sending? ==> t.phase.reply == mesh.fetch(t.node))
    && (t.phase.Scanning? || t.phase.Claimed? ==> mesh.fetch(t.node).Some?)
    && (t.phase.Failed? ==> mesh.fetch(t.node).None?)
  }

  ghost predicate AllCovered(mesh: Mesh, s: State) {
    forall i :: 0 <= i < |s.threads| ==> Covered(mesh, s.seen, s.threads[i])
  }

  /** Every recorded name is reachable. */
  ghost predicate Sound(mesh: Mesh, start: string, s: State) {
    forall names, n :: Closed(mesh, start, names) && n in s.seen ==> n in names
  }

  /** The name a thread owns as a task, and the name it is about to spawn a task for. */
  predicate Owns(mesh: Mesh, s: State, i: nat, name: string)
    requires i < |s.threads|
  {
    i > 0 && mesh.upper(s.threads[i].node) == name
  }

  predicate AboutToSpawn(mesh: Mesh, s: State, i: nat, name: string)
    requires i < |s.threads|
  {
    s.threads[i].phase.Claimed? && mesh.upper(s.threads[i].phase.host) == name
  }

  /** Recorded names and tasks (spawned or about to be) correspond one to one. */
  ghost predicate OneTaskEach(mesh: Mesh, s: State) {
    && Distinct(s.seen)
    && |s.seen| + 1 == |s.threads| + Sum(s.threads, Claims)
    && (forall i, n :: 0 <= i < |s.threads| && (Owns(mesh, s, i, n) || AboutToSpawn(mesh, s, i, n)) ==> n in s.seen)
    && (forall i, j, n :: 0 <= i < j < |s.threads| && Owns(mesh, s, i, n) ==> !Owns(mesh, s, j, n))
    && (forall i, j, n :: 0 <= i < |s.threads| && 0 <= j < |s.threads| && Owns(mesh, s, i, n) ==>
          !AboutToSpawn(mesh, s, j, n))
    && (forall i, j, n :: 0 <= i < j < |s.threads| && AboutToSpawn(mesh, s, i, n) ==> !AboutToSpawn(mesh, s, j, n))
    && (forall n :: n in s.seen ==>
          exists i :: 0 <= i < |s.threads| && (Owns(mesh, s, i, n) || AboutToSpawn(mesh, s, i, n)))
  }

  /** The responses sent so far: one per thread that has sent, carrying that node's reply. */
  ghost predicate Logged(mesh: Mesh, s: State) {
    && |s.threads| > 0
    && |s.buffer| <= 1
    && (!s.threads[0].phase.Done? ==> s.received == [])
    && |Log(s)| == Sum(s.threads, Delivered)
    && (forall k :: 0 <= k < |Log(s)| ==>
          var m := Log(s)[k];
          m.sender < |s.threads| && HasSent(s.threads[m.sender])
          && m.reply == mesh.fetch(s.threads[m.sender].node))
    && (forall k, l :: 0 <= k < l < |Log(s)| ==> Log(s)[k].sender != Log(s)[l].sender)
  }

  ghost predicate Inv(mesh: Mesh, start: string, s: State) {
    && Shape(start, s)
    && Counted(s)
    && AllCovered(mesh, s)
    && Sound(mesh, start, s)
    && OneTaskEach(mesh, s)
    && Logged(mesh, s)
  }

  lemma InitInv(mesh: Mesh, start: string)
    ensures Inv(mesh, start, Init(start))
  {
    var s := Init(start);
    assert s.threads[1..] == [];
  }

  lemma AllDoneWhenNoneCounted(s: State)
    requires Counted(s) && s.wg == 0
    ensures forall i :: 0 <= i < |s.threads| && !s.threads[i].root ==> s.threads[i].phase.Done?
  {
    SumZero(s.threads, Live);
    forall i | 0 <= i < |s.threads| && !s.threads[i].root ensures s.threads[i].phase.Done? {
      assert Live(s.threads[i]) == 0;
    }
  }

  /** A thread that is still pending, running or sending keeps the WaitGroup above zero (a task), or
      keeps the closer from starting (Walk itself). */
  lemma WorkKeepsChannelsOpen(start: string, s: State, i: nat)
    requires Shape(start, s) && Counted(s) && i < |s.threads|
    requires !s.threads[i].phase.Done?
    ensures s.closer == NotStarted || s.closer == Waiting
    ensures i > 0 ==> s.wg > 0
  {
    SumAtLeast(s.threads, i, Live);
    if i == 0 {
      assert s.closer == NotStarted;
    } else {
      assert Live(s.threads[i]) == 1;
    }
  }

  lemma NoPanic(mesh: Mesh, start: string, s: State, step: Step)
    requires Shape(start, s) && Counted(s) && Enabled(s, step)
    ensures !Next(mesh, s, step).panicked
    ensures step.Send? ==> !ResponsesAreClosed(s)
    ensures step.Dispatch? ==> !TasksAreClosed(s)
  {
    if step.Dispatch? || step.Send? || step.Finish? {
      WorkKeepsChannelsOpen(start, s, step.i);
    }
  }

  /** The steps in which one thread moves on to its next phase and no thread is added. */
  predicate MovesOneThread(step: Step) {
    step.Dispatch? || step.Fetch? || step.Scan? || step.Send? || step.Finish?
  }

  /** The phase such a step leads to. */
  function PhaseAfter(mesh: Mesh, s: State, step: Step): Phase
    requires Enabled(s, step) && MovesOneThread(step)
  {
    var t := s.threads[step.i];
    match step
    case Dispatch(_) => Fetching
    case Fetch(_) =>
      var r := mesh.fetch(t.node);
      if r.Some? then Scanning(r.value) else if t.root then Failed else Sending(None)
    case Scan(_) =>
      var rest := t.phase.rest;
      if rest == [] then Sending(mesh.fetch(t.node))
      else if Skipped(rest[0]) || mesh.upper(rest[0]) in s.seen then Scanning(rest[1..])
      else Claimed(rest[0], rest[1..])
    case Send(_) => if t.root then Done else Sent
    case Finish(_) => Done
  }

  /** What each kind of step leaves alone. */
  lemma StepEffect(mesh: Mesh, start: string, s: State, step: Step)
    requires Shape(start, s) && Counted(s) && Enabled(s, step)
    ensures var s' := Next(mesh, s, step);
      && (MovesOneThread(step) ==> s'.threads == SetPhase(s, step.i, PhaseAfter(mesh, s, step)).threads)
      && (!MovesOneThread(step) && !step.Spawn? ==> s'.threads == s.threads)
      && (!step.Send? && !step.Receive? ==> s'.buffer == s.buffer && s'.received == s.received)
      && (!step.Scan? ==> s'.seen == s.seen)
      && (!step.Spawn? && !step.Finish? ==> s'.wg == s.wg)
      && (!step.Spawn? ==> s'.totalCount == s.totalCount)
  {
    NoPanic(mesh, start, s, step);
  }

  lemma ShapeKept(mesh: Mesh, start: string, s: State, step: Step)
    requires Shape(start, s) && Counted(s) && Enabled(s, step)
    ensures Shape(start, Next(mesh, s, step))
  {
    StepEffect(mesh, start, s, step);
  }

  /** The sums after one thread changes phase. */
  lemma SumsAfterPhase(s: State, i: nat, phase: Phase)
    requires i < |s.threads|
    ensures var t := s.threads[i]; var t' := t.(phase := phase); var ts := SetPhase(s, i, phase).threads;
      && Sum(ts, Live) + Live(t) == Sum(s.threads, Live) + Live(t')
      && Sum(ts, Claims) + Claims(t) == Sum(s.threads, Claims) + Claims(t')
      && Sum(ts, Delivered) + Delivered(t) == Sum(s.threads, Delivered) + Delivered(t')
  {
    var t' := s.threads[i].(phase := phase);
    SumUpdate(s.threads, i, t', Live);
    SumUpdate(s.threads, i, t', Claims);
    SumUpdate(s.threads, i, t', Delivered);
  }

  lemma SumsAfterSpawn(s: State, i: nat)
    requires i < |s.threads| && s.threads[i].phase.Claimed?
    ensures var t := s.threads[i]; var t' := t.(phase := Scanning(t.phase.rest)); var ts := SpawnStep(s, i).threads;
      && Sum(ts, Live) == Sum(s.threads, Live) + 1
      && Sum(ts, Claims) + 1 == Sum(s.threads, Claims)
      && Sum(ts, Delivered) == Sum(s.threads, Delivered)
  {
    var t := s.threads[i];
    SumsAfterPhase(s, i, Scanning(t.phase.rest));
    var ts := SetPhase(s, i, Scanning(t.phase.rest)).threads;
    var fresh' := Thread(false, t.phase.host, Pending);
    SumPush(ts, fresh', Live);
    SumPush(ts, fresh', Claims);
    SumPush(ts, fresh', Delivered);
  }

  lemma CountedKept(mesh: Mesh, start: string, s: State, step: Step)
    requires Shape(start, s) && Counted(s) && Enabled(s, step)
    ensures Counted(Next(mesh, s, step))
  {
    var s' := Next(mesh, s, step);
    NoPanic(mesh, start, s, step);
    StepEffect(mesh, start, s, step);
    if MovesOneThread(step) {
      SumsAfterPhase(s, step.i, PhaseAfter(mesh, s, step));
      WorkKeepsChannelsOpen(start, s, step.i);
    } else if step.Spawn? {
      SumsAfterSpawn(s, step.i);
      WorkKeepsChannelsOpen(start, s, step.i);
    }
  }

  lemma CoveredAfterScan(mesh: Mesh, s: State, i: nat)
    requires i < |s.threads| && s.threads[i].phase.Scanning? && Covered(mesh, s.seen, s.threads[i])
    ensures var s' := ScanStep(mesh, s, i);
      Covered(mesh, s'.seen, s'.threads[i]) && s.seen <= s'.seen
      && (forall n :: n in s'.seen <==>
            n in s.seen || (s'.threads[i].phase.Claimed? && n == mesh.upper(s.threads[i].phase.rest[0])))
  {
    var t := s.threads[i];
    var rest := t.phase.rest;
    if rest != [] {
      assert rest == [rest[0]] + rest[1..];
      assert rest[0] in rest;
    }
  }

  lemma CoveredAfterPhase(mesh: Mesh, start: string, s: State, step: Step)
    requires Shape(start, s) && Counted(s) && Enabled(s, step) && MovesOneThread(step)
    requires Covered(mesh, s.seen, s.threads[step.i])
    ensures Covered(mesh, Next(mesh, s, step).seen, Next(mesh, s, step).threads[step.i])
    ensures s.seen <= Next(mesh, s, step).seen
  {
    StepEffect(mesh, start, s, step);
    if step.Scan? { CoveredAfterScan(mesh, s, step.i); }
  }

  lemma AllCoveredKept(mesh: Mesh, start: string, s: State, step: Step)
    requires Shape(start, s) && Counted(s) && AllCovered(mesh, s) && Enabled(s, step)
    ensures AllCovered(mesh, Next(mesh, s, step))
  {
    var s' := Next(mesh, s, step);
    StepEffect(mesh, start, s, step);
    forall j | 0 <= j < |s'.threads| ensures Covered(mesh, s'.seen, s'.threads[j]) {
      if j < |s.threads| {
        assert Covered(mesh, s.seen, s.threads[j]);
        if MovesOneThread(step) { CoveredAfterPhase(mesh, start, s, step); }
      }
    }
  }

  lemma SoundKept(mesh: Mesh, start: string, s: State, step: Step)
    requires Shape(start, s) && Counted(s) && AllCovered(mesh, s) && Sound(mesh, start, s) && OneTaskEach(mesh, s)
    requires Enabled(s, step)
    ensures Sound(mesh, start, Next(mesh, s, step))
  {
    StepEffect(mesh, start, s, step);
    if step.Scan? {
      var i := step.i;
      var t := s.threads[i];
      assert Covered(mesh, s.seen, t);
      CoveredAfterScan(mesh, s, i);
      if ScanStep(mesh, s, i).threads[i].phase.Claimed? {
        var h := t.phase.rest[0];
        assert h in Hosts(mesh, t.node);
        forall names | Closed(mesh, start, names) ensures mesh.upper(h) in names {
          if i > 0 {
            assert Owns(mesh, s, i, mesh.upper(t.node));
            assert mesh.upper(t.node) in names;
          }
        }
      }
    }
  }

  lemma OneTaskEachKept(mesh: Mesh, start: string, s: State, step: Step)
    requires Shape(start, s) && Counted(s) && OneTaskEach(mesh, s) && Enabled(s, step)
    ensures OneTaskEach(mesh, Next(mesh, s, step))
  {
    var s' := Next(mesh, s, step);
    StepEffect(mesh, start, s, step);
    if step.Spawn? {
      OneTaskEachAfterSpawn(mesh, s, step.i);
    } else if step.Scan? && s'.seen != s.seen {
      OneTaskEachAfterClaim(mesh, s, step.i);
    } else if MovesOneThread(step) {
      OneTaskEachAfterPhase(mesh, s, step.i, PhaseAfter(mesh, s, step), s');
    } else {
      SameThreads(mesh, s, s');
    }
  }

  lemma SameThreads(mesh: Mesh, s: State, s': State)
    requires OneTaskEach(mesh, s) && s'.threads == s.threads && s'.seen == s.seen
    ensures OneTaskEach(mesh, s')
  {
    assert forall i, n :: 0 <= i < |s.threads| ==> Owns(mesh, s', i, n) == Owns(mesh, s, i, n);
    assert forall i, n :: 0 <= i < |s.threads| ==> AboutToSpawn(mesh, s', i, n) == AboutToSpawn(mesh, s, i, n);
  }

  lemma OneTaskEachAfterPhase(mesh: Mesh, s: State, i: nat, phase: Phase, s': State)
    requires OneTaskEach(mesh, s) && i < |s.threads| && !s.threads[i].phase.Claimed? && !phase.Claimed?
    requires s'.threads == SetPhase(s, i, phase).threads && s'.seen == s.seen
    ensures OneTaskEach(mesh, s')
  {
    SumsAfterPhase(s, i, phase);
    assert forall j, n :: 0 <= j < |s.threads| ==> Owns(mesh, s', j, n) == Owns(mesh, s, j, n);
    assert forall j, n :: 0 <= j < |s.threads| ==> AboutToSpawn(mesh, s', j, n) == AboutToSpawn(mesh, s, j, n);
  }

  /** A claim gives the thread one name it is about to spawn a task for, and nobody else anything. */
  lemma ClaimTakesName(mesh: Mesh, s: State, i: nat)
    requires i < |s.threads| && s.threads[i].phase.Scanning? && ScanStep(mesh, s, i).seen != s.seen
    ensures var s' := ScanStep(mesh, s, i); var rest := s.threads[i].phase.rest; var name := mesh.upper(rest[0]);
      && |s'.threads| == |s.threads| && name !in s.seen && s'.seen == AddIfAbsent(s.seen, name)
      && s'.threads == SetPhase(s, i, Claimed(rest[0], rest[1..])).threads
      && (forall j, n :: 0 <= j < |s.threads| ==> Owns(mesh, s', j, n) == Owns(mesh, s, j, n))
      && (forall n :: !AboutToSpawn(mesh, s, i, n))
      && forall j, n :: 0 <= j < |s.threads| ==>
        AboutToSpawn(mesh, s', j, n) == if j == i then n == name else AboutToSpawn(mesh, s, j, n)
  {
  }

  lemma OneTaskEachAfterClaim(mesh: Mesh, s: State, i: nat)
    requires OneTaskEach(mesh, s) && i < |s.threads| && s.threads[i].phase.Scanning?
    requires ScanStep(mesh, s, i).seen != s.seen
    ensures OneTaskEach(mesh, ScanStep(mesh, s, i))
  {
    var s' := ScanStep(mesh, s, i);
    ClaimTakesName(mesh, s, i);
    var rest := s.threads[i].phase.rest;
    var name := mesh.upper(rest[0]);
    SumsAfterPhase(s, i, Claimed(rest[0], rest[1..]));
    AddIfAbsentKeepsDistinct(s.seen, name);
    hide Owns, AboutToSpawn, ScanStep, AddIfAbsent;
    forall n | n in s'.seen
      ensures exists j :: 0 <= j < |s'.threads| && (Owns(mesh, s', j, n) || AboutToSpawn(mesh, s', j, n))
    {
      if n == name {
        assert AboutToSpawn(mesh, s', i, n);
      } else {
        var j :| 0 <= j < |s.threads| && (Owns(mesh, s, j, n) || AboutToSpawn(mesh, s, j, n));
        assert Owns(mesh, s', j, n) || AboutToSpawn(mesh, s', j, n);
      }
    }
  }

  /** What a spawn does to who owns which name: the spawning thread's claim becomes the new task's name. */
  lemma SpawnHandsOver(mesh: Mesh, s: State, i: nat)
    requires i < |s.threads| && s.threads[i].phase.Claimed?
    ensures var s' := SpawnStep(s, i); var last := |s.threads|; var name := mesh.upper(s.threads[i].phase.host);
      && |s'.threads| == last + 1 && s'.seen == s.seen && AboutToSpawn(mesh, s, i, name)
      && (forall j, n :: 0 <= j < last ==> Owns(mesh, s', j, n) == Owns(mesh, s, j, n))
      && (forall n :: Owns(mesh, s', last, n) == (n == name))
      && (forall j, n :: 0 <= j < last ==> AboutToSpawn(mesh, s', j, n) == (j != i && AboutToSpawn(mesh, s, j, n)))
      && (forall n :: AboutToSpawn(mesh, s, i, n) == (n == name))
      && forall n :: !AboutToSpawn(mesh, s', last, n)
  {
  }

  lemma OneTaskEachAfterSpawn(mesh: Mesh, s: State, i: nat)
    requires OneTaskEach(mesh, s) && i < |s.threads| && s.threads[i].phase.Claimed?
    ensures OneTaskEach(mesh, SpawnStep(s, i))
  {
    var s' := SpawnStep(s, i);
    var last := |s.threads|;
    SumsAfterSpawn(s, i);
    SpawnHandsOver(mesh, s, i);
    var name := mesh.upper(s.threads[i].phase.host);
    hide Owns, AboutToSpawn, SpawnStep;
    forall n | n in s'.seen
      ensures exists j :: 0 <= j < |s'.threads| && (Owns(mesh, s', j, n) || AboutToSpawn(mesh, s', j, n))
    {
      if n == name {
        assert Owns(mesh, s', last, n);
      } else {
        var j :| 0 <= j < |s.threads| && (Owns(mesh, s, j, n) || AboutToSpawn(mesh, s, j, n));
        assert Owns(mesh, s', j, n) || AboutToSpawn(mesh, s', j, n);
      }
    }
  }

  lemma LoggedAfterSend(mesh: Mesh, s: State, i: nat)
    requires Logged(mesh, s) && i < |s.threads| && Covered(mesh, s.seen, s.threads[i])
    requires s.threads[i].phase.Sending? && s.buffer == [] && !ResponsesAreClosed(s)
    requires s.threads[i].root <==> i == 0
    ensures Logged(mesh, SendStep(s, i))
  {
    var s' := SendStep(s, i);
    SumsAfterPhase(s, i, if s.threads[i].root then Done else Sent);
    assert Log(s') == Log(s) + [Message(i, s.threads[i].phase.reply)];
    forall k | 0 <= k < |Log(s)| ensures Log(s')[k] == Log(s)[k] && Log(s)[k].sender != i {
      assert HasSent(s.threads[Log(s)[k].sender]);
    }
  }

  /** Other steps leave the log, and who has sent, as they were. */
  lemma LoggedAfterOther(mesh: Mesh, s: State, s': State)
    requires Logged(mesh, s) && Log(s') == Log(s) && |s'.buffer| <= 1 && SameSenders(s, s')
    requires s'.threads[0].phase.Done? <==> s.threads[0].phase.Done?
    requires s'.received == s.received || s.threads[0].phase.Done?
    ensures Logged(mesh, s')
  {
  }

  /** A step that is not a send leaves these alone. */
  ghost predicate SameSenders(s: State, s': State) {
    && |s.threads| <= |s'.threads| && Sum(s'.threads, Delivered) == Sum(s.threads, Delivered)
    && forall j :: 0 <= j < |s.threads| ==>
      HasSent(s'.threads[j]) == HasSent(s.threads[j]) && s'.threads[j].node == s.threads[j].node
  }

  lemma SendersKept(mesh: Mesh, start: string, s: State, step: Step)
    requires Shape(start, s) && Counted(s) && Enabled(s, step) && !step.Send?
    ensures SameSenders(s, Next(mesh, s, step))
  {
    StepEffect(mesh, start, s, step);
    if MovesOneThread(step) {
      SumsAfterPhase(s, step.i, PhaseAfter(mesh, s, step));
    } else if step.Spawn? {
      SumsAfterSpawn(s, step.i);
    }
  }

  lemma LoggedKept(mesh: Mesh, start: string, s: State, step: Step)
    requires Shape(start, s) && Counted(s) && AllCovered(mesh, s) && Logged(mesh, s) && Enabled(s, step)
    ensures Logged(mesh, Next(mesh, s, step))
  {
    NoPanic(mesh, start, s, step);
    if step.Send? {
      LoggedAfterSend(mesh, s, step.i);
    } else {
      var s' := Next(mesh, s, step);
      StepEffect(mesh, start, s, step);
      SendersKept(mesh, start, s, step);
      assert Log(s') == Log(s);
      hide Delivered;
      LoggedAfterOther(mesh, s, s');
    }
  }

  lemma InvKept(mesh: Mesh, start: string, s: State, step: Step)
    requires Inv(mesh, start, s) && Enabled(s, step)
    ensures Inv(mesh, start, Next(mesh, s, step))
  {
    ShapeKept(mesh, start, s, step);
    CountedKept(mesh, start, s, step);
    AllCoveredKept(mesh, start, s, step);
    SoundKept(mesh, start, s, step);
    OneTaskEachKept(mesh, start, s, step);
    LoggedKept(mesh, start, s, step);
  }

  lemma {:induction false} InvOverRun(mesh: Mesh, start: string, s: State, steps: seq<Step>, s': State)
    requires Inv(mesh, start, s) && Run(mesh, s, steps, s')
    ensures Inv(mesh, start, s')
    decreases |steps|
  {
    if steps != [] {
      InvKept(mesh, start, s, steps[0]);
      InvOverRun(mesh, start, Next(mesh, s, steps[0]), steps[1..], s');
    }
  }

  lemma ReachableInv(mesh: Mesh, start: string, s: State)
    requires Reachable(mesh, start, s)
    ensures Inv(mesh, start, s)
  {
    InitInv(mesh, start);
    var steps :| Run(mesh, Init(start), steps, s);
    InvOverRun(mesh, start, Init(start), steps, s);
  }
}
