/** The mesh walker as a transition system: one step per atomic action of a goroutine.
    Thread 0 is the call to `Walk`; every other thread is one task, from the moment its goroutine
    waits on the unbuffered task channel until its deferred `wg.Done` has run. */
module Crawl {
  import opened Options
  import opened ConcurrentArrays

  type Reply = Option<seq<string>>

  /** The environment: how names are upper-cased, and what fetching a name's sysinfo yields (the
      listed host names, or None for an error). */
  datatype Mesh = Mesh(upper: string -> string, fetch: string -> Reply)

  /** Host names are resolved without regard to case, so spelling does not change a reply. */
  ghost predicate CaseInsensitive(mesh: Mesh) {
    forall a, b :: mesh.upper(a) == mesh.upper(b) ==> mesh.fetch(a) == mesh.fetch(b)
  }

  predicate HasSuffix(s: string, suffix: string) {
    |suffix| <= |s| && s[|s| - |suffix|..] == suffix
  }

  predicate MidInterface(name: string) {
    "mid" <= name &&
    exists k :: 4 <= k < |name| && name[k] == '.' && forall j :: 3 <= j < k ==> '0' <= name[j] <= '9'
  }

  /** Interface names that are not nodes: `lan.*.local.mesh` and `mid<digits>.*`. */
  predicate Skipped(name: string) {
    ("lan." <= name && HasSuffix(name, ".local.mesh")) || MidInterface(name)
  }

  predicate AllDigits(s: string) { forall k :: 0 <= k < |s| ==> '0' <= s[k] <= '9' }

  ghost predicate LooksLikeLan(name: string) {
    name == "lan" + ".local.mesh" || exists x :: name == "lan." + x + ".local.mesh"
  }

  ghost predicate LooksLikeMid(name: string) {
    exists digits, x :: digits != "" && AllDigits(digits) && name == "mid" + digits + (['.'] + x)
  }

  /** A name is skipped exactly when it is `lan.` and `.local.mesh` with anything between, the two perhaps
      sharing their dot, or `mid`, at least one digit, a dot and anything. */
  lemma SkippedIff(name: string)
    ensures Skipped(name) <==> LooksLikeLan(name) || LooksLikeMid(name)
  {
    if "lan." <= name && HasSuffix(name, ".local.mesh") {
      LanName(name);
    }
    if MidInterface(name) {
      MidName(name);
    }
    if LooksLikeLan(name) {
      LanIsSkipped(name);
    }
    if digits, x :| digits != "" && AllDigits(digits) && name == "mid" + digits + (['.'] + x) {
      MidIsSkipped(digits, x);
    }
  }

  lemma MidName(name: string)
    requires MidInterface(name)
    ensures LooksLikeMid(name)
  {
    var k :| 4 <= k < |name| && name[k] == '.' && forall j :: 3 <= j < k ==> '0' <= name[j] <= '9';
    CutAround("mid", name, k);
    var digits := name[3..k];
    assert digits != "" && AllDigits(digits);
  }

  lemma CutAround(head: string, name: string, k: nat)
    requires head <= name && |head| <= k < |name|
    ensures name == head + name[|head|..k] + ([name[k]] + name[k + 1..])
  {
  }

  lemma MidIsSkipped(digits: string, x: string)
    requires digits != "" && AllDigits(digits)
    ensures MidInterface("mid" + digits + (['.'] + x))
  {
    var name, k := "mid" + digits + (['.'] + x), 3 + |digits|;
    assert name[..3] == "mid" && name[k] == '.';
    assert forall j :: 3 <= j < k ==> name[j] == digits[j - 3];
  }

  lemma LanIsSkipped(name: string)
    requires LooksLikeLan(name)
    ensures "lan." <= name && HasSuffix(name, ".local.mesh")
  {
    if name == "lan" + ".local.mesh" {
      assert name[3..] == ".local.mesh" && name[..4] == "lan.";
    } else {
      var x :| name == "lan." + x + ".local.mesh";
      assert name[|name| - 11..] == ".local.mesh" && name[..4] == "lan.";
    }
  }

  lemma LanName(name: string)
    requires "lan." <= name && HasSuffix(name, ".local.mesh")
    ensures LooksLikeLan(name)
  {
    var cut := |name| - 11;
    if cut >= 4 {
      assert name == "lan." + name[4..cut] + ".local.mesh";
    } else {
      assert name[cut] == name[cut..][0] == '.';
      assert name[cut] == "lan."[cut];
      assert cut == 3;
      assert name == name[..3] + name[3..];
    }
  }

  function Hosts(mesh: Mesh, name: string): seq<string> {
    match mesh.fetch(name)
    case None => []
    case Some(hosts) => hosts
  }

  datatype Phase =
    | Pending                                   // blocked handing the task to the dispatcher
    | Fetching                                  // in client.Get
    | Scanning(rest: seq<string>)               // in the loop over the reply's hosts
    | Claimed(host: string, rest: seq<string>)  // ContainsOrSet said false, wg.Add still to come
    | Sending(reply: Reply)                     // blocked on responseChan
    | Sent                                      // wg.Done still to come
    | Done
    | Failed                                    // Walk returned an error

  datatype Thread = Thread(root: bool, node: string, phase: Phase)

  datatype Message = Message(sender: nat, reply: Reply)

  /** The goroutine that waits for the group and closes both channels. */
  datatype Closer = NotStarted | Waiting | Woken | TasksClosed | Finished

  datatype State = State(
    threads: seq<Thread>,
    seen: seq<string>,
    wg: int,
    totalCount: nat,
    buffer: seq<Message>,     // responseChan, capacity 1
    received: seq<Message>,   // what the caller of Walk has taken out
    closer: Closer,
    panicked: bool            // a send on a closed channel, or a negative WaitGroup counter
  )

  datatype Step =
    | Dispatch(i: nat)
    | Fetch(i: nat)
    | Scan(i: nat)
    | Spawn(i: nat)
    | Send(i: nat)
    | Finish(i: nat)
    | Wake
    | CloseTasks
    | CloseResponses
    | Receive

  predicate TasksAreClosed(s: State) { s.closer == TasksClosed || s.closer == Finished }

  predicate ResponsesAreClosed(s: State) { s.closer == Finished }

  function Init(start: string): State {
    State([Thread(true, start, Fetching)], [], 0, 0, [], [], NotStarted, false)
  }

  predicate Enabled(s: State, step: Step) {
    !s.panicked &&
    match step
    case Dispatch(i) => i < |s.threads| && s.threads[i].phase.Pending?
    case Fetch(i) => i < |s.threads| && s.threads[i].phase.Fetching?
    case Scan(i) => i < |s.threads| && s.threads[i].phase.Scanning?
    case Spawn(i) => i < |s.threads| && s.threads[i].phase.Claimed?
    // A send on a closed channel does not block: it panics.
    case Send(i) => i < |s.threads| && s.threads[i].phase.Sending? && (s.buffer == [] || ResponsesAreClosed(s))
    case Finish(i) => i < |s.threads| && s.threads[i].phase.Sent?
    case Wake => s.closer == Waiting && s.wg == 0
    case CloseTasks => s.closer == Woken
    case CloseResponses => s.closer == TasksClosed
    // Nobody can read the channel before Walk has returned it.
    case Receive => s.threads != [] && s.threads[0].phase.Done? && s.buffer != []
  }

  function SetPhase(s: State, i: nat, phase: Phase): State
    requires i < |s.threads|
  {
    s.(threads := s.threads[i := s.threads[i].(phase := phase)])
  }

  function FetchStep(mesh: Mesh, s: State, i: nat): State
    requires i < |s.threads|
  {
    var t := s.threads[i];
    match mesh.fetch(t.node)
    case Some(hosts) => SetPhase(s, i, Scanning(hosts))
    case None => SetPhase(s, i, if t.root then Failed else Sending(None))
  }

  function ScanStep(mesh: Mesh, s: State, i: nat): State
    requires i < |s.threads| && s.threads[i].phase.Scanning?
  {
    var t := s.threads[i];
    var rest := t.phase.rest;
    if rest == [] then
      SetPhase(s, i, Sending(mesh.fetch(t.node)))
    else if Skipped(rest[0]) then
      SetPhase(s, i, Scanning(rest[1..]))
    else
      var name := mesh.upper(rest[0]);
      if name in s.seen then
        SetPhase(s, i, Scanning(rest[1..]))
      else
        SetPhase(s, i, Claimed(rest[0], rest[1..])).(seen := AddIfAbsent(s.seen, name))
  }

  function SpawnStep(s: State, i: nat): State
    requires i < |s.threads| && s.threads[i].phase.Claimed?
  {
    var t := s.threads[i];
    var s' := SetPhase(s, i, Scanning(t.phase.rest));
    s'.(threads := s'.threads + [Thread(false, t.phase.host, Pending)],
        wg := s.wg + 1,
        totalCount := s.totalCount + 1)
  }

  function SendStep(s: State, i: nat): State
    requires i < |s.threads| && s.threads[i].phase.Sending?
  {
    var t := s.threads[i];
    if ResponsesAreClosed(s) then s.(panicked := true)
    else
      var s' := SetPhase(s, i, if t.root then Done else Sent);
      s'.(buffer := s.buffer + [Message(i, t.phase.reply)],
          closer := if t.root then Waiting else s.closer)
  }

  function Next(mesh: Mesh, s: State, step: Step): State
    requires Enabled(s, step)
  {
    match step
    case Dispatch(i) => if TasksAreClosed(s) then s.(panicked := true) else SetPhase(s, i, Fetching)
    case Fetch(i) => FetchStep(mesh, s, i)
    case Scan(i) => ScanStep(mesh, s, i)
    case Spawn(i) => SpawnStep(s, i)
    case Send(i) => SendStep(s, i)
    case Finish(i) => SetPhase(s, i, Done).(wg := s.wg - 1, panicked := s.wg - 1 < 0)
    case Wake => s.(closer := Woken)
    case CloseTasks => s.(closer := TasksClosed)
    case CloseResponses => s.(closer := Finished)
    case Receive => s.(buffer := s.buffer[1..], received := s.received + [s.buffer[0]])
  }

  /** `steps` is a schedule that leads from `s` to `s'`. */
  predicate Run(mesh: Mesh, s: State, steps: seq<Step>, s': State)
    decreases |steps|
  {
    if steps == [] then s == s'
    else Enabled(s, steps[0]) && Run(mesh, Next(mesh, s, steps[0]), steps[1..], s')
  }

  ghost predicate Reachable(mesh: Mesh, start: string, s: State) {
    exists steps :: Run(mesh, Init(start), steps, s)
  }

  // The reference definition of a finished crawl.

  /** `names` holds every name the starting node lists, and every name listed by a node in it. */
  ghost predicate Closed(mesh: Mesh, start: string, names: set<string>) {
    && (forall h :: h in Hosts(mesh, start) && !Skipped(h) ==> mesh.upper(h) in names)
    && (forall n, h :: mesh.upper(n) in names && h in Hosts(mesh, n) && !Skipped(h) ==> mesh.upper(h) in names)
  }

  /** `names` is the least set of names reachable from `start` through successful replies. */
  ghost predicate IsCrawl(mesh: Mesh, start: string, names: set<string>) {
    Closed(mesh, start, names) && forall other :: Closed(mesh, start, other) ==> names <= other
  }
}
