/** The WireGuard manager's hand-shake between callers of AddPeer/RemovePeer and the goroutines that
    do the work. Callers of one operation share one unbuffered confirm channel; a caller that gets
    somebody else's confirmation offers it again on the same channel. One step is one atomic action
    of one goroutine, or one rendezvous of two. The manager is running: there is no shutdown. */
module Confirm {
  import opened Tally

  datatype Op = Add | Remove

  datatype Peer = Peer(id: nat, isServer: bool, enabled: bool)

  // Interface names.

  function Digit(n: nat): char
    requires n < 10
  {
    ('0' as int + n) as char
  }

  function Decimal(n: nat): (s: string)
    ensures s != []
  {
    if n < 10 then [Digit(n)] else Decimal(n / 10) + [Digit(n % 10)]
  }

  /** The number that a text of digits stands for. */
  function Reading(s: string): int {
    if s == [] then 0 else 10 * Reading(s[..|s| - 1]) + (s[|s| - 1] as int - '0' as int)
  }

  lemma ReadsOneMore(s: string, c: char)
    ensures Reading(s + [c]) == 10 * Reading(s) + (c as int - '0' as int)
  {
    assert (s + [c])[..|s|] == s;
  }

  lemma {:induction false} DecimalReadsBack(n: nat)
    ensures Reading(Decimal(n)) == n
    ensures forall k :: 0 <= k < |Decimal(n)| ==> '0' <= Decimal(n)[k] <= '9'
  {
    if n >= 10 {
      DecimalReadsBack(n / 10);
      ReadsOneMore(Decimal(n / 10), Digit(n % 10));
      hide Reading;
    } else {
      ReadsOneMore([], Digit(n));
      assert [] + [Digit(n)] == [Digit(n)];
    }
  }

  function InterfaceName(peer: Peer): string {
    (if peer.isServer then "wgs" else "wgc") + Decimal(peer.id)
  }

  /** A name tells the role and the id, so two tunnels share one only if they have both in common. */
  lemma InterfaceNamesDiffer(a: Peer, b: Peer)
    ensures InterfaceName(a)[..3] == if a.isServer then "wgs" else "wgc"
    ensures Reading(InterfaceName(a)[3..]) == a.id
    ensures InterfaceName(a) == InterfaceName(b) <==> a.id == b.id && a.isServer == b.isServer
  {
    var m, n := InterfaceName(a), InterfaceName(b);
    assert m[2] == if a.isServer then 's' else 'c';
    assert n[2] == if b.isServer then 's' else 'c';
    assert m[3..] == Decimal(a.id) && n[3..] == Decimal(b.id);
    DecimalReadsBack(a.id);
    DecimalReadsBack(b.id);
  }

  // The transition system.

  datatype Phase =
    // a caller
    | Calling                // blocked handing the peer to the manager's loop
    | Waiting                // in the select of waitForPeerAddition / waitForPeerRemoval
    | Holding(token: Peer)   // blocked offering somebody else's confirmation again
    | ReturnedNil
    | TimedOut
    | NotEnabled             // AddPeer on a disabled tunnel returns nil at once
    // a goroutine started by the manager's loop
    | Working
    | Deleting               // removePeer, between taking the entry out and deleting the link
    | Offering               // blocked sending its own confirmation
    | Delivered
    | GaveUp                 // returned after an error without confirming

  datatype Thread = Thread(op: Op, peer: Peer, phase: Phase)

  datatype State = State(
    threads: seq<Thread>,
    activePeers: map<string, Peer>
  )

  datatype Step =
    | Call(op: Op, peer: Peer)
    | Enqueue(i: nat)
    | Store(i: nat)
    | Take(i: nat)
    | Delete(i: nat)
    | GiveUp(i: nat)
    | Rendezvous(sender: nat, receiver: nat)
    | Timeout(i: nat)

  function Init(): State { State([], map[]) }

  predicate IsAt(s: State, i: nat, phase: Phase) { i < |s.threads| && s.threads[i].phase == phase }

  predicate IsSender(t: Thread) { t.phase.Offering? || t.phase.Holding? }

  function Token(t: Thread): Peer { if t.phase.Holding? then t.phase.token else t.peer }

  predicate Enabled(s: State, step: Step) {
    match step
    case Call(_, _) => true
    case Enqueue(i) => IsAt(s, i, Calling)
    case Store(i) => IsAt(s, i, Working) && s.threads[i].op == Add
    case Take(i) => IsAt(s, i, Working) && s.threads[i].op == Remove
    case Delete(i) => IsAt(s, i, Deleting)
    case GiveUp(i) => (IsAt(s, i, Working) && s.threads[i].op == Add) || IsAt(s, i, Deleting)
    case Rendezvous(i, j) =>
      i < |s.threads| && IsSender(s.threads[i]) && IsAt(s, j, Waiting) && s.threads[i].op == s.threads[j].op
    case Timeout(i) => IsAt(s, i, Waiting)
  }

  function SetPhase(s: State, i: nat, phase: Phase): State
    requires i < |s.threads|
  {
    s.(threads := s.threads[i := s.threads[i].(phase := phase)])
  }

  /** What a waiting caller does with a confirmation. */
  function OnReceive(t: Thread, token: Peer): Phase {
    if token.id != t.peer.id then Holding(token) else ReturnedNil
  }

  /** What the sender of a confirmation does next. */
  function OnSent(t: Thread): Phase { if t.phase.Holding? then Waiting else Delivered }

  function Next(s: State, step: Step): State
    requires Enabled(s, step)
  {
    match step
    case Call(op, peer) =>
      s.(threads := s.threads + [Thread(op, peer, if op == Add && !peer.enabled then NotEnabled else Calling)])
    case Enqueue(i) =>
      var s' := SetPhase(s, i, Waiting);
      s'.(threads := s'.threads + [Thread(s.threads[i].op, s.threads[i].peer, Working)])
    case Store(i) =>
      var peer := s.threads[i].peer;
      SetPhase(s, i, Offering).(activePeers := s.activePeers[InterfaceName(peer) := peer])
    case Take(i) =>
      var peer := s.threads[i].peer;
      var name := InterfaceName(peer);
      SetPhase(s, i, if name in s.activePeers then Deleting else Offering)
        .(activePeers := s.activePeers - {name})
    case Delete(i) => SetPhase(s, i, Offering)
    case GiveUp(i) => SetPhase(s, i, GaveUp)
    case Rendezvous(i, j) =>
      SetPhase(SetPhase(s, j, OnReceive(s.threads[j], Token(s.threads[i]))), i, OnSent(s.threads[i]))
    case Timeout(i) => SetPhase(s, i, TimedOut)
  }

  predicate Run(s: State, steps: seq<Step>, s': State)
    decreases |steps|
  {
    if steps == [] then s == s'
    else Enabled(s, steps[0]) && Run(Next(s, steps[0]), steps[1..], s')
  }

  ghost predicate Reachable(s: State) { exists steps :: Run(Init(), steps, s) }

  /** An update of the table of active peers: a Store for Add, a LoadAndDelete for Remove. */
  datatype Update = Update(op: Op, peer: Peer)

  function UpdateOf(s: State, step: Step): seq<Update>
    requires Enabled(s, step)
  {
    match step
    case Store(i) => [Update(Add, s.threads[i].peer)]
    case Take(i) => [Update(Remove, s.threads[i].peer)]
    case _ => []
  }

  /** The updates of a run, in order. */
  function UpdatesOf(s: State, steps: seq<Step>): seq<Update>
    decreases |steps|
  {
    if steps == [] || !Enabled(s, steps[0]) then []
    else UpdateOf(s, steps[0]) + UpdatesOf(Next(s, steps[0]), steps[1..])
  }

  // Conservation.

  function One(b: bool): nat { if b then 1 else 0 }

  /** A confirmation for `id` created on a channel: offered by its worker, or taken from it. */
  predicate IsCreated(t: Thread, op: Op, id: nat) {
    t.op == op && t.peer.id == id && (t.phase.Offering? || t.phase.Delivered?)
  }

  /** A call about `id` that returned nil after waiting. */
  predicate IsReturned(t: Thread, op: Op, id: nat) {
    t.op == op && t.peer.id == id && t.phase.ReturnedNil?
  }

  /** A confirmation for `id` that a blocked sender, worker or caller, has in hand. */
  predicate IsInHand(t: Thread, op: Op, id: nat) {
    t.op == op && IsSender(t) && Token(t).id == id
  }

  /** A worker that has registered (or unregistered) `id` in the table of active peers. */
  predicate IsRegistered(t: Thread, op: Op, id: nat) {
    t.op == op && t.peer.id == id && (t.phase.Deleting? || t.phase.Offering? || t.phase.Delivered?)
  }

  function Created(op: Op, id: nat): Thread -> nat { (t: Thread) => One(IsCreated(t, op, id)) }

  function Returned(op: Op, id: nat): Thread -> nat { (t: Thread) => One(IsReturned(t, op, id)) }

  function InHand(op: Op, id: nat): Thread -> nat { (t: Thread) => One(IsInHand(t, op, id)) }

  function Registered(op: Op, id: nat): Thread -> nat { (t: Thread) => One(IsRegistered(t, op, id)) }

  ghost predicate Balanced(ts: seq<Thread>, op: Op, id: nat) {
    Sum(ts, Created(op, id)) == Sum(ts, Returned(op, id)) + Sum(ts, InHand(op, id))
  }

  predicate IsAbout(u: Update, op: Op, id: nat) { u.op == op && u.peer.id == id }

  function About(op: Op, id: nat): Update -> nat { (u: Update) => One(IsAbout(u, op, id)) }

  ghost predicate Backed(s: State, log: seq<Update>, op: Op, id: nat) {
    Sum(s.threads, Registered(op, id)) <= Sum(log, About(op, id))
  }

  /** Replacing one thread keeps the balance when the thread's own balance is the same. */
  lemma BalancedAfterUpdate(ts: seq<Thread>, i: nat, t: Thread, op: Op, id: nat)
    requires i < |ts|
    requires One(IsCreated(t, op, id)) + One(IsReturned(ts[i], op, id)) + One(IsInHand(ts[i], op, id))
          == One(IsCreated(ts[i], op, id)) + One(IsReturned(t, op, id)) + One(IsInHand(t, op, id))
    ensures Balanced(ts, op, id) ==> Balanced(ts[i := t], op, id)
  {
    SumUpdate(ts, i, t, Created(op, id));
    SumUpdate(ts, i, t, Returned(op, id));
    SumUpdate(ts, i, t, InHand(op, id));
  }

  lemma BalancedAfterPush(ts: seq<Thread>, t: Thread, op: Op, id: nat)
    requires t.phase.Calling? || t.phase.NotEnabled? || t.phase.Working?
    ensures Balanced(ts, op, id) ==> Balanced(ts + [t], op, id)
  {
    SumPush(ts, t, Created(op, id));
    SumPush(ts, t, Returned(op, id));
    SumPush(ts, t, InHand(op, id));
  }

  /** A rendezvous hands one token over: to the end if the ids agree, to the receiver's hands if not. */
  lemma BalancedAfterRendezvous(ts: seq<Thread>, i: nat, t: Thread, j: nat, u: Thread, op: Op, id: nat)
    requires Balanced(ts, op, id) && i < |ts| && j < |ts| && i != j
    requires IsSender(ts[i]) && ts[j].phase.Waiting? && ts[i].op == ts[j].op
    requires u == ts[j].(phase := OnReceive(ts[j], Token(ts[i]))) && t == ts[i].(phase := OnSent(ts[i]))
    ensures Balanced(ts[j := u][i := t], op, id)
  {
    var ts' := ts[j := u];
    SumUpdate(ts, j, u, Created(op, id));
    SumUpdate(ts, j, u, Returned(op, id));
    SumUpdate(ts, j, u, InHand(op, id));
    SumUpdate(ts', i, t, Created(op, id));
    SumUpdate(ts', i, t, Returned(op, id));
    SumUpdate(ts', i, t, InHand(op, id));
    assert !IsInHand(ts[j], op, id) && !IsCreated(ts[j], op, id) && !IsReturned(ts[j], op, id);
    assert !IsCreated(u, op, id) && !IsReturned(ts[i], op, id) && !IsReturned(t, op, id) && !IsInHand(t, op, id);
    assert IsCreated(t, op, id) == IsCreated(ts[i], op, id);
    assert One(IsInHand(ts[i], op, id)) == One(IsReturned(u, op, id)) + One(IsInHand(u, op, id));
  }

  /** The steps that one goroutine takes alone and that start none. */
  predicate IsLocal(step: Step) { step.Store? || step.Take? || step.Delete? || step.GiveUp? || step.Timeout? }

  lemma BalancedAfterLocal(s: State, step: Step, op: Op, id: nat)
    requires Balanced(s.threads, op, id) && Enabled(s, step) && IsLocal(step)
    ensures Balanced(Next(s, step).threads, op, id)
  {
    var t := Next(s, step).threads[step.i];
    assert Next(s, step).threads == s.threads[step.i := t];
    BalancedAfterUpdate(s.threads, step.i, t, op, id);
  }

  lemma BalancedAfterEnqueue(s: State, i: nat, op: Op, id: nat)
    requires Balanced(s.threads, op, id) && Enabled(s, Enqueue(i))
    ensures Balanced(Next(s, Enqueue(i)).threads, op, id)
  {
    BalancedAfterUpdate(s.threads, i, s.threads[i].(phase := Waiting), op, id);
    BalancedAfterPush(SetPhase(s, i, Waiting).threads, Thread(s.threads[i].op, s.threads[i].peer, Working), op, id);
  }

  lemma BalancedKept(s: State, step: Step, op: Op, id: nat)
    requires Balanced(s.threads, op, id) && Enabled(s, step)
    ensures Balanced(Next(s, step).threads, op, id)
  {
    hide Balanced;
    if IsLocal(step) {
      BalancedAfterLocal(s, step, op, id);
    } else {
      var ts := Next(s, step).threads;
      match step
      case Call(_, _) => BalancedAfterPush(s.threads, ts[|s.threads|], op, id);
      case Enqueue(i) => BalancedAfterEnqueue(s, i, op, id);
      case Rendezvous(i, j) => BalancedAfterRendezvous(s.threads, i, ts[i], j, ts[j], op, id);
    }
  }

  lemma BackedAfterPhase(s: State, i: nat, phase: Phase, op: Op, id: nat)
    requires i < |s.threads|
    ensures Sum(SetPhase(s, i, phase).threads, Registered(op, id)) + One(IsRegistered(s.threads[i], op, id))
         == Sum(s.threads, Registered(op, id)) + One(IsRegistered(s.threads[i].(phase := phase), op, id))
  {
    SumUpdate(s.threads, i, s.threads[i].(phase := phase), Registered(op, id));
  }

  lemma BackedAfterRendezvous(s: State, i: nat, j: nat, op: Op, id: nat)
    requires Enabled(s, Rendezvous(i, j))
    ensures Sum(Next(s, Rendezvous(i, j)).threads, Registered(op, id)) == Sum(s.threads, Registered(op, id))
  {
    var phase := OnReceive(s.threads[j], Token(s.threads[i]));
    BackedAfterPhase(s, j, phase, op, id);
    BackedAfterPhase(SetPhase(s, j, phase), i, OnSent(s.threads[i]), op, id);
  }

  lemma BackedAfterLocal(s: State, log: seq<Update>, step: Step, op: Op, id: nat)
    requires Backed(s, log, op, id) && Enabled(s, step) && IsLocal(step)
    ensures Backed(Next(s, step), log + UpdateOf(s, step), op, id)
  {
    BackedAfterPhase(s, step.i, Next(s, step).threads[step.i].phase, op, id);
    if step.Store? || step.Take? {
      SumPush(log, UpdateOf(s, step)[0], About(op, id));
    } else {
      assert log + UpdateOf(s, step) == log;
    }
  }

  lemma BackedKept(s: State, log: seq<Update>, step: Step, op: Op, id: nat)
    requires Backed(s, log, op, id) && Enabled(s, step)
    ensures Backed(Next(s, step), log + UpdateOf(s, step), op, id)
  {
    if IsLocal(step) {
      BackedAfterLocal(s, log, step, op, id);
    } else {
      assert log + UpdateOf(s, step) == log;
      if step.Rendezvous? {
        BackedAfterRendezvous(s, step.sender, step.receiver, op, id);
      } else if step.Call? {
        SumPush(s.threads, Next(s, step).threads[|s.threads|], Registered(op, id));
      } else {
        var t := s.threads[step.i];
        BackedAfterPhase(s, step.i, Waiting, op, id);
        SumPush(SetPhase(s, step.i, Waiting).threads, Thread(t.op, t.peer, Working), Registered(op, id));
      }
    }
  }

  lemma {:induction false} ConservedOverRun(s: State, log: seq<Update>, steps: seq<Step>, s': State, op: Op, id: nat)
    requires Balanced(s.threads, op, id) && Backed(s, log, op, id) && Run(s, steps, s')
    ensures Balanced(s'.threads, op, id) && Backed(s', log + UpdatesOf(s, steps), op, id)
    decreases |steps|
  {
    hide Balanced, Backed;
    if steps == [] {
      assert log + UpdatesOf(s, steps) == log;
    } else {
      BalancedKept(s, steps[0], op, id);
      BackedKept(s, log, steps[0], op, id);
      var more := log + UpdateOf(s, steps[0]);
      ConservedOverRun(Next(s, steps[0]), more, steps[1..], s', op, id);
      assert more + UpdatesOf(Next(s, steps[0]), steps[1..]) == log + UpdatesOf(s, steps);
    }
  }

  lemma {:induction false} CreatedIsRegistered(ts: seq<Thread>, op: Op, id: nat)
    ensures Sum(ts, Created(op, id)) <= Sum(ts, Registered(op, id))
  {
    if ts != [] { CreatedIsRegistered(ts[1..], op, id); }
  }

  /** After every run, on either channel and for every tunnel id: confirmations created are exactly those
      that made a caller for that id return nil plus those still in some sender's hands; and each was
      preceded by its own update of the table of active peers. So no caller returns nil on another id's
      confirmation, or without an update for its own. */
  lemma ConfirmationsConserved(steps: seq<Step>, s: State, op: Op, id: nat)
    requires Run(Init(), steps, s)
    ensures Sum(s.threads, Created(op, id)) == Sum(s.threads, Returned(op, id)) + Sum(s.threads, InHand(op, id))
    ensures Sum(s.threads, Created(op, id)) <= Sum(UpdatesOf(Init(), steps), About(op, id))
  {
    ConservedOverRun(Init(), [], steps, s, op, id);
    assert [] + UpdatesOf(Init(), steps) == UpdatesOf(Init(), steps);
    CreatedIsRegistered(s.threads, op, id);
  }

  // When nothing has to be offered again.

  predicate IsLive(t: Thread) {
    || t.phase.Calling? || t.phase.Waiting? || t.phase.Holding?
    || t.phase.Working? || t.phase.Deleting? || t.phase.Offering?
  }

  /** Everything in progress on a channel is about one tunnel, and nothing is being offered again. */
  ghost predicate Solo(s: State, op: Op, id: nat) {
    forall i :: 0 <= i < |s.threads| && s.threads[i].op == op && IsLive(s.threads[i]) ==>
      s.threads[i].peer.id == id && !s.threads[i].phase.Holding?
  }

  ghost predicate Calm(s: State, op: Op) { exists id :: Solo(s, op, id) }

  /** A step that does not bring in a call about a second tunnel. */
  ghost predicate Polite(s: State, op: Op, step: Step) {
    step.Call? && step.op == op ==> Solo(s, op, step.peer.id)
  }

  lemma SoloKept(s: State, op: Op, id: nat, step: Step)
    requires Solo(s, op, id) && Enabled(s, step) && (step.Call? && step.op == op ==> step.peer.id == id)
    ensures Solo(Next(s, step), op, id)
  {
  }

  ghost predicate PoliteRun(s: State, op: Op, steps: seq<Step>, s': State)
    decreases |steps|
  {
    if steps == [] then s == s'
    else Enabled(s, steps[0]) && Polite(s, op, steps[0]) && PoliteRun(Next(s, steps[0]), op, steps[1..], s')
  }

  /** If calls about a tunnel start only when everything still in progress on that channel, leftover
      confirmations included, is about the same tunnel, no confirmation is ever offered again. */
  lemma {:induction false} PushBackNeverTaken(s: State, op: Op, steps: seq<Step>, s': State)
    requires Calm(s, op) && PoliteRun(s, op, steps, s')
    ensures Calm(s', op)
    ensures forall i :: 0 <= i < |s'.threads| && s'.threads[i].op == op ==> !s'.threads[i].phase.Holding?
    decreases |steps|
  {
    if steps != [] {
      var step := steps[0];
      var id: nat :| Solo(s, op, id);
      if step.Call? && step.op == op {
        SoloKept(s, op, step.peer.id, step);
      } else {
        SoloKept(s, op, id, step);
      }
      PushBackNeverTaken(Next(s, step), op, steps[1..], s');
    }
  }

  // When a caller that offers a confirmation again is stuck.

  predicate CanReceive(s: State, op: Op, j: nat) {
    j < |s.threads| && s.threads[j].op == op && (s.threads[j].phase.Calling? || s.threads[j].phase.Waiting?)
  }

  ghost predicate NoReceiver(s: State, op: Op) { forall j: nat :: !CanReceive(s, op, j) }

  predicate NoNewCalls(op: Op, steps: seq<Step>) {
    forall k :: 0 <= k < |steps| ==> !(steps[k].Call? && steps[k].op == op)
  }

  lemma {:induction false} HoldersStay(s: State, op: Op, steps: seq<Step>, s': State)
    requires NoReceiver(s, op) && NoNewCalls(op, steps) && Run(s, steps, s')
    ensures NoReceiver(s', op) && |s.threads| <= |s'.threads|
    ensures forall i :: 0 <= i < |s.threads| && s.threads[i].op == op && s.threads[i].phase.Holding? ==>
      s'.threads[i] == s.threads[i]
    decreases |steps|
  {
    if steps != [] {
      var t := Next(s, steps[0]);
      NoReceiverKept(s, op, steps[0]);
      HoldersStay(t, op, steps[1..], s');
    }
  }

  lemma NoReceiverKept(s: State, op: Op, step: Step)
    requires NoReceiver(s, op) && Enabled(s, step) && !(step.Call? && step.op == op)
    ensures var s' := Next(s, step);
      && NoReceiver(s', op) && |s.threads| <= |s'.threads|
      && forall i :: 0 <= i < |s.threads| && s.threads[i].op == op && s.threads[i].phase.Holding? ==>
        s'.threads[i] == s.threads[i]
  {
    var s' := Next(s, step);
    if step.Enqueue? {
      assert !CanReceive(s, op, step.i);
    } else if step.Rendezvous? {
      assert !CanReceive(s, op, step.receiver);
    }
    forall j: nat ensures !CanReceive(s', op, j) {
      if j < |s.threads| { assert !CanReceive(s, op, j); }
    }
  }

  ghost predicate CanLetGo(s: State, i: nat) {
    i < |s.threads| && exists steps, s' ::
      NoNewCalls(s.threads[i].op, steps) && Run(s, steps, s') && i < |s'.threads| && !s'.threads[i].phase.Holding?
  }

  /** A caller left with somebody else's confirmation gets rid of it, without a new call on the same
      channel, exactly when some other caller there is still on its way or waiting. */
  lemma StuckIffNoReceiver(s: State, i: nat)
    requires i < |s.threads| && s.threads[i].phase.Holding?
    ensures CanLetGo(s, i) <==> exists j: nat :: CanReceive(s, s.threads[i].op, j)
  {
    var op := s.threads[i].op;
    if j: nat :| CanReceive(s, op, j) {
      var first, before := s, [];
      if s.threads[j].phase.Calling? {
        first, before := Next(s, Enqueue(j)), [Enqueue(j)];
      }
      var last := Next(first, Rendezvous(i, j));
      var steps := before + [Rendezvous(i, j)];
      assert [Rendezvous(i, j)][1..] == [];
      assert Run(first, [Rendezvous(i, j)], last);
      assert steps[|before|..] == [Rendezvous(i, j)];
      assert Run(s, steps, last);
    } else if CanLetGo(s, i) {
      var steps, s' :| NoNewCalls(op, steps) && Run(s, steps, s') && i < |s'.threads| && !s'.threads[i].phase.Holding?;
      HoldersStay(s, op, steps, s');
    }
  }

  // When a confirmation can come into the wrong hands at all.

  ghost predicate SomeoneHolds(s: State, op: Op) {
    exists i: nat :: i < |s.threads| && s.threads[i].op == op && s.threads[i].phase.Holding?
  }

  ghost predicate CanPushBack(s: State, op: Op) {
    exists steps, s' :: NoNewCalls(op, steps) && Run(s, steps, s') && SomeoneHolds(s', op)
  }

  lemma StepThenPushBack(s: State, op: Op, step: Step)
    requires Enabled(s, step) && !(step.Call? && step.op == op) && CanPushBack(Next(s, step), op)
    ensures CanPushBack(s, op)
  {
    var steps, s' :| NoNewCalls(op, steps) && Run(Next(s, step), steps, s') && SomeoneHolds(s', op);
    var longer := [step] + steps;
    assert longer[1..] == steps;
    assert Run(s, longer, s');
    assert forall k :: 0 <= k < |longer| ==> longer[k] == if k == 0 then step else steps[k - 1];
  }

  lemma HeldIsPushedBack(s: State, op: Op)
    requires SomeoneHolds(s, op)
    ensures CanPushBack(s, op)
  {
    assert Run(s, [], s) && NoNewCalls(op, []);
  }

  /** A worker that is at it can end up offering its confirmation to a caller for another id. */
  lemma WorkerMeetsWaiter(s: State, op: Op, w: nat, c: nat)
    requires IsAt(s, c, Waiting) && w < |s.threads| && s.threads[w].op == s.threads[c].op == op
    requires s.threads[w].phase.Working? || s.threads[w].phase.Deleting? || s.threads[w].phase.Offering?
    requires s.threads[w].peer.id != s.threads[c].peer.id
    ensures CanPushBack(s, op)
    decreases if s.threads[w].phase.Working? then 2 else if s.threads[w].phase.Deleting? then 1 else 0
  {
    if s.threads[w].phase.Offering? {
      var step := Rendezvous(w, c);
      assert Next(s, step).threads[c].phase.Holding?;
      HeldIsPushedBack(Next(s, step), op);
      StepThenPushBack(s, op, step);
    } else {
      var step := if s.threads[w].phase.Deleting? then Delete(w) else if op == Add then Store(w) else Take(w);
      WorkerMeetsWaiter(Next(s, step), op, w, c);
      StepThenPushBack(s, op, step);
    }
  }

  /** Two calls in progress on one channel for different ids: one of them can get the other's. */
  lemma TwoCallsMeet(s: State, op: Op, i: nat, c: nat)
    requires i < |s.threads| && c < |s.threads| && s.threads[i].op == s.threads[c].op == op
    requires s.threads[i].phase.Calling? || s.threads[i].phase.Waiting?
    requires s.threads[c].phase.Calling? && s.threads[i].peer.id != s.threads[c].peer.id
    ensures CanPushBack(s, op)
    decreases if s.threads[i].phase.Calling? then 1 else 0
  {
    if s.threads[i].phase.Calling? {
      TwoCallsMeet(Next(s, Enqueue(i)), op, i, c);
      StepThenPushBack(s, op, Enqueue(i));
    } else {
      WorkerMeetsWaiter(Next(s, Enqueue(c)), op, |s.threads|, i);
      StepThenPushBack(s, op, Enqueue(c));
    }
  }

  lemma LiveThreadMeetsCaller(s: State, op: Op, i: nat, c: nat)
    requires i < |s.threads| && c < |s.threads| && s.threads[i].op == s.threads[c].op == op
    requires IsLive(s.threads[i]) && s.threads[c].phase.Calling? && s.threads[i].peer.id != s.threads[c].peer.id
    ensures CanPushBack(s, op)
  {
    if s.threads[i].phase.Holding? {
      HeldIsPushedBack(s, op);
    } else if s.threads[i].phase.Calling? || s.threads[i].phase.Waiting? {
      TwoCallsMeet(s, op, i, c);
    } else {
      WorkerMeetsWaiter(Next(s, Enqueue(c)), op, i, c);
      StepThenPushBack(s, op, Enqueue(c));
    }
  }

  lemma {:induction false} WithoutCallsIsPolite(s: State, op: Op, steps: seq<Step>, s': State)
    requires Run(s, steps, s') && NoNewCalls(op, steps)
    ensures PoliteRun(s, op, steps, s')
    decreases |steps|
  {
    if steps != [] {
      assert NoNewCalls(op, steps[1..]);
      WithoutCallsIsPolite(Next(s, steps[0]), op, steps[1..], s');
    }
  }

  /** A new call lets some confirmation get into the wrong hands exactly when something about another
      tunnel is still in progress on its channel. */
  lemma PushBackPossibleIff(s: State, op: Op, peer: Peer)
    requires !SomeoneHolds(s, op) && (op == Remove || peer.enabled)
    ensures CanPushBack(Next(s, Call(op, peer)), op)
      <==> exists i: nat ::
        i < |s.threads| && s.threads[i].op == op && IsLive(s.threads[i]) && s.threads[i].peer.id != peer.id
  {
    var t := Next(s, Call(op, peer));
    if i: nat :| i < |s.threads| && s.threads[i].op == op && IsLive(s.threads[i]) && s.threads[i].peer.id != peer.id {
      LiveThreadMeetsCaller(t, op, i, |s.threads|);
    } else if CanPushBack(t, op) {
      assert Solo(t, op, peer.id);
      var steps, s' :| NoNewCalls(op, steps) && Run(t, steps, s') && SomeoneHolds(s', op);
      WithoutCallsIsPolite(t, op, steps, s');
      PushBackNeverTaken(t, op, steps, s');
    }
  }

  // When a caller can be left stuck for good.

  /** Some caller on the channel has somebody else's confirmation and, without a new call, never gets rid
      of it: it is blocked on a send that has no time limit. */
  ghost predicate SomeoneStuck(s: State, op: Op) {
    exists i: nat :: i < |s.threads| && s.threads[i].op == op && s.threads[i].phase.Holding? && !CanLetGo(s, i)
  }

  ghost predicate CanGetStuck(s: State, op: Op) {
    exists steps, s' :: NoNewCalls(op, steps) && Run(s, steps, s') && SomeoneStuck(s', op)
  }

  lemma StepThenStuck(s: State, op: Op, step: Step)
    requires Enabled(s, step) && !(step.Call? && step.op == op) && CanGetStuck(Next(s, step), op)
    ensures CanGetStuck(s, op)
  {
    var steps, s' :| NoNewCalls(op, steps) && Run(Next(s, step), steps, s') && SomeoneStuck(s', op);
    var longer := [step] + steps;
    assert longer[1..] == steps;
    assert Run(s, longer, s');
    assert forall k :: 0 <= k < |longer| ==> longer[k] == if k == 0 then step else steps[k - 1];
  }

  lemma {:induction false} RunThenStuck(s: State, op: Op, steps: seq<Step>, s': State)
    requires Run(s, steps, s') && NoNewCalls(op, steps) && CanGetStuck(s', op)
    ensures CanGetStuck(s, op)
    decreases |steps|
  {
    if steps != [] {
      assert NoNewCalls(op, steps[1..]);
      RunThenStuck(Next(s, steps[0]), op, steps[1..], s');
      StepThenStuck(s, op, steps[0]);
    }
  }

  /** How many steps it takes a thread to be no receiver any more: to be enqueued, and to time out. */
  function ToTimeout(op: Op): Thread -> nat {
    (t: Thread) => if t.op != op then 0 else if t.phase.Calling? then 2 else if t.phase.Waiting? then 1 else 0
  }

  lemma TimeoutsAfter(s: State, op: Op, j: nat)
    requires CanReceive(s, op, j)
    ensures var step := if s.threads[j].phase.Calling? then Enqueue(j) else Timeout(j);
      Enabled(s, step) && Sum(Next(s, step).threads, ToTimeout(op)) < Sum(s.threads, ToTimeout(op))
  {
    var t := s.threads[j];
    if t.phase.Calling? {
      SumUpdate(s.threads, j, t.(phase := Waiting), ToTimeout(op));
      SumPush(SetPhase(s, j, Waiting).threads, Thread(t.op, t.peer, Working), ToTimeout(op));
    } else {
      SumUpdate(s.threads, j, t.(phase := TimedOut), ToTimeout(op));
    }
  }

  /** Once some caller holds somebody else's confirmation, the others can all time out. */
  lemma {:induction false} HolderCanGetStuck(s: State, op: Op)
    requires SomeoneHolds(s, op)
    ensures CanGetStuck(s, op)
    decreases Sum(s.threads, ToTimeout(op))
  {
    var i: nat :| i < |s.threads| && s.threads[i].op == op && s.threads[i].phase.Holding?;
    if j: nat :| CanReceive(s, op, j) {
      var step := if s.threads[j].phase.Calling? then Enqueue(j) else Timeout(j);
      TimeoutsAfter(s, op, j);
      assert Next(s, step).threads[i] == s.threads[i];
      HolderCanGetStuck(Next(s, step), op);
      StepThenStuck(s, op, step);
    } else {
      StuckIffNoReceiver(s, i);
      assert Run(s, [], s) && NoNewCalls(op, []);
      assert SomeoneStuck(s, op);
    }
  }

  /** After a new call some caller can be left stuck for good, if nobody else calls, exactly when somebody
      holds a wrong confirmation already or something about another tunnel is in progress on the channel. */
  lemma CanGetStuckIff(s: State, op: Op, peer: Peer)
    requires op == Remove || peer.enabled
    ensures CanGetStuck(Next(s, Call(op, peer)), op) <==>
      SomeoneHolds(s, op)
      || exists i: nat ::
        i < |s.threads| && s.threads[i].op == op && IsLive(s.threads[i]) && s.threads[i].peer.id != peer.id
  {
    var t := Next(s, Call(op, peer));
    if SomeoneHolds(s, op) {
      var i: nat :| i < |s.threads| && s.threads[i].op == op && s.threads[i].phase.Holding?;
      assert t.threads[i] == s.threads[i];
      HolderCanGetStuck(t, op);
    } else {
      PushBackPossibleIff(s, op, peer);
      if CanPushBack(t, op) {
        var steps, s' :| NoNewCalls(op, steps) && Run(t, steps, s') && SomeoneHolds(s', op);
        HolderCanGetStuck(s', op);
        RunThenStuck(t, op, steps, s');
      }
      if CanGetStuck(t, op) {
        var steps, s' :| NoNewCalls(op, steps) && Run(t, steps, s') && SomeoneStuck(s', op);
        assert SomeoneHolds(s', op);
      }
    }
  }

  lemma {:induction false} RunExtends(s: State, steps: seq<Step>, s': State, step: Step)
    requires Run(s, steps, s') && Enabled(s', step)
    ensures Run(s, steps + [step], Next(s', step))
    decreases |steps|
  {
    if steps == [] {
      assert (steps + [step])[1..] == [];
    } else {
      RunExtends(Next(s, steps[0]), steps[1..], s', step);
      assert (steps + [step])[1..] == steps[1..] + [step];
    }
  }

  lemma ReachableExtends(s: State, step: Step)
    requires Reachable(s) && Enabled(s, step)
    ensures Reachable(Next(s, step))
  {
    var steps :| Run(Init(), steps, s);
    RunExtends(Init(), steps, s, step);
  }

  /** Two calls, both handed to the manager's loop. */
  lemma TwoWaiters(a: Peer, b: Peer) returns (s: State)
    requires a.enabled && b.enabled
    ensures Reachable(s)
    ensures s.threads
      == [Thread(Add, a, Waiting), Thread(Add, b, Waiting), Thread(Add, a, Working), Thread(Add, b, Working)]
  {
    s := Init();
    assert Run(s, [], s);
    ReachableExtends(s, Call(Add, a));
    s := Next(s, Call(Add, a));
    ReachableExtends(s, Call(Add, b));
    s := Next(s, Call(Add, b));
    ReachableExtends(s, Enqueue(0));
    s := Next(s, Enqueue(0));
    ReachableExtends(s, Enqueue(1));
    s := Next(s, Enqueue(1));
  }

  /** Both workers have registered their tunnels and offer their confirmations. */
  lemma TwoOffers(a: Peer, b: Peer) returns (s: State)
    requires a.enabled && b.enabled
    ensures Reachable(s)
    ensures s.threads
      == [Thread(Add, a, Waiting), Thread(Add, b, Waiting), Thread(Add, a, Offering), Thread(Add, b, Offering)]
  {
    s := TwoWaiters(a, b);
    ReachableExtends(s, Store(2));
    s := Next(s, Store(2));
    ReachableExtends(s, Store(3));
    s := Next(s, Store(3));
  }

  ghost predicate MutualHold(s: State) {
    && |s.threads| > 1 && s.threads[0].op == s.threads[1].op
    && s.threads[0].phase == Holding(s.threads[1].peer) && s.threads[1].phase == Holding(s.threads[0].peer)
    && NoReceiver(s, s.threads[0].op)
  }

  /** Both of two callers can be left with each other's confirmation; then, as StuckIffNoReceiver
      says, they stay blocked, past their time limits, until somebody else calls. */
  lemma MutualHoldIsReachable()
    ensures exists s :: Reachable(s) && MutualHold(s)
  {
    var a, b := Peer(1, true, true), Peer(2, true, true);
    var s := TwoOffers(a, b);
    hide Reachable;
    ReachableExtends(s, Rendezvous(3, 0));
    s := Next(s, Rendezvous(3, 0));
    ReachableExtends(s, Rendezvous(2, 1));
    s := Next(s, Rendezvous(2, 1));
    assert MutualHold(s);
  }
}
