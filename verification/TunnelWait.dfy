/** The lifetime of the ssh master process: the child, the goroutine that waits for
    it, the one-slot channel between them, and the main goroutine that polls for
    readiness and later stops the tunnel (internal/session/tunnel.go). */
module TunnelWait {
  import opened Text

  datatype Child = Running | Exited(status: int)

  /** The goroutine: inside cmd.Wait, about to send, finished. */
  datatype Waiter = InWait | Holding(status: int) | Gone

  datatype Reason = ChildExited | TimedOut

  /** The main goroutine: the select loop of waitUntilReady, then Stop. */
  datatype Main =
    | Polling
    | Checking
    | InUse
    | Failed(reason: Reason)
    | AskingToExit
    | Killing
    | Waiting
    | Stopped

  /** once holds waitErr after the Once has run; the counters record how often the
      channel was used. */
  datatype Tunnel = Tunnel(
    child: Child, killed: bool, waiter: Waiter, channel: Option<int>, once: Option<int>,
    main: Main, sent: nat, received: nat)

  const STARTED := Tunnel(Running, false, InWait, None, None, Polling, 0, 0)

  datatype Action =
    // The child and the goroutine.
    | Exit(status: int)
    | Reap
    | Send
    // waitUntilReady.
    | Receive
    | Deadline
    | Tick
    | Checked(ok: bool)
    // Stop: asked for after a failure, at the end of the session, or once more.
    | BeginStop
    | ExitAnswered
    | Kill
    | FinishWait

  predicate Enabled(t: Tunnel, action: Action) {
    match action
    case Exit(_) => t.child.Running?
    case Reap => t.waiter.InWait? && t.child.Exited?
    case Send => t.waiter.Holding? && t.channel.None?
    case Receive => t.main.Polling? && t.channel.Some?
    case Deadline => t.main.Polling?
    case Tick => t.main.Polling?
    case Checked(_) => t.main.Checking?
    case BeginStop => t.main.InUse? || t.main.Failed? || t.main.Stopped?
    case ExitAnswered => t.main.AskingToExit?
    case Kill => t.main.Killing?
    case FinishWait => t.main.Waiting? && (t.once.Some? || t.channel.Some?)
  }

  /** sync.Once: the first result stays. */
  function Note(once: Option<int>, status: int): Option<int> {
    if once.Some? then once else Some(status)
  }

  function Apply(t: Tunnel, action: Action): Tunnel
    requires Enabled(t, action)
  {
    match action
    case Exit(status) => t.(child := Exited(status))
    case Reap => t.(waiter := Holding(t.child.status))
    case Send => t.(waiter := Gone, channel := Some(t.waiter.status), sent := t.sent + 1)
    case Receive =>
      t.(channel := None, received := t.received + 1, once := Note(t.once, t.channel.value),
         main := Failed(ChildExited))
    case Deadline => t.(main := Failed(TimedOut))
    case Tick => t.(main := Checking)
    case Checked(ok) => t.(main := if ok then InUse else Polling)
    case BeginStop => t.(main := AskingToExit)
    case ExitAnswered => t.(main := Killing)
    case Kill => t.(main := Waiting, killed := true)
    case FinishWait =>
      if t.once.Some? then t.(main := Stopped)
      else t.(channel := None, received := t.received + 1, once := Some(t.channel.value), main := Stopped)
  }

  ghost predicate IsRun(t: Tunnel, actions: seq<Action>, last: Tunnel)
    decreases |actions|
  {
    if actions == [] then t == last
    else Enabled(t, actions[0]) && IsRun(Apply(t, actions[0]), actions[1..], last)
  }

  ghost predicate Reachable(t: Tunnel) { exists actions :: IsRun(STARTED, actions, t) }

  /** Where the child's exit status is on its way to waitErr. */
  ghost predicate Inv(t: Tunnel) {
    && t.sent == (if t.waiter.Gone? then 1 else 0)
    && t.sent == t.received + (if t.channel.Some? then 1 else 0)
    && (t.once.Some? <==> t.received == 1)
    && (t.waiter.Holding? ==> t.child == Exited(t.waiter.status))
    && (t.waiter.Gone? ==> t.child.Exited?)
    && (t.channel.Some? ==> t.child == Exited(t.channel.value))
    && (t.once.Some? ==> t.child == Exited(t.once.value))
    && (t.main == Failed(ChildExited) ==> t.once.Some?)
    && (t.main.Polling? || t.main.Checking? || t.main.InUse? ==> t.once.None?)
    && (t.main.Stopped? ==> t.once.Some? && t.killed)
    && (t.main.Waiting? ==> t.killed)
  }

  lemma {:induction false} RunKeepsInv(t: Tunnel, actions: seq<Action>, last: Tunnel)
    requires Inv(t) && IsRun(t, actions, last)
    ensures Inv(last)
    decreases |actions|
  {
    if actions != [] {
      RunKeepsInv(Apply(t, actions[0]), actions[1..], last);
    }
  }

  lemma ReachableHolds(t: Tunnel)
    requires Reachable(t)
    ensures Inv(t)
  {
    var actions :| IsRun(STARTED, actions, t);
    RunKeepsInv(STARTED, actions, t);
  }

  /** In every interleaving the channel carries the exit status once and is emptied
      at most once; receiving it, wherever that happens, is what completes the
      Once; the recorded result is the child's own; and the waiting goroutine can
      always send, so it never leaks. */
  lemma StatusIsReceivedOnce(t: Tunnel)
    requires Reachable(t)
    ensures t.received <= t.sent <= 1
    ensures t.once.Some? <==> t.received == 1
    ensures t.once.Some? ==> t.child == Exited(t.once.value)
    ensures t.main == Failed(ChildExited) ==> t.once.Some? && t.channel.None?
    ensures t.waiter.Holding? ==> Enabled(t, Send)
  {
    ReachableHolds(t);
  }

  /** When Stop has returned nothing is left: the child has exited and has been
      waited for, the goroutine is gone and the channel is empty. */
  lemma StopLeavesNothing(t: Tunnel)
    requires Reachable(t) && t.main.Stopped?
    ensures t.child.Exited? && t.waiter.Gone? && t.channel.None? && t.once == Some(t.child.status)
  {
    ReachableHolds(t);
  }

  // Stop always returns.

  ghost predicate Stopping(t: Tunnel) { t.main.AskingToExit? || t.main.Killing? || t.main.Waiting? }

  /** The steps that child, goroutine and Stop have left, whoever takes the next. */
  function Distance(t: Tunnel): nat {
    (if t.child.Running? then 1 else 0)
    + (match t.waiter case InWait => 2 case Holding(_) => 1 case Gone => 0)
    + (match t.main case AskingToExit => 3 case Killing => 2 case Waiting => 1 case _ => 0)
  }

  /** The steps that are sure to come if nothing else happens: those of the program,
      the answer of the separate ssh that Stop asks first, and the child's exit once
      it has been killed. */
  predicate WillHappen(t: Tunnel, action: Action) {
    Enabled(t, action) && (action.Exit? ==> t.killed)
  }

  /** While Stop runs it is never stuck, and every step that can be taken at all
      brings it nearer to its end: there is no deadlock and no schedule in which
      Stop takes more than six steps. */
  lemma StopMakesProgress(t: Tunnel)
    requires Reachable(t) && Stopping(t)
    ensures exists action :: WillHappen(t, action)
    ensures forall action :: Enabled(t, action) ==>
              && Distance(Apply(t, action)) < Distance(t) <= 6
              && (Stopping(Apply(t, action)) || Apply(t, action).main.Stopped?)
  {
    ReachableHolds(t);
    match t.main {
      case AskingToExit => assert WillHappen(t, ExitAnswered);
      case Killing => assert WillHappen(t, Kill);
      case Waiting =>
        if t.child.Running? {
          assert WillHappen(t, Exit(0));
        } else {
          match t.waiter {
            case InWait => assert WillHappen(t, Reap);
            case Holding(_) => assert WillHappen(t, Send);
            case Gone => assert WillHappen(t, FinishWait);
          }
        }
    }
  }

  /** Stop has returned after some of the first steps. */
  ghost predicate ReturnsWithin(t: Tunnel, actions: seq<Action>, bound: nat) {
    exists n, middle :: 0 < n <= bound && n <= |actions| && IsRun(t, actions[..n], middle) && middle.main.Stopped?
  }

  /** Hence every run that goes on long enough sees Stop return, within at most six
      steps, whichever steps child, goroutine and main take. */
  lemma {:induction false} StopReturns(t: Tunnel, actions: seq<Action>, last: Tunnel)
    requires Reachable(t) && Stopping(t) && IsRun(t, actions, last)
    requires Distance(t) <= |actions|
    ensures ReturnsWithin(t, actions, Distance(t)) && Distance(t) <= 6
    decreases |actions|
  {
    StopMakesProgress(t);
    var next := Apply(t, actions[0]);
    ReachableStep(t, actions[0]);
    if next.main.Stopped? {
      assert actions[..1] == [actions[0]] && actions[..1][1..] == [];
      assert IsRun(next, actions[..1][1..], next);
      assert IsRun(t, actions[..1], next);
    } else {
      StopReturns(next, actions[1..], last);
      var n, middle :| 0 < n <= Distance(next) && n <= |actions[1..]| && IsRun(next, actions[1..][..n], middle)
                       && middle.main.Stopped?;
      assert actions[..n + 1][1..] == actions[1..][..n];
      assert IsRun(t, actions[..n + 1], middle);
    }
  }

  /** Such runs exist from every state in which Stop runs: it can always be carried on
      to its return by steps that are sure to come. */
  lemma {:induction false} StopCanReturn(t: Tunnel) returns (actions: seq<Action>, last: Tunnel)
    requires Reachable(t) && Stopping(t)
    ensures IsRun(t, actions, last) && last.main.Stopped? && 0 < |actions| <= Distance(t)
    ensures AllSure(t, actions)
    decreases Distance(t)
  {
    StopMakesProgress(t);
    var action :| WillHappen(t, action);
    var next := Apply(t, action);
    ReachableStep(t, action);
    if next.main.Stopped? {
      actions, last := [action], next;
      assert actions[1..] == [];
      assert IsRun(next, actions[1..], last) && AllSure(next, actions[1..]);
    } else {
      var later: seq<Action>;
      later, last := StopCanReturn(next);
      actions := [action] + later;
      assert actions[1..] == later;
    }
  }

  ghost predicate AllSure(t: Tunnel, actions: seq<Action>)
    decreases |actions|
  {
    actions == [] || (WillHappen(t, actions[0]) && AllSure(Apply(t, actions[0]), actions[1..]))
  }

  lemma ReachableStep(t: Tunnel, action: Action)
    requires Reachable(t) && Enabled(t, action)
    ensures Reachable(Apply(t, action))
  {
    var actions :| IsRun(STARTED, actions, t);
    RunSnoc(STARTED, actions, t, action);
    assert IsRun(STARTED, actions + [action], Apply(t, action));
  }

  lemma {:induction false} RunSnoc(t: Tunnel, actions: seq<Action>, last: Tunnel, action: Action)
    requires IsRun(t, actions, last) && Enabled(last, action)
    ensures IsRun(t, actions + [action], Apply(last, action))
    decreases |actions|
  {
    if actions == [] {
      assert [action][1..] == [];
      assert [] + [action] == [action];
    } else {
      assert (actions + [action])[1..] == actions[1..] + [action];
      RunSnoc(Apply(t, actions[0]), actions[1..], last, action);
    }
  }

  // How the wait for readiness ends.

  predicate IsDecisive(action: Action) { action == Receive || action == Deadline || action == Checked(true) }

  /** The first of the three events that end the wait. */
  function FirstDecisive(actions: seq<Action>): Option<Action> {
    if actions == [] then None
    else if IsDecisive(actions[0]) then Some(actions[0])
    else FirstDecisive(actions[1..])
  }

  predicate IsWaiting(t: Tunnel) { t.main.Polling? || t.main.Checking? }

  lemma {:induction false} DecisionStays(t: Tunnel, actions: seq<Action>, last: Tunnel)
    requires !IsWaiting(t) && IsRun(t, actions, last)
    ensures !IsWaiting(last)
    ensures last.main.InUse? || last.main.Failed? ==> last.main == t.main
    decreases |actions|
  {
    if actions != [] {
      DecisionStays(Apply(t, actions[0]), actions[1..], last);
    }
  }

  /** The tunnel comes into use only after a check that succeeded, and fails only with
      the reason that came first: the child's exit or the deadline. While none of the
      three has happened it goes on waiting, however many checks fail. */
  lemma {:induction false} FirstEventDecides(t: Tunnel, actions: seq<Action>, last: Tunnel)
    requires IsWaiting(t) && IsRun(t, actions, last)
    ensures IsWaiting(last) <==> FirstDecisive(actions) == None
    ensures last.main == InUse ==> FirstDecisive(actions) == Some(Checked(true))
    ensures last.main == Failed(TimedOut) ==> FirstDecisive(actions) == Some(Deadline)
    ensures last.main == Failed(ChildExited) ==> FirstDecisive(actions) == Some(Receive)
    decreases |actions|
  {
    if actions != [] {
      var next := Apply(t, actions[0]);
      if IsWaiting(next) {
        FirstEventDecides(next, actions[1..], last);
      } else {
        DecisionStays(next, actions[1..], last);
      }
    }
  }

  /** A failed check leads back to where the deadline and the child's exit are noticed. */
  lemma WaitCanEnd(t: Tunnel)
    requires IsWaiting(t)
    ensures t.main.Checking? ==> Enabled(t, Checked(false)) && Apply(t, Checked(false)).main.Polling?
    ensures t.main.Polling? ==>
              && Enabled(t, Deadline) && Apply(t, Deadline).main == Failed(TimedOut)
              && (t.channel.Some? ==> Enabled(t, Receive) && Apply(t, Receive).main == Failed(ChildExited))
  {
  }
}
