/**
 Process-creation tracking as a transition system: the notification handler, the
 ptrace worker it spawns for one fork-like call, and the kernel, interleaved in every
 order, over any number of sessions.

 Kernel assumptions, each a guard below: `PTRACE_DETACH` takes effect; waiting on or
 reading from a tracee fails only once it is gone; the watchdog's wake signal is seen
 as a stop only after the call returned without a child.
 */
module CreationTracking {

  import opened Prelude

  datatype Cmd = Proceed | Abort

  /** The worker's result: Ok(false), Ok(true), Err. */
  datatype Res = NoChild | Created | Failed

  /** Where the notification handler is. */
  datatype Sup =
    | Idle
    | Preparing
    | Prepared
    | Responded(ok: bool)
    | Finishing
    | Aborting
    | Dropped

  /** Where the worker thread is. */
  datatype Worker =
    | NoWorker
    | Seizing
    | Parked
    | Watching
    | EventSeen
    | HasChild(pid: int)
    | Registered(pid: int)
    | Rejected(pid: int)
    | Detaching(res: Res)
    | Finished(res: Res)

  /** What the forking task is doing. */
  datatype Caller =
    | AwaitingReply
    | InFork
    | ForkStop(child: int)
    | Returned
    | WakeStop
    | SignalStop(inFork: bool)
    | Gone

  datatype State = State(
    sup: Sup,
    worker: Worker,
    chan: seq<Cmd>,
    sent: nat,
    signaled: bool,
    continued: bool,
    caller: Caller,
    attached: bool,
    wake: bool,
    child: Option<int>,
    procCount: nat,
    baseCount: nat,
    born: set<int>,
    held: set<int>,
    ran: set<int>,
    dead: set<int>,
    registered: set<int>,
    unread: set<int>)

  /** One step; the environment's choices are in the label. */
  datatype Action =
    // the notification handler
    | Begin(counted: nat)
    | PrepareOk
    | PrepareErr
    | Send(delivered: bool)
    | SendProceed
    | SendAbort
    | DropHandle
    | Watchdog
    | Join
    | JoinAborted
    | DropDone
    // the worker
    | Seize(attaches: bool)
    | Recv
    | SeeStop
    | SeeGone
    | ReadMessage
    | Register(accepted: bool)
    | KillChild
    | ReleaseChild
    | DetachCaller
    // the kernel
    | ForkCreates(pid: int)
    | ForkFails
    | Interrupted
    | DeliverWake
    | DeliverSignal
    | CallerKilled
    | TracerExits

  predicate Stopped(c: Caller) {
    c.ForkStop? || c.WakeStop? || c.SignalStop?
  }

  /** The caller may still create its child. */
  predicate StillForking(c: Caller) {
    c.InFork? || c == SignalStop(true)
  }

  predicate Can(s: State, a: Action) {
    match a
    case Begin(_) => s.sup.Idle?
    case PrepareOk => s.sup.Preparing? && s.worker.Parked?
    case PrepareErr => s.sup.Preparing? && s.worker.Finished?
    case Send(delivered) => s.sup.Prepared? && (delivered ==> s.caller.AwaitingReply?)
    case SendProceed => s.sup == Responded(true)
    case SendAbort => s.sup == Responded(false)
    case DropHandle => s.sup.Prepared? || s.sup.Finishing? || s.sup.Aborting?
    case Watchdog => s.sup.Finishing? && !s.worker.Finished? && !s.wake
    case Join => s.sup.Finishing? && s.worker.Finished?
    case JoinAborted => s.sup.Aborting? && s.worker.Finished?
    case DropDone => s.sup.Dropped? && s.worker.Finished?
    case Seize(attaches) => s.worker.Seizing? && (attaches ==> !s.caller.Gone?)
    case Recv => s.worker.Parked? && s.chan != []
    case SeeStop => s.worker.Watching? && Stopped(s.caller)
    case SeeGone => s.worker.Watching? && s.caller.Gone?
    case ReadMessage => s.worker.EventSeen?
    case Register(_) => s.worker.HasChild?
    case KillChild => s.worker.Rejected?
    case ReleaseChild => s.worker.Registered?
    case DetachCaller => s.worker.Detaching?
    case ForkCreates(pid) => s.caller.InFork? && pid !in s.born
    case ForkFails => s.caller.InFork?
    case Interrupted => s.caller.AwaitingReply?
    case DeliverWake => s.wake && s.caller.Returned?
    case DeliverSignal => s.attached && (s.caller.InFork? || s.caller.Returned?)
    case CallerKilled => !s.caller.Gone?
    case TracerExits => s.worker.NoWorker?
  }

  function Do(s: State, a: Action): State
    requires Can(s, a)
  {
    match a
    // handle_fork has counted the new process; the worker is spawned and asked to SEIZE
    case Begin(counted) =>
      s.(sup := Preparing, worker := Seizing, chan := [], sent := 0, signaled := false, continued := false,
         caller := AwaitingReply, attached := false, wake := false, child := None,
         baseCount := counted, procCount := counted + 1)
    case PrepareOk => s.(sup := Prepared)
    // the fork is denied with EPERM and its count rolled back
    case PrepareErr =>
      s.(sup := Idle, worker := NoWorker, procCount := Rollback(s.procCount),
         caller := if s.caller.AwaitingReply? then Returned else s.caller)
    case Send(delivered) =>
      if delivered then s.(sup := Responded(true), continued := true, caller := InFork)
      else s.(sup := Responded(false))
    case SendProceed => s.(sup := Finishing, signaled := true, chan := s.chan + [Proceed], sent := s.sent + 1)
    case SendAbort =>
      s.(sup := Aborting, signaled := true, chan := s.chan + [Abort], sent := s.sent + 1,
         procCount := Rollback(s.procCount))
    // Drop for ProcessCreationTrace: a command only if none was sent
    case DropHandle =>
      if s.signaled then s.(sup := Dropped)
      else s.(sup := Dropped, chan := s.chan + [Abort], sent := s.sent + 1)
    case Watchdog => s.(wake := true)
    case Join =>
      s.(sup := Idle, worker := NoWorker,
         procCount := if s.worker.res.Created? then s.procCount else Rollback(s.procCount))
    case JoinAborted => s.(sup := Idle, worker := NoWorker)
    case DropDone => s.(sup := Idle, worker := NoWorker)
    case Seize(attaches) =>
      if attaches then s.(worker := Parked, attached := true) else s.(worker := Finished(Failed))
    case Recv =>
      s.(chan := s.chan[1..], worker := if s.chan[0].Proceed? then Watching else Detaching(NoChild))
    case SeeStop =>
      match s.caller {
        case ForkStop(_) => s.(worker := EventSeen)
        case SignalStop(inFork) => s.(caller := if inFork then InFork else Returned)
        case _ => s.(worker := Detaching(NoChild))
      }
    case SeeGone => s.(worker := Detaching(NoChild))
    case ReadMessage =>
      if s.caller.ForkStop? then s.(worker := HasChild(s.caller.child)) else s.(worker := Detaching(Failed))
    case Register(accepted) =>
      if accepted then s.(worker := Registered(s.worker.pid), registered := s.registered + {s.worker.pid})
      else s.(worker := Rejected(s.worker.pid))
    case KillChild =>
      s.(worker := Detaching(Failed), held := s.held - {s.worker.pid}, dead := s.dead + {s.worker.pid})
    case ReleaseChild =>
      s.(worker := Detaching(Created), held := s.held - {s.worker.pid}, ran := s.ran + {s.worker.pid})
    case DetachCaller =>
      s.(worker := Finished(s.worker.res), attached := false,
         caller := if Stopped(s.caller) then (if s.caller == SignalStop(true) then InFork else Returned) else s.caller)
    // a traced fork stops both sides; an untraced child simply runs
    case ForkCreates(pid) =>
      if s.attached then
        s.(caller := ForkStop(pid), child := Some(pid), born := s.born + {pid}, held := s.held + {pid})
      else
        s.(caller := Returned, child := Some(pid), born := s.born + {pid}, ran := s.ran + {pid})
    case ForkFails => s.(caller := Returned)
    case Interrupted => s.(caller := Returned)
    case DeliverWake => s.(wake := false, caller := if s.attached then WakeStop else Returned)
    case DeliverSignal => s.(caller := SignalStop(s.caller.InFork?))
    // the event of a child whose parent dies before its message is read stays unread
    case CallerKilled =>
      s.(caller := Gone, attached := false,
         unread := if s.caller.ForkStop? && !HasRead(s.worker) then s.unread + {s.caller.child} else s.unread)
    // the worker's thread ends: the kernel releases whatever it still traced
    case TracerExits => s.(ran := s.ran + s.held, held := {})
  }

  function Rollback(n: nat): nat {
    if n == 0 then 0 else n - 1
  }

  /** The worker has read the fork event's message, or is past needing it. */
  predicate HasRead(w: Worker) {
    w.HasChild? || w.Registered? || w.Rejected? || w.Detaching? || w.Finished?
  }

  const INITIAL: State :=
    State(Idle, NoWorker, [], 0, false, false, Returned, false, false, None, 0, 0, {1}, {}, {1}, {}, {1}, {})

  predicate Runs(s: State, steps: seq<Action>)
    decreases |steps|
  {
    steps == [] || (Can(s, steps[0]) && Runs(Do(s, steps[0]), steps[1..]))
  }

  function After(s: State, steps: seq<Action>): State
    requires Runs(s, steps)
    decreases |steps|
  {
    if steps == [] then s else After(Do(s, steps[0]), steps[1..])
  }

  // ---- The invariant ----

  /** No task has run user code unregistered, except one whose event was never read. */
  predicate Safe(s: State) {
    s.ran <= s.registered + s.unread
  }

  /** The child the worker is still dealing with. */
  function Handled(s: State): set<int> {
    if s.child.Some? && !s.worker.NoWorker? && !s.worker.Detaching? && !s.worker.Finished? then {s.child.value} else {}
  }

  predicate TasksInv(s: State) {
    && Safe(s)
    && s.held <= s.born && s.ran <= s.born && s.dead <= s.born && s.registered <= s.born && s.unread <= s.born
    && s.held !! s.ran && s.held !! s.dead && s.dead !! s.ran && s.unread <= s.held + s.ran
    && s.held - s.unread <= Handled(s) && s.unread !! s.registered
  }

  /** The channel carries the one command of the session. */
  predicate ChannelInv(s: State) {
    match s.sup
    case Idle => s.worker.NoWorker? && s.sent <= 1
    case Preparing =>
      && (s.worker.Seizing? || s.worker.Parked? || s.worker == Finished(Failed))
      && s.chan == [] && s.sent == 0 && !s.signaled && !s.continued
    case Prepared => s.worker.Parked? && s.chan == [] && s.sent == 0 && !s.signaled && !s.continued
    case Responded(ok) => s.worker.Parked? && s.chan == [] && s.sent == 0 && !s.signaled && s.continued == ok
    case Finishing => CommandSent(s, Proceed) && s.signaled && s.continued
    case Aborting => CommandSent(s, Abort) && s.signaled && !s.continued
    case Dropped => CommandSent(s, if s.continued then Proceed else Abort)
  }

  predicate CommandSent(s: State, c: Cmd) {
    && s.sent == 1
    && (if s.worker.Parked? then s.chan == [c] else s.chan == [])
    && !s.worker.NoWorker? && !s.worker.Seizing?
    && (c.Abort? ==> s.worker.Parked? || s.worker == Detaching(NoChild) || s.worker == Finished(NoChild))
  }

  /** A caller that may still fork is traced, and the worker has not given up on it. */
  predicate CallerInv(s: State) {
    && (StillForking(s.caller) ==>
          s.attached && s.continued && (s.worker.Parked? || s.worker.Watching?) && s.child.None?)
    && (s.attached ==> !s.caller.Gone? && !s.worker.NoWorker? && !s.worker.Seizing? && !s.worker.Finished?)
    && (Stopped(s.caller) ==> s.attached)
    && (Tracing(s.worker) ==> s.attached || s.caller.Gone?)
    && (s.caller.AwaitingReply? ==> !s.continued && s.child.None?)
  }

  predicate Tracing(w: Worker) {
    !w.NoWorker? && !w.Seizing? && !w.Finished?
  }

  /** What is known of the session's child at each point of the worker. */
  predicate ChildInv(s: State) {
    && (s.caller.ForkStop? ==> s.child == Some(s.caller.child) && s.continued)
    && (s.caller.WakeStop? ==> s.child.None?)
    && (s.attached && s.caller.Returned? ==> s.child.None?)
    && (match s.worker
        case HasChild(c) => s.child == Some(c) && c in s.held && c !in s.registered && c !in s.unread
        case Registered(c) => s.child == Some(c) && c in s.held && c in s.registered && c !in s.unread
        case Rejected(c) => s.child == Some(c) && c in s.held && c !in s.registered && c !in s.unread
        case Detaching(res) => Settled(s, res)
        case Finished(res) => Settled(s, res)
        case EventSeen => s.child.Some? && Pending(s)
        case NoWorker => true
        case _ => s.child.Some? ==> Pending(s))
  }

  /** A born child the worker has not dealt with: stopped with its parent, or unread. */
  predicate Pending(s: State)
    requires s.child.Some?
  {
    && s.child.value in s.held && s.child.value !in s.registered
    && (|| (s.caller == ForkStop(s.child.value) && s.child.value !in s.unread)
        || (s.caller.Gone? && s.child.value in s.unread))
  }

  /** How a session leaves its child: registered and released, killed, or unread. */
  predicate Settled(s: State, res: Res) {
    match s.child
    case None => res != Created
    case Some(c) =>
      if res.Created? then c in s.registered && c !in s.held && c !in s.dead && c !in s.unread
      else c !in s.registered && (c in s.dead || c in s.unread)
  }

  predicate CountInv(s: State) {
    match s.sup
    case Preparing => s.procCount == s.baseCount + 1
    case Prepared => s.procCount == s.baseCount + 1
    case Responded(_) => s.procCount == s.baseCount + 1
    case Finishing => s.procCount == s.baseCount + 1
    case Aborting => s.procCount == s.baseCount
    case _ => true
  }

  predicate Inv(s: State) {
    TasksInv(s) && ChannelInv(s) && CallerInv(s) && ChildInv(s) && CountInv(s)
  }

  lemma InitInv()
    ensures Inv(INITIAL)
  {
  }

  predicate HandlerAction(a: Action) {
    a.Begin? || a.PrepareOk? || a.PrepareErr? || a.Send? || a.SendProceed? || a.SendAbort? || a.DropHandle?
    || a.Watchdog? || a.Join? || a.JoinAborted? || a.DropDone?
  }

  predicate WatchAction(a: Action) {
    a.Seize? || a.Recv? || a.SeeStop? || a.SeeGone? || a.ReadMessage?
  }

  predicate ChildAction(a: Action) {
    a.Register? || a.KillChild? || a.ReleaseChild? || a.DetachCaller?
  }

  lemma HandlerKeepsInv(s: State, a: Action)
    requires Inv(s) && Can(s, a) && HandlerAction(a)
    ensures Inv(Do(s, a))
  {
  }

  lemma WatchKeepsInv(s: State, a: Action)
    requires Inv(s) && Can(s, a) && WatchAction(a)
    ensures Inv(Do(s, a))
  {
    if a.Seize? || a.Recv? {
      StartKeepsInv(s, a);
    } else if a.SeeStop? {
      StopKeepsInv(s, a);
    } else if a.SeeGone? {
      GoneKeepsInv(s, a);
    } else {
      MessageKeepsInv(s, a);
    }
  }

  lemma StartKeepsInv(s: State, a: Action)
    requires Inv(s) && Can(s, a) && (a.Seize? || a.Recv?)
    ensures Inv(Do(s, a))
  {
  }

  lemma StopKeepsInv(s: State, a: Action)
    requires Inv(s) && Can(s, a) && a.SeeStop?
    ensures Inv(Do(s, a))
  {
  }

  lemma GoneKeepsInv(s: State, a: Action)
    requires Inv(s) && Can(s, a) && a.SeeGone?
    ensures Inv(Do(s, a))
  {
  }

  lemma MessageKeepsInv(s: State, a: Action)
    requires Inv(s) && Can(s, a) && a.ReadMessage?
    ensures Inv(Do(s, a))
  {
  }

  lemma ChildKeepsInv(s: State, a: Action)
    requires Inv(s) && Can(s, a) && ChildAction(a)
    ensures Inv(Do(s, a))
  {
    if a.Register? {
      RegisterKeepsInv(s, a);
    } else if a.KillChild? {
      KillKeepsInv(s, a);
    } else {
      LetGoKeepsInv(s, a);
    }
  }

  lemma RegisterKeepsInv(s: State, a: Action)
    requires Inv(s) && Can(s, a) && a.Register?
    ensures Inv(Do(s, a))
  {
    RegisterKeepsTasks(s, a);
    RegisterKeepsRest(s, a);
  }

  lemma RegisterKeepsTasks(s: State, a: Action)
    requires Inv(s) && Can(s, a) && a.Register?
    ensures TasksInv(Do(s, a))
  {
  }

  lemma RegisterKeepsRest(s: State, a: Action)
    requires Inv(s) && Can(s, a) && a.Register?
    ensures var t := Do(s, a); ChannelInv(t) && CallerInv(t) && ChildInv(t) && CountInv(t)
  {
  }

  lemma KillKeepsInv(s: State, a: Action)
    requires Inv(s) && Can(s, a) && a.KillChild?
    ensures Inv(Do(s, a))
  {
  }

  lemma LetGoKeepsInv(s: State, a: Action)
    requires Inv(s) && Can(s, a) && (a.ReleaseChild? || a.DetachCaller?)
    ensures Inv(Do(s, a))
  {
  }

  lemma KernelKeepsInv(s: State, a: Action)
    requires Inv(s) && Can(s, a) && !HandlerAction(a) && !WatchAction(a) && !ChildAction(a)
    ensures Inv(Do(s, a))
  {
    if a.TracerExits? {
      assert forall h :: h in s.held && h !in s.unread ==> h in s.held - s.unread;
    }
  }

  lemma StepKeepsInv(s: State, a: Action)
    requires Inv(s) && Can(s, a)
    ensures Inv(Do(s, a))
  {
    if HandlerAction(a) {
      HandlerKeepsInv(s, a);
    } else if WatchAction(a) {
      WatchKeepsInv(s, a);
    } else if ChildAction(a) {
      ChildKeepsInv(s, a);
    } else {
      KernelKeepsInv(s, a);
    }
  }

  /** The invariant holds after every run, whatever the interleaving. */
  lemma {:induction false} RunKeepsInv(s: State, steps: seq<Action>)
    requires Inv(s) && Runs(s, steps)
    ensures Inv(After(s, steps))
    decreases |steps|
  {
    if steps != [] {
      StepKeepsInv(s, steps[0]);
      RunKeepsInv(Do(s, steps[0]), steps[1..]);
    }
  }

  // ---- What it gives ----

  lemma UnreadStaysHeld(s: State, a: Action)
    requires Inv(s) && Can(s, a) && !a.TracerExits? && s.unread <= s.held
    ensures Do(s, a).unread <= Do(s, a).held
  {
    if ChildAction(a) {
      UnreadOutlivesChildStep(s, a);
    } else {
      UnreadOutlivesOtherStep(s, a);
    }
  }

  lemma UnreadOutlivesChildStep(s: State, a: Action)
    requires Inv(s) && Can(s, a) && ChildAction(a) && s.unread <= s.held
    ensures Do(s, a).unread <= Do(s, a).held
  {
  }

  lemma UnreadOutlivesOtherStep(s: State, a: Action)
    requires Inv(s) && Can(s, a) && !ChildAction(a) && !a.TracerExits? && s.unread <= s.held
    ensures Do(s, a).unread <= Do(s, a).held
  {
    if HandlerAction(a) {
      HandlerLeavesChildren(s, a);
    } else if WatchAction(a) {
      WatchLeavesChildren(s, a);
    }
  }

  lemma HandlerLeavesChildren(s: State, a: Action)
    requires Can(s, a) && HandlerAction(a)
    ensures Do(s, a).unread == s.unread && Do(s, a).held == s.held
  {
  }

  lemma WatchLeavesChildren(s: State, a: Action)
    requires Can(s, a) && WatchAction(a)
    ensures Do(s, a).unread == s.unread && Do(s, a).held == s.held
  {
    if a.SeeStop? || a.SeeGone? {
      StopLeavesChildren(s, a);
    }
  }

  lemma StopLeavesChildren(s: State, a: Action)
    requires Can(s, a) && (a.SeeStop? || a.SeeGone?)
    ensures Do(s, a).unread == s.unread && Do(s, a).held == s.held
  {
  }

  lemma {:induction false} UnreadHeldAlongRun(s: State, steps: seq<Action>)
    requires Inv(s) && Runs(s, steps) && s.unread <= s.held && TracerExits !in steps
    ensures After(s, steps).unread <= After(s, steps).held
    decreases |steps|
  {
    if steps != [] {
      StepKeepsInv(s, steps[0]);
      UnreadStaysHeld(s, steps[0]);
      UnreadHeldAlongRun(Do(s, steps[0]), steps[1..]);
    }
  }

  /** In every interleaving of handler, worker and kernel over any number of forks: a task
      that has run user code is in the process index, unless its parent was killed before
      the worker read its birth and the tracing thread has since ended. */
  lemma RegisteredBeforeRunning(steps: seq<Action>)
    requires Runs(INITIAL, steps)
    ensures var s := After(INITIAL, steps);
            && s.ran <= s.registered + s.unread
            && (TracerExits !in steps ==> s.ran <= s.registered)
  {
    InitInv();
    RunKeepsInv(INITIAL, steps);
    if TracerExits !in steps {
      UnreadHeldAlongRun(INITIAL, steps);
    }
  }

  /** The exact condition under which the end of the tracing thread is harmless: no child
      is still held, that is, no birth event was left unread. */
  lemma TracerExitSafeIff(steps: seq<Action>)
    requires Runs(INITIAL, steps) && Can(After(INITIAL, steps), TracerExits)
    requires After(INITIAL, steps).ran <= After(INITIAL, steps).registered
    ensures var s := After(INITIAL, steps);
            Do(s, TracerExits).ran <= s.registered <==> s.unread == {}
  {
    InitInv();
    RunKeepsInv(INITIAL, steps);
    var s := After(INITIAL, steps);
    assert forall h :: h in s.held && h !in s.unread ==> h in s.held - s.unread;
    assert forall h :: h in s.unread ==> h in s.held + s.ran;
  }

  predicate Reaches(s: State, steps: seq<Action>, t: State) {
    Runs(s, steps) && After(s, steps) == t
  }

  lemma {:induction false} ReachesThen(s: State, steps: seq<Action>, t: State, a: Action)
    requires Reaches(s, steps, t) && Can(t, a)
    ensures Reaches(s, steps + [a], Do(t, a))
    decreases |steps|
  {
    if steps == [] {
      assert (steps + [a])[0] == a && (steps + [a])[1..] == [];
    } else {
      ReachesThen(Do(s, steps[0]), steps[1..], t, a);
      assert (steps + [a])[0] == steps[0] && (steps + [a])[1..] == steps[1..] + [a];
    }
  }

  /** A session whose worker watches a caller inside its fork. */
  const WATCHED: State :=
    INITIAL.(sup := Finishing, worker := Watching, sent := 1, signaled := true, continued := true, caller := InFork,
             attached := true, procCount := 1)

  lemma ReachesWatched() returns (steps: seq<Action>)
    ensures Reaches(INITIAL, steps, WATCHED)
  {
    steps := [Begin(0), Seize(true), PrepareOk, Send(true), SendProceed, Recv];
    BeginsWatching(INITIAL, 0);
    assert FromIdle(INITIAL, 0) == WATCHED;
  }

  /** The same session once the caller was killed in its fork stop. */
  const ORPHANED: State :=
    WATCHED.(worker := Detaching(NoChild), caller := Gone, attached := false, child := Some(2), born := {1, 2},
             held := {2}, unread := {2})

  lemma ReachesOrphaned() returns (steps: seq<Action>)
    ensures Reaches(INITIAL, steps, ORPHANED)
  {
    var t := ReachesWatched();
    var s1 := Do(WATCHED, ForkCreates(2));
    var s2 := Do(s1, CallerKilled);
    assert Do(s2, SeeGone) == ORPHANED;
    ReachesThen(INITIAL, t, WATCHED, ForkCreates(2));
    ReachesThen(INITIAL, t + [ForkCreates(2)], s1, CallerKilled);
    ReachesThen(INITIAL, t + [ForkCreates(2)] + [CallerKilled], s2, SeeGone);
    steps := t + [ForkCreates(2)] + [CallerKilled] + [SeeGone];
  }

  /** The failing family is real: a parent killed in its fork stop leaves a child that the
      end of the tracing thread sets running unregistered. */
  lemma UnreadChildCanRun()
    ensures exists steps, t :: Reaches(INITIAL, steps, t) && !(t.ran <= t.registered)
  {
    var t := ReachesOrphaned();
    var s1 := Do(ORPHANED, DetachCaller);
    var s2 := Do(s1, Join);
    var s3 := Do(s2, TracerExits);
    ReachesThen(INITIAL, t, ORPHANED, DetachCaller);
    ReachesThen(INITIAL, t + [DetachCaller], s1, Join);
    ReachesThen(INITIAL, t + [DetachCaller] + [Join], s2, TracerExits);
    assert 2 in s3.ran && 2 !in s3.registered;
    assert Reaches(INITIAL, t + [DetachCaller] + [Join] + [TracerExits], s3);
  }

  /** Exactly one command reaches the worker: none is sent twice, the channel never holds
      two, and a worker that was parked and has moved on took the only one. */
  lemma OneCommand(steps: seq<Action>)
    requires Runs(INITIAL, steps)
    ensures var s := After(INITIAL, steps);
            && s.sent <= 1 && (!s.sup.Idle? ==> |s.chan| <= s.sent)
            && (s.worker.Watching? || s.worker.EventSeen? || s.worker.HasChild? || s.worker.Registered?
                || s.worker.Rejected? || s.worker.Detaching? || (s.worker.Finished? && !s.sup.Preparing?)
                ==> s.sent == 1 && s.chan == [])
  {
    InitInv();
    RunKeepsInv(INITIAL, steps);
  }

  /** A worker ends with the caller detached and its child settled: registered and
      released, killed, or left stopped with its birth unread. */
  lemma WorkerEndsDetached(steps: seq<Action>)
    requires Runs(INITIAL, steps) && After(INITIAL, steps).worker.Finished?
    ensures var s := After(INITIAL, steps);
            && !s.attached && !Stopped(s.caller) && !StillForking(s.caller)
            && (s.child.None? ==> !s.worker.res.Created?)
            && (s.child.Some? ==>
                  var c := s.child.value;
                  if s.worker.res.Created? then c in s.registered && c !in s.held
                  else c !in s.registered && (c in s.dead || c in s.unread) && (c in s.ran ==> c in s.unread))
  {
    InitInv();
    RunKeepsInv(INITIAL, steps);
  }

  /** The process count: when a session closes through finish, abort or a failed prepare,
      the optimistic increment survives exactly when a child was created. */
  lemma CountSettles(steps: seq<Action>, a: Action)
    requires Runs(INITIAL, steps) && Can(After(INITIAL, steps), a) && (a.Join? || a.JoinAborted? || a.PrepareErr?)
    ensures var s := After(INITIAL, steps);
            Do(s, a).procCount == s.baseCount + (if s.worker.res.Created? then 1 else 0)
  {
    InitInv();
    RunKeepsInv(INITIAL, steps);
  }

  // ---- Who lives and who dies ----

  /** No registration has been refused, so nothing has been killed. */
  predicate Spared(s: State) {
    s.dead == {} && !s.worker.Rejected?
  }

  lemma StepSpares(s: State, a: Action)
    requires Spared(s) && Can(s, a) && a != Register(false)
    ensures Spared(Do(s, a))
  {
    if HandlerAction(a) {
      HandlerSpares(s, a);
    }
  }

  lemma HandlerSpares(s: State, a: Action)
    requires Spared(s) && Can(s, a) && HandlerAction(a)
    ensures Spared(Do(s, a))
  {
  }

  /** In every run without a refused registration no child is killed. */
  lemma {:induction false} OnlyRefusedDie(s: State, steps: seq<Action>)
    requires Spared(s) && Runs(s, steps) && Register(false) !in steps
    ensures After(s, steps).dead == {}
    decreases |steps|
  {
    if steps != [] {
      StepSpares(s, steps[0]);
      OnlyRefusedDie(Do(s, steps[0]), steps[1..]);
    }
  }

  /** What the last steps of a session leave: the caller free, and the child as `res` says. */
  ghost predicate Settles(s: State, t: State, c: int, res: Res) {
    && t.worker == Finished(res) && !t.attached && c !in t.held && !Stopped(t.caller)
    && t.procCount == s.procCount && t.born == s.born && t.unread == s.unread
    && (res.Created? ==> t.registered == s.registered + {c} && t.ran == s.ran + {c} && t.dead == s.dead)
    && (!res.Created? ==> t.registered == s.registered && t.ran == s.ran && t.dead == s.dead + {c})
  }

  /** From every reachable state in which the worker has read its child: an accepted registration is followed by
      the child's release, and the session ends with it registered and running. */
  lemma AcceptedChildRuns(steps: seq<Action>, c: int)
    requires Runs(INITIAL, steps) && After(INITIAL, steps).worker == HasChild(c)
    ensures var s := After(INITIAL, steps);
            && Runs(s, [Register(true), ReleaseChild, DetachCaller])
            && Settles(s, After(s, [Register(true), ReleaseChild, DetachCaller]), c, Created)
  {
    InitInv();
    RunKeepsInv(INITIAL, steps);
    var s := After(INITIAL, steps);
    ThreeSteps(s, Register(true), ReleaseChild, DetachCaller);
  }

  /** And a refused one by its death: it never ran and is never registered. */
  lemma RefusedChildDies(steps: seq<Action>, c: int)
    requires Runs(INITIAL, steps) && After(INITIAL, steps).worker == HasChild(c)
    ensures var s := After(INITIAL, steps);
            && Runs(s, [Register(false), KillChild, DetachCaller])
            && Settles(s, After(s, [Register(false), KillChild, DetachCaller]), c, Failed)
            && c !in s.registered && c !in s.ran
  {
    InitInv();
    RunKeepsInv(INITIAL, steps);
    var s := After(INITIAL, steps);
    ThreeSteps(s, Register(false), KillChild, DetachCaller);
  }

  lemma ThreeSteps(s: State, a: Action, b: Action, c: Action)
    requires Can(s, a) && Can(Do(s, a), b) && Can(Do(Do(s, a), b), c)
    ensures Runs(s, [a, b, c]) && After(s, [a, b, c]) == Do(Do(Do(s, a), b), c)
  {
    var s1 := Do(s, a);
    var s2 := Do(s1, b);
    assert Runs(Do(s2, c), []);
    RunsCons(s2, c, []);
    RunsCons(s1, b, [c] + []);
    RunsCons(s, a, [b] + ([c] + []));
    assert [a] + ([b] + ([c] + [])) == [a, b, c];
  }

  lemma RunsCons(s: State, a: Action, rest: seq<Action>)
    requires Can(s, a) && Runs(Do(s, a), rest)
    ensures Runs(s, [a] + rest) && After(s, [a] + rest) == After(Do(s, a), rest)
  {
    assert ([a] + rest)[1..] == rest;
  }

  // ---- Every session can be closed ----

  function CallerRank(s: State): nat {
    match s.caller
    case SignalStop(inFork) => if inFork then 9 else 7
    case InFork => 8
    case Returned => if s.wake then 5 else 6
    case WakeStop => 4
    case ForkStop(_) => 3
    case Gone => 1
    case AwaitingReply => 10
  }

  function WorkerRank(w: Worker): nat {
    match w
    case Seizing => 9
    case Parked => 8
    case Watching => 7
    case EventSeen => 6
    case HasChild(_) => 5
    case Registered(_) => 4
    case Rejected(_) => 4
    case Detaching(_) => 3
    case Finished(_) => 2
    case NoWorker => 0
  }

  function SupRank(sup: Sup): nat {
    match sup
    case Idle => 0
    case Preparing => 5
    case Prepared => 4
    case Responded(_) => 3
    case _ => 2
  }

  function Rank(s: State): nat {
    SupRank(s.sup) * 1000 + WorkerRank(s.worker) * 50 + CallerRank(s)
  }

  /** A step towards the close: never a refusal, and never a kill unless the trace was dropped. */
  predicate Closing(s: State, a: Action) {
    Can(s, a) && !a.Begin? && !a.TracerExits? && a != Register(false) && (a.CallerKilled? ==> s.sup.Dropped?)
  }

  lemma HandlerCloses(s: State) returns (a: Action)
    requires Inv(s) && (s.sup.Preparing? || s.sup.Prepared? || s.sup.Responded?)
    ensures Closing(s, a) && Rank(Do(s, a)) < Rank(s)
  {
    match s.sup
    case Preparing =>
      a := if s.worker.Seizing? then Seize(false) else if s.worker.Parked? then PrepareOk else PrepareErr;
    case Prepared => a := Send(false);
    case Responded(ok) => a := if ok then SendProceed else SendAbort;
    case _ =>
  }

  lemma WatchCloses(s: State) returns (a: Action)
    requires Inv(s) && s.worker.Watching? && (s.sup.Finishing? || s.sup.Aborting? || s.sup.Dropped?)
    ensures Closing(s, a) && Rank(Do(s, a)) < Rank(s)
  {
    match s.caller
    case InFork => a := ForkFails;
    case Returned => a := if s.wake then DeliverWake else if s.sup.Finishing? then Watchdog else CallerKilled;
    case Gone => a := SeeGone;
    case _ => a := SeeStop;
  }

  lemma WorkerCloses(s: State) returns (a: Action)
    requires Inv(s) && !s.worker.Watching? && (s.sup.Finishing? || s.sup.Aborting? || s.sup.Dropped?)
    ensures Closing(s, a) && Rank(Do(s, a)) < Rank(s)
  {
    match s.worker
    case Parked => a := Recv;
    case EventSeen => a := ReadMessage;
    case Detaching(_) => a := DetachCaller;
    case Finished(_) => a := JoinCloses(s);
    case _ => a := ChildCloses(s);
  }

  lemma ChildCloses(s: State) returns (a: Action)
    requires s.worker.HasChild? || s.worker.Registered? || s.worker.Rejected?
    ensures Closing(s, a) && Rank(Do(s, a)) < Rank(s)
  {
    a := if s.worker.HasChild? then Register(true) else if s.worker.Registered? then ReleaseChild else KillChild;
  }

  lemma JoinCloses(s: State) returns (a: Action)
    requires s.worker.Finished? && (s.sup.Finishing? || s.sup.Aborting? || s.sup.Dropped?)
    ensures Closing(s, a) && Rank(Do(s, a)) < Rank(s)
  {
    a := if s.sup.Finishing? then Join else if s.sup.Aborting? then JoinAborted else DropDone;
  }

  /** `steps` from `s` are all steps towards the close. */
  predicate AllClosing(s: State, steps: seq<Action>)
    decreases |steps|
  {
    steps == [] || (Closing(s, steps[0]) && AllClosing(Do(s, steps[0]), steps[1..]))
  }

  /** Whatever has happened, the session under way can be brought to its end. */
  lemma {:induction false} SessionCanClose(s: State) returns (steps: seq<Action>)
    requires Inv(s)
    ensures Runs(s, steps) && AllClosing(s, steps) && After(s, steps).sup.Idle?
    decreases Rank(s)
  {
    if s.sup.Idle? {
      return [];
    }
    var a;
    if s.sup.Preparing? || s.sup.Prepared? || s.sup.Responded? {
      a := HandlerCloses(s);
    } else if s.worker.Watching? {
      a := WatchCloses(s);
    } else {
      a := WorkerCloses(s);
    }
    StepKeepsInv(s, a);
    var rest := SessionCanClose(Do(s, a));
    steps := [a] + rest;
    assert steps[1..] == rest;
  }

  lemma EveryRunCanClose(run: seq<Action>) returns (steps: seq<Action>)
    requires Runs(INITIAL, run)
    ensures var s := After(INITIAL, run);
            Runs(s, steps) && AllClosing(s, steps) && After(s, steps).sup.Idle?
  {
    InitInv();
    RunKeepsInv(INITIAL, run);
    steps := SessionCanClose(After(INITIAL, run));
  }

  // ---- The ordinary session ----

  /** A session in which the fork makes `pid`, and one in which it makes nothing and the watchdog ends the wait. */
  function OrdinaryFork(counted: nat, pid: int): seq<Action> {
    [Begin(counted), Seize(true), PrepareOk, Send(true), SendProceed, Recv]
    + [ForkCreates(pid), SeeStop, ReadMessage, Register(true), ReleaseChild, DetachCaller, Join]
  }

  function FailedFork(counted: nat): seq<Action> {
    [Begin(counted), Seize(true), PrepareOk, Send(true), SendProceed, Recv]
    + [ForkFails, Watchdog, DeliverWake, SeeStop, DetachCaller, Join]
  }

  /** The state in which the worker watches the caller's fork. */
  function FromIdle(s: State, counted: nat): State {
    s.(sup := Finishing, worker := Watching, chan := [], sent := 1, signaled := true, continued := true,
       caller := InFork, attached := true, wake := false, child := None, baseCount := counted, procCount := counted + 1)
  }

  lemma BeginsWatching(s: State, counted: nat)
    requires s.sup.Idle?
    ensures Reaches(s, [Begin(counted), Seize(true), PrepareOk, Send(true), SendProceed, Recv], FromIdle(s, counted))
  {
    var s1 := Do(s, Begin(counted));
    var s2 := Do(s1, Seize(true));
    var s3 := Do(s2, PrepareOk);
    var s4 := Do(s3, Send(true));
    var s5 := Do(s4, SendProceed);
    ThreeSteps(s, Begin(counted), Seize(true), PrepareOk);
    ThreeSteps(s3, Send(true), SendProceed, Recv);
    assert Do(s5, Recv) == FromIdle(s, counted);
    ReachesTwice(s, [Begin(counted), Seize(true), PrepareOk], s3, [Send(true), SendProceed, Recv],
                 FromIdle(s, counted));
    assert [Begin(counted), Seize(true), PrepareOk] + [Send(true), SendProceed, Recv]
           == [Begin(counted), Seize(true), PrepareOk, Send(true), SendProceed, Recv];
  }

  lemma {:induction false} ReachesTwice(s: State, a: seq<Action>, t: State, b: seq<Action>, u: State)
    requires Reaches(s, a, t) && Reaches(t, b, u)
    ensures Reaches(s, a + b, u)
    decreases |a|
  {
    if a == [] {
      assert a + b == b;
    } else {
      assert (a + b)[0] == a[0] && (a + b)[1..] == a[1..] + b;
      ReachesTwice(Do(s, a[0]), a[1..], t, b, u);
    }
  }

  lemma ForkIsRead(w: State, pid: int)
    requires w.worker.Watching? && w.attached && w.caller.InFork? && pid !in w.born
    ensures Reaches(w, [ForkCreates(pid), SeeStop, ReadMessage],
                    w.(worker := HasChild(pid), caller := ForkStop(pid), child := Some(pid), born := w.born + {pid},
                       held := w.held + {pid}))
  {
    ThreeSteps(w, ForkCreates(pid), SeeStop, ReadMessage);
  }

  lemma ChildIsReleased(s: State, pid: int)
    requires s.worker == HasChild(pid) && s.caller == ForkStop(pid)
    ensures Reaches(s, [Register(true), ReleaseChild, DetachCaller],
                    s.(worker := Finished(Created), caller := Returned, attached := false,
                       registered := s.registered + {pid}, held := s.held - {pid}, ran := s.ran + {pid}))
  {
    ThreeSteps(s, Register(true), ReleaseChild, DetachCaller);
  }

  lemma WatchGivesUp(w: State)
    requires w.sup.Finishing? && w.worker.Watching? && w.attached && w.caller.InFork? && !w.wake
    ensures Reaches(w, [ForkFails, Watchdog, DeliverWake], w.(caller := WakeStop))
  {
    ThreeSteps(w, ForkFails, Watchdog, DeliverWake);
  }

  lemma WakeEnds(s: State)
    requires s.sup.Finishing? && s.worker.Watching? && s.caller.WakeStop?
    ensures Reaches(s, [SeeStop, DetachCaller, Join],
                    s.(sup := Idle, worker := NoWorker, caller := Returned, attached := false,
                       procCount := Rollback(s.procCount)))
  {
    ThreeSteps(s, SeeStop, DetachCaller, Join);
  }

  /** From every state between sessions an ordinary fork ends with its child registered and running, and counted. */
  lemma OrdinaryForkTracks(s: State, counted: nat, pid: int)
    requires s.sup.Idle? && pid !in s.born && pid !in s.held
    ensures Runs(s, OrdinaryFork(counted, pid))
    ensures var t := After(s, OrdinaryFork(counted, pid));
            && t.sup.Idle? && t.procCount == counted + 1 && t.caller.Returned? && !t.attached
            && t.born == s.born + {pid} && t.registered == s.registered + {pid} && t.ran == s.ran + {pid}
            && t.held == s.held && t.dead == s.dead && t.unread == s.unread
  {
    BeginsWatching(s, counted);
    var w := FromIdle(s, counted);
    var t := ForkToItsEnd(w, pid);
    assert t.held == s.held;
    var head := [Begin(counted), Seize(true), PrepareOk, Send(true), SendProceed, Recv];
    var tail := [ForkCreates(pid), SeeStop, ReadMessage, Register(true), ReleaseChild, DetachCaller, Join];
    ReachesTwice(s, head, w, tail, t);
  }

  lemma ForkToItsEnd(w: State, pid: int) returns (t: State)
    requires w.sup.Finishing? && w.worker.Watching? && w.attached && w.caller.InFork? && pid !in w.born
    ensures Reaches(w, [ForkCreates(pid), SeeStop, ReadMessage, Register(true), ReleaseChild, DetachCaller, Join], t)
    ensures t == w.(sup := Idle, worker := NoWorker, caller := Returned, attached := false, child := Some(pid),
                    born := w.born + {pid}, registered := w.registered + {pid}, held := w.held + {pid} - {pid},
                    ran := w.ran + {pid})
  {
    var u := w.(worker := HasChild(pid), caller := ForkStop(pid), child := Some(pid), born := w.born + {pid},
                held := w.held + {pid});
    var v := u.(worker := Finished(Created), caller := Returned, attached := false,
                registered := u.registered + {pid}, held := u.held - {pid}, ran := u.ran + {pid});
    t := v.(sup := Idle, worker := NoWorker);
    ForkIsRead(w, pid);
    ChildIsReleased(u, pid);
    var a, b := [ForkCreates(pid), SeeStop, ReadMessage], [Register(true), ReleaseChild, DetachCaller];
    ReachesTwice(w, a, u, b, v);
    assert Do(v, Join) == t;
    ReachesThen(w, a + b, v, Join);
    assert a + b + [Join]
           == [ForkCreates(pid), SeeStop, ReadMessage, Register(true), ReleaseChild, DetachCaller, Join];
  }

  /** A fork that makes no child is found out by the watchdog, and its count is taken back. */
  lemma FailedForkSettles(s: State, counted: nat)
    requires s.sup.Idle?
    ensures Runs(s, FailedFork(counted))
    ensures var t := After(s, FailedFork(counted));
            && t.sup.Idle? && t.procCount == counted && t.caller.Returned? && !t.attached
            && t.born == s.born && t.registered == s.registered && t.ran == s.ran && t.held == s.held
            && t.dead == s.dead && t.unread == s.unread
  {
    BeginsWatching(s, counted);
    var w := FromIdle(s, counted);
    var u := w.(caller := WakeStop);
    var t := u.(sup := Idle, worker := NoWorker, caller := Returned, attached := false, procCount := counted);
    WatchGivesUp(w);
    WakeEnds(u);
    var a, b := [ForkFails, Watchdog, DeliverWake], [SeeStop, DetachCaller, Join];
    ReachesTwice(w, a, u, b, t);
    var head := [Begin(counted), Seize(true), PrepareOk, Send(true), SendProceed, Recv];
    ReachesTwice(s, head, w, a + b, t);
    assert head + (a + b) == FailedFork(counted);
  }

  /** A caller that cannot be seized is refused: nothing is created and the count is taken back. */
  lemma UnseizableRefused(s: State, counted: nat)
    requires s.sup.Idle?
    ensures Reaches(s, [Begin(counted), Seize(false), PrepareErr],
                    FromIdle(s, counted).(sup := Idle, worker := NoWorker, sent := 0, signaled := false,
                                          continued := false, caller := Returned, attached := false,
                                          procCount := counted))
  {
    ThreeSteps(s, Begin(counted), Seize(false), PrepareErr);
  }

  /** A session prepared and not yet answered. */
  function PreparedFrom(s: State, counted: nat): State {
    FromIdle(s, counted).(sup := Prepared, worker := Parked, sent := 0, signaled := false, continued := false,
                          caller := AwaitingReply)
  }

  lemma Prepares(s: State, counted: nat)
    requires s.sup.Idle?
    ensures Reaches(s, [Begin(counted), Seize(true), PrepareOk], PreparedFrom(s, counted))
  {
    ThreeSteps(s, Begin(counted), Seize(true), PrepareOk);
  }

  /** What an interrupted session leaves of a prepared one. */
  function AbortedFrom(p: State): State {
    p.(sup := Idle, worker := NoWorker, sent := 1, signaled := true, chan := [], caller := Returned, attached := false,
       procCount := Rollback(p.procCount))
  }

  lemma AbortIsSent(p: State)
    requires p.sup.Prepared? && p.caller.AwaitingReply? && p.chan == [] && p.sent == 0
    ensures Reaches(p, [Interrupted, Send(false), SendAbort],
                    p.(sup := Aborting, sent := 1, signaled := true, chan := [Abort], caller := Returned,
                       procCount := Rollback(p.procCount)))
  {
    ThreeSteps(p, Interrupted, Send(false), SendAbort);
  }

  lemma AbortIsObeyed(a: State)
    requires a.sup.Aborting? && a.worker.Parked? && a.caller.Returned? && a.chan == [Abort]
    ensures Reaches(a, [Recv, DetachCaller, JoinAborted],
                    a.(sup := Idle, worker := NoWorker, chan := [], attached := false))
  {
    ThreeSteps(a, Recv, DetachCaller, JoinAborted);
  }

  lemma AbortsPrepared(p: State)
    requires p.sup.Prepared? && p.worker.Parked? && p.caller.AwaitingReply? && p.chan == [] && p.sent == 0
    ensures Reaches(p, [Interrupted, Send(false), SendAbort] + [Recv, DetachCaller, JoinAborted], AbortedFrom(p))
  {
    var a := p.(sup := Aborting, sent := 1, signaled := true, chan := [Abort], caller := Returned,
                procCount := Rollback(p.procCount));
    AbortIsSent(p);
    AbortIsObeyed(a);
    ReachesTwice(p, [Interrupted, Send(false), SendAbort], a, [Recv, DetachCaller, JoinAborted], AbortedFrom(p));
  }

  /** A call interrupted before its answer is aborted: the caller is let go, nothing is created, the count is taken
      back. */
  lemma InterruptedSettles(s: State, counted: nat)
    requires s.sup.Idle?
    ensures Reaches(s, [Begin(counted), Seize(true), PrepareOk] + ([Interrupted, Send(false), SendAbort]
                                                                   + [Recv, DetachCaller, JoinAborted]),
                    AbortedFrom(PreparedFrom(s, counted)))
    ensures AbortedFrom(PreparedFrom(s, counted)).procCount == counted
  {
    var p := PreparedFrom(s, counted);
    Prepares(s, counted);
    AbortsPrepared(p);
    ReachesTwice(s, [Begin(counted), Seize(true), PrepareOk], p,
                 [Interrupted, Send(false), SendAbort] + [Recv, DetachCaller, JoinAborted], AbortedFrom(p));
  }

  /** A trace dropped before its answer lets the caller go and creates nothing. */
  lemma DroppedSettles(s: State, counted: nat)
    requires s.sup.Idle?
    ensures Reaches(s, [Begin(counted), Seize(true), PrepareOk] + ([DropHandle, Recv, DetachCaller] + [DropDone]),
                    PreparedFrom(s, counted).(sup := Idle, worker := NoWorker, sent := 1, attached := false))
  {
    var p := PreparedFrom(s, counted);
    var d := p.(sup := Dropped, worker := Finished(NoChild), sent := 1, attached := false);
    Prepares(s, counted);
    ThreeSteps(p, DropHandle, Recv, DetachCaller);
    ReachesThen(p, [DropHandle, Recv, DetachCaller], d, DropDone);
    ReachesTwice(s, [Begin(counted), Seize(true), PrepareOk], p, [DropHandle, Recv, DetachCaller] + [DropDone],
                 Do(d, DropDone));
  }

  /** A signal seen during the fork is passed on, and the fork goes on as before. */
  lemma SignalPassesOn(w: State)
    requires w.worker.Watching? && w.attached && (w.caller.InFork? || w.caller.Returned?)
    ensures Can(w, DeliverSignal) && Can(Do(w, DeliverSignal), SeeStop)
    ensures Do(Do(w, DeliverSignal), SeeStop) == w
  {
  }

  /** A caller killed before its fork is seen ends the session without a child. */
  lemma KilledBeforeFork(w: State)
    requires w.worker.Watching? && w.attached && w.caller.InFork?
    ensures Reaches(w, [CallerKilled, SeeGone, DetachCaller],
                    w.(worker := Finished(NoChild), caller := Gone, attached := false))
  {
    ThreeSteps(w, CallerKilled, SeeGone, DetachCaller);
  }

  /** One killed after its stop was seen and before its message is read is a failure, and its child stays unread. */
  lemma KilledAtItsStop(w: State, pid: int)
    requires w.worker.EventSeen? && w.attached && w.caller == ForkStop(pid)
    ensures Reaches(w, [CallerKilled, ReadMessage, DetachCaller],
                    w.(worker := Finished(Failed), caller := Gone, attached := false, unread := w.unread + {pid}))
  {
    ThreeSteps(w, CallerKilled, ReadMessage, DetachCaller);
  }
}
