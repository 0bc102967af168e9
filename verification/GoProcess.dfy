/**
 The Go binding's `Process` handle under any number of goroutines. Each goroutine runs one
 call at a time; its position is a program counter, and an action moves one goroutine by one
 step, so a run is an arbitrary interleaving. Native calls take time: a goroutine stays inside
 one between two actions. The runtime starts the finalizer only when no call is in progress,
 and no call begins afterwards.
 */
module GoProcess {

  import opened Prelude

  datatype Op = Wait | Signal(kill: bool) | Ports | Close

  datatype Pc =
    | Idle
    | WaitLock      // Wait, asking for the mutex
    | WaitCheck     // mutex held, before the nil and waiting tests
    | WaitOwn       // mutex released, the handle reserved by the waiting flag
    | WaitNative    // inside sandlock_handle_wait
    | WaitRelock    // the native wait has returned
    | WaitBack      // mutex held again
    | WaitFree      // waiting cleared, inside sandlock_handle_free
    | WaitFreed     // freed, the field not yet nil
    | SignalLock(kill: bool)
    | SignalCheck(kill: bool)
    | KillLock      // Kill asking again whether the handle is gone
    | KillCheck
    | PortsLock
    | PortsCheck
    | PortsNative   // inside sandlock_handle_port_mappings
    | CloseLock
    | CloseCheck
    | CloseFree
    | CloseFreed
    | FinalLock
    | FinalCheck
    | FinalFree
    | FinalFreed

  /**
   The Process fields (`live` is `p.h != nil`) and the mutex, then what a run has done so far:
   which Wait owns the handle, how often it was freed, which pids had their group signalled,
   which goroutine is the finalizer, and whether a Close has returned.
   */
  datatype Shared = Shared(holder: Option<nat>, live: bool, pid: int, waiting: bool, finalizer: bool,
                           owner: Option<nat>, freed: nat, signalled: seq<int>, reaper: Option<nat>, closed: bool)

  datatype State = State(g: Shared, pcs: map<nat, Pc>)

  datatype Action = Begin(t: nat, op: Op) | Finalize(t: nat) | Advance(t: nat)

  function PcOf(s: State, t: nat): Pc { if t in s.pcs then s.pcs[t] else Idle }

  predicate WantsLock(pc: Pc) {
    pc.WaitLock? || pc.WaitRelock? || pc.SignalLock? || pc.KillLock? || pc.PortsLock? || pc.CloseLock? || pc.FinalLock?
  }

  /** The goroutine is between Lock and Unlock. */
  predicate Locked(pc: Pc) {
    || pc.WaitCheck? || pc.WaitBack? || pc.WaitFree? || pc.WaitFreed? || pc.SignalCheck? || pc.KillCheck?
    || pc.PortsCheck? || pc.PortsNative? || pc.CloseCheck? || pc.CloseFree? || pc.CloseFreed?
    || pc.FinalCheck? || pc.FinalFree? || pc.FinalFreed?
  }

  /** The goroutine is inside a native call on the handle. */
  predicate InNative(pc: Pc) {
    pc.WaitNative? || pc.WaitFree? || pc.PortsNative? || pc.CloseFree? || pc.FinalFree?
  }

  /** A Wait that has reserved the handle. */
  predicate Owns(pc: Pc) { pc.WaitOwn? || pc.WaitNative? || pc.WaitRelock? || pc.WaitBack? }

  /** The native handle has been freed but the field still points to it. */
  predicate Dangling(pc: Pc) { pc.WaitFreed? || pc.CloseFreed? || pc.FinalFreed? }

  predicate Final(pc: Pc) { pc.FinalLock? || pc.FinalCheck? || pc.FinalFree? || pc.FinalFreed? }

  ghost predicate AllIdle(s: State) { forall t: nat :: PcOf(s, t) == Idle }

  // ---- Steps ----

  /** A fresh Process, as Spawn and Popen return it. */
  ghost predicate Init(s: State) {
    && s.pcs == map[] && s.g.holder.None? && s.g.live && !s.g.waiting && s.g.finalizer
    && s.g.owner.None? && s.g.freed == 0 && s.g.signalled == [] && s.g.reaper.None? && !s.g.closed
  }

  predicate Enabled(g: Shared, pc: Pc) { pc != Idle && (WantsLock(pc) ==> g.holder.None?) }

  ghost predicate Can(s: State, a: Action) {
    match a
    case Begin(t, _) => PcOf(s, t) == Idle && s.g.reaper.None?
    case Finalize(t) => AllIdle(s) && s.g.reaper.None? && s.g.finalizer
    case Advance(t) => Enabled(s.g, PcOf(s, t))
  }

  function Unlock(g: Shared): Shared { g.(holder := None) }

  /** A group signal, sent with `-pid` by every caller that sends one. */
  function Kills(g: Shared): Shared { g.(signalled := g.signalled + [g.pid]) }

  function Start(op: Op): Pc {
    match op
    case Wait => WaitLock
    case Signal(kill) => SignalLock(kill)
    case Ports => PortsLock
    case Close => CloseLock
  }

  /** One step of goroutine `t` at `pc`: the shared state and its next position. */
  function Step(g: Shared, t: nat, pc: Pc): (Shared, Pc) {
    match pc
    case Idle => (g, Idle)
    case WaitLock => (g.(holder := Some(t)), WaitCheck)
    case WaitCheck =>
      if !g.live || g.waiting then (Unlock(g), Idle) else (Unlock(g).(waiting := true, owner := Some(t)), WaitOwn)
    case WaitOwn => (g, WaitNative)
    case WaitNative => (g, WaitRelock)
    case WaitRelock => (g.(holder := Some(t)), WaitBack)
    case WaitBack => (g.(waiting := false, owner := None), WaitFree)
    case WaitFree => (g.(freed := g.freed + 1), WaitFreed)
    case WaitFreed => (Unlock(g).(live := false, finalizer := false), Idle)
    case SignalLock(kill) => (g.(holder := Some(t)), SignalCheck(kill))
    case SignalCheck(kill) =>
      if !g.live || g.pid <= 0 then (Unlock(g), if kill then KillLock else Idle) else (Unlock(Kills(g)), Idle)
    case KillLock => (g.(holder := Some(t)), KillCheck)
    case KillCheck => (Unlock(g), Idle)
    case PortsLock => (g.(holder := Some(t)), PortsCheck)
    case PortsCheck => if !g.live || g.waiting then (Unlock(g), Idle) else (g, PortsNative)
    case PortsNative => (Unlock(g), Idle)
    case CloseLock => (g.(holder := Some(t)), CloseCheck)
    case CloseCheck =>
      if !g.live then (Unlock(g).(closed := true), Idle)
      else if g.waiting then (Unlock(if g.pid > 0 then Kills(g) else g).(closed := true), Idle)
      else (g, CloseFree)
    case CloseFree => (g.(freed := g.freed + 1), CloseFreed)
    case CloseFreed => (Unlock(g).(live := false, finalizer := false, closed := true), Idle)
    case FinalLock => (g.(holder := Some(t)), FinalCheck)
    case FinalCheck => if !g.live then (Unlock(g), Idle) else (if g.pid > 0 then Kills(g) else g, FinalFree)
    case FinalFree => (g.(freed := g.freed + 1), FinalFreed)
    case FinalFreed => (Unlock(g).(live := false), Idle)
  }

  function Do(s: State, a: Action): State {
    match a
    case Begin(t, op) => State(s.g, s.pcs[t := Start(op)])
    case Finalize(t) => State(s.g.(reaper := Some(t)), s.pcs[t := FinalLock])
    case Advance(t) => var next := Step(s.g, t, PcOf(s, t)); State(next.0, s.pcs[t := next.1])
  }

  // ---- The invariant ----

  /** Shared facts. */
  ghost predicate SharedInv(g: Shared) {
    && (g.waiting <==> g.owner.Some?)
    && (g.live ==> g.finalizer)
    && g.freed <= 1
    && (!g.live ==> g.freed == 1 && g.owner.None?)
    && (g.live && g.freed == 1 ==> g.holder.Some?)
    && (g.owner.Some? ==> g.freed == 0 && g.reaper.None?)
    && (g.closed && g.live && g.owner.None? ==> g.holder.Some?)
  }

  /** Every signalled group belongs to a real child. */
  ghost predicate SignalInv(g: Shared) { forall i :: 0 <= i < |g.signalled| ==> g.signalled[i] > 0 }

  /** The mutex and the waiting flag are where the position says. */
  ghost predicate HoldInv(g: Shared, t: nat, pc: Pc) {
    (Locked(pc) <==> g.holder == Some(t)) && (Owns(pc) <==> g.owner == Some(t))
  }

  /** What the position says about the handle. */
  ghost predicate HandleInv(g: Shared, t: nat, pc: Pc) {
    && (Dangling(pc) ==> g.live && g.freed == 1 && g.owner.None?)
    && (g.holder == Some(t) && g.live && g.freed == 1 ==> Dangling(pc))
    && (InNative(pc) && !pc.WaitNative? ==> g.live && g.freed == 0 && g.owner.None?)
    && (g.closed && g.live && g.owner.None? && g.holder == Some(t) ==> pc.WaitFree? || pc.WaitFreed?)
  }

  /** Once the finalizer has started only it runs, until the handle is gone. */
  ghost predicate ReaperInv(g: Shared, t: nat, pc: Pc) {
    && (Final(pc) ==> g.reaper == Some(t))
    && (g.reaper.Some? ==> if g.reaper == Some(t) then pc == Idle || Final(pc) else pc == Idle)
    && (g.reaper == Some(t) && g.live ==> Final(pc))
  }

  /** What a goroutine at `pc` knows. */
  ghost predicate LocalInv(g: Shared, t: nat, pc: Pc) {
    HoldInv(g, t, pc) && HandleInv(g, t, pc) && ReaperInv(g, t, pc)
  }

  ghost predicate Inv(s: State) {
    SharedInv(s.g) && SignalInv(s.g) && forall t: nat :: LocalInv(s.g, t, PcOf(s, t))
  }

  /** A step keeps the shared facts. */
  lemma StepKeepsShared(g: Shared, t: nat, pc: Pc)
    requires SharedInv(g) && LocalInv(g, t, pc) && Enabled(g, pc)
    ensures SharedInv(Step(g, t, pc).0)
  {
  }

  lemma StepSignals(g: Shared, t: nat, pc: Pc)
    requires SignalInv(g)
    ensures SignalInv(Step(g, t, pc).0)
  {
  }

  /** A step leaves the mover knowing what its new position claims. */
  lemma StepKeepsLocal(g: Shared, t: nat, pc: Pc)
    requires SharedInv(g) && LocalInv(g, t, pc) && Enabled(g, pc)
    ensures LocalInv(Step(g, t, pc).0, t, Step(g, t, pc).1)
  {
    StepHolds(g, t, pc);
    StepHandles(g, t, pc);
    StepReaps(g, t, pc);
  }

  lemma StepHolds(g: Shared, t: nat, pc: Pc)
    requires LocalInv(g, t, pc) && Enabled(g, pc)
    ensures HoldInv(Step(g, t, pc).0, t, Step(g, t, pc).1)
  {
    if Locked(pc) {
      LockedHolds(g, t, pc);
    } else {
      UnlockedHolds(g, t, pc);
    }
  }

  lemma LockedHolds(g: Shared, t: nat, pc: Pc)
    requires LocalInv(g, t, pc) && Locked(pc)
    ensures HoldInv(Step(g, t, pc).0, t, Step(g, t, pc).1)
  {
  }

  lemma UnlockedHolds(g: Shared, t: nat, pc: Pc)
    requires LocalInv(g, t, pc) && Enabled(g, pc) && !Locked(pc)
    ensures HoldInv(Step(g, t, pc).0, t, Step(g, t, pc).1)
  {
  }

  lemma StepHandles(g: Shared, t: nat, pc: Pc)
    requires SharedInv(g) && LocalInv(g, t, pc) && Enabled(g, pc)
    ensures HandleInv(Step(g, t, pc).0, t, Step(g, t, pc).1)
  {
    if Locked(pc) {
      LockedHandles(g, t, pc);
    } else {
      UnlockedHandles(g, t, pc);
    }
  }

  lemma LockedHandles(g: Shared, t: nat, pc: Pc)
    requires SharedInv(g) && LocalInv(g, t, pc) && Locked(pc)
    ensures HandleInv(Step(g, t, pc).0, t, Step(g, t, pc).1)
  {
  }

  lemma UnlockedHandles(g: Shared, t: nat, pc: Pc)
    requires SharedInv(g) && LocalInv(g, t, pc) && Enabled(g, pc) && !Locked(pc)
    ensures HandleInv(Step(g, t, pc).0, t, Step(g, t, pc).1)
  {
  }

  lemma StepReaps(g: Shared, t: nat, pc: Pc)
    requires SharedInv(g) && LocalInv(g, t, pc) && Enabled(g, pc)
    ensures ReaperInv(Step(g, t, pc).0, t, Step(g, t, pc).1)
  {
  }

  /** A step of one goroutine invalidates nothing another knows. */
  lemma StepSpares(g: Shared, t: nat, pc: Pc, u: nat, other: Pc)
    requires SharedInv(g) && LocalInv(g, t, pc) && LocalInv(g, u, other) && Enabled(g, pc) && t != u
    ensures LocalInv(Step(g, t, pc).0, u, other)
  {
  }

  lemma InitInv(s: State)
    requires Init(s)
    ensures Inv(s)
  {
  }

  lemma StepKeepsInv(s: State, a: Action)
    requires Inv(s) && Can(s, a)
    ensures Inv(Do(s, a))
  {
    var s' := Do(s, a);
    var t, pc := a.t, PcOf(s, a.t);
    match a
    case Advance(_) =>
      StepKeepsShared(s.g, t, pc);
      StepSignals(s.g, t, pc);
      StepKeepsLocal(s.g, t, pc);
      forall u: nat ensures LocalInv(s'.g, u, PcOf(s', u)) {
        if u != t {
          StepSpares(s.g, t, pc, u, PcOf(s, u));
        }
      }
    case Begin(_, _) =>
      forall u: nat ensures LocalInv(s'.g, u, PcOf(s', u)) {
        assert LocalInv(s.g, u, PcOf(s, u));
      }
    case Finalize(_) =>
      Quiet(s);
      forall u: nat ensures LocalInv(s'.g, u, PcOf(s', u)) {
        assert LocalInv(s.g, u, PcOf(s, u));
      }
  }

  // ---- Runs ----

  /** `run` is a possible interleaving from `s`. */
  ghost predicate Possible(s: State, run: seq<Action>)
    decreases |run|
  {
    run == [] || (Can(s, run[0]) && Possible(Do(s, run[0]), run[1..]))
  }

  function After(s: State, run: seq<Action>): State
    decreases |run|
  {
    if run == [] then s else After(Do(s, run[0]), run[1..])
  }

  lemma {:induction false} RunKeepsInv(s: State, run: seq<Action>)
    requires Inv(s) && Possible(s, run)
    ensures Inv(After(s, run))
    decreases |run|
  {
    if run != [] {
      StepKeepsInv(s, run[0]);
      RunKeepsInv(Do(s, run[0]), run[1..]);
    }
  }

  /** Two goroutines that know what they know are not both in a native call. */
  lemma NativeAlone(g: Shared, t: nat, pc: Pc, u: nat, other: Pc)
    requires SharedInv(g) && LocalInv(g, t, pc) && LocalInv(g, u, other) && InNative(pc)
    ensures g.freed == 0 && g.live && (InNative(other) ==> t == u)
  {
  }

  /**
   After any interleaving from a fresh Process: the handle has been freed at most once, no
   goroutine is in a native call on a freed handle, no two goroutines are in native calls at
   once, and no group signal was sent with a non-positive pid.
   */
  lemma HandleSafe(s: State, run: seq<Action>, t: nat, u: nat)
    requires Init(s) && Possible(s, run)
    ensures var e := After(s, run);
            && e.g.freed <= 1
            && (InNative(PcOf(e, t)) ==> e.g.freed == 0)
            && (InNative(PcOf(e, t)) && InNative(PcOf(e, u)) ==> t == u)
            && forall i :: 0 <= i < |e.g.signalled| ==> e.g.signalled[i] > 0
  {
    InitInv(s);
    RunKeepsInv(s, run);
    var e := After(s, run);
    if InNative(PcOf(e, t)) {
      NativeAlone(e.g, t, PcOf(e, t), u, PcOf(e, u));
    }
  }

  /** No leak: when all calls have returned, a completed Close or a finished finalizer means the handle was freed
      exactly once. */
  lemma NoLeak(s: State, run: seq<Action>)
    requires Init(s) && Possible(s, run) && AllIdle(After(s, run))
    ensures var e := After(s, run); e.g.closed || e.g.reaper.Some? ==> e.g.freed == 1 && !e.g.live
  {
    InitInv(s);
    RunKeepsInv(s, run);
    var e := After(s, run);
    Quiet(e);
    if e.g.reaper.Some? {
      assert LocalInv(e.g, e.g.reaper.value, PcOf(e, e.g.reaper.value));
    }
  }

  /** With every goroutine idle nobody holds the mutex or owns the handle. */
  lemma Quiet(s: State)
    requires Inv(s) && AllIdle(s)
    ensures s.g.holder.None? && s.g.owner.None?
  {
    assert s.g.holder.Some? ==> LocalInv(s.g, s.g.holder.value, PcOf(s, s.g.holder.value));
    assert s.g.owner.Some? ==> LocalInv(s.g, s.g.owner.value, PcOf(s, s.g.owner.value));
  }

  /** No deadlock: while some call is in progress, some goroutine can move. */
  lemma NoDeadlock(s: State, run: seq<Action>, t: nat)
    requires Init(s) && Possible(s, run) && PcOf(After(s, run), t) != Idle
    ensures exists u: nat :: Can(After(s, run), Advance(u))
  {
    InitInv(s);
    RunKeepsInv(s, run);
    var e := After(s, run);
    var u := if e.g.holder.Some? then e.g.holder.value else t;
    assert LocalInv(e.g, u, PcOf(e, u));
    assert Can(e, Advance(u));
  }

  // ---- What a call does ----

  /** `n` steps of one goroutine. */
  function StepN(g: Shared, t: nat, pc: Pc, n: nat): (Shared, Pc)
    decreases n
  {
    if n == 0 then (g, pc) else var (g', pc') := Step(g, t, pc); StepN(g', t, pc', n - 1)
  }

  predicate CanStepN(g: Shared, t: nat, pc: Pc, n: nat)
    decreases n
  {
    n == 0 || (Enabled(g, pc) && var (g', pc') := Step(g, t, pc); CanStepN(g', t, pc', n - 1))
  }

  function Advances(t: nat, n: nat): seq<Action> {
    if n == 0 then [] else [Advance(t)] + Advances(t, n - 1)
  }

  /** Those steps as a run of the whole system. */
  lemma {:induction false} AloneRuns(s: State, t: nat, n: nat)
    requires t in s.pcs && CanStepN(s.g, t, s.pcs[t], n)
    ensures Possible(s, Advances(t, n))
    ensures var (g, pc) := StepN(s.g, t, s.pcs[t], n); After(s, Advances(t, n)) == State(g, s.pcs[t := pc])
    decreases n
  {
    if n == 0 {
      assert s.pcs[t := s.pcs[t]] == s.pcs;
    } else {
      var s' := Do(s, Advance(t));
      AloneRuns(s', t, n - 1);
      assert Advances(t, n)[1..] == Advances(t, n - 1);
      var pc := StepN(s.g, t, s.pcs[t], n).1;
      assert s'.pcs[t := pc] == s.pcs[t := pc];
    }
  }

  function Signalled(g: Shared): Shared {
    if g.pid > 0 then g.(signalled := g.signalled + [g.pid]) else g
  }

  /** What each call is for, said without its steps. */
  function CallEffect(g: Shared, op: Op): Shared {
    match op
    case Signal(_) => if g.live then Signalled(g) else g
    case Wait => if g.live && !g.waiting then g.(live := false, finalizer := false, freed := g.freed + 1) else g
    case Ports => g
    case Close =>
      if !g.live then g.(closed := true)
      else if g.waiting then Signalled(g).(closed := true)
      else g.(live := false, finalizer := false, freed := g.freed + 1, closed := true)
  }

  /** The steps a call takes. */
  function CallLength(g: Shared, op: Op): nat {
    match op
    case Signal(kill) => if kill && (!g.live || g.pid <= 0) then 4 else 2
    case Wait => if g.live && !g.waiting then 8 else 2
    case Ports => if g.live && !g.waiting then 3 else 2
    case Close => if g.live && !g.waiting then 4 else 2
  }

  lemma SignalAlone(g: Shared, t: nat, kill: bool)
    requires g.holder.None?
    ensures var n := CallLength(g, Signal(kill));
            && CanStepN(g, t, SignalLock(kill), n)
            && StepN(g, t, SignalLock(kill), n) == (CallEffect(g, Signal(kill)), Idle)
  {
    var g1 := g.(holder := Some(t));
    assert Step(g, t, SignalLock(kill)) == (g1, SignalCheck(kill));
    var (g2, pc2) := Step(g1, t, SignalCheck(kill));
    if pc2.KillLock? {
      assert g2 == g && Step(g, t, KillLock) == (g1, KillCheck) && Step(g1, t, KillCheck) == (g, Idle);
      assert StepN(g, t, KillLock, 2) == (g, Idle) && CanStepN(g, t, KillLock, 2);
    }
    assert StepN(g1, t, SignalCheck(kill), CallLength(g, Signal(kill)) - 1) == (CallEffect(g, Signal(kill)), Idle);
  }

  lemma PortsAlone(g: Shared, t: nat)
    requires g.holder.None?
    ensures var n := CallLength(g, Ports);
            CanStepN(g, t, PortsLock, n) && StepN(g, t, PortsLock, n) == (CallEffect(g, Ports), Idle)
  {
    var g1 := g.(holder := Some(t));
    assert Step(g, t, PortsLock) == (g1, PortsCheck);
    if g.live && !g.waiting {
      assert Step(g1, t, PortsCheck) == (g1, PortsNative) && Step(g1, t, PortsNative) == (g, Idle);
      assert StepN(g1, t, PortsNative, 1) == (g, Idle) && StepN(g1, t, PortsCheck, 2) == (g, Idle);
    } else {
      assert StepN(g1, t, PortsCheck, 1) == (g, Idle);
    }
  }

  lemma CloseAlone(g: Shared, t: nat)
    requires g.holder.None?
    ensures var n := CallLength(g, Close);
            CanStepN(g, t, CloseLock, n) && StepN(g, t, CloseLock, n) == (CallEffect(g, Close), Idle)
  {
    var g1 := g.(holder := Some(t));
    assert Step(g, t, CloseLock) == (g1, CloseCheck);
    if g.live && !g.waiting {
      var g2 := g1.(freed := g.freed + 1);
      assert Step(g1, t, CloseCheck) == (g1, CloseFree) && Step(g1, t, CloseFree) == (g2, CloseFreed);
      assert StepN(g2, t, CloseFreed, 1) == (CallEffect(g, Close), Idle);
      assert StepN(g1, t, CloseFree, 2) == (CallEffect(g, Close), Idle) && CanStepN(g1, t, CloseFree, 2);
    } else {
      assert StepN(g1, t, CloseCheck, 1) == (CallEffect(g, Close), Idle);
    }
  }

  lemma WaitAlone(g: Shared, t: nat)
    requires g.holder.None? && (g.waiting <==> g.owner.Some?)
    ensures var n := CallLength(g, Wait);
            CanStepN(g, t, WaitLock, n) && StepN(g, t, WaitLock, n) == (CallEffect(g, Wait), Idle)
  {
    var g1 := g.(holder := Some(t));
    assert Step(g, t, WaitLock) == (g1, WaitCheck);
    if g.live && !g.waiting {
      var own := g.(waiting := true, owner := Some(t));
      assert Step(g1, t, WaitCheck) == (own, WaitOwn);
      assert Step(own, t, WaitOwn) == (own, WaitNative) && Step(own, t, WaitNative) == (own, WaitRelock);
      WaitReturns(g, t);
      assert StepN(own, t, WaitNative, 5) == (CallEffect(g, Wait), Idle) && CanStepN(own, t, WaitNative, 5);
      assert StepN(own, t, WaitOwn, 6) == (CallEffect(g, Wait), Idle) && CanStepN(own, t, WaitOwn, 6);
      assert StepN(g1, t, WaitCheck, 7) == (CallEffect(g, Wait), Idle) && CanStepN(g1, t, WaitCheck, 7);
    } else {
      assert StepN(g1, t, WaitCheck, 1) == (g, Idle);
    }
  }

  lemma WaitReturns(g: Shared, t: nat)
    requires g.holder.None? && g.live && !g.waiting && g.owner.None?
    ensures var own := g.(waiting := true, owner := Some(t));
            CanStepN(own, t, WaitRelock, 4) && StepN(own, t, WaitRelock, 4) == (CallEffect(g, Wait), Idle)
  {
    var own := g.(waiting := true, owner := Some(t));
    var a := own.(holder := Some(t));
    var b := g.(holder := Some(t));
    var c := b.(freed := g.freed + 1);
    assert Step(own, t, WaitRelock) == (a, WaitBack) && Step(a, t, WaitBack) == (b, WaitFree);
    assert Step(b, t, WaitFree) == (c, WaitFreed) && Step(c, t, WaitFreed) == (CallEffect(g, Wait), Idle);
    assert StepN(c, t, WaitFreed, 1) == (CallEffect(g, Wait), Idle) && CanStepN(c, t, WaitFreed, 1);
    assert StepN(b, t, WaitFree, 2) == (CallEffect(g, Wait), Idle) && CanStepN(b, t, WaitFree, 2);
    assert StepN(a, t, WaitBack, 3) == (CallEffect(g, Wait), Idle) && CanStepN(a, t, WaitBack, 3);
  }

  /**
   In every reachable state in which nobody holds the mutex, a call made to the end does what it is for: a signal
   reaches the group of a live process even while another goroutine waits, Wait and Close free the handle, Close
   behind a Wait signals instead.
   */
  lemma CallsDoTheirWork(s: State, run: seq<Action>, t: nat, op: Op)
    requires Init(s) && Possible(s, run)
    requires var e := After(s, run); PcOf(e, t) == Idle && e.g.holder.None? && e.g.reaper.None?
    ensures var e := After(s, run);
            var call := [Begin(t, op)] + Advances(t, CallLength(e.g, op));
            Possible(e, call) && After(e, call) == State(CallEffect(e.g, op), e.pcs[t := Idle])
  {
    InitInv(s);
    RunKeepsInv(s, run);
    var e := After(s, run);
    match op {
      case Signal(kill) => SignalAlone(e.g, t, kill);
      case Wait => WaitAlone(e.g, t);
      case Ports => PortsAlone(e.g, t);
      case Close => CloseAlone(e.g, t);
    }
    var b := Do(e, Begin(t, op));
    AloneRuns(b, t, CallLength(e.g, op));
    var call := [Begin(t, op)] + Advances(t, CallLength(e.g, op));
    assert call[1..] == Advances(t, CallLength(e.g, op));
    assert b.pcs[t := Idle] == e.pcs[t := Idle];
  }

  function FinalEffect(g: Shared): Shared {
    if g.live then Signalled(g).(live := false, freed := g.freed + 1) else g
  }

  /** The finalizer signals a live process and frees its handle, and does nothing to one that is gone. */
  lemma FinalizerDoesItsWork(s: State, run: seq<Action>, t: nat)
    requires Init(s) && Possible(s, run) && Can(After(s, run), Finalize(t))
    ensures var e := After(s, run);
            var g := e.g.(reaper := Some(t));
            var steps := [Finalize(t)] + Advances(t, if g.live then 4 else 2);
            Possible(e, steps) && After(e, steps) == State(FinalEffect(g), e.pcs[t := Idle])
  {
    InitInv(s);
    RunKeepsInv(s, run);
    var e := After(s, run);
    Quiet(e);
    var g := e.g.(reaper := Some(t));
    FinalAlone(g, t);
    var b := Do(e, Finalize(t));
    var n := if g.live then 4 else 2;
    AloneRuns(b, t, n);
    assert ([Finalize(t)] + Advances(t, n))[1..] == Advances(t, n);
    assert b.pcs[t := Idle] == e.pcs[t := Idle];
  }

  lemma FinalAlone(g: Shared, t: nat)
    requires g.holder.None?
    ensures var n := if g.live then 4 else 2;
            CanStepN(g, t, FinalLock, n) && StepN(g, t, FinalLock, n) == (FinalEffect(g), Idle)
  {
    var g1 := g.(holder := Some(t));
    assert Step(g, t, FinalLock) == (g1, FinalCheck);
    if g.live {
      var g2 := Signalled(g1);
      var g3 := g2.(freed := g.freed + 1);
      assert Step(g1, t, FinalCheck) == (g2, FinalFree) && Step(g2, t, FinalFree) == (g3, FinalFreed);
      assert Step(g3, t, FinalFreed) == (FinalEffect(g), Idle);
      assert StepN(g3, t, FinalFreed, 1) == (FinalEffect(g), Idle) && CanStepN(g3, t, FinalFreed, 1);
      assert StepN(g2, t, FinalFree, 2) == (FinalEffect(g), Idle) && CanStepN(g2, t, FinalFree, 2);
      assert StepN(g1, t, FinalCheck, 3) == (FinalEffect(g), Idle) && CanStepN(g1, t, FinalCheck, 3);
    } else {
      assert StepN(g1, t, FinalCheck, 1) == (g, Idle);
    }
  }
}
