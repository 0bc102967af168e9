/**
 Freezing the sandbox for execve: seize and stop every task that could rewrite argv,
 roll back on failure, and release everything again on every path.

 The kernel is a script: what `/proc` and ptrace answer for each task, and the finite
 sequence of polls that fit before a deadline. A task this tracer already traces refuses
 a second seize, and detaching takes effect.
 */
module ExecFreeze {

  import opened Prelude

  /** One `waitpid(WNOHANG)` answer. */
  datatype Wait = Exited | Stopped | NotYet | Interrupted | WaitError

  /** One turn of a polling loop: the wait answer and whether the task is in state D. */
  datatype Poll = Poll(wait: Wait, inD: bool)

  datatype Ptrace = Done | NoSuchTask | Refused

  /** The kernel's answers for one task; running out of polls is the deadline. */
  datatype Script = Script(inD: bool, seize: Ptrace, interrupt: Ptrace, polls: seq<Poll>)

  datatype Seized = Frozen | NotNeeded | PendingStop | Error

  // ---- Specification ----

  function ReapOutcome(polls: seq<Poll>): Seized {
    if polls == [] then Error
    else
      match polls[0].wait
      case Exited => NotNeeded
      case Stopped => Frozen
      case WaitError => NotNeeded
      case _ => if polls[0].inD then PendingStop else ReapOutcome(polls[1..])
  }

  function SeizeOutcome(attached: set<int>, tid: int, sc: Script): Seized {
    if sc.inD then NotNeeded
    else if tid in attached then Error
    else
      match sc.seize
      case NoSuchTask => NotNeeded
      case Refused => Error
      case Done =>
        match sc.interrupt
        case NoSuchTask => NotNeeded
        case Refused => Error
        case Done => ReapOutcome(sc.polls)
  }

  /** Does the outcome leave a new attachment? */
  predicate Holds(o: Seized) {
    o.Frozen? || o.PendingStop?
  }

  datatype Freeze = Freeze(siblings: seq<int>, peers: seq<int>, pending: seq<int>)
  datatype Result = Ok(freeze: Freeze) | Err(pending: seq<int>)

  /** One task the freeze walks over. */
  datatype Visit = Visit(tid: int, sibling: bool, script: Script)

  function Push(f: Freeze, v: Visit, o: Seized): Freeze {
    if o.PendingStop? then f.(pending := f.pending + [v.tid])
    else if !o.Frozen? then f
    else if v.sibling then f.(siblings := f.siblings + [v.tid])
    else f.(peers := f.peers + [v.tid])
  }

  function Elems(s: seq<int>): set<int> {
    set x | x in s
  }

  /** The walk: the result, and what is attached after it. */
  function Walk(attached: set<int>, visits: seq<Visit>, f: Freeze): (Result, set<int>)
    decreases |visits|
  {
    if visits == [] then (Ok(f), attached)
    else
      var v := visits[0];
      var o := SeizeOutcome(attached, v.tid, v.script);
      if o.Error? then (Err(f.pending), attached - Elems(f.siblings) - Elems(f.peers))
      else Walk(if Holds(o) then attached + {v.tid} else attached, visits[1..], Push(f, v, o))
  }

  /** The threads of one group, without the caller. */
  function GroupVisits(tids: seq<int>, callerTid: int, sibling: bool, script: int -> Script): seq<Visit> {
    if tids == [] then []
    else (if tids[0] == callerTid then [] else [Visit(tids[0], sibling, script(tids[0]))])
         + GroupVisits(tids[1..], callerTid, sibling, script)
  }

  /** What `/proc` lists, and how each task answers, for every id the walk may use. */
  datatype Proc = Proc(tasks: map<int, seq<int>>, script: int -> Script)

  function Visits(order: seq<int>, proc: Proc, callerTid: int, callerTgid: int): seq<Visit> {
    if order == [] then []
    else (if order[0] in proc.tasks
          then GroupVisits(proc.tasks[order[0]], callerTid, order[0] == callerTgid, proc.script)
          else [])
         + Visits(order[1..], proc, callerTid, callerTgid)
  }

  /** Pending tasks whose reap ran out of polls. */
  function Abandoned(pending: seq<int>, polls: int -> seq<Poll>): set<int> {
    set t | t in pending && !Released(polls(t))
  }

  predicate Released(polls: seq<Poll>) {
    polls != [] && (polls[0].wait.Exited? || polls[0].wait.Stopped? || polls[0].wait.WaitError? || Released(polls[1..]))
  }

  // ---- The code ----

  class Tracer {
    var attached: set<int>

    constructor ()
      ensures attached == {}
    {
      attached := {};
    }

    method Detach(tid: int)
      modifies this
      ensures attached == old(attached) - {tid}
    {
      attached := attached - {tid};
    }

    method SeizeAndInterrupt(tid: int, sc: Script) returns (o: Seized)
      modifies this
      ensures o == SeizeOutcome(old(attached), tid, sc)
      ensures attached == if Holds(o) then old(attached) + {tid} else old(attached)
    {
      if sc.inD {
        return NotNeeded;
      }
      if tid in attached || sc.seize.Refused? {
        return Error;
      }
      if sc.seize.NoSuchTask? {
        return NotNeeded;
      }
      attached := attached + {tid};
      if !sc.interrupt.Done? {
        Detach(tid);
        assert attached == old(attached);
        return if sc.interrupt.NoSuchTask? then NotNeeded else Error;
      }
      var i := 0;
      while i < |sc.polls|
        invariant 0 <= i <= |sc.polls|
        invariant ReapOutcome(sc.polls[i..]) == ReapOutcome(sc.polls)
        invariant attached == old(attached) + {tid}
      {
        assert sc.polls[i..][1..] == sc.polls[i + 1..];
        var p := sc.polls[i];
        if p.wait.Exited? || p.wait.WaitError? {
          attached := attached - {tid}; // the kernel drops the tracing of a task that is gone
          assert attached == old(attached);
          return NotNeeded;
        }
        if p.wait.Stopped? {
          return Frozen;
        }
        if p.inD {
          return PendingStop;
        }
        i := i + 1;
      }
      Detach(tid);
      assert attached == old(attached);
      return Error;
    }

    method FreezeSandbox(order: seq<int>, proc: Proc, callerTid: int, callerTgid: Option<int>) returns (r: Result)
      modifies this
      ensures callerTgid.None? ==> r == Err([]) && attached == old(attached)
      ensures callerTgid.Some? ==>
                (r, attached) == Walk(old(attached), Visits(order, proc, callerTid, callerTgid.value),
                                      Freeze([], [], []))
    {
      if callerTgid.None? {
        return Err([]);
      }
      var f := Freeze([], [], []);
      ghost var goal := Walk(attached, Visits(order, proc, callerTid, callerTgid.value), f);
      for i := 0 to |order|
        invariant Walk(attached, Visits(order[i..], proc, callerTid, callerTgid.value), f) == goal
      {
        ghost var rest := Visits(order[i + 1..], proc, callerTid, callerTgid.value);
        assert order[i..][0] == order[i] && order[i..][1..] == order[i + 1..];
        if order[i] in proc.tasks {
          WalkAppend(attached, GroupVisits(proc.tasks[order[i]], callerTid, order[i] == callerTgid.value, proc.script),
                     rest, f);
          r := FreezeGroup(proc.tasks[order[i]], callerTid, order[i] == callerTgid.value, proc.script, f);
          if r.Err? {
            return;
          }
          f := r.freeze;
        } else {
          assert Visits(order[i..], proc, callerTid, callerTgid.value) == rest;
        }
      }
      r := Ok(f);
    }

    /** The threads of one group; on a refusal, everything frozen so far is detached. */
    method FreezeGroup(tids: seq<int>, callerTid: int, isCaller: bool, script: int -> Script, f0: Freeze)
      returns (r: Result)
      modifies this
      ensures (r, attached) == Walk(old(attached), GroupVisits(tids, callerTid, isCaller, script), f0)
    {
      var siblings, peers, pending := f0.siblings, f0.peers, f0.pending;
      ghost var goal := Walk(attached, GroupVisits(tids, callerTid, isCaller, script), f0);
      for j := 0 to |tids|
        invariant Walk(attached, GroupVisits(tids[j..], callerTid, isCaller, script),
                       Freeze(siblings, peers, pending)) == goal
      {
        var tid := tids[j];
        ghost var here, more := GroupVisits(tids[j..], callerTid, isCaller, script),
                                GroupVisits(tids[j + 1..], callerTid, isCaller, script);
        assert tids[j..][0] == tid && tids[j..][1..] == tids[j + 1..];
        if tid == callerTid {
          assert here == more;
          continue;
        }
        assert here[0] == Visit(tid, isCaller, script(tid)) && here[1..] == more;
        var o := SeizeAndInterrupt(tid, script(tid));
        match o {
          case Frozen =>
            if isCaller {
              siblings := siblings + [tid];
            } else {
              peers := peers + [tid];
            }
          case PendingStop => pending := pending + [tid];
          case NotNeeded =>
          case Error =>
            DetachEach(siblings);
            DetachEach(peers);
            return Err(pending);
        }
      }
      return Ok(Freeze(siblings, peers, pending));
    }

    method DetachEach(tids: seq<int>)
      modifies this
      ensures attached == old(attached) - Elems(tids)
    {
      for i := 0 to |tids|
        invariant attached == old(attached) - Elems(tids[..i])
      {
        Detach(tids[i]);
        assert Elems(tids[..i + 1]) == Elems(tids[..i]) + {tids[i]};
      }
      assert tids[..|tids|] == tids;
    }

    method ReapPending(pending: seq<int>, polls: int -> seq<Poll>)
      modifies this
      ensures attached == old(attached) - (Elems(pending) - Abandoned(pending, polls))
    {
      for i := 0 to |pending|
        invariant attached == old(attached) - (Elems(pending[..i]) - Abandoned(pending[..i], polls))
      {
        var tid := pending[i];
        ghost var before := attached;
        var ps := polls(tid);
        var k, released := 0, false;
        while k < |ps|
          invariant 0 <= k <= |ps| && !released
          invariant Released(ps) == Released(ps[k..]) && attached == before
        {
          assert ps[k..][0] == ps[k] && ps[k..][1..] == ps[k + 1..];
          if ps[k].wait.Exited? || ps[k].wait.WaitError? {
            attached := attached - {tid};
            released := true;
            break;
          }
          if ps[k].wait.Stopped? {
            Detach(tid);
            released := true;
            break;
          }
          k := k + 1;
        }
        assert released == Released(ps);
        assert Elems(pending[..i + 1]) == Elems(pending[..i]) + {tid};
        assert Abandoned(pending[..i + 1], polls)
               == Abandoned(pending[..i], polls) + (if Released(ps) then {} else {tid});
      }
      assert pending[..|pending|] == pending;
    }

    /** The execve path of the notification handler: freeze, ask the policy, answer, and
        release. An allowed execve that was answered lets the kernel kill the siblings. */
    method HandleExecve(order: seq<int>, proc: Proc, callerTid: int, callerTgid: Option<int>,
                        policyAllows: bool, sendOk: bool, polls: int -> seq<Poll>)
      returns (continued: bool, pending: seq<int>)
      modifies this
      ensures attached == old(attached) + Abandoned(pending, polls)
      ensures Elems(pending) !! old(attached)
      ensures continued <==>
              policyAllows && sendOk && callerTgid.Some?
              && Walk(old(attached), Visits(order, proc, callerTid, callerTgid.value), Freeze([], [], [])).0.Ok?
    {
      ghost var start := attached;
      var r := FreezeSandbox(order, proc, callerTid, callerTgid);
      if callerTgid.Some? {
        WalkKeeps(start, start, Visits(order, proc, callerTid, callerTgid.value), Freeze([], [], []));
      }
      match r {
        case Ok(f) =>
          continued := policyAllows && sendOk;
          pending := f.pending;
          if continued {
            attached := attached - Elems(f.siblings); // de_thread
            DetachEach(f.peers);
          } else {
            DetachEach(f.siblings);
            DetachEach(f.peers);
          }
        case Err(p) =>
          continued := false;
          pending := p;
      }
      assert attached == start + Elems(pending);
      ReapPending(pending, polls);
      assert Abandoned(pending, polls) <= Elems(pending);
    }
  }

  // ---- What decides a seize ----

  /** A poll that ends the loop: the wait answered, or the task is in state D. */
  predicate Decisive(p: Poll) {
    p.wait.Exited? || p.wait.Stopped? || p.wait.WaitError? || p.inD
  }

  /** Poll `k` is the first decisive one. */
  predicate Decides(polls: seq<Poll>, k: int) {
    0 <= k < |polls| && Decisive(polls[k]) && forall i :: 0 <= i < k ==> !Decisive(polls[i])
  }

  predicate Undecided(polls: seq<Poll>) {
    forall i :: 0 <= i < |polls| ==> !Decisive(polls[i])
  }

  /** The kernel lets the task be seized and interrupted. */
  predicate Armed(sc: Script) {
    !sc.inD && sc.seize.Done? && sc.interrupt.Done?
  }

  /** It then reports its stop. */
  ghost predicate Stops(sc: Script) {
    Armed(sc) && exists k :: Decides(sc.polls, k) && sc.polls[k].wait.Stopped?
  }

  /** It is found in state D before it reports anything. */
  ghost predicate Parks(sc: Script) {
    Armed(sc) && exists k :: Decides(sc.polls, k) && (sc.polls[k].wait.NotYet? || sc.polls[k].wait.Interrupted?)
  }

  /** It is not there to be held: in state D from the start, or gone by the time it is looked for. */
  ghost predicate NotThere(sc: Script) {
    || sc.inD || sc.seize.NoSuchTask? || (sc.seize.Done? && sc.interrupt.NoSuchTask?)
    || (Armed(sc) && exists k :: Decides(sc.polls, k) && (sc.polls[k].wait.Exited? || sc.polls[k].wait.WaitError?))
  }

  /** It cannot be frozen: traced already, refused by the kernel, or out of time. */
  predicate Resists(attached: set<int>, v: Visit) {
    && !v.script.inD
    && (|| v.tid in attached || v.script.seize.Refused?
        || (v.script.seize.Done? && v.script.interrupt.Refused?)
        || (v.script.seize.Done? && v.script.interrupt.Done? && Undecided(v.script.polls)))
  }

  lemma {:induction false} ReapOutcomeIs(polls: seq<Poll>)
    ensures ReapOutcome(polls).Error? <==> Undecided(polls)
    ensures ReapOutcome(polls).Frozen? <==> exists k :: Decides(polls, k) && polls[k].wait.Stopped?
    ensures ReapOutcome(polls).PendingStop? <==>
            exists k :: Decides(polls, k) && (polls[k].wait.NotYet? || polls[k].wait.Interrupted?)
    ensures ReapOutcome(polls).NotNeeded? <==>
            exists k :: Decides(polls, k) && (polls[k].wait.Exited? || polls[k].wait.WaitError?)
  {
    if polls != [] {
      if Decisive(polls[0]) {
        assert Decides(polls, 0);
        assert forall k :: Decides(polls, k) ==> k == 0;
      } else {
        var rest := polls[1..];
        ReapOutcomeIs(rest);
        forall k ensures Decides(polls, k) <==> Decides(rest, k - 1) {
          DecidesLater(polls, k);
        }
        assert forall k :: Decides(rest, k) ==> Decides(polls, k + 1) && polls[k + 1] == rest[k];
        assert Undecided(rest) ==> Undecided(polls);
        if Undecided(polls) {
          forall i | 0 <= i < |rest| ensures !Decisive(rest[i]) {
            assert rest[i] == polls[i + 1];
          }
        }
      }
    }
  }

  lemma DecidesLater(polls: seq<Poll>, k: int)
    requires polls != [] && !Decisive(polls[0])
    ensures Decides(polls, k) <==> Decides(polls[1..], k - 1)
  {
    var rest := polls[1..];
    if Decides(polls, k) {
      assert rest[k - 1] == polls[k];
      forall i | 0 <= i < k - 1 ensures !Decisive(rest[i]) {
        assert rest[i] == polls[i + 1];
      }
    }
    if Decides(rest, k - 1) {
      assert rest[k - 1] == polls[k];
      forall i | 0 <= i < k ensures !Decisive(polls[i]) {
        if i > 0 {
          assert rest[i - 1] == polls[i];
        }
      }
    }
  }

  /** The four outcomes, each by the kernel's answers alone. */
  lemma SeizeOutcomeIs(attached: set<int>, v: Visit)
    ensures var o := SeizeOutcome(attached, v.tid, v.script);
            && (o.Error? <==> Resists(attached, v))
            && (o.Frozen? <==> v.tid !in attached && Stops(v.script))
            && (o.PendingStop? <==> v.tid !in attached && Parks(v.script))
            && (o.NotNeeded? <==> (v.script.inD || v.tid !in attached) && NotThere(v.script))
  {
    ReapOutcomeIs(v.script.polls);
  }

  /** What is attached when the walk comes to visit `i`. */
  ghost function AttachedAt(attached: set<int>, visits: seq<Visit>, i: nat): set<int>
    requires i <= |visits|
  {
    attached + set j | 0 <= j < i && (Stops(visits[j].script) || Parks(visits[j].script)) :: visits[j].tid
  }

  lemma AttachedAfterOne(attached: set<int>, visits: seq<Visit>, i: nat)
    requires i < |visits| && !Resists(attached, visits[0])
    ensures var o := SeizeOutcome(attached, visits[0].tid, visits[0].script);
            AttachedAt(if Holds(o) then attached + {visits[0].tid} else attached, visits[1..], i)
            == AttachedAt(attached, visits, i + 1)
  {
    var v, rest := visits[0], visits[1..];
    SeizeOutcomeIs(attached, v);
    var o := SeizeOutcome(attached, v.tid, v.script);
    var after := if Holds(o) then attached + {v.tid} else attached;
    assert Holds(o) <==> Stops(v.script) || Parks(v.script);
    forall t | t in AttachedAt(attached, visits, i + 1) ensures t in AttachedAt(after, rest, i) {
      if t !in attached {
        var j :| 0 <= j < i + 1 && (Stops(visits[j].script) || Parks(visits[j].script)) && visits[j].tid == t;
        if j > 0 {
          assert rest[j - 1] == visits[j];
        }
      }
    }
    forall t | t in AttachedAt(after, rest, i) ensures t in AttachedAt(attached, visits, i + 1) {
      if t !in after {
        var j :| 0 <= j < i && (Stops(rest[j].script) || Parks(rest[j].script)) && rest[j].tid == t;
        assert visits[j + 1] == rest[j];
      }
    }
  }

  /** The walk fails exactly when some task resists at its turn. */
  lemma {:induction false} WalkFailsIff(attached: set<int>, visits: seq<Visit>, f: Freeze)
    ensures Walk(attached, visits, f).0.Err? <==>
            exists i :: 0 <= i < |visits| && Resists(AttachedAt(attached, visits, i), visits[i])
    decreases |visits|
  {
    if visits != [] {
      var v, rest := visits[0], visits[1..];
      SeizeOutcomeIs(attached, v);
      assert AttachedAt(attached, visits, 0) == attached;
      if !Resists(attached, v) {
        var o := SeizeOutcome(attached, v.tid, v.script);
        var after := if Holds(o) then attached + {v.tid} else attached;
        WalkFailsIff(after, rest, Push(f, v, o));
        forall i | 0 <= i < |rest|
          ensures Resists(AttachedAt(after, rest, i), rest[i])
                  <==> Resists(AttachedAt(attached, visits, i + 1), visits[i + 1])
        {
          AttachedAfterOne(attached, visits, i);
        }
        if i :| 0 <= i < |visits| && Resists(AttachedAt(attached, visits, i), visits[i]) {
          assert i > 0 && Resists(AttachedAt(after, rest, i - 1), rest[i - 1]);
        }
      }
    }
  }

  /** The tasks of `visits` that stop, of one class, and those that park, in order. */
  ghost function Stopping(visits: seq<Visit>, sibling: bool): seq<int> {
    if visits == [] then []
    else (if Stops(visits[0].script) && visits[0].sibling == sibling then [visits[0].tid] else [])
         + Stopping(visits[1..], sibling)
  }

  ghost function Parking(visits: seq<Visit>): seq<int> {
    if visits == [] then []
    else (if Parks(visits[0].script) then [visits[0].tid] else []) + Parking(visits[1..])
  }

  /** A walk that succeeds leaves every stopped task in the list of its class and every parked one pending. */
  lemma {:induction false} WalkLists(attached: set<int>, visits: seq<Visit>, f: Freeze)
    requires Walk(attached, visits, f).0.Ok?
    ensures Walk(attached, visits, f).0.freeze == Freeze(f.siblings + Stopping(visits, true),
                                                         f.peers + Stopping(visits, false), f.pending + Parking(visits))
    decreases |visits|
  {
    if visits != [] {
      var v := visits[0];
      var o := SeizeOutcome(attached, v.tid, v.script);
      SeizeOutcomeIs(attached, v);
      StopsOrParks(v.script);
      WalkLists(if Holds(o) then attached + {v.tid} else attached, visits[1..], Push(f, v, o));
      ListsCons(visits, f, o);
    }
  }

  lemma StopsOrParks(sc: Script)
    ensures !(Stops(sc) && Parks(sc)) && !(Stops(sc) && NotThere(sc)) && !(Parks(sc) && NotThere(sc))
  {
    forall j, k | Decides(sc.polls, j) && Decides(sc.polls, k) ensures j == k {
    }
  }

  lemma ListsCons(visits: seq<Visit>, f: Freeze, o: Seized)
    requires visits != [] && (o.Frozen? <==> Stops(visits[0].script)) && (o.PendingStop? <==> Parks(visits[0].script))
    ensures var g, rest := Push(f, visits[0], o), visits[1..];
            && g.siblings + Stopping(rest, true) == f.siblings + Stopping(visits, true)
            && g.peers + Stopping(rest, false) == f.peers + Stopping(visits, false)
            && g.pending + Parking(rest) == f.pending + Parking(visits)
  {
    var v, rest := visits[0], visits[1..];
    var none: seq<int> := [];
    Regroup(f.siblings, if o.Frozen? && v.sibling then [v.tid] else none, Stopping(rest, true));
    Regroup(f.peers, if o.Frozen? && !v.sibling then [v.tid] else none, Stopping(rest, false));
    Regroup(f.pending, if o.PendingStop? then [v.tid] else none, Parking(rest));
  }

  lemma Regroup(a: seq<int>, b: seq<int>, c: seq<int>)
    ensures a + b + c == a + (b + c) && a + [] == a
  {
  }

  /** A pending task is let go exactly when some later poll finds it exited, stopped or gone. */
  lemma {:induction false} ReleasedIff(polls: seq<Poll>)
    ensures Released(polls) <==>
            exists p :: p in polls && (p.wait.Exited? || p.wait.Stopped? || p.wait.WaitError?)
  {
    if polls != [] {
      ReleasedIff(polls[1..]);
      assert polls == [polls[0]] + polls[1..];
    }
  }

  // ---- The walk's laws ----

  /** Walking two lists in turn: a refusal in the first ends the walk. */
  lemma {:induction false} WalkAppend(attached: set<int>, a: seq<Visit>, b: seq<Visit>, f: Freeze)
    ensures Walk(attached, a + b, f) ==
            var (r, attached') := Walk(attached, a, f);
            match r
            case Ok(g) => Walk(attached', b, g)
            case Err(_) => (r, attached')
    decreases |a|
  {
    if a == [] {
      assert a + b == b;
    } else {
      var v := a[0];
      var o := SeizeOutcome(attached, v.tid, v.script);
      assert (a + b)[0] == v && (a + b)[1..] == a[1..] + b;
      WalkAppend(if Holds(o) then attached + {v.tid} else attached, a[1..], b, Push(f, v, o));
    }
  }

  predicate NoDup(s: seq<int>) {
    forall i, j :: 0 <= i < j < |s| ==> s[i] != s[j]
  }

  /** The three lists are duplicate-free, pairwise disjoint, and together exactly what was
      attached beyond `start`. */
  predicate Partition(f: Freeze, start: set<int>, attached: set<int>) {
    && NoDup(f.siblings) && NoDup(f.peers) && NoDup(f.pending)
    && Elems(f.siblings) !! Elems(f.peers) !! Elems(f.pending)
    && start !! Elems(f.siblings) + Elems(f.peers) + Elems(f.pending)
    && attached == start + Elems(f.siblings) + Elems(f.peers) + Elems(f.pending)
  }

  lemma PushKeepsPartition(start: set<int>, attached: set<int>, f: Freeze, v: Visit)
    requires Partition(f, start, attached)
    requires Holds(SeizeOutcome(attached, v.tid, v.script))
    ensures Partition(Push(f, v, SeizeOutcome(attached, v.tid, v.script)), start, attached + {v.tid})
  {
    assert v.tid !in attached;
    var g := Push(f, v, SeizeOutcome(attached, v.tid, v.script));
    assert Elems(f.siblings + [v.tid]) == Elems(f.siblings) + {v.tid};
    assert Elems(f.peers + [v.tid]) == Elems(f.peers) + {v.tid};
    assert Elems(f.pending + [v.tid]) == Elems(f.pending) + {v.tid};
  }

  /** A completed freeze partitions exactly the attached tasks; a failed one leaves exactly
      the pending tasks attached, and hands them back. */
  lemma {:induction false} WalkKeeps(start: set<int>, attached: set<int>, visits: seq<Visit>, f: Freeze)
    requires Partition(f, start, attached)
    ensures var (r, attached') := Walk(attached, visits, f);
            match r
            case Ok(g) => Partition(g, start, attached')
            case Err(pending) => NoDup(pending) && start !! Elems(pending) && attached' == start + Elems(pending)
    decreases |visits|
  {
    if visits != [] {
      var v := visits[0];
      var o := SeizeOutcome(attached, v.tid, v.script);
      if o.Error? {
        assert attached - Elems(f.siblings) - Elems(f.peers) == start + Elems(f.pending);
      } else if Holds(o) {
        PushKeepsPartition(start, attached, f, v);
        WalkKeeps(start, attached + {v.tid}, visits[1..], Push(f, v, o));
      } else {
        WalkKeeps(start, attached, visits[1..], f);
      }
    }
  }

  /** The task was gone when the freeze came to it, or went while it was being stopped. */
  predicate WasGone(sc: Script) {
    sc.seize.NoSuchTask? || sc.interrupt.NoSuchTask? || ReapOutcome(sc.polls).NotNeeded?
  }

  /** Left alone: gone, or seen in state D, where a wait in the kernel and not the freeze holds it. */
  predicate LeftAlone(sc: Script) {
    sc.inD || WasGone(sc)
  }

  predicate Covered(v: Visit, f: Freeze) {
    || v.tid in f.pending
    || (v.sibling && v.tid in f.siblings)
    || (!v.sibling && v.tid in f.peers)
    || LeftAlone(v.script)
  }

  predicate Extends(f: Freeze, g: Freeze) {
    f.siblings <= g.siblings && f.peers <= g.peers && f.pending <= g.pending
  }

  /** The list of `f` that a task held with outcome `o` belongs to. */
  function Class(f: Freeze, v: Visit, o: Seized): seq<int> {
    if o.PendingStop? then f.pending else if v.sibling then f.siblings else f.peers
  }

  /** After a completed freeze each walked task is frozen in its class, pending with its stop
      queued, gone, or was seen in state D. */
  lemma {:induction false} WalkCovers(attached: set<int>, visits: seq<Visit>, f: Freeze)
    requires Walk(attached, visits, f).0.Ok?
    ensures var g := Walk(attached, visits, f).0.freeze;
            Extends(f, g) && forall v :: v in visits ==> Covered(v, g)
    decreases |visits|
  {
    if visits != [] {
      var v := visits[0];
      var o := SeizeOutcome(attached, v.tid, v.script);
      var f' := Push(f, v, o);
      WalkCovers(if Holds(o) then attached + {v.tid} else attached, visits[1..], f');
      var g := Walk(attached, visits, f).0.freeze;
      if Holds(o) {
        assert Class(f', v, o)[|Class(f, v, o)|] == v.tid;
      }
      assert Covered(v, g);
      assert visits == [v] + visits[1..];
    }
  }

  lemma {:induction false} GroupVisitsMembers(tids: seq<int>, callerTid: int, sibling: bool, script: int -> Script)
    ensures forall v :: v in GroupVisits(tids, callerTid, sibling, script) <==>
                        v.tid in tids && v.tid != callerTid && v == Visit(v.tid, sibling, script(v.tid))
  {
    if tids != [] {
      GroupVisitsMembers(tids[1..], callerTid, sibling, script);
      assert tids == [tids[0]] + tids[1..];
    }
  }

  lemma {:induction false} VisitsMembers(order: seq<int>, proc: Proc, callerTid: int, callerTgid: int)
    ensures forall v :: v in Visits(order, proc, callerTid, callerTgid) ==> v.tid != callerTid
    ensures forall k, t :: k in order && k in proc.tasks && t in proc.tasks[k] && t != callerTid ==>
                           Visit(t, k == callerTgid, proc.script(t)) in Visits(order, proc, callerTid, callerTgid)
    decreases |order|
  {
    if order != [] {
      VisitsMembers(order[1..], proc, callerTid, callerTgid);
      assert order == [order[0]] + order[1..];
      if order[0] in proc.tasks {
        GroupVisitsMembers(proc.tasks[order[0]], callerTid, order[0] == callerTgid, proc.script);
      }
    }
  }

  lemma {:induction false} WalkOnlyVisits(attached: set<int>, visits: seq<Visit>, f: Freeze, t: int)
    requires Walk(attached, visits, f).0.Ok?
    requires t !in f.siblings && t !in f.peers && t !in f.pending && forall v :: v in visits ==> v.tid != t
    ensures var g := Walk(attached, visits, f).0.freeze; t !in g.siblings && t !in g.peers && t !in g.pending
    decreases |visits|
  {
    if visits != [] {
      var v := visits[0];
      var o := SeizeOutcome(attached, v.tid, v.script);
      WalkOnlyVisits(if Holds(o) then attached + {v.tid} else attached, visits[1..], Push(f, v, o), t);
    }
  }

  /** The freeze as a whole. With nothing attached before: the three lists partition what
      is attached, the caller is in none of them, and every other listed task of every
      walked group is attached, gone, or was seen in state D. */
  lemma FreezeSound(order: seq<int>, proc: Proc, callerTid: int, callerTgid: int)
    requires Walk({}, Visits(order, proc, callerTid, callerTgid), Freeze([], [], [])).0.Ok?
    ensures var (r, attached) := Walk({}, Visits(order, proc, callerTid, callerTgid), Freeze([], [], []));
            && Partition(r.freeze, {}, attached) && callerTid !in attached
            && (forall k, t :: k in order && k in proc.tasks && t in proc.tasks[k] && t != callerTid ==>
                  t in attached || LeftAlone(proc.script(t)))
  {
    var visits := Visits(order, proc, callerTid, callerTgid);
    var none := Freeze([], [], []);
    WalkKeeps({}, {}, visits, none);
    WalkCovers({}, visits, none);
    VisitsMembers(order, proc, callerTid, callerTgid);
    WalkOnlyVisits({}, visits, none, callerTid);
    var (r, attached) := Walk({}, visits, none);
    forall k, t | k in order && k in proc.tasks && t in proc.tasks[k] && t != callerTid
      ensures t in attached || LeftAlone(proc.script(t))
    {
      assert Covered(Visit(t, k == callerTgid, proc.script(t)), r.freeze);
    }
  }

  // ---- When a willing sandbox can be frozen ----

  /** A task that stops at the first poll. */
  predicate Willing(sc: Script) {
    !sc.inD && sc.seize.Done? && sc.interrupt.Done? && sc.polls != [] && sc.polls[0].wait.Stopped?
  }

  function Tids(visits: seq<Visit>): (r: seq<int>)
    ensures |r| == |visits| && forall i :: 0 <= i < |r| ==> r[i] == visits[i].tid
  {
    seq(|visits|, i requires 0 <= i < |visits| => visits[i].tid)
  }

  lemma NoDupCons(x: int, rest: seq<int>)
    ensures NoDup([x] + rest) <==> NoDup(rest) && x !in rest
    ensures Elems([x] + rest) == Elems(rest) + {x}
  {
    var s := [x] + rest;
    assert forall i :: 0 <= i < |rest| ==> rest[i] == s[i + 1];
    if NoDup(s) {
      forall i | 0 <= i < |rest| ensures rest[i] != x {
        assert s[0] != s[i + 1];
      }
    }
  }

  /** Even if every task cooperates, the freeze succeeds exactly when no task is listed
      twice and none is already traced. A thread that is tracked beside its group leader
      makes `/proc` list the whole group twice, and the freeze then fails. */
  lemma {:induction false} WillingFreezeIff(attached: set<int>, visits: seq<Visit>, f: Freeze)
    requires forall v :: v in visits ==> Willing(v.script)
    ensures Walk(attached, visits, f).0.Ok? <==> NoDup(Tids(visits)) && Elems(Tids(visits)) !! attached
    decreases |visits|
  {
    if visits != [] {
      var v, rest := visits[0], Tids(visits[1..]);
      assert Willing(v.script);
      assert Tids(visits) == [v.tid] + rest;
      NoDupCons(v.tid, rest);
      if v.tid !in attached {
        assert SeizeOutcome(attached, v.tid, v.script) == Frozen;
        WillingFreezeIff(attached + {v.tid}, visits[1..], Push(f, v, Frozen));
        assert Elems(rest) !! attached + {v.tid} <==> Elems(rest) !! attached && v.tid !in Elems(rest);
      }
    }
  }

  lemma {:induction false} VisitsAppend(a: seq<int>, b: seq<int>, proc: Proc, callerTid: int, callerTgid: int)
    ensures Visits(a + b, proc, callerTid, callerTgid)
            == Visits(a, proc, callerTid, callerTgid) + Visits(b, proc, callerTid, callerTgid)
    decreases |a|
  {
    if a == [] {
      assert a + b == b;
    } else {
      assert (a + b)[0] == a[0] && (a + b)[1..] == a[1..] + b;
      VisitsAppend(a[1..], b, proc, callerTid, callerTgid);
    }
  }

  /** A cooperating task visited twice cannot be seized the second time. */
  lemma RepeatedVisitFails(left: seq<Visit>, right: seq<Visit>, v: Visit, w: Visit)
    requires v in left && w in right && v.tid == w.tid
    requires forall x :: x in left + right ==> Willing(x.script)
    ensures Walk({}, left + right, Freeze([], [], [])).0.Err?
  {
    var p :| 0 <= p < |left| && left[p] == v;
    var q :| 0 <= q < |right| && right[q] == w;
    var tids := Tids(left + right);
    assert tids[p] == v.tid && tids[|left| + q] == v.tid;
    WillingFreezeIff({}, left + right, Freeze([], [], []));
  }

  /** Two tracked ids that list a common task other than the caller, such as a thread and
      its leader, defeat the freeze of a fully cooperating sandbox. */
  lemma TrackedThreadDefeatsFreeze(order: seq<int>, proc: Proc, callerTid: int, callerTgid: int, i: nat, j: nat, t: int)
    requires i < j < |order| && order[i] in proc.tasks && order[j] in proc.tasks
    requires t in proc.tasks[order[i]] && t in proc.tasks[order[j]] && t != callerTid
    requires forall v :: v in Visits(order, proc, callerTid, callerTgid) ==> Willing(v.script)
    ensures Walk({}, Visits(order, proc, callerTid, callerTgid), Freeze([], [], [])).0.Err?
  {
    var left, right := Visits(order[..j], proc, callerTid, callerTgid), Visits(order[j..], proc, callerTid, callerTgid);
    assert order == order[..j] + order[j..];
    VisitsAppend(order[..j], order[j..], proc, callerTid, callerTgid);
    VisitsMembers(order[..j], proc, callerTid, callerTgid);
    VisitsMembers(order[j..], proc, callerTid, callerTgid);
    assert order[i] == order[..j][i] && order[j] == order[j..][0];
    var v, w := Visit(t, order[i] == callerTgid, proc.script(t)), Visit(t, order[j] == callerTgid, proc.script(t));
    assert v in left && w in right;
    RepeatedVisitFails(left, right, v, w);
  }
}
